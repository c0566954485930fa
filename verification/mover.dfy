/**
 * `_doMove`: walking a selection of uploaded files and moving each one to
 * a fresh target path. The result has the shape of the selection, with a
 * record of the move in place of each file.
 *
 * The only state is which temporary files were already moved (an uploaded
 * file moves at most once) and how many tokens were drawn from `uniqid()`.
 * A failed move aborts the walk; files moved before it stay moved.
 */
module Mover {
  import opened Wrappers
  import opened Php
  import opened Trees
  import opened Errors
  import opened Config
  import opened Paths

  /** The record of one move. */
  datatype MoveResult = MoveResult(
    adapter: Value,
    domain: Value,
    path: string,
    name: Value,
    size: int,
    mediaType: Value)

  /** The temporary files moved so far, and how many tokens were drawn. */
  datatype Store = Store(moved: set<Value>, ticks: nat)

  /** An outcome together with the state after it. */
  datatype Step<T> = Step(result: Result<T, Error>, store: Store)

  /** What a move reads besides the uploader: the date, the `uniqid()`
      token drawn at each tick, and the extension for a media type. */
  datatype Context = Context(clock: Clock, uniqid: nat -> string, extensionOf: Value -> string)

  /** The record kept for a file moved to `path`: the configured adapter
      and domain (null when unset), and the file's client-side metadata. */
  function Record(u: Uploader, path: string, h: FileHandle): (r: MoveResult)
    ensures r.path == path
    ensures r.adapter == GetOption(u, Some("adapter"), Null)
    ensures r.domain == GetOption(u, Some("domain"), Null)
    ensures r.name == h.clientFilename && r.size == h.size && r.mediaType == h.clientMediaType
  {
    MoveResult(GetOption(u, Some("adapter"), Null), GetOption(u, Some("domain"), Null),
               path, h.clientFilename, h.size, h.clientMediaType)
  }

  /** The path a file moved at tick `tick` goes to. */
  function PathAt(u: Uploader, cx: Context, h: FileHandle, tick: nat): string {
    TargetPath(u, cx.clock, cx.uniqid(tick), cx.extensionOf(h.clientMediaType))
  }

  /** Moving one file: a token is drawn in any case; the move fails when
      the temporary file was already moved. */
  function MoveFile(u: Uploader, cx: Context, h: FileHandle, st: Store): (s: Step<MoveResult>)
    ensures s.store.ticks == st.ticks + 1
    ensures s.result.Success? <==> h.tmpName !in st.moved
    ensures s.result.Success? ==> s.store.moved == st.moved + {h.tmpName}
    ensures s.result.Failure? ==> s.store.moved == st.moved && s.result.error == MoveFailed(h.tmpName)
  {
    var next := st.ticks + 1;
    if h.tmpName in st.moved then Step(Failure(MoveFailed(h.tmpName)), Store(st.moved, next))
    else Step(Success(Record(u, PathAt(u, cx, h, st.ticks), h)), Store(st.moved + {h.tmpName}, next))
  }

  /** `_doMove`: every file of the tree, depth first. */
  function DoMove(u: Uploader, cx: Context, t: Tree<FileHandle>, st: Store): (s: Step<Tree<MoveResult>>)
    ensures st.moved <= s.store.moved
    ensures st.ticks <= s.store.ticks
    ensures s.result.Success? ==> Erase(s.result.value) == Erase(t)
    ensures s.result.Failure? ==> s.result.error.MoveFailed?
    decreases t, 1
  {
    match t
    case Leaf(h) =>
      var m := MoveFile(u, cx, h, st);
      if m.result.Failure? then Step(Failure(m.result.error), m.store)
      else Step(Success(Leaf(m.result.value)), m.store)
    case Node(cs) =>
      var m := DoMoveFrom(u, cx, t, 0, st);
      if m.result.Failure? then Step(Failure(m.result.error), m.store)
      else
        assert cs[0..] == cs;
        SameShape(m.result.value, cs);
        Step(Success(Node(m.result.value)), m.store)
  }

  /** The entries of a node from position `i` on, keys kept. */
  function DoMoveFrom(u: Uploader, cx: Context, t: Tree<FileHandle>, i: nat, st: Store)
    : (s: Step<seq<(Key, Tree<MoveResult>)>>)
    requires t.Node? && i <= |t.children|
    ensures st.moved <= s.store.moved
    ensures st.ticks <= s.store.ticks
    ensures s.result.Success? ==>
      Aligned(s.result.value, t.children[i..])
    ensures s.result.Failure? ==> s.result.error.MoveFailed?
    decreases t, 0, |t.children| - i
  {
    if i == |t.children| then Step(Success([]), st)
    else
      var first := DoMove(u, cx, t.children[i].1, st);
      if first.result.Failure? then Step(Failure(first.result.error), first.store)
      else
        var rest := DoMoveFrom(u, cx, t, i + 1, first.store);
        if rest.result.Failure? then Step(Failure(rest.result.error), rest.store)
        else
          assert t.children[i..] == [t.children[i]] + t.children[i + 1..];
          AlignedCons((t.children[i].0, first.result.value), t.children[i], rest.result.value, t.children[i + 1..]);
          Step(Success([(t.children[i].0, first.result.value)] + rest.result.value), rest.store)
  }

  /** The reference semantics: the files of a flat list moved one after
      another, stopping at the first failure. */
  function MoveAll(u: Uploader, cx: Context, hs: seq<FileHandle>, st: Store): (s: Step<seq<MoveResult>>)
    ensures s.result.Success? ==> |s.result.value| == |hs|
  {
    if |hs| == 0 then Step(Success([]), st)
    else
      var first := MoveFile(u, cx, hs[0], st);
      if first.result.Failure? then Step(Failure(first.result.error), first.store)
      else
        var rest := MoveAll(u, cx, hs[1..], first.store);
        if rest.result.Failure? then rest
        else Step(Success([first.result.value] + rest.result.value), rest.store)
  }

  /** Moving `a + b` is moving `a`, then `b` from where `a` left off. */
  lemma {:induction false} MoveAllAppend(u: Uploader, cx: Context, a: seq<FileHandle>, b: seq<FileHandle>, st: Store)
    ensures MoveAll(u, cx, a + b, st)
         == (var sa := MoveAll(u, cx, a, st);
             if sa.result.Failure? then sa
             else
               var sb := MoveAll(u, cx, b, sa.store);
               if sb.result.Failure? then sb
               else Step(Success(sa.result.value + sb.result.value), sb.store))
  {
    if |a| == 0 {
      assert a + b == b;
      var sb := MoveAll(u, cx, b, st);
      if sb.result.Success? {
        assert [] + sb.result.value == sb.result.value;
      }
    } else {
      assert (a + b)[0] == a[0];
      assert (a + b)[1..] == a[1..] + b;
      var first := MoveFile(u, cx, a[0], st);
      if first.result.Success? {
        MoveAllAppend(u, cx, a[1..], b, first.store);
        var sa := MoveAll(u, cx, a[1..], first.store);
        if sa.result.Success? {
          var sb := MoveAll(u, cx, b, sa.store);
          if sb.result.Success? {
            assert [first.result.value] + (sa.result.value + sb.result.value)
                == ([first.result.value] + sa.result.value) + sb.result.value;
          }
        }
      }
    }
  }

  /** The tree walk moves the files in depth-first order, exactly as the
      flat reference does. */
  lemma {:induction false} DoMoveIsMoveAll(u: Uploader, cx: Context, t: Tree<FileHandle>, st: Store)
    ensures DoMove(u, cx, t, st).store == MoveAll(u, cx, Leaves(t), st).store
    ensures DoMove(u, cx, t, st).result.Success? == MoveAll(u, cx, Leaves(t), st).result.Success?
    ensures DoMove(u, cx, t, st).result.Success? ==>
      Leaves(DoMove(u, cx, t, st).result.value) == MoveAll(u, cx, Leaves(t), st).result.value
    ensures DoMove(u, cx, t, st).result.Failure? ==>
      DoMove(u, cx, t, st).result.error == MoveAll(u, cx, Leaves(t), st).result.error
    decreases t, 1
  {
    match t
    case Leaf(h) =>
      assert Leaves(t) == [h];
      assert [h][1..] == [];
      var m := MoveFile(u, cx, h, st);
      if m.result.Success? {
        assert Leaves(Leaf(m.result.value)) == [m.result.value];
        assert [m.result.value] + [] == [m.result.value];
      }
    case Node(cs) =>
      DoMoveFromIsMoveAll(u, cx, t, 0, st);
      assert cs[0..] == cs;
  }

  lemma {:induction false} DoMoveFromIsMoveAll(u: Uploader, cx: Context, t: Tree<FileHandle>, i: nat, st: Store)
    requires t.Node? && i <= |t.children|
    ensures DoMoveFrom(u, cx, t, i, st).store == MoveAll(u, cx, Leaves(Node(t.children[i..])), st).store
    ensures DoMoveFrom(u, cx, t, i, st).result.Success?
         == MoveAll(u, cx, Leaves(Node(t.children[i..])), st).result.Success?
    ensures DoMoveFrom(u, cx, t, i, st).result.Success? ==>
      Leaves(Node(DoMoveFrom(u, cx, t, i, st).result.value))
        == MoveAll(u, cx, Leaves(Node(t.children[i..])), st).result.value
    ensures DoMoveFrom(u, cx, t, i, st).result.Failure? ==>
      DoMoveFrom(u, cx, t, i, st).result.error
        == MoveAll(u, cx, Leaves(Node(t.children[i..])), st).result.error
    decreases t, 0, |t.children| - i
  {
    var cs := t.children;
    if i == |cs| {
      assert Leaves(Node(cs[i..])) == [];
    } else {
      LeavesSuffix(cs, i);
      var a := Leaves(cs[i].1);
      var b := Leaves(Node(cs[i + 1..]));
      MoveAllAppend(u, cx, a, b, st);
      DoMoveIsMoveAll(u, cx, cs[i].1, st);
      var first := DoMove(u, cx, cs[i].1, st);
      if first.result.Success? {
        DoMoveFromIsMoveAll(u, cx, t, i + 1, first.store);
        var rest := DoMoveFrom(u, cx, t, i + 1, first.store);
        if rest.result.Success? {
          LeavesCons((cs[i].0, first.result.value), rest.result.value);
        }
      }
    }
  }

  /** The temporary files of a list. */
  function TmpNames(hs: seq<FileHandle>): (r: set<Value>)
    ensures forall i :: 0 <= i < |hs| ==> hs[i].tmpName in r
    ensures forall x :: x in r ==> exists i :: 0 <= i < |hs| && hs[i].tmpName == x
  {
    if |hs| == 0 then {}
    else
      var rest := TmpNames(hs[1..]);
      assert forall i :: 1 <= i < |hs| ==> hs[i] == hs[1..][i - 1];
      {hs[0].tmpName} + rest
  }

  /** No file of the list was moved before, and no two share a temporary
      file. */
  predicate FreshTmps(hs: seq<FileHandle>, moved: set<Value>) {
    && (forall i :: 0 <= i < |hs| ==> hs[i].tmpName !in moved)
    && (forall i, j :: 0 <= i < j < |hs| ==> hs[i].tmpName != hs[j].tmpName)
  }

  /** The records of the files of a list moved from tick `tick` on. */
  function Records(u: Uploader, cx: Context, hs: seq<FileHandle>, tick: nat): (r: seq<MoveResult>)
    ensures |r| == |hs|
    ensures forall i :: 0 <= i < |hs| ==> r[i] == Record(u, PathAt(u, cx, hs[i], tick + i), hs[i])
  {
    if |hs| == 0 then []
    else
      var rest := Records(u, cx, hs[1..], tick + 1);
      assert forall i :: 1 <= i < |hs| ==> hs[1..][i - 1] == hs[i] && tick + 1 + (i - 1) == tick + i;
      [Record(u, PathAt(u, cx, hs[0], tick), hs[0])] + rest
  }

  lemma TmpNamesCons(hs: seq<FileHandle>)
    requires |hs| > 0
    ensures TmpNames(hs) == {hs[0].tmpName} + TmpNames(hs[1..])
  {
  }

  lemma FreshTmpsCons(hs: seq<FileHandle>, moved: set<Value>)
    requires |hs| > 0
    ensures FreshTmps(hs, moved) <==>
      hs[0].tmpName !in moved && FreshTmps(hs[1..], moved + {hs[0].tmpName})
  {
    var tail := hs[1..];
    assert forall i :: 0 <= i < |tail| ==> tail[i] == hs[i + 1];
    if hs[0].tmpName !in moved && FreshTmps(tail, moved + {hs[0].tmpName}) {
      forall i, j | 0 <= i < j < |hs|
        ensures hs[i].tmpName != hs[j].tmpName
      {
        if i > 0 {
          assert hs[i] == tail[i - 1] && hs[j] == tail[j - 1];
        } else {
          assert hs[j] == tail[j - 1];
        }
      }
    }
  }

  lemma RecordsCons(u: Uploader, cx: Context, hs: seq<FileHandle>, tick: nat)
    requires |hs| > 0
    ensures Records(u, cx, hs, tick)
         == [Record(u, PathAt(u, cx, hs[0], tick), hs[0])] + Records(u, cx, hs[1..], tick + 1)
  {
  }

  /** The flat reference succeeds exactly on fresh files. */
  lemma {:induction false} MoveAllSucceedsIff(u: Uploader, cx: Context, hs: seq<FileHandle>, st: Store)
    ensures MoveAll(u, cx, hs, st).result.Success? <==> FreshTmps(hs, st.moved)
  {
    if |hs| > 0 {
      FreshTmpsCons(hs, st.moved);
      var first := MoveFile(u, cx, hs[0], st);
      if first.result.Success? {
        MoveAllSucceedsIff(u, cx, hs[1..], first.store);
      }
    }
  }

  /** On fresh files the flat reference records each file under the token
      of its own tick, marks all of them moved and draws one token per
      file. */
  lemma {:induction false} MoveAllSuccess(u: Uploader, cx: Context, hs: seq<FileHandle>, st: Store)
    requires FreshTmps(hs, st.moved)
    ensures MoveAll(u, cx, hs, st) == Step(Success(Records(u, cx, hs, st.ticks)), Store(st.moved + TmpNames(hs), st.ticks + |hs|))
  {
    if |hs| == 0 {
      assert TmpNames(hs) == {};
    } else {
      FreshTmpsCons(hs, st.moved);
      var h := hs[0];
      var first := MoveFile(u, cx, h, st);
      assert first == Step(Success(Record(u, PathAt(u, cx, h, st.ticks), h)), Store(st.moved + {h.tmpName}, st.ticks + 1));
      MoveAllSuccess(u, cx, hs[1..], first.store);
      var rest := MoveAll(u, cx, hs[1..], first.store);
      assert rest.result.Success?;
      assert MoveAll(u, cx, hs, st) == Step(Success([first.result.value] + rest.result.value), rest.store);
      RecordsCons(u, cx, hs, st.ticks);
      TmpNamesCons(hs);
      assert st.moved + {h.tmpName} + TmpNames(hs[1..]) == st.moved + TmpNames(hs);
    }
  }

  /** The position of the first file whose temporary file was moved
      before or appears earlier in the list; `|hs|` when there is none. */
  function FirstClash(hs: seq<FileHandle>, moved: set<Value>): (k: nat)
    ensures k <= |hs|
  {
    if |hs| == 0 then 0
    else if hs[0].tmpName in moved then 0
    else 1 + FirstClash(hs[1..], moved + {hs[0].tmpName})
  }

  /** The files before the first clash are fresh, and the clashing one
      is not. */
  lemma {:induction false} FirstClashIsFirst(hs: seq<FileHandle>, moved: set<Value>)
    ensures FreshTmps(hs[..FirstClash(hs, moved)], moved)
    ensures FirstClash(hs, moved) < |hs| ==>
      hs[FirstClash(hs, moved)].tmpName in moved + TmpNames(hs[..FirstClash(hs, moved)])
  {
    var k := FirstClash(hs, moved);
    if k == 0 {
      assert hs[..k] == [];
      assert TmpNames(hs[..k]) == {};
    } else {
      var tail := hs[1..];
      var moved' := moved + {hs[0].tmpName};
      FirstClashIsFirst(tail, moved');
      var prefix := hs[..k];
      assert prefix[0] == hs[0] && prefix[1..] == tail[..k - 1];
      FreshTmpsCons(prefix, moved);
      TmpNamesCons(prefix);
      if k < |hs| {
        assert hs[k] == tail[k - 1];
      }
    }
  }

  /** When the flat reference fails, it fails at the first clash: the files
      before it are moved, and a token was drawn for each up to and
      including it. */
  lemma {:induction false} MoveAllFails(u: Uploader, cx: Context, hs: seq<FileHandle>, st: Store)
    requires MoveAll(u, cx, hs, st).result.Failure?
    ensures FirstClash(hs, st.moved) < |hs|
    ensures MoveAll(u, cx, hs, st).result.error == MoveFailed(hs[FirstClash(hs, st.moved)].tmpName)
    ensures MoveAll(u, cx, hs, st).store
         == Store(st.moved + TmpNames(hs[..FirstClash(hs, st.moved)]), st.ticks + FirstClash(hs, st.moved) + 1)
  {
    assert |hs| > 0;
    var first := MoveFile(u, cx, hs[0], st);
    if first.result.Failure? {
      assert hs[..0] == [];
      assert TmpNames(hs[..0]) == {};
    } else {
      var rest := MoveAll(u, cx, hs[1..], first.store);
      assert rest.result.Failure? && MoveAll(u, cx, hs, st) == rest;
      MoveAllFails(u, cx, hs[1..], first.store);
      FirstClashCons(hs, st.moved);
    }
  }

  /** Past a fresh first file, the first clash is one further along the
      tail, with the first file counted as moved. */
  lemma FirstClashCons(hs: seq<FileHandle>, moved: set<Value>)
    requires |hs| > 0 && hs[0].tmpName !in moved
    requires FirstClash(hs[1..], moved + {hs[0].tmpName}) < |hs| - 1
    ensures FirstClash(hs, moved) == FirstClash(hs[1..], moved + {hs[0].tmpName}) + 1
    ensures hs[FirstClash(hs, moved)] == hs[1..][FirstClash(hs[1..], moved + {hs[0].tmpName})]
    ensures moved + TmpNames(hs[..FirstClash(hs, moved)])
         == moved + {hs[0].tmpName} + TmpNames(hs[1..][..FirstClash(hs[1..], moved + {hs[0].tmpName})])
  {
    var tail := hs[1..];
    var moved' := moved + {hs[0].tmpName};
    var k := FirstClash(tail, moved');
    assert FirstClash(hs, moved) == k + 1;
    var prefix := hs[..k + 1];
    assert prefix[0] == hs[0] && prefix[1..] == tail[..k];
    TmpNamesCons(prefix);
    SetUnionAssoc(moved, {hs[0].tmpName}, TmpNames(tail[..k]));
  }

  lemma SetUnionAssoc<T>(a: set<T>, b: set<T>, c: set<T>)
    ensures a + (b + c) == a + b + c
  {
  }

  /** `_doMove` succeeds exactly when every file of the tree is fresh. */
  lemma DoMoveSucceedsIff(u: Uploader, cx: Context, t: Tree<FileHandle>, st: Store)
    ensures DoMove(u, cx, t, st).result.Success? <==> FreshTmps(Leaves(t), st.moved)
  {
    DoMoveIsMoveAll(u, cx, t, st);
    MoveAllSucceedsIff(u, cx, Leaves(t), st);
  }

  /** On success the records, read depth first, are the files' records in
      order, each under the token of its own tick; every file is marked
      moved and one token is drawn per file. */
  lemma DoMoveSuccess(u: Uploader, cx: Context, t: Tree<FileHandle>, st: Store)
    requires FreshTmps(Leaves(t), st.moved)
    ensures DoMove(u, cx, t, st).result.Success?
    ensures Leaves(DoMove(u, cx, t, st).result.value) == Records(u, cx, Leaves(t), st.ticks)
    ensures DoMove(u, cx, t, st).store == Store(st.moved + TmpNames(Leaves(t)), st.ticks + |Leaves(t)|)
  {
    DoMoveIsMoveAll(u, cx, t, st);
    MoveAllSucceedsIff(u, cx, Leaves(t), st);
    MoveAllSuccess(u, cx, Leaves(t), st);
  }

  /** On failure the walk stopped at the first clash, in depth-first order,
      leaving the files before it moved. */
  lemma DoMoveFailure(u: Uploader, cx: Context, t: Tree<FileHandle>, st: Store)
    requires DoMove(u, cx, t, st).result.Failure?
    ensures FirstClash(Leaves(t), st.moved) < |Leaves(t)|
    ensures DoMove(u, cx, t, st).result.error == MoveFailed(Leaves(t)[FirstClash(Leaves(t), st.moved)].tmpName)
    ensures DoMove(u, cx, t, st).store
         == Store(st.moved + TmpNames(Leaves(t)[..FirstClash(Leaves(t), st.moved)]),
                  st.ticks + FirstClash(Leaves(t), st.moved) + 1)
  {
    DoMoveIsMoveAll(u, cx, t, st);
    MoveAllFails(u, cx, Leaves(t), st);
  }

  /** `uniqid()` as the move relies on it: never the same token twice, and
      no dot in a token. */
  ghost predicate Distinctive(uniqid: nat -> string) {
    && (forall i, j :: i != j ==> uniqid(i) != uniqid(j))
    && (forall i :: '.' !in uniqid(i))
  }

  /** Files moved at different ticks get different paths, whatever the
      date and the media types. */
  lemma PathAtDistinct(u: Uploader, cx1: Context, cx2: Context, h1: FileHandle, h2: FileHandle, tick1: nat, tick2: nat)
    requires cx1.uniqid == cx2.uniqid && Distinctive(cx1.uniqid)
    requires Formatted(cx1.clock) && Formatted(cx2.clock)
    requires tick1 != tick2
    ensures PathAt(u, cx1, h1, tick1) != PathAt(u, cx2, h2, tick2)
  {
    DistinctTokensDistinctPaths(u, cx1.clock, cx2.clock, cx1.uniqid(tick1), cx2.uniqid(tick2),
      cx1.extensionOf(h1.clientMediaType), cx2.extensionOf(h2.clientMediaType));
  }

  /** The path recorded for the `i`-th file of a run. */
  lemma RecordPath(u: Uploader, cx: Context, hs: seq<FileHandle>, tick: nat, i: nat)
    requires i < |hs|
    ensures Records(u, cx, hs, tick)[i].path == PathAt(u, cx, hs[i], tick + i)
  {
  }

  /** No two records share a path. */
  predicate PathsDistinct(rs: seq<MoveResult>) {
    forall i, j :: 0 <= i < j < |rs| ==> rs[i].path != rs[j].path
  }

  /** No record of `rs1` shares a path with one of `rs2`. */
  predicate PathsDisjoint(rs1: seq<MoveResult>, rs2: seq<MoveResult>) {
    forall i, j :: 0 <= i < |rs1| && 0 <= j < |rs2| ==> rs1[i].path != rs2[j].path
  }

  lemma PathsDistinctConcat(rs1: seq<MoveResult>, rs2: seq<MoveResult>)
    requires PathsDistinct(rs1) && PathsDistinct(rs2) && PathsDisjoint(rs1, rs2)
    ensures PathsDistinct(rs1 + rs2)
  {
    var all := rs1 + rs2;
    forall i, j | 0 <= i < j < |all|
      ensures all[i].path != all[j].path
    {
      if j < |rs1| {
        assert all[i] == rs1[i] && all[j] == rs1[j];
      } else if i < |rs1| {
        assert all[i] == rs1[i] && all[j] == rs2[j - |rs1|];
      } else {
        assert all[i] == rs2[i - |rs1|] && all[j] == rs2[j - |rs1|];
      }
    }
  }

  /** The records of two runs over disjoint ranges of ticks have pairwise
      different paths. */
  lemma RecordPathsDisjoint(u: Uploader, cx1: Context, cx2: Context, hs1: seq<FileHandle>, tick1: nat, hs2: seq<FileHandle>, tick2: nat)
    requires cx1.uniqid == cx2.uniqid && Distinctive(cx1.uniqid)
    requires Formatted(cx1.clock) && Formatted(cx2.clock)
    requires tick1 + |hs1| <= tick2
    ensures PathsDisjoint(Records(u, cx1, hs1, tick1), Records(u, cx2, hs2, tick2))
  {
    forall i, j | 0 <= i < |hs1| && 0 <= j < |hs2|
      ensures Records(u, cx1, hs1, tick1)[i].path != Records(u, cx2, hs2, tick2)[j].path
    {
      RecordPath(u, cx1, hs1, tick1, i);
      RecordPath(u, cx2, hs2, tick2, j);
      PathAtDistinct(u, cx1, cx2, hs1[i], hs2[j], tick1 + i, tick2 + j);
    }
  }

  /** The records of one run have pairwise different paths. */
  lemma RecordPathsDistinct(u: Uploader, cx: Context, hs: seq<FileHandle>, tick: nat)
    requires Distinctive(cx.uniqid) && Formatted(cx.clock)
    ensures PathsDistinct(Records(u, cx, hs, tick))
  {
    forall i, j | 0 <= i < j < |hs|
      ensures Records(u, cx, hs, tick)[i].path != Records(u, cx, hs, tick)[j].path
    {
      RecordPath(u, cx, hs, tick, i);
      RecordPath(u, cx, hs, tick, j);
      PathAtDistinct(u, cx, cx, hs[i], hs[j], tick + i, tick + j);
    }
  }

  /** Files moved over disjoint ranges of ticks, the second after the
      first, under a `uniqid()` that never repeats a token, all get paths of
      their own. */
  lemma SuccessiveRecordsDistinct(u: Uploader, cx1: Context, cx2: Context,
                                  hs1: seq<FileHandle>, tick1: nat, hs2: seq<FileHandle>, tick2: nat)
    requires cx1.uniqid == cx2.uniqid && Distinctive(cx1.uniqid)
    requires Formatted(cx1.clock) && Formatted(cx2.clock)
    requires tick1 + |hs1| <= tick2
    ensures PathsDistinct(Records(u, cx1, hs1, tick1) + Records(u, cx2, hs2, tick2))
  {
    RecordPathsDistinct(u, cx1, hs1, tick1);
    RecordPathsDistinct(u, cx2, hs2, tick2);
    RecordPathsDisjoint(u, cx1, cx2, hs1, tick1, hs2, tick2);
    PathsDistinctConcat(Records(u, cx1, hs1, tick1), Records(u, cx2, hs2, tick2));
  }
}
