/**
 * `move`: choosing the files to move, validating all of them with the
 * instance's validation options merged with the call's, and only then
 * moving them. A call for one file answers with its record; a call for
 * an array answers with a tree of records of the same shape.
 */
module Pipeline {
  import opened Wrappers
  import opened Php
  import opened Trees
  import opened Errors
  import opened Validation
  import opened Config
  import opened Paths
  import opened Mover

  /** What `move` is asked to move: an uploaded file, an explicit array of
      them, or the name of a field of the submission. */
  datatype Selector =
    | One(handle: FileHandle)
    | Many(files: seq<(Key, Tree<FileHandle>)>)
    | Field(name: Key)

  /** The files chosen, as an array, and whether the answer is an array. */
  datatype Selection = Selection(files: seq<(Key, Tree<FileHandle>)>, multiple: bool)

  /** The answer of `move`. */
  datatype Moved =
    | Single(record: MoveResult)
    | Multiple(records: seq<(Key, Tree<MoveResult>)>)

  /** The field is missing from the submission, or holds an empty array. */
  predicate FieldEmpty(u: Uploader, name: Key) {
    Lookup(u.uploadedFiles, name).None? || Lookup(u.uploadedFiles, name).value == Node([])
  }

  /** The selector names exactly one uploaded file. */
  predicate SingleFile(u: Uploader, sel: Selector) {
    || sel.One?
    || (sel.Field? && Lookup(u.uploadedFiles, sel.name).Some? && Lookup(u.uploadedFiles, sel.name).value.Leaf?)
  }

  /** The uploaded files a selector names, in depth-first order. */
  function SelectedFiles(u: Uploader, sel: Selector): seq<FileHandle> {
    match sel
    case One(h) => [h]
    case Many(fs) => Leaves(Node(fs))
    case Field(name) =>
      match Lookup(u.uploadedFiles, name)
      case None => []
      case Some(t) => Leaves(t)
  }

  lemma LeavesOfSingleton<L>(k: Key, x: L)
    ensures Leaves(Node([(k, Leaf(x))])) == [x]
  {
    var empty: seq<(Key, Tree<L>)> := [];
    LeavesCons((k, Leaf(x)), empty);
    assert [(k, Leaf(x))] + empty == [(k, Leaf(x))];
    assert Leaves(Node(empty)) == Flatten([]);
    assert Leaves(Leaf(x)) == [x];
  }

  /** The first part of `move`: a lone file is wrapped in an array under
      key 0, an array is taken as it is, and a field name is looked up in
      the submission, which fails when the field is missing or empty. */
  function Resolve(u: Uploader, sel: Selector): (r: Result<Selection, Error>)
    ensures r.Failure? <==> sel.Field? && FieldEmpty(u, sel.name)
    ensures r.Failure? ==> r.error == EmptyField(sel.name)
    ensures r.Success? ==> (r.value.multiple <==> !SingleFile(u, sel))
    ensures r.Success? && !r.value.multiple ==> exists h :: r.value.files == [("0", Leaf(h))]
    ensures sel.One? ==> r == Success(Selection([("0", Leaf(sel.handle))], false))
    ensures sel.Many? ==> r == Success(Selection(sel.files, true))
    ensures sel.Field? && r.Success? ==>
      match Lookup(u.uploadedFiles, sel.name).value
      case Leaf(h) => r.value.files == [("0", Leaf(h))]
      case Node(cs) => r.value.files == cs
    ensures r.Success? ==> Leaves(Node(r.value.files)) == SelectedFiles(u, sel)
  {
    match sel
    case One(h) =>
      LeavesOfSingleton("0", h);
      Success(Selection([("0", Leaf(h))], false))
    case Many(fs) => Success(Selection(fs, true))
    case Field(name) =>
      if FieldEmpty(u, name) then Failure(EmptyField(name))
      else
        match Lookup(u.uploadedFiles, name).value
        case Leaf(h) =>
          LeavesOfSingleton("0", h);
          Success(Selection([("0", Leaf(h))], false))
        case Node(cs) => Success(Selection(cs, true))
  }

  /** The context a move runs in: the date and `uniqid()` come from outside,
      the extension from the mimetype table. */
  function MoveContext(clock: Clock, uniqid: nat -> string): (cx: Context)
    ensures cx.extensionOf == Extension
  {
    Context(clock, uniqid, Extension)
  }

  /** `move`. */
  function Move(u: Uploader, sel: Selector, callOptions: PhpArray, fits: SizeRule, cx: Context, st: Store)
    : (s: Step<Moved>)
    ensures sel.Field? && FieldEmpty(u, sel.name) ==> s == Step(Failure(EmptyField(sel.name)), st)
    ensures st.moved <= s.store.moved
    ensures s.result.Success? ==> (s.result.value.Single? <==> SingleFile(u, sel))
  {
    match Resolve(u, sel)
    case Failure(e) => Step(Failure(e), st)
    case Success(selection) =>
      var tree := Node(selection.files);
      match Validate(tree, Merge(u.validationOptions, callOptions), fits)
      case Fail(e) => Step(Failure(e), st)
      case Pass =>
        var m := DoMove(u, cx, tree, st);
        if m.result.Failure? then Step(Failure(m.result.error), m.store)
        else if selection.multiple then Step(Success(Multiple(m.result.value.children)), m.store)
        else
          var h :| selection.files == [("0", Leaf(h))];
          assert Erase(m.result.value) == Erase(tree) == Node([("0", Leaf(()))]);
          Step(Success(Single(m.result.value.children[0].1.item)), m.store)
  }

  /** The records of an answer, in depth-first order. */
  function MovedRecords(m: Moved): seq<MoveResult> {
    match m
    case Single(r) => [r]
    case Multiple(rs) => Leaves(Node(rs))
  }

  /** A selection some file of which fails validation moves nothing; the
      error is that of the first failing file in depth-first order. */
  lemma MoveValidationFailure(u: Uploader, sel: Selector, callOptions: PhpArray, fits: SizeRule,
                              cx: Context, st: Store)
    requires Resolve(u, sel).Success?
    requires FirstFailure(SelectedFiles(u, sel), Merge(u.validationOptions, callOptions), fits).Fail?
    ensures Move(u, sel, callOptions, fits, cx, st)
         == Step(Failure(FirstFailure(SelectedFiles(u, sel), Merge(u.validationOptions, callOptions), fits).error), st)
  {
  }

  /** `move` succeeds exactly when the selection resolves, every selected
      file passes validation, and none of them was moved before or is
      selected twice. */
  lemma MoveSucceedsIff(u: Uploader, sel: Selector, callOptions: PhpArray, fits: SizeRule,
                        cx: Context, st: Store)
    ensures Move(u, sel, callOptions, fits, cx, st).result.Success? <==>
      && Resolve(u, sel).Success?
      && (forall i :: 0 <= i < |SelectedFiles(u, sel)| ==>
            Accepted(SelectedFiles(u, sel)[i], Merge(u.validationOptions, callOptions), fits))
      && FreshTmps(SelectedFiles(u, sel), st.moved)
  {
    if Resolve(u, sel).Success? {
      var tree := Node(Resolve(u, sel).value.files);
      ValidatePassesIff(tree, Merge(u.validationOptions, callOptions), fits);
      DoMoveSucceedsIff(u, cx, tree, st);
    }
  }

  /** A successful `move` answers with one record per selected file, in
      order, each under the token of its own tick; every selected file is
      then marked moved and one token is drawn per file. */
  lemma MoveSuccess(u: Uploader, sel: Selector, callOptions: PhpArray, fits: SizeRule,
                    cx: Context, st: Store)
    requires Move(u, sel, callOptions, fits, cx, st).result.Success?
    ensures MovedRecords(Move(u, sel, callOptions, fits, cx, st).result.value)
         == Records(u, cx, SelectedFiles(u, sel), st.ticks)
    ensures Move(u, sel, callOptions, fits, cx, st).store
         == Store(st.moved + TmpNames(SelectedFiles(u, sel)), st.ticks + |SelectedFiles(u, sel)|)
  {
    MoveIsDoMove(u, sel, callOptions, fits, cx, st);
    var tree := Node(Resolve(u, sel).value.files);
    DoMoveSucceedsIff(u, cx, tree, st);
    DoMoveSuccess(u, cx, tree, st);
  }

  /** A successful `move` is the walk over the selection: same state, and
      the same records in depth-first order. */
  lemma MoveIsDoMove(u: Uploader, sel: Selector, callOptions: PhpArray, fits: SizeRule,
                     cx: Context, st: Store)
    requires Move(u, sel, callOptions, fits, cx, st).result.Success?
    ensures Resolve(u, sel).Success?
    ensures DoMove(u, cx, Node(Resolve(u, sel).value.files), st).result.Success?
    ensures Move(u, sel, callOptions, fits, cx, st).store == DoMove(u, cx, Node(Resolve(u, sel).value.files), st).store
    ensures MovedRecords(Move(u, sel, callOptions, fits, cx, st).result.value)
         == Leaves(DoMove(u, cx, Node(Resolve(u, sel).value.files), st).result.value)
  {
    var selection := Resolve(u, sel).value;
    var tree := Node(selection.files);
    var m := DoMove(u, cx, tree, st);
    if !selection.multiple {
      var h :| selection.files == [("0", Leaf(h))];
      assert Erase(m.result.value) == Erase(tree) == Node([("0", Leaf(()))]);
      var r := m.result.value.children[0].1.item;
      assert m.result.value == Node([("0", Leaf(r))]);
      LeavesOfSingleton("0", r);
    }
  }

  /** An answer for an array has the keys and nesting of the selected
      array, which is the explicit array or the field's array itself. */
  lemma MoveAnswerShape(u: Uploader, sel: Selector, callOptions: PhpArray, fits: SizeRule,
                        cx: Context, st: Store)
    requires Move(u, sel, callOptions, fits, cx, st).result.Success?
    ensures Move(u, sel, callOptions, fits, cx, st).result.value.Multiple? ==>
              && Resolve(u, sel).Success? && Resolve(u, sel).value.multiple
              && Erase(Node(Move(u, sel, callOptions, fits, cx, st).result.value.records))
                 == Erase(Node(Resolve(u, sel).value.files))
  {
  }

  /** Validated files are moved until the first one that was moved before
      or is selected twice: that one fails the call, and the files before
      it stay moved. */
  lemma MoveAbortsAtClash(u: Uploader, sel: Selector, callOptions: PhpArray, fits: SizeRule,
                          cx: Context, st: Store)
    requires Resolve(u, sel).Success?
    requires forall i :: 0 <= i < |SelectedFiles(u, sel)| ==>
      Accepted(SelectedFiles(u, sel)[i], Merge(u.validationOptions, callOptions), fits)
    requires !FreshTmps(SelectedFiles(u, sel), st.moved)
    ensures FirstClash(SelectedFiles(u, sel), st.moved) < |SelectedFiles(u, sel)|
    ensures Move(u, sel, callOptions, fits, cx, st)
         == (var hs := SelectedFiles(u, sel);
             var k := FirstClash(hs, st.moved);
             Step(Failure(MoveFailed(hs[k].tmpName)), Store(st.moved + TmpNames(hs[..k]), st.ticks + k + 1)))
  {
    var tree := Node(Resolve(u, sel).value.files);
    ValidatePassesIff(tree, Merge(u.validationOptions, callOptions), fits);
    DoMoveSucceedsIff(u, cx, tree, st);
    DoMoveFailure(u, cx, tree, st);
  }

  /** An uploaded file moves once: moving the same non-empty selection
      again fails on its first file. */
  lemma MoveOnlyOnce(u: Uploader, sel: Selector, callOptions: PhpArray, fits: SizeRule,
                     cx: Context, cx': Context, st: Store)
    requires Move(u, sel, callOptions, fits, cx, st).result.Success?
    requires |SelectedFiles(u, sel)| > 0
    ensures Move(u, sel, callOptions, fits, cx', Move(u, sel, callOptions, fits, cx, st).store).result
         == Failure(MoveFailed(SelectedFiles(u, sel)[0].tmpName))
  {
    var hs := SelectedFiles(u, sel);
    var after := Move(u, sel, callOptions, fits, cx, st).store;
    MoveSucceedsIff(u, sel, callOptions, fits, cx, st);
    MoveSuccess(u, sel, callOptions, fits, cx, st);
    assert hs[0].tmpName in after.moved;
    MoveAbortsAtClash(u, sel, callOptions, fits, cx', after);
    assert FirstClash(hs, after.moved) == 0;
  }

  /** Two successive moves drawing from the same `uniqid()`, one that
      never repeats a token, put every file on a path of its own. */
  lemma MovePathsDistinct(u: Uploader, st: Store,
                          sel1: Selector, options1: PhpArray, fits1: SizeRule, cx1: Context,
                          sel2: Selector, options2: PhpArray, fits2: SizeRule, cx2: Context)
    requires cx1.uniqid == cx2.uniqid && Distinctive(cx1.uniqid)
    requires Formatted(cx1.clock) && Formatted(cx2.clock)
    requires Move(u, sel1, options1, fits1, cx1, st).result.Success?
    requires Move(u, sel2, options2, fits2, cx2, Move(u, sel1, options1, fits1, cx1, st).store).result.Success?
    ensures PathsDistinct(MovedRecords(Move(u, sel1, options1, fits1, cx1, st).result.value)
      + MovedRecords(Move(u, sel2, options2, fits2, cx2, Move(u, sel1, options1, fits1, cx1, st).store).result.value))
  {
    var s1 := Move(u, sel1, options1, fits1, cx1, st);
    MoveSuccess(u, sel1, options1, fits1, cx1, st);
    MoveSuccess(u, sel2, options2, fits2, cx2, s1.store);
    SuccessiveRecordsDistinct(u, cx1, cx2, SelectedFiles(u, sel1), st.ticks, SelectedFiles(u, sel2), s1.store.ticks);
  }
}
