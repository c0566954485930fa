/**
 * Normalization of a `$_FILES`-shaped submission into a tree of uploaded
 * files. Entries that already are uploaded files pass through; a
 * descriptor (an array with `tmp_name` set) becomes one file, or, when its
 * `tmp_name` is an array, a nested array decomposed key by key from the
 * parallel `tmp_name`/`size`/`error`/`name`/`type` arrays; a plain array is
 * normalized recursively; anything else is rejected.
 */
module Normalizer {
  import opened Wrappers
  import opened Php
  import opened Trees
  import opened Errors

  /** The five fields of a `$_FILES` descriptor. */
  datatype Spec = Spec(tmpName: Value, size: Value, error: Value, name: Value, mediaType: Value)

  /** The fields a descriptor array holds; a missing one reads as null. */
  function SpecOf(descriptor: PhpArray): Spec {
    Spec(Get(descriptor, "tmp_name"), Get(descriptor, "size"), Get(descriptor, "error"),
         Get(descriptor, "name"), Get(descriptor, "type"))
  }

  /** The descriptor for key `k` of a multi-file descriptor whose `tmp_name`
      array holds `tmp` under `k`: entry `k` of each parallel array. */
  function SpecAt(spec: Spec, k: Key, tmp: Value): Spec {
    Spec(tmp, Index(spec.size, k), Index(spec.error, k), Index(spec.name, k), Index(spec.mediaType, k))
  }

  /** The keys and nesting of a `tmp_name` value: an array is a node, any
      other value a single file. */
  function TmpShape(v: Value): Tree<()> {
    if v.Arr? then
      Node(seq(|v.entries|, i requires 0 <= i < |v.entries| => (v.entries[i].0, TmpShape(v.entries[i].1))))
    else Leaf(())
  }

  /** One uploaded file built from a descriptor, or, when `tmp_name` is an
      array, the nested array of files it encodes, shaped as `tmp_name`. */
  function CreateUploadedFileFromSpec(spec: Spec): (t: Tree<FileHandle>)
    ensures Erase(t) == TmpShape(spec.tmpName)
    decreases spec.tmpName, 2
  {
    if spec.tmpName.Arr? then
      var cs := NormalizeNestedFileSpec(spec);
      assert Erase(Node(cs)).children == TmpShape(spec.tmpName).children;
      Node(cs)
    else
      Leaf(FileHandle(spec.tmpName, ToInt(spec.size), ToInt(spec.error), spec.name, spec.mediaType))
  }

  /** The files of a multi-file descriptor, one per key of its `tmp_name`
      array, in that array's order. */
  function NormalizeNestedFileSpec(spec: Spec): (r: seq<(Key, Tree<FileHandle>)>)
    requires spec.tmpName.Arr?
    ensures |r| == |spec.tmpName.entries|
    ensures forall j :: 0 <= j < |r| ==>
      r[j].0 == spec.tmpName.entries[j].0 && Erase(r[j].1) == TmpShape(spec.tmpName.entries[j].1)
    decreases spec.tmpName, 1
  {
    NestedFrom(spec, 0)
  }

  function NestedFrom(spec: Spec, i: nat): (r: seq<(Key, Tree<FileHandle>)>)
    requires spec.tmpName.Arr? && i <= |spec.tmpName.entries|
    ensures |r| == |spec.tmpName.entries| - i
    ensures forall j :: 0 <= j < |r| ==>
      && r[j].0 == spec.tmpName.entries[i + j].0
      && Erase(r[j].1) == TmpShape(spec.tmpName.entries[i + j].1)
      && r[j].1 == CreateUploadedFileFromSpec(SpecAt(spec, spec.tmpName.entries[i + j].0, spec.tmpName.entries[i + j].1))
    decreases spec.tmpName, 0, |spec.tmpName.entries| - i
  {
    var e := spec.tmpName.entries;
    if i == |e| then []
    else
      var (k, tmp) := e[i];
      [(k, CreateUploadedFileFromSpec(SpecAt(spec, k, tmp)))] + NestedFrom(spec, i + 1)
  }

  /** The keys and nesting a raw submission entry normalizes to: a handle
      is one file, a descriptor takes the shape of its `tmp_name`, and a
      plain array keeps its keys, each entry shaped in turn. */
  function RawShape(v: Value): Tree<()> {
    match v
    case Arr(e) =>
      if IsSet(e, "tmp_name") then TmpShape(Get(e, "tmp_name"))
      else Node(seq(|e|, i requires 0 <= i < |e| => (e[i].0, RawShape(e[i].1))))
    case _ => Leaf(())
  }

  /** The normalized form of a submission array: the same keys in the same
      order, each entry normalized on its own, handles kept as they are,
      every entry shaped as its raw form. */
  function NormalizeFiles(files: PhpArray): (r: Result<seq<(Key, Tree<FileHandle>)>, Error>)
    ensures r.Success? ==> Keys(r.value) == Keys(files)
    ensures r.Success? ==> forall i :: 0 <= i < |files| && files[i].1.File? ==>
      r.value[i].1 == Leaf(files[i].1.handle)
    ensures r.Success? ==> forall i :: 0 <= i < |files| ==> Erase(r.value[i].1) == RawShape(files[i].1)
    ensures r.Success? ==> forall i :: 0 <= i < |files| ==> NormalizeValue(files[i].1) == Success(r.value[i].1)
    ensures r.Failure? ==> r.error == InvalidFilesSpecification
    decreases Arr(files), 2
  {
    NormalizeFrom(Arr(files), 0)
  }

  function NormalizeFrom(a: Value, i: nat): (r: Result<seq<(Key, Tree<FileHandle>)>, Error>)
    requires a.Arr? && i <= |a.entries|
    ensures r.Success? ==> |r.value| == |a.entries| - i
    ensures r.Success? ==> forall j :: 0 <= j < |r.value| ==>
      && r.value[j].0 == a.entries[i + j].0
      && (a.entries[i + j].1.File? ==> r.value[j].1 == Leaf(a.entries[i + j].1.handle))
      && Erase(r.value[j].1) == RawShape(a.entries[i + j].1)
      && NormalizeValue(a.entries[i + j].1) == Success(r.value[j].1)
    ensures r.Failure? ==> r.error == InvalidFilesSpecification
    decreases a, 1, |a.entries| - i
  {
    if i == |a.entries| then Success([])
    else
      var head :- NormalizeValue(a.entries[i].1);
      var rest :- NormalizeFrom(a, i + 1);
      Success([(a.entries[i].0, head)] + rest)
  }

  /** One entry of a submission array. */
  function NormalizeValue(v: Value): (r: Result<Tree<FileHandle>, Error>)
    ensures v.File? ==> r == Success(Leaf(v.handle))
    ensures v.Arr? && IsSet(v.entries, "tmp_name") ==> r == Success(CreateUploadedFileFromSpec(SpecOf(v.entries)))
    ensures v.Arr? && !IsSet(v.entries, "tmp_name") && r.Success? ==>
      r.value.Node? && NormalizeFiles(v.entries) == Success(r.value.children)
    ensures r.Success? ==> Erase(r.value) == RawShape(v)
    ensures r.Failure? ==> r.error == InvalidFilesSpecification
    decreases v, 3
  {
    match v
    case File(h) => Success(Leaf(h))
    case Arr(e) =>
      if IsSet(e, "tmp_name") then Success(CreateUploadedFileFromSpec(SpecOf(e)))
      else
        var children :- NormalizeFiles(e);
        assert Erase(Node(children)).children == RawShape(v).children;
        Success(Node(children))
    case _ => Failure(InvalidFilesSpecification)
  }

  /** The submissions normalization accepts: every entry reached through
      plain arrays is an uploaded file or an array, and an array with
      `tmp_name` set is a descriptor whose contents are not inspected. */
  predicate Acceptable(files: PhpArray)
    decreases Arr(files), 1
  {
    forall i :: 0 <= i < |files| ==> AcceptableValue(files[i].1)
  }

  predicate AcceptableValue(v: Value)
    decreases v, 2
  {
    v.File? || (v.Arr? && (IsSet(v.entries, "tmp_name") || Acceptable(v.entries)))
  }

  /** Normalization fails exactly on the submissions that are not
      acceptable, and then always with the same error. */
  lemma {:induction false} NormalizeFilesFailsIff(files: PhpArray)
    ensures NormalizeFiles(files).Failure? <==> !Acceptable(files)
    decreases Arr(files), 2
  {
    NormalizeFromFailsIff(Arr(files), 0);
  }

  lemma {:induction false} NormalizeFromFailsIff(a: Value, i: nat)
    requires a.Arr? && i <= |a.entries|
    ensures NormalizeFrom(a, i).Failure? <==>
      exists j :: i <= j < |a.entries| && !AcceptableValue(a.entries[j].1)
    decreases a, 1, |a.entries| - i
  {
    if i < |a.entries| {
      NormalizeValueFailsIff(a.entries[i].1);
      NormalizeFromFailsIff(a, i + 1);
    }
  }

  lemma {:induction false} NormalizeValueFailsIff(v: Value)
    ensures NormalizeValue(v).Failure? <==> !AcceptableValue(v)
    decreases v, 3
  {
    if v.Arr? && !IsSet(v.entries, "tmp_name") {
      NormalizeFilesFailsIff(v.entries);
    }
  }

  /** The way PHP lays a field out in `$_FILES`: a single file becomes one
      descriptor; a nested array of files becomes one descriptor whose five
      fields are parallel arrays keyed like the nesting. */
  function Encode(t: Tree<FileHandle>): (spec: Spec)
    ensures t.Leaf? ==> spec.tmpName == t.item.tmpName
    ensures t.Node? ==> spec.tmpName.Arr? && Keys(spec.tmpName.entries) == Keys(t.children)
  {
    match t
    case Leaf(h) => Spec(h.tmpName, Int(h.size), Int(h.error), h.clientFilename, h.clientMediaType)
    case Node(cs) =>
      var n := |cs|;
      Spec(
        Arr(seq(n, i requires 0 <= i < n => (cs[i].0, Encode(cs[i].1).tmpName))),
        Arr(seq(n, i requires 0 <= i < n => (cs[i].0, Encode(cs[i].1).size))),
        Arr(seq(n, i requires 0 <= i < n => (cs[i].0, Encode(cs[i].1).error))),
        Arr(seq(n, i requires 0 <= i < n => (cs[i].0, Encode(cs[i].1).name))),
        Arr(seq(n, i requires 0 <= i < n => (cs[i].0, Encode(cs[i].1).mediaType))))
  }

  /** Every temporary location is a string, as PHP writes them. */
  predicate StringTmpNames(t: Tree<FileHandle>) {
    match t
    case Leaf(h) => h.tmpName.Str?
    case Node(cs) => forall i :: 0 <= i < |cs| ==> StringTmpNames(cs[i].1)
  }

  /** Reading a field of a nested layout at the key of child j gives that
      child's own layout. */
  lemma ColumnAt(cs: seq<(Key, Tree<FileHandle>)>, column: Value, j: nat)
    requires DistinctKeys(cs) && j < |cs|
    requires column.Arr? && |column.entries| == |cs|
    requires forall i :: 0 <= i < |cs| ==> column.entries[i].0 == cs[i].0
    ensures Index(column, cs[j].0) == column.entries[j].1
  {
    LookupAt(column.entries, j);
  }

  /** Entry j of every parallel array of a nested layout is the layout of
      child j. */
  lemma ChildLayout(t: Tree<FileHandle>, j: nat)
    requires t.Node? && DistinctKeys(t.children) && j < |t.children|
    ensures SpecAt(Encode(t), t.children[j].0, Encode(t).tmpName.entries[j].1) == Encode(t.children[j].1)
  {
    var cs := t.children;
    var spec := Encode(t);
    var child := Encode(cs[j].1);
    var k := cs[j].0;
    assert spec.tmpName.entries[j].1 == child.tmpName;
    assert Index(spec.size, k) == child.size by {
      ColumnAt(cs, spec.size, j);
    }
    assert Index(spec.error, k) == child.error by {
      ColumnAt(cs, spec.error, j);
    }
    assert Index(spec.name, k) == child.name by {
      ColumnAt(cs, spec.name, j);
    }
    assert Index(spec.mediaType, k) == child.mediaType by {
      ColumnAt(cs, spec.mediaType, j);
    }
  }

  /** Decomposing the parallel-array layout of a nested field gives the
      field back: normalization inverts PHP's `$_FILES` encoding. */
  lemma {:induction false} EncodeRoundTrip(t: Tree<FileHandle>)
    requires WellKeyed(t) && StringTmpNames(t)
    ensures CreateUploadedFileFromSpec(Encode(t)) == t
  {
    match t
    case Leaf(h) =>
    case Node(cs) =>
      var spec := Encode(t);
      var r := NormalizeNestedFileSpec(spec);
      assert r == NestedFrom(spec, 0);
      forall j | 0 <= j < |cs|
        ensures r[j] == cs[j]
      {
        ChildLayout(t, j);
        EncodeRoundTrip(cs[j].1);
      }
      assert r == cs;
  }

  /** A descriptor array holding the five fields of `spec`, in the order
      PHP writes them. */
  function Descriptor(spec: Spec): Value {
    Arr([("name", spec.name), ("type", spec.mediaType), ("tmp_name", spec.tmpName),
         ("error", spec.error), ("size", spec.size)])
  }

  /** The `$_FILES` array PHP builds for the given fields. */
  function Submission(fields: seq<(Key, Tree<FileHandle>)>): (files: PhpArray)
    ensures Keys(files) == Keys(fields)
  {
    seq(|fields|, i requires 0 <= i < |fields| => (fields[i].0, Descriptor(Encode(fields[i].1))))
  }

  /** Normalizing the `$_FILES` array of a submission yields the submitted
      files, with their keys and nesting. */
  lemma SubmissionRoundTrip(fields: seq<(Key, Tree<FileHandle>)>)
    requires forall i :: 0 <= i < |fields| ==> WellKeyed(fields[i].1) && StringTmpNames(fields[i].1)
    ensures NormalizeFiles(Submission(fields)) == Success(fields)
  {
    SubmissionFrom(fields, 0);
  }

  lemma SpecOfDescriptor(spec: Spec)
    ensures SpecOf(Descriptor(spec).entries) == spec
  {
    var d := Descriptor(spec).entries;
    assert DistinctKeys(d);
    LookupAt(d, 0);
    LookupAt(d, 1);
    LookupAt(d, 2);
    LookupAt(d, 3);
    LookupAt(d, 4);
  }

  /** The descriptor PHP writes for one field normalizes to that field. */
  lemma DescriptorNormalizes(t: Tree<FileHandle>)
    requires WellKeyed(t) && StringTmpNames(t)
    ensures NormalizeValue(Descriptor(Encode(t))) == Success(t)
  {
    var spec := Encode(t);
    var d := Descriptor(spec).entries;
    assert DistinctKeys(d);
    LookupAt(d, 2);
    assert Lookup(d, "tmp_name") == Some(spec.tmpName);
    assert spec.tmpName != Null by {
      if t.Leaf? { assert spec.tmpName.Str?; }
    }
    SpecOfDescriptor(spec);
    EncodeRoundTrip(t);
  }

  /** A single-file descriptor normalizes to one file, its size and error
      code passed through `(int)`. */
  lemma SingleDescriptor(tmp: string, size: Value, error: Value, name: Value, mediaType: Value)
    ensures NormalizeValue(Descriptor(Spec(Str(tmp), size, error, name, mediaType)))
         == Success(Leaf(FileHandle(Str(tmp), ToInt(size), ToInt(error), name, mediaType)))
  {
    var spec := Spec(Str(tmp), size, error, name, mediaType);
    var d := Descriptor(spec).entries;
    assert IsSet(d, "tmp_name") by {
      assert DistinctKeys(d);
      LookupAt(d, 2);
    }
    SpecOfDescriptor(spec);
  }

  /** A descriptor whose size and error code arrive as decimal strings
      normalizes to a file holding those numbers. */
  lemma DecimalStringDescriptor(tmp: string, name: Value, mediaType: Value, size: int, error: int)
    ensures NormalizeValue(Descriptor(Spec(Str(tmp), Str(Decimal(size)), Str(Decimal(error)), name, mediaType)))
         == Success(Leaf(FileHandle(Str(tmp), size, error, name, mediaType)))
  {
    var sizeText, errorText := Str(Decimal(size)), Str(Decimal(error));
    assert ToInt(sizeText) == size by { IntStringRoundTrip(size); }
    assert ToInt(errorText) == error by { IntStringRoundTrip(error); }
    SingleDescriptor(tmp, sizeText, errorText, name, mediaType);
  }

  /** One step of normalizing an array: the entry, then the rest. */
  lemma NormalizeFromStep(a: Value, i: nat, head: Tree<FileHandle>, rest: seq<(Key, Tree<FileHandle>)>)
    requires a.Arr? && i < |a.entries|
    requires NormalizeValue(a.entries[i].1) == Success(head)
    requires NormalizeFrom(a, i + 1) == Success(rest)
    ensures NormalizeFrom(a, i) == Success([(a.entries[i].0, head)] + rest)
  {
  }

  lemma {:induction false} SubmissionFrom(fields: seq<(Key, Tree<FileHandle>)>, i: nat)
    requires forall i :: 0 <= i < |fields| ==> WellKeyed(fields[i].1) && StringTmpNames(fields[i].1)
    requires i <= |fields|
    ensures NormalizeFrom(Arr(Submission(fields)), i) == Success(fields[i..])
    decreases |fields| - i
  {
    var a := Arr(Submission(fields));
    if i < |fields| {
      var field := fields[i];
      var tail := fields[i + 1..];
      assert fields[i..] == [field] + tail;
      assert a.entries[i] == (field.0, Descriptor(Encode(field.1)));
      DescriptorNormalizes(field.1);
      SubmissionFrom(fields, i + 1);
      NormalizeFromStep(a, i, field.1, tail);
      assert (a.entries[i].0, field.1) == field;
    } else {
      assert fields[i..] == [];
    }
  }
}
