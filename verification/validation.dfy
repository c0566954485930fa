/**
 * The checks `move` runs over every uploaded file of the selection before
 * anything is moved: the file's own upload error code first, then the
 * optional max-size rule, then the optional allowed-types rule. The first
 * failing check, in depth-first order, aborts the call.
 */
module Validation {
  import opened Wrappers
  import opened Php
  import opened Trees
  import opened Errors

  /** PHP's upload error codes. */
  const UPLOAD_ERR_OK := 0
  const UPLOAD_ERR_INI_SIZE := 1
  const UPLOAD_ERR_FORM_SIZE := 2
  const UPLOAD_ERR_PARTIAL := 3
  const UPLOAD_ERR_NO_FILE := 4
  const UPLOAD_ERR_NO_TMP_DIR := 6
  const UPLOAD_ERR_CANT_WRITE := 7
  const UPLOAD_ERR_EXTENSION := 8

  /** The error a file's upload error code raises; OK and every code not
      listed fall through to the rules. */
  function TransportError(code: int): (r: Option<Error>)
    ensures r.None? <==> code !in {1, 2, 3, 4, 6, 7, 8}
    ensures code in {UPLOAD_ERR_INI_SIZE, UPLOAD_ERR_FORM_SIZE} ==> r == Some(SizeLimitExceeded)
    ensures code == UPLOAD_ERR_PARTIAL ==> r == Some(Incomplete)
    ensures code == UPLOAD_ERR_NO_FILE ==> r == Some(NoFileUploaded)
    ensures code in {UPLOAD_ERR_NO_TMP_DIR, UPLOAD_ERR_CANT_WRITE} ==> r == Some(DirectoryNotWritable)
    ensures code == UPLOAD_ERR_EXTENSION ==> r == Some(ExtensionRejected)
  {
    if code == UPLOAD_ERR_INI_SIZE || code == UPLOAD_ERR_FORM_SIZE then Some(SizeLimitExceeded)
    else if code == UPLOAD_ERR_PARTIAL then Some(Incomplete)
    else if code == UPLOAD_ERR_NO_FILE then Some(NoFileUploaded)
    else if code == UPLOAD_ERR_NO_TMP_DIR || code == UPLOAD_ERR_CANT_WRITE then Some(DirectoryNotWritable)
    else if code == UPLOAD_ERR_EXTENSION then Some(ExtensionRejected)
    else None
  }

  /** The max-size validator: whether a size passes for the configured
      `maxSize` value. Its implementation is not part of this model. */
  type SizeRule = (int, Value) -> bool

  /** The key a rule reports a file under: its client filename, or "file"
      when that is falsy. */
  function SubjectKey(h: FileHandle): Value {
    if Falsy(h.clientFilename) then Str("file") else h.clientFilename
  }

  /** `isset($options['maxSize'])`. */
  predicate HasMaxSize(options: PhpArray) {
    IsSet(options, "maxSize")
  }

  /** `allowedTypes` is set to a non-empty array. */
  predicate HasAllowedTypes(options: PhpArray) {
    IsSet(options, "allowedTypes") && Get(options, "allowedTypes").Arr?
      && |Get(options, "allowedTypes").entries| > 0
  }

  /** The values of the `allowedTypes` array. */
  function AllowedTypes(options: PhpArray): (domain: seq<Value>)
    requires HasAllowedTypes(options)
    ensures |domain| == |Get(options, "allowedTypes").entries|
  {
    var e := Get(options, "allowedTypes").entries;
    seq(|e|, i requires 0 <= i < |e| => e[i].1)
  }

  /** What it takes for a file to pass: no upload error, a size the
      max-size rule accepts when one is configured, and a media type among
      the allowed ones when those are configured. */
  predicate Accepted(h: FileHandle, options: PhpArray, fits: SizeRule) {
    && TransportError(h.error).None?
    && (HasMaxSize(options) ==> fits(h.size, Get(options, "maxSize")))
    && (HasAllowedTypes(options) ==> h.clientMediaType in AllowedTypes(options))
  }

  /** The checks for one file, in the order `move` runs them. */
  function CheckFile(h: FileHandle, options: PhpArray, fits: SizeRule): (r: Outcome<Error>)
    ensures r.Pass? <==> Accepted(h, options, fits)
    ensures TransportError(h.error).Some? ==> r == Fail(TransportError(h.error).value)
    ensures r.Fail? && TransportError(h.error).None? ==>
      r.error == MaxSizeRejected(SubjectKey(h))
      || (HasAllowedTypes(options) && r.error == TypeRejected(SubjectKey(h), AllowedTypes(options)))
    ensures HasMaxSize(options) && !fits(h.size, Get(options, "maxSize")) && TransportError(h.error).None? ==>
      r == Fail(MaxSizeRejected(SubjectKey(h)))
    ensures && TransportError(h.error).None?
            && !(HasMaxSize(options) && !fits(h.size, Get(options, "maxSize")))
            && HasAllowedTypes(options) && h.clientMediaType !in AllowedTypes(options) ==>
      r == Fail(TypeRejected(SubjectKey(h), AllowedTypes(options)))
  {
    if TransportError(h.error).Some? then Fail(TransportError(h.error).value)
    else if HasMaxSize(options) && !fits(h.size, Get(options, "maxSize")) then
      Fail(MaxSizeRejected(SubjectKey(h)))
    else if HasAllowedTypes(options) && h.clientMediaType !in AllowedTypes(options) then
      Fail(TypeRejected(SubjectKey(h), AllowedTypes(options)))
    else Pass
  }

  /** The reference order: the first file of a flat list that fails a
      check decides the outcome. */
  function FirstFailure(hs: seq<FileHandle>, options: PhpArray, fits: SizeRule): (r: Outcome<Error>)
    ensures r.Pass? <==> forall i :: 0 <= i < |hs| ==> Accepted(hs[i], options, fits)
    ensures r.Fail? ==>
      exists i :: && 0 <= i < |hs|
                  && CheckFile(hs[i], options, fits) == r
                  && (forall j :: 0 <= j < i ==> Accepted(hs[j], options, fits))
  {
    if |hs| == 0 then Pass
    else if CheckFile(hs[0], options, fits).Fail? then CheckFile(hs[0], options, fits)
    else
      var r := FirstFailure(hs[1..], options, fits);
      assert forall i :: 1 <= i < |hs| ==> hs[i] == hs[1..][i - 1];
      if r.Fail? then
        var i :| 0 <= i < |hs[1..]| && CheckFile(hs[1..][i], options, fits) == r
          && (forall j :: 0 <= j < i ==> Accepted(hs[1..][j], options, fits));
        assert CheckFile(hs[i + 1], options, fits) == r;
        r
      else r
  }

  lemma {:induction false} FirstFailureAppend(a: seq<FileHandle>, b: seq<FileHandle>, options: PhpArray, fits: SizeRule)
    ensures FirstFailure(a + b, options, fits)
         == (if FirstFailure(a, options, fits).Fail? then FirstFailure(a, options, fits)
             else FirstFailure(b, options, fits))
  {
    if |a| == 0 {
      assert a + b == b;
    } else {
      assert (a + b)[0] == a[0];
      assert (a + b)[1..] == a[1..] + b;
      FirstFailureAppend(a[1..], b, options, fits);
    }
  }

  /** The checks over a whole tree, depth first, stopping at the first
      failure: the outcome is that of the first failing file in depth-first
      order, and a pass when none fails. */
  function Validate(t: Tree<FileHandle>, options: PhpArray, fits: SizeRule): (r: Outcome<Error>)
    ensures r == FirstFailure(Leaves(t), options, fits)
    decreases t, 1
  {
    match t
    case Leaf(h) =>
      assert Leaves(t) == [h];
      CheckFile(h, options, fits)
    case Node(cs) =>
      assert cs[0..] == cs;
      ValidateFrom(t, 0, options, fits)
  }

  function ValidateFrom(t: Tree<FileHandle>, i: nat, options: PhpArray, fits: SizeRule): (r: Outcome<Error>)
    requires t.Node? && i <= |t.children|
    ensures r == FirstFailure(Leaves(Node(t.children[i..])), options, fits)
    decreases t, 0, |t.children| - i
  {
    var cs := t.children;
    if i == |cs| then
      assert Leaves(Node(cs[i..])) == [];
      Pass
    else
      LeavesSuffix(cs, i);
      FirstFailureAppend(Leaves(cs[i].1), Leaves(Node(cs[i + 1..])), options, fits);
      match Validate(cs[i].1, options, fits)
      case Fail(e) => Fail(e)
      case Pass => ValidateFrom(t, i + 1, options, fits)
  }

  /** Validation passes exactly when every file of the tree is accepted. */
  lemma ValidatePassesIff(t: Tree<FileHandle>, options: PhpArray, fits: SizeRule)
    ensures Validate(t, options, fits).Pass? <==>
      forall i :: 0 <= i < |Leaves(t)| ==> Accepted(Leaves(t)[i], options, fits)
  {
  }
}
