/**
 * Concrete runs of the uploader on small submissions.
 */
module Scenarios {
  import opened Wrappers
  import opened Php
  import opened Trees
  import opened Errors
  import opened Mimetypes
  import opened Normalizer
  import opened Validation
  import opened Config
  import opened Paths
  import opened Mover
  import opened Pipeline

  const Today := Clock("2024", "05", "17")

  /** The uploaded PNG of the scenarios. */
  const Avatar := FileHandle(Str("/tmp/phpA"), 1024, 0, Str("a.png"), Str("image/png"))

  /** The `$_FILES` entry PHP builds for that upload. */
  const AvatarDescriptor := Arr([
    ("name", Str("a.png")), ("type", Str("image/png")), ("tmp_name", Str("/tmp/phpA")),
    ("error", Int(0)), ("size", Int(1024))])

  /** The uploader built from a submission of that entry, with no options,
      holds the uploaded file under the field's name. */
  lemma AvatarUploader()
    ensures NewUploader([], [], [("avatar", AvatarDescriptor)]) == Success(Uploader([], [], [("avatar", Leaf(Avatar))]))
  {
    var fields := [("avatar", Leaf(Avatar))];
    assert Submission(fields) == [("avatar", AvatarDescriptor)];
    SubmissionRoundTrip(fields);
  }

  /** The path the avatar goes to at tick 0 with no options: below the
      default local directory, named by the token and the extension of its
      type. */
  lemma AvatarPath(uniqid: nat -> string)
    ensures PathAt(Uploader([], [], [("avatar", Leaf(Avatar))]), MoveContext(Today, uniqid), Avatar, 0)
         == "upload/2024/05/17/" + uniqid(0) + ".png"
  {
    PngType();
    var u := Uploader([], [], [("avatar", Leaf(Avatar))]);
    assert Directory(u, Today) == "upload/2024/05/17/";
  }

  /** Moving the field succeeds, answers with the avatar's record alone and
      marks its temporary file moved. */
  lemma MoveAvatar(uniqid: nat -> string)
    ensures var s := Move(Uploader([], [], [("avatar", Leaf(Avatar))]), Field("avatar"), [], (size, limit) => true,
                          MoveContext(Today, uniqid), Store({}, 0));
            && s.result == Success(Single(MoveResult(Null, Null, "upload/2024/05/17/" + uniqid(0) + ".png",
                                                     Str("a.png"), 1024, Str("image/png"))))
            && s.store == Store({Str("/tmp/phpA")}, 1)
  {
    var u := Uploader([], [], [("avatar", Leaf(Avatar))]);
    var sel := Field("avatar");
    var fits: SizeRule := (size, limit) => true;
    var cx := MoveContext(Today, uniqid);
    var st := Store({}, 0);
    assert Lookup(u.uploadedFiles, "avatar") == Some(Leaf(Avatar));
    assert SelectedFiles(u, sel) == [Avatar];
    assert Merge([], []) == [];
    assert Accepted(Avatar, Merge(u.validationOptions, []), fits);
    MoveSucceedsIff(u, sel, [], fits, cx, st);
    MoveSuccess(u, sel, [], fits, cx, st);
    TmpNamesCons([Avatar]);
    assert [Avatar][1..] == [];
    assert TmpNames([]) == {};
    AvatarPath(uniqid);
    RecordPath(u, cx, [Avatar], 0, 0);
  }

  /** The avatar moves once: a second move of the same field fails on its
      temporary file. */
  lemma MoveAvatarTwice(uniqid: nat -> string)
    ensures Move(Uploader([], [], [("avatar", Leaf(Avatar))]), Field("avatar"), [], (size, limit) => true,
                 MoveContext(Today, uniqid), Store({Str("/tmp/phpA")}, 1)).result
         == Failure(MoveFailed(Str("/tmp/phpA")))
  {
    var u := Uploader([], [], [("avatar", Leaf(Avatar))]);
    var fits: SizeRule := (size, limit) => true;
    var cx := MoveContext(Today, uniqid);
    MoveAvatar(uniqid);
    assert SelectedFiles(u, Field("avatar")) == [Avatar];
    MoveOnlyOnce(u, Field("avatar"), [], fits, cx, cx, Store({}, 0));
  }

  /** A PDF uploaded where only PNG files are allowed. */
  const Report := FileHandle(Str("/tmp/phpB"), 2048, 0, Str("r.pdf"), Str("application/pdf"))

  /** The allowed types restrict the upload: the PDF is rejected under its
      client filename, naming the allowed types, and nothing moves. */
  lemma RejectReport(uniqid: nat -> string, st: Store)
    ensures Move(Uploader([], [("allowedTypes", Arr([("0", Str("image/png"))]))], [("report", Leaf(Report))]),
                 Field("report"), [], (size, limit) => true, MoveContext(Today, uniqid), st)
         == Step(Failure(TypeRejected(Str("r.pdf"), [Str("image/png")])), st)
  {
    var options := [("allowedTypes", Arr([("0", Str("image/png"))]))];
    var u := Uploader([], options, [("report", Leaf(Report))]);
    var fits: SizeRule := (size, limit) => true;
    assert Lookup(u.uploadedFiles, "report") == Some(Leaf(Report));
    assert SelectedFiles(u, Field("report")) == [Report];
    MergeLookup(options, [], "allowedTypes");
    MergeLookup(options, [], "maxSize");
    assert Merge(options, []) == options;
    assert AllowedTypes(options) == [Str("image/png")];
    assert CheckFile(Report, options, fits) == Fail(TypeRejected(Str("r.pdf"), [Str("image/png")]));
    assert FirstFailure([Report], options, fits) == Fail(TypeRejected(Str("r.pdf"), [Str("image/png")]));
    MoveValidationFailure(u, Field("report"), [], fits, MoveContext(Today, uniqid), st);
  }

  /** A field that is missing, or that holds an empty array, is refused
      before anything else happens. */
  lemma EmptyFields(cx: Context, st: Store)
    ensures Move(Uploader([], [], [("avatar", Leaf(Avatar))]), Field("photo"), [], (size, limit) => true, cx, st)
         == Step(Failure(EmptyField("photo")), st)
    ensures Move(Uploader([], [], [("photos", Node([]))]), Field("photos"), [], (size, limit) => true, cx, st)
         == Step(Failure(EmptyField("photos")), st)
  {
    var u1 := Uploader([], [], [("avatar", Leaf(Avatar))]);
    var u2 := Uploader([], [], [("photos", Node([]))]);
    assert Lookup(u1.uploadedFiles, "photo") == None;
    assert Lookup(u2.uploadedFiles, "photos") == Some(Node([]));
  }
}
