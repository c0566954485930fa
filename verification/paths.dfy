/**
 * Where a moved file goes: a fresh token, a dot and the extension of its
 * media type, below `basePath/Y/m/d/` when the adapter is the local one.
 */
module Paths {
  import opened Wrappers
  import opened Php
  import opened Mimetypes
  import opened Config

  /** The values of `date("Y")`, `date("m")` and `date("d")` at the time of
      the move. */
  datatype Clock = Clock(year: string, month: string, day: string)

  /** The widths `date` produces: a four-digit year, two-digit month and day. */
  predicate Formatted(c: Clock) {
    |c.year| == 4 && |c.month| == 2 && |c.day| == 2
  }

  /** `$adapter == 'Local'` under PHP 7's loose comparison. */
  predicate IsLocalAdapter(adapter: Value) {
    match adapter
    case Str(s) => s == "Local"
    case Bool(b) => b
    case Int(n) => n == 0
    case _ => false
  }

  /** The adapter in force: the `adapter` option, "Local" by default. */
  function Adapter(u: Uploader): Value {
    GetOption(u, Some("adapter"), Str("Local"))
  }

  /** The directory a file moves into, with its trailing separator: the
      dated directory below `basePath` ("upload" by default) for the local
      adapter, none for any other. */
  function Directory(u: Uploader, c: Clock): string {
    if IsLocalAdapter(Adapter(u)) then
      ToStr(GetOption(u, Some("basePath"), Str("upload"))) + "/" + c.year + "/" + c.month + "/" + c.day + "/"
    else ""
  }

  /** The extension a file gets for its media type: the table's entry,
      or nothing when the type is unknown. */
  function Extension(mediaType: Value): string {
    ExtensionByMimetype(mediaType).GetOr("")
  }

  /** The target path of a file moved under the token `token` with the
      extension `ext`. */
  function TargetPath(u: Uploader, c: Clock, token: string, ext: string): string {
    Directory(u, c) + token + "." + ext
  }

  /** The part of a file name before its first dot. */
  function Stem(name: string): (r: string)
    ensures r <= name
  {
    if |name| == 0 || name[0] == '.' then "" else [name[0]] + Stem(name[1..])
  }

  lemma {:induction false} StemOfBasename(token: string, ext: string)
    requires '.' !in token
    ensures Stem(token + "." + ext) == token
  {
    if |token| > 0 {
      assert (token + "." + ext)[1..] == token[1..] + "." + ext;
      StemOfBasename(token[1..], ext);
    } else {
      assert (token + "." + ext)[0] == '.';
    }
  }

  /** The token a target path was built from: the stem of what follows the
      directory. */
  function PathToken(u: Uploader, c: Clock, path: string): string {
    var dir := Directory(u, c);
    if |dir| <= |path| then Stem(path[|dir|..]) else ""
  }

  /** Whatever follows the directory decides the token. */
  lemma PathTokenAfterDirectory(u: Uploader, c: Clock, base: string)
    ensures PathToken(u, c, Directory(u, c) + base) == Stem(base)
  {
    var dir := Directory(u, c);
    assert (dir + base)[|dir|..] == base;
  }

  /** A target path gives back its token, as long as the token has no dot
      (a `uniqid()` token is hexadecimal). */
  lemma TokenOfTargetPath(u: Uploader, c: Clock, token: string, ext: string)
    requires '.' !in token
    ensures PathToken(u, c, TargetPath(u, c, token, ext)) == token
  {
    assert TargetPath(u, c, token, ext) == Directory(u, c) + (token + "." + ext);
    PathTokenAfterDirectory(u, c, token + "." + ext);
    StemOfBasename(token, ext);
  }

  /** The directory depends on the clock only through the widths of the
      date fields. */
  lemma DirectoryWidth(u: Uploader, c1: Clock, c2: Clock)
    requires Formatted(c1) && Formatted(c2)
    ensures |Directory(u, c1)| == |Directory(u, c2)|
  {
  }

  /** Files moved under different dot-free tokens land on different
      paths, even when the dates differ. */
  lemma DistinctTokensDistinctPaths(u: Uploader, c1: Clock, c2: Clock, t1: string, t2: string, e1: string, e2: string)
    requires Formatted(c1) && Formatted(c2)
    requires '.' !in t1 && '.' !in t2 && t1 != t2
    ensures TargetPath(u, c1, t1, e1) != TargetPath(u, c2, t2, e2)
  {
    DirectoryWidth(u, c1, c2);
    TokenOfTargetPath(u, c1, t1, e1);
    TokenOfTargetPath(u, c2, t2, e2);
    assert PathToken(u, c1, TargetPath(u, c2, t2, e2)) == PathToken(u, c2, TargetPath(u, c2, t2, e2));
  }

  /** With no options the local adapter is in force, with "upload" as
      the base directory. */
  lemma DefaultLocalPath(c: Clock, token: string, ext: string)
    ensures TargetPath(Uploader([], [], []), c, token, ext)
         == "upload/" + c.year + "/" + c.month + "/" + c.day + "/" + token + "." + ext
  {
    var u := Uploader([], [], []);
    assert Adapter(u) == Str("Local");
    assert GetOption(u, Some("basePath"), Str("upload")) == Str("upload");
  }

  /** With the local adapter and a configured `basePath`, the file lands
      in the dated directory below that base. */
  lemma LocalPath(u: Uploader, c: Clock, token: string, ext: string, base: string)
    requires IsLocalAdapter(Adapter(u)) && Lookup(u.options, "basePath") == Some(Str(base))
    ensures TargetPath(u, c, token, ext) == base + "/" + c.year + "/" + c.month + "/" + c.day + "/" + token + "." + ext
  {
  }

  /** With the local adapter and no `basePath` set, the base is "upload". */
  lemma LocalDefaultBasePath(u: Uploader, c: Clock, token: string, ext: string)
    requires IsLocalAdapter(Adapter(u)) && !IsSet(u.options, "basePath")
    ensures TargetPath(u, c, token, ext) == "upload/" + c.year + "/" + c.month + "/" + c.day + "/" + token + "." + ext
  {
    assert GetOption(u, Some("basePath"), Str("upload")) == Str("upload");
  }

  /** A media type outside the table leaves a bare trailing dot. */
  lemma UnknownTypePath(u: Uploader, c: Clock, token: string, mediaType: Value)
    requires ExtensionByMimetype(mediaType).None?
    ensures TargetPath(u, c, token, Extension(mediaType)) == Directory(u, c) + token + "."
  {
  }

  /** Any adapter other than the local one writes to the bare basename. */
  lemma OtherAdapterPath(u: Uploader, c: Clock, token: string, ext: string)
    requires !IsLocalAdapter(Adapter(u))
    ensures TargetPath(u, c, token, ext) == token + "." + ext
  {
  }

  /** The adapter test is PHP 7's loose `==`: besides "Local" itself, `true`
      and the integer 0 select the local adapter, while a differently cased
      name does not. */
  lemma LooseAdapterComparison()
    ensures IsLocalAdapter(Str("Local")) && IsLocalAdapter(Bool(true)) && IsLocalAdapter(Int(0))
    ensures !IsLocalAdapter(Str("local")) && !IsLocalAdapter(Str("Oss")) && !IsLocalAdapter(Null)
  {
  }
}
