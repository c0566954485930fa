/**
 * An uploader instance: its options, its default validation options and
 * the submission normalized once at construction.
 */
module Config {
  import opened Wrappers
  import opened Php
  import opened Trees
  import opened Errors
  import opened Normalizer

  datatype Uploader = Uploader(
    options: PhpArray,
    validationOptions: PhpArray,
    uploadedFiles: seq<(Key, Tree<FileHandle>)>)

  /** The constructor, given the request's `$_FILES` array: it normalizes
      the submission and fails when normalization does. */
  function NewUploader(options: PhpArray, validationOptions: PhpArray, files: PhpArray): (r: Result<Uploader, Error>)
    ensures r.Success? <==> Acceptable(files)
    ensures r.Failure? ==> r.error == InvalidFilesSpecification
    ensures r.Success? ==> r.value.options == options && r.value.validationOptions == validationOptions
    ensures r.Success? ==> Keys(r.value.uploadedFiles) == Keys(files)
    ensures r.Success? ==> NormalizeFiles(files) == Success(r.value.uploadedFiles)
  {
    NormalizeFilesFailsIff(files);
    var uploaded :- NormalizeFiles(files);
    Success(Uploader(options, validationOptions, uploaded))
  }

  /** `getOption($key, $default)`: the option when it is set (present and
      not null), the default otherwise; without a key, all the options. */
  function GetOption(u: Uploader, key: Option<Key>, default: Value): (r: Value)
    ensures key.None? ==> r == Arr(u.options)
    ensures key.Some? && IsSet(u.options, key.value) ==>
      r != Null && exists i :: 0 <= i < |u.options| && u.options[i] == (key.value, r)
    ensures key.Some? && !IsSet(u.options, key.value) ==> r == default
  {
    match key
    case None => Arr(u.options)
    case Some(k) => if IsSet(u.options, k) then Get(u.options, k) else default
  }
}
