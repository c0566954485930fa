# Uploader, modelled in Dafny

A model of the upload-handling core of the PHP class `Kof\Utils\Uploader`,
with proofs about it. The model covers:

- **Normalization** of a `$_FILES`-shaped submission (`normalizeFiles`,
  `createUploadedFileFromSpec`, `normalizeNestedFileSpec`). The result is a
  tree of uploaded-file handles. Handles pass through unchanged. A
  descriptor becomes one handle; when its `tmp_name` is an array, it
  becomes a nested array split key by key from the parallel arrays. Plain
  arrays are normalized recursively. Anything else fails with "Invalid
  value in files specification".
- **`move`**. The selector is a handle, an explicit array or a field name,
  and it decides single or multiple mode. The instance's validation
  options are merged with the call's (`array_merge`). Every handle is then
  validated depth first: upload error code first, then the optional
  `maxSize` rule, then the optional `allowedTypes` rule. Only when all
  handles pass does `_doMove` run.
- **`_doMove`**. It maps the handle tree to a tree of records with the same
  keys and nesting. Each record's path is a `uniqid()` token, a dot and the
  extension for the file's media type. Under the `Local` adapter the path
  sits below `basePath/Y/m/d/`.
- **`getExtensionByMimetype`**, a lowercasing lookup in the fixed mimetype
  table, and **`getOption`**.

Modules follow the program's parts:

| module | file | contents |
|---|---|---|
| `Wrappers` | `wrappers.dfy` | `Option`, `Result`, `Outcome` |
| `Php` | `php.dfy` | PHP values, ordered arrays, `isset`, `(int)` and string casts, `array_merge` |
| `Trees` | `trees.dfy` | key-labelled trees, depth-first leaves, shape |
| `Errors` | `errors.dfy` | one constructor per exception the class throws |
| `Mimetypes` | `mimetypes.dfy` | the extension table and `strtolower` |
| `Normalizer` | `normalizer.dfy` | normalization, and PHP's `$_FILES` layout as its inverse |
| `Config` | `config.dfy` | the constructor and `getOption` |
| `Validation` | `validation.dfy` | the per-file checks and the depth-first pass |
| `Paths` | `paths.dfy` | target directory and path |
| `Mover` | `mover.dfy` | `_doMove`, and a flat reference walk it is proved equal to |
| `Pipeline` | `pipeline.dfy` | selector resolution and `move` |
| `Scenarios` | `scenarios.dfy` | concrete submissions and moves |

Several things come from outside and are parameters of the model:

- the request's `$_FILES` array;
- the date, as a `Clock` of the three `date()` strings;
- `uniqid()`, as a function from a tick counter to a token;
- the max-size validator, as a `SizeRule` predicate on (size, `maxSize`
  option).

The file system is reduced to a `Store`. It records which temporary files
were already moved and how many tokens were drawn. `moveTo` on a temporary
file that was already moved fails with `MoveFailed`, and an uploaded file
cannot be moved twice.

## Model

| member | source | states |
|---|---|---|
| `Config.NewUploader` | src/Uploader.php:19-24 | construction succeeds exactly when the submission is acceptable, otherwise fails with InvalidFilesSpecification; the options are kept and the stored files are the normalized submission, under the submission's keys |
| `Config.GetOption` | src/Uploader.php:26-33 | without a key, all options; with a key that is set, a non-null value stored under that key; otherwise the default |
| `Php.MergeLookup` | src/Uploader.php:65 | after `array_merge`, a key reads as the call's value when the call sets it and as the instance's value otherwise |
| `Php.IntStringRoundTrip` | src/Uploader.php:221-222 | the `(int)` cast applied to an integer's decimal string gives the integer back (used by `Normalizer.DecimalStringDescriptor`) |
| `Php.Merge` | src/Uploader.php:65 | `array_merge` of the instance's and the call's options; its lookups are stated by `Php.MergeLookup` |
| `Php.ToInt` | src/Uploader.php:221-222 | PHP's `(int)` cast; stated by `Php.IntStringRoundTrip` and used by `Normalizer.SingleDescriptor` |
| `Mimetypes.CaseInsensitive` | src/Uploader.php:298-300 | two media types that differ only in letter case get the same extension |
| `Mimetypes.ExtensionByMimetype` | src/Uploader.php:266-301 | the table's extension for the lowercased type, or null; stated by `Mimetypes.CaseInsensitive` and the `Mimetypes.*Type` lemmas |
| `Mimetypes.PngType` | src/Uploader.php:284-300 | `image/png` maps to `png`, in any case |
| `Mimetypes.PdfType` | src/Uploader.php:283-300 | `application/pdf` maps to `pdf` |
| `Mimetypes.ZipType` | src/Uploader.php:295-300 | `application/zip` maps to `zip` |
| `Mimetypes.UnknownType` | src/Uploader.php:298-300 | a type outside the table maps to null |
| `Mimetypes.MissingType` | src/Uploader.php:298-300 | a null type maps to null |
| `Normalizer.NormalizeFiles` | src/Uploader.php:181-199 | the result has the input's keys in order and each entry is that entry's own normalization; an entry that is already a handle is kept unchanged; every entry, at every nesting level, has the keys and nesting of its raw form (`RawShape`); the only failure is InvalidFilesSpecification |
| `Normalizer.NormalizeValue` | src/Uploader.php:185-195 | a handle passes through unchanged; an array with `tmp_name` set becomes the file(s) built from its descriptor; a plain array becomes a node whose children are the normalization of its entries, keeping its keys and nesting; every failure is InvalidFilesSpecification |
| `Normalizer.NormalizeFilesFailsIff` | src/Uploader.php:185-195 | normalization fails exactly when some entry reached through plain arrays is neither a handle nor an array |
| `Normalizer.CreateUploadedFileFromSpec` | src/Uploader.php:210-228 | the result has the keys and nesting of the descriptor's `tmp_name` |
| `Normalizer.NormalizeNestedFileSpec` | src/Uploader.php:240-256 | one entry per key of `tmp_name`, in its order, each shaped like `tmp_name[k]` |
| `Normalizer.NestedFrom` | src/Uploader.php:244-253 | entry k is built from `tmp_name[k]`, `size[k]`, `error[k]`, `name[k]` and `type[k]` |
| `Normalizer.EncodeRoundTrip` | src/Uploader.php:210-256 | decomposing PHP's parallel-array layout of a nested field gives the field back |
| `Normalizer.DescriptorNormalizes` | src/Uploader.php:188-189 | the descriptor PHP writes for a field normalizes to that field |
| `Normalizer.SingleDescriptor` | src/Uploader.php:210-228 | a descriptor with a string `tmp_name` becomes one file holding its temporary name, client name and type, with size and error code passed through `(int)` |
| `Normalizer.DecimalStringDescriptor` | src/Uploader.php:219-226 | a descriptor whose size and error code are decimal strings becomes a file holding those numbers |
| `Normalizer.SubmissionRoundTrip` | src/Uploader.php:181-199 | normalizing the `$_FILES` array of a submission gives the submitted files back |
| `Validation.TransportError` | src/Uploader.php:72-89 | exactly the codes INI_SIZE, FORM_SIZE, PARTIAL, NO_FILE, NO_TMP_DIR, CANT_WRITE and EXTENSION raise an error; INI_SIZE and FORM_SIZE raise SizeLimitExceeded, PARTIAL Incomplete, NO_FILE NoFileUploaded, NO_TMP_DIR and CANT_WRITE DirectoryNotWritable, EXTENSION ExtensionRejected; OK and unlisted codes fall through |
| `Validation.CheckFile` | src/Uploader.php:70-128 | a file passes exactly when accepted; an error code wins over the rules; a size failure gives MaxSizeRejected, and a type failure after the size rule passed gives TypeRejected with the allowed types; rule failures are reported under the client filename, or "file" |
| `Validation.FirstFailure` | src/Uploader.php:70-129 | the flat pass succeeds exactly when every file is accepted; a failure is that of a file all of whose predecessors are accepted |
| `Validation.Validate` | src/Uploader.php:66-129 | the depth-first pass over the tree has the outcome of the flat first-failure pass over its leaves |
| `Validation.ValidatePassesIff` | src/Uploader.php:66-129 | the pass succeeds exactly when every file of the tree is accepted |
| `Paths.TokenOfTargetPath` | src/Uploader.php:146-154 | the token can be read back from the target path |
| `Paths.DistinctTokensDistinctPaths` | src/Uploader.php:146-154 | different tokens give different target paths, whatever the date and extensions |
| `Paths.DefaultLocalPath` | src/Uploader.php:147-154 | with no options the path is `upload/Y/m/d/token.ext` |
| `Paths.LocalPath` | src/Uploader.php:146-154 | with the local adapter and a configured `basePath`, the path is `basePath/Y/m/d/token.ext` |
| `Paths.LocalDefaultBasePath` | src/Uploader.php:146-154 | with the local adapter and `basePath` unset or null, the path is `upload/Y/m/d/token.ext` |
| `Paths.UnknownTypePath` | src/Uploader.php:146 | any media type the table does not know leaves a bare trailing dot |
| `Paths.OtherAdapterPath` | src/Uploader.php:146-147 | an adapter other than the local one gives the bare `token.ext` |
| `Paths.LooseAdapterComparison` | src/Uploader.php:147 | the adapter test is PHP 7 loose equality: `true` and 0 count as local, `local` does not |
| `Paths.IsLocalAdapter` | src/Uploader.php:147 | the adapter test; stated by `Paths.LooseAdapterComparison` |
| `Paths.Directory` | src/Uploader.php:147-154 | the dated directory below `basePath` ("upload" when unset) for the local adapter, none otherwise; stated by `Paths.LocalPath`, `Paths.LocalDefaultBasePath`, `Paths.DefaultLocalPath`, `Paths.OtherAdapterPath` and `Paths.DirectoryWidth` |
| `Paths.TargetPath` | src/Uploader.php:146-154 | directory, token, dot and extension; stated by `Paths.LocalPath`, `Paths.LocalDefaultBasePath`, `Paths.TokenOfTargetPath`, `Paths.DistinctTokensDistinctPaths`, `Paths.DefaultLocalPath`, `Paths.OtherAdapterPath` and `Paths.UnknownTypePath` |
| `Mover.MoveFile` | src/Uploader.php:146-165 | a token is drawn for every file; the move succeeds exactly when the temporary file was not moved before, and then marks it moved |
| `Mover.Record` | src/Uploader.php:158-165 | a record holds the target path, the `adapter` and `domain` options (null when unset) and the file's client name, size and client type |
| `Mover.DoMove` | src/Uploader.php:140-172 | the result has the keys and nesting of the input; the moved set only grows; every failure is MoveFailed |
| `Mover.DoMoveIsMoveAll` | src/Uploader.php:144-169 | the tree walk moves the files in depth-first order, with the same outcome and state as moving the leaves one by one |
| `Mover.DoMoveSucceedsIff` | src/Uploader.php:144-169 | the walk succeeds exactly when no leaf's temporary file was moved before or appears twice |
| `Mover.DoMoveSuccess` | src/Uploader.php:144-169 | on success the leaves of the result are the files' records in order, the i-th under token i; all files are then moved and one token is drawn per file |
| `Mover.DoMoveFailure` | src/Uploader.php:144-169 | on failure the walk stopped at the first clash; the files before it stay moved, and one token was drawn for each up to it |
| `Pipeline.Resolve` | src/Uploader.php:46-62 | fails exactly for a missing or empty field; a handle, or a field holding one, is wrapped under key 0 in single mode; an explicit array, or a field holding an array, is the selection itself in multiple mode; the selected files are the leaves of the selection |
| `Pipeline.Move` | src/Uploader.php:44-134 | an empty field fails before anything changes; the moved set only grows; the answer is a single record exactly in single mode |
| `Pipeline.MoveValidationFailure` | src/Uploader.php:64-131 | when a selected file fails validation, the call fails with the first failure and moves nothing |
| `Pipeline.MoveSucceedsIff` | src/Uploader.php:44-134 | `move` succeeds exactly when the selection resolves, every selected file is accepted, and all are fresh |
| `Pipeline.MoveSuccess` | src/Uploader.php:131-165 | a successful call answers with one record per selected file in order; every file is moved and one token is drawn per file |
| `Pipeline.MoveIsDoMove` | src/Uploader.php:130-132 | a successful `move` leaves the state of the walk over the selection and answers with its records in depth-first order |
| `Pipeline.MoveAnswerShape` | src/Uploader.php:130-132 | a successful call that answers with an array selected an array, and the answer has the keys and nesting of the selected array |
| `Pipeline.MoveAbortsAtClash` | src/Uploader.php:144-157 | validated files are moved up to the first clash, which fails the call; those before it stay moved |
| `Pipeline.MoveOnlyOnce` | src/Uploader.php:40-41 | moving the same non-empty selection again fails on its first file |
| `Pipeline.MovePathsDistinct` | src/Uploader.php:146-154 | two successive moves under a non-repeating, dot-free `uniqid()` put every file on its own path |
| `Scenarios.AvatarUploader` | src/Uploader.php:19-24 | a one-file submission yields an uploader holding that file under the field name |
| `Scenarios.MoveAvatar` | src/Uploader.php:44-165 | moving that field answers with the single record `upload/2024/05/17/<token>.png` and marks the file moved |
| `Scenarios.MoveAvatarTwice` | src/Uploader.php:40-41 | a second move of the field fails on its temporary file |
| `Scenarios.RejectReport` | src/Uploader.php:108-126 | a PDF where only PNG is allowed is rejected under its client filename, and nothing moves |
| `Scenarios.EmptyFields` | src/Uploader.php:53-55 | a missing field and a field holding an empty array are both refused |

## Left out

- Reading the `$_FILES` superglobal: the constructor takes the submission as a parameter.
- The dynamically named handle class (`Kof\Psr7\{adapter}UploadedFile`) and the options passed to it. A handle is a plain record of what its constructor receives.
- `is_dir`, `mkdir` and `chmod` on the target directory are not modelled.
- `moveTo` failures other than moving the same temporary file twice are not modelled. Real I/O errors are outside the model, and the one-shot rule is keyed by temporary file name.
- `uniqid()` and `date()` are parameters. One clock value serves a whole call, and nothing is assumed about `uniqid()` except where a lemma requires it.
- The Phalcon validation machinery and the `MaxSize` validator are not modelled: the size rule is a parameter. Error messages are constructors, not strings.
- Validation.CheckFile: the `InclusionIn` rule is modelled as strict membership of the media type in the `allowedTypes` values. Phalcon's loose comparison between values of different types is not modelled.
- `move` with an explicit array: the model takes a tree of handles. Scalars inside such an array, which `move` skips during validation and `_doMove` recurses into, are not modelled.
- `RecursiveArrayIterator`'s descent into object properties is not modelled; validation is a plain depth-first walk over arrays.
- Php.Merge: `array_merge` renumbers integer keys; the model treats every key as a string key, which is what the option arrays hold.
- Php.ToInt: the `(int)` cast of a string reads optional white space, a sign and decimal digits. It does not handle exponents or saturation at 64 bits.
- Php.Index: an offset into a value that is not an array reads as null. PHP would read a character of a string there. PHP writes arrays into every field of a multi-file descriptor, so this only matters for hand-built submissions.
- Floating-point values are not modelled, and neither is the string conversion of objects.
- PHP 8 string-to-number comparison is not modelled: the adapter test follows PHP 7's loose `==`.
- The extension table reaches a move through its `Context`. `Pipeline.MoveContext` supplies the real table, and the lemmas about moves hold for any table.
- src/Functions.php (`getClientIp`, `getRootDomain`, `getRandString`) is not part of this model. It depends on `$_SERVER`, static caches, PCRE and randomness.
