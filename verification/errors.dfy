/** The exceptions the uploader throws, one constructor per message. */
module Errors {
  import opened Php

  datatype Error =
    /** A raw submission entry is neither an uploaded file nor an array
        ("Invalid value in files specification"). */
    | InvalidFilesSpecification
    /** The selected field is absent or empty ("Field … must not be empty"). */
    | EmptyField(name: Key)
    /** Error code INI_SIZE or FORM_SIZE: the upload exceeded a size limit. */
    | SizeLimitExceeded
    /** Error code PARTIAL: the upload is incomplete. */
    | Incomplete
    /** Error code NO_FILE: nothing was uploaded. */
    | NoFileUploaded
    /** Error code NO_TMP_DIR or CANT_WRITE: the upload directory is not writable. */
    | DirectoryNotWritable
    /** Error code EXTENSION: an extension stopped the upload. */
    | ExtensionRejected
    /** The max-size rule rejected the file reported under `field`. */
    | MaxSizeRejected(field: Value)
    /** The media type of the file reported under `field` is not in `domain`
        ("File :field must be of type: :domain"). */
    | TypeRejected(field: Value, domain: seq<Value>)
    /** Moving the temporary file failed: it was already moved. */
    | MoveFailed(tmpName: Value)
}
