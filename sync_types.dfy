/** Values shared by every stage of one sync cycle: the size threshold that
    main.go fixes as a constant, optional values, results, and the errors the
    engine reports. Each error constructor names the message prefix the Go code
    wraps around the underlying cause; the cause itself (an AWS or OS error
    value) is not modelled. */
module SyncTypes {

  /** Files strictly larger than this many bytes skip the MD5 comparison and
      are uploaded through the multipart uploader (100 MiB). */
  const MultipartThreshold: int := 100 * 1024 * 1024

  datatype Option<+T> = None | Some(value: T)

  /** Go's `(value, error)` pair where the value is meaningless on error. */
  datatype Result<+T> = Ok(value: T) | Err(error: Error)

  datatype Error =
    | IgnoreFileUnopenable          // opening .syncignore failed for a reason other than absence
    | IgnoreFileReadFailed          // "error reading .syncignore file: ..."
    | WalkFailed                    // an error handed to, or raised by, the filepath.Walk callback
    | HeadObjectFailed              // "error checking S3 object: ..." (HEAD failed, not with 404)
    | StatFailed                    // "failed to stat local file: ..."
    | HashFailed                    // "error calculating local file hash: ..."
    | OpenFailed                    // "failed to open file: ..."
    | PutFailed                     // "failed to upload file to S3: ..."
    | MultipartFailed               // "failed to upload file via multipart: ..." or a failed rewind
    | UploadFailed(path: string, cause: Error)   // "failed to upload <path>: <cause>"
    | UploadErrors(failures: seq<Error>)         // "upload errors occurred: [...]"
    | ListFailed                    // "failed to delete files from S3: ..." (listing failed)
}
