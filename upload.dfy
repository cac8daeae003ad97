/** Upload routing (`uploadFileS3`): open the file, then send it with one PUT
    or through the multipart uploader depending on its size. The transfers
    themselves are remote calls whose outcome is given. */
module Upload {
  import opened SyncTypes

  /** The outcome each remote transfer would have for this file: a single
      `PutObject`, or the whole multipart upload (rewind, part uploads and
      completion taken together). Only the one the routing picks is used. */
  datatype Transport = Transport(putOk: bool, multipartOk: bool)

  /** Go's `(int64, error)` result: the bytes reported and the error. */
  datatype Uploaded = Uploaded(bytes: int, err: Option<Error>)

  /** The routing rule: strictly larger than the threshold goes multipart. */
  predicate UsesMultipart(fileSize: int)
  {
    fileSize > MultipartThreshold
  }

  /** `uploadFileS3`. The open is checked first; a success reports exactly
      the size it was given and a failure reports 0 bytes. */
  function UploadFileS3(fileSize: int, openOk: bool, transport: Transport): (r: Uploaded)
    ensures r.err.None? ==> r.bytes == fileSize
    ensures r.err.Some? ==> r.bytes == 0
    ensures !openOk ==> r.err == Some(OpenFailed)
    ensures r.err.None? <==>
      openOk && (if UsesMultipart(fileSize) then transport.multipartOk else transport.putOk)
  {
    if !openOk then Uploaded(0, Some(OpenFailed))
    else if fileSize > MultipartThreshold then
      if transport.multipartOk then Uploaded(fileSize, None) else Uploaded(0, Some(MultipartFailed))
    else if !transport.putOk then Uploaded(0, Some(PutFailed))
    else Uploaded(fileSize, None)
  }

  /** A file above the threshold never issues a single PUT: its result does
      not depend on what a PUT would have done. */
  lemma LargeFileNeverPuts(fileSize: int, openOk: bool, t1: Transport, t2: Transport)
    requires UsesMultipart(fileSize) && t1.multipartOk == t2.multipartOk
    ensures UploadFileS3(fileSize, openOk, t1) == UploadFileS3(fileSize, openOk, t2)
  {
  }

  /** A file at or below the threshold never goes multipart. */
  lemma SmallFileNeverGoesMultipart(fileSize: int, openOk: bool, t1: Transport, t2: Transport)
    requires !UsesMultipart(fileSize) && t1.putOk == t2.putOk
    ensures UploadFileS3(fileSize, openOk, t1) == UploadFileS3(fileSize, openOk, t2)
  {
  }

  /** The cases of main_unit_test.go's uploadFileS3 suite, and the boundary:
      a file of exactly the threshold is sent with one PUT. */
  lemma UploadExamples(t: Transport)
    ensures UploadFileS3(18, true, Transport(true, false)) == Uploaded(18, None)
    ensures UploadFileS3(100, false, t) == Uploaded(0, Some(OpenFailed))
    ensures UploadFileS3(12, true, Transport(false, true)) == Uploaded(0, Some(PutFailed))
    ensures UploadFileS3(MultipartThreshold, true, Transport(true, false)) == Uploaded(MultipartThreshold, None)
  {
  }
}
