/** Change detection (`fileChangedOnS3`): decides from the remote HEAD
    result, the local `os.Stat` result and, only when needed, the local MD5
    digest whether a file must be uploaded. */
module ChangeDetection {
  import opened SyncTypes
  import opened Text

  /** What HEAD on the object key returned. `NotFound` is an AWS request
      failure with status 404; `HeadError` is any other failure. */
  datatype HeadResult =
    | NotFound
    | HeadError
    | Found(size: int, lastModified: Option<int>, etag: string)

  /** What `os.Stat` on the local file returned; times are instants on one
      integer clock. */
  datatype StatResult = StatError | Stat(size: int, modTime: int)

  /** What `calculateMD5` on the local file returned: a failure, or the
      lower-case hex digest of its content. */
  datatype HashResult = HashError | Digest(hex: string)

  predicate IsQuote(c: char)
  {
    c == '"'
  }

  /** The ETag as the code compares it: `strings.Trim(etag, "\"")`. */
  function TrimmedETag(etag: string): (tag: string)
    ensures '-' in tag <==> '-' in etag
    ensures tag != [] ==> tag[0] != '"' && tag[|tag| - 1] != '"'
  {
    TrimKeeps(etag, IsQuote, '-');
    Trim(etag, IsQuote)
  }

  /** The compared tag is the ETag without its surrounding double quotes:
      only leading and trailing `"` are removed, and all of them. */
  lemma TrimmedETagStrips(etag: string)
    ensures StripsTo(etag, IsQuote, TrimmedETag(etag))
    ensures TrimmedETag(etag) != [] ==>
      TrimmedETag(etag)[0] != '"' && TrimmedETag(etag)[|TrimmedETag(etag)| - 1] != '"'
  {
    TrimStrips(etag, IsQuote);
  }

  /** `fileChangedOnS3`, its checks in the order the code makes them:
      404, other HEAD error, local stat, size, missing timestamp, freshness,
      large-file shortcut, then the MD5 digest against the ETag. */
  function FileChangedOnS3(head: HeadResult, stat: StatResult, hash: HashResult): (r: Result<bool>)
    ensures head.NotFound? ==> r == Ok(true)
    ensures head.HeadError? ==> r == Err(HeadObjectFailed)
    ensures head.Found? && stat.StatError? ==> r == Err(StatFailed)
    ensures r.Err? ==> r.error == HeadObjectFailed || r.error == StatFailed || r.error == HashFailed
  {
    match head
    case NotFound => Ok(true)
    case HeadError => Err(HeadObjectFailed)
    case Found(remoteSize, lastModified, etag) =>
      match stat
      case StatError => Err(StatFailed)
      case Stat(size, modTime) =>
        if remoteSize != size then Ok(true)
        else if lastModified.None? then Ok(true)
        else if !(modTime > lastModified.value) then Ok(false)
        else if size > MultipartThreshold then Ok(modTime > lastModified.value)
        else
          match hash
          case HashError => Err(HashFailed)
          case Digest(hex) =>
            var tag := TrimmedETag(etag);
            if '-' in tag then Ok(modTime > lastModified.value)
            else Ok(hex != tag)
  }

  /** A missing object is uploaded whatever the local file looks like: the
      decision is made before the local file is looked at. */
  lemma NotFoundIgnoresLocalFile(stat1: StatResult, hash1: HashResult, stat2: StatResult, hash2: HashResult)
    ensures FileChangedOnS3(NotFound, stat1, hash1) == FileChangedOnS3(NotFound, stat2, hash2) == Ok(true)
  {
  }

  /** A HEAD failure other than 404 is an error, never a decision. */
  lemma HeadErrorNeverDecides(stat: StatResult, hash: HashResult)
    ensures FileChangedOnS3(HeadError, stat, hash).Err?
  {
  }

  /** The complete condition for skipping an upload: the object exists with
      the local size and a timestamp, and either the local file is not newer
      than it, or the file is small, its digest is readable, the ETag is not a
      multipart tag and it equals the digest. */
  lemma {:induction false} SkipExactly(head: HeadResult, stat: StatResult, hash: HashResult)
    ensures FileChangedOnS3(head, stat, hash) == Ok(false) <==>
      head.Found? && stat.Stat? && head.size == stat.size && head.lastModified.Some?
      && (stat.modTime <= head.lastModified.value
          || (stat.size <= MultipartThreshold && hash.Digest?
              && '-' !in head.etag && hash.hex == TrimmedETag(head.etag)))
  {
    if head.Found? && stat.Stat? && head.size == stat.size && head.lastModified.Some?
       && stat.modTime > head.lastModified.value && stat.size <= MultipartThreshold && hash.Digest? {
      var tag := TrimmedETag(head.etag);
      assert '-' in tag <==> '-' in head.etag;
    }
  }

  /** The complete condition for an error: HEAD failed other than with 404,
      the local stat failed, or the digest was needed and could not be read. */
  lemma {:induction false} ErrorExactly(head: HeadResult, stat: StatResult, hash: HashResult)
    ensures FileChangedOnS3(head, stat, hash).Err? <==>
      head.HeadError?
      || (head.Found? && stat.StatError?)
      || (head.Found? && stat.Stat? && head.size == stat.size && head.lastModified.Some?
          && stat.modTime > head.lastModified.value && stat.size <= MultipartThreshold
          && hash.HashError?)
  {
  }

  /** With equal sizes and a local file not newer than the object, the file
      is skipped whatever its content, its digest or the ETag: the documented
      false negative of the freshness heuristic. */
  lemma NotNewerSkipsWhateverTheContent(size: int, lastModified: int, modTime: int,
                                        etag: string, hash: HashResult)
    requires modTime <= lastModified
    ensures FileChangedOnS3(Found(size, Some(lastModified), etag), Stat(size, modTime), hash) == Ok(false)
  {
  }

  /** Past the freshness check the local file is strictly newer, so the
      large-file branch always answers "upload" and never consults the
      digest: the `After` it returns cannot be false there. */
  lemma LargeNewerFileUploadsWithoutHash(size: int, lastModified: int, modTime: int,
                                         etag: string, hash1: HashResult, hash2: HashResult)
    requires size > MultipartThreshold && modTime > lastModified
    ensures FileChangedOnS3(Found(size, Some(lastModified), etag), Stat(size, modTime), hash1)
         == FileChangedOnS3(Found(size, Some(lastModified), etag), Stat(size, modTime), hash2)
         == Ok(true)
  {
  }

  /** For a small, strictly newer file the digest is computed before the
      ETag is inspected, so an unreadable file is an error even when the tag
      is a multipart tag; a readable one with a multipart tag is uploaded. */
  lemma SmallNewerMultipartTag(size: int, lastModified: int, modTime: int, etag: string, hex: string)
    requires size <= MultipartThreshold && modTime > lastModified && '-' in etag
    ensures FileChangedOnS3(Found(size, Some(lastModified), etag), Stat(size, modTime), HashError)
         == Err(HashFailed)
    ensures FileChangedOnS3(Found(size, Some(lastModified), etag), Stat(size, modTime), Digest(hex))
         == Ok(true)
  {
  }

  /** An MD5 digest as `calculateMD5` prints it: 32 lower-case hex digits. */
  predicate IsHexDigest(s: string)
  {
    |s| == 32 && forall k :: 0 <= k < |s| ==> ('0' <= s[k] <= '9' || 'a' <= s[k] <= 'f')
  }

  /** The ETag S3 reports for a single PUT is the digest in double quotes;
      trimming it gives the digest back. */
  lemma {:induction false} QuotedDigestTrims(hex: string)
    requires IsHexDigest(hex)
    ensures TrimmedETag("\"" + hex + "\"") == hex
  {
    var quoted := "\"" + hex + "\"";
    assert quoted[1..] == hex + "\"";
    assert (hex + "\"")[..|hex|] == hex;
    assert hex[0] != '"' && hex[|hex| - 1] != '"';
    assert Trim(quoted, IsQuote) == Trim(quoted[1..], IsQuote);
  }

  /** Re-evaluating a small file right after it was uploaded with a single PUT
      (so the object has its size and the quoted digest of its content as
      ETag) skips it, whatever the two clocks say. */
  lemma {:induction false} UnchangedAfterPutIsSkipped(size: int, lastModified: int, modTime: int, hex: string)
    requires size <= MultipartThreshold && IsHexDigest(hex)
    ensures FileChangedOnS3(Found(size, Some(lastModified), "\"" + hex + "\""), Stat(size, modTime), Digest(hex))
         == Ok(false)
  {
    QuotedDigestTrims(hex);
    assert '-' !in hex;
  }

  /** The cases of main_unit_test.go's fileChangedOnS3 suite: a new file,
      a size mismatch, a newer object, a large newer file and a multipart
      ETag on a small newer file. */
  lemma FileChangedExamples(now: int, hex: string)
    ensures FileChangedOnS3(NotFound, Stat(11, now), Digest(hex)) == Ok(true)
    ensures FileChangedOnS3(Found(100, Some(now), "\"abc123\""), Stat(12, now), Digest(hex)) == Ok(true)
    ensures FileChangedOnS3(Found(12, Some(now + 3600), "\"abc123\""), Stat(12, now), Digest(hex)) == Ok(false)
    ensures FileChangedOnS3(Found(MultipartThreshold + 1, Some(now - 3600), "\"abc123\""),
                            Stat(MultipartThreshold + 1, now), HashError) == Ok(true)
    ensures FileChangedOnS3(Found(13, Some(now - 3600), "\"abc123-5\""), Stat(13, now), Digest(hex)) == Ok(true)
    ensures FileChangedOnS3(HeadError, Stat(7, now), Digest(hex)) == Err(HeadObjectFailed)
  {
    TrimKeeps("\"abc123-5\"", IsQuote, '-');
  }
}
