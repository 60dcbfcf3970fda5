/** Where the resume service stores an upload: the object key is
    `incoming/<processing id><extension>`, the extension being the one
    `os.path.splitext` finds in the original file name, and the content type is looked
    up from that extension without regard to case. */
module S3Keys {
  import opened Wrappers
  import opened Text

  /** Some character of `p[from..to]` is not a dot. */
  predicate HasNonDot(p: string, from: int, to: int)
    requires 0 <= from && to <= |p|
  {
    exists k :: from <= k < to && p[k] != '.'
  }

  /** Where the final path component of `p` starts. */
  function FinalStart(p: string): (start: nat)
    ensures start <= |p|
    ensures forall k :: start <= k < |p| ==> p[k] != '/'
  {
    LastIndex(p, '/') + 1
  }

  /** `os.path.splitext(p)` on POSIX paths: the extension runs from the last dot of
      the final component, provided something other than dots comes before that dot in
      the component; otherwise it is empty. */
  function SplitExt(p: string): (r: (string, string))
    ensures r.0 + r.1 == p
  {
    var start, dot := FinalStart(p), LastIndex(p, '.');
    if dot >= start && HasNonDot(p, start, dot) then (p[..dot], p[dot..]) else (p, "")
  }

  /** The extension of `p`. */
  function Extension(p: string): string {
    SplitExt(p).1
  }

  /** A well-formed extension: empty, or a dot followed by neither dots nor slashes. */
  predicate IsExtension(ext: string) {
    ext == [] || (ext[0] == '.' && forall j :: 0 < j < |ext| ==> ext[j] != '.' && ext[j] != '/')
  }

  /** The extension is non-empty exactly when the final component has a dot with
      something other than dots before it, and then it starts at the last dot. */
  lemma SplitExtSpec(p: string)
    ensures IsExtension(Extension(p))
    ensures Extension(p) != [] <==>
              exists k, i :: FinalStart(p) <= k < i < |p| && p[k] != '.' && p[i] == '.'
  {
    var start, dot := FinalStart(p), LastIndex(p, '.');
    var ext := Extension(p);
    if ext != [] {
      assert ext == p[dot..];
      var k :| start <= k < dot && p[k] != '.';
      assert FinalStart(p) <= k < dot < |p| && p[k] != '.' && p[dot] == '.';
      forall j | 0 < j < |ext| ensures ext[j] != '.' && ext[j] != '/' {
        assert ext[j] == p[dot + j];
      }
    }
    if exists k, i :: start <= k < i < |p| && p[k] != '.' && p[i] == '.' {
      var k, i :| start <= k < i < |p| && p[k] != '.' && p[i] == '.';
      assert i <= dot;
      assert HasNonDot(p, start, dot);
    }
  }

  /** Examples: a dot-file has no extension, and only the last extension of a double
      one counts. */
  lemma SplitExtExamples()
    ensures Extension(".bashrc") == ""
    ensures Extension("cv.tar.gz") == ".gz"
  {
    var dotfile := ".bashrc";
    assert forall k :: 0 <= k < |dotfile| ==> dotfile[k] != '/';
    assert FinalStart(dotfile) == 0;
    assert dotfile[0] == '.' && forall k :: 0 < k < |dotfile| ==> dotfile[k] != '.';
    assert LastIndex(dotfile, '.') == 0;
    var archive := "cv.tar.gz";
    assert forall k :: 0 <= k < |archive| ==> archive[k] != '/';
    assert FinalStart(archive) == 0;
    assert archive[6] == '.' && forall k :: 6 < k < |archive| ==> archive[k] != '.';
    assert LastIndex(archive, '.') == 6;
    assert archive[0] != '.';
    assert archive[6..] == ".gz";
  }

  /** `f"incoming/{processing_id}{file_extension}"`. */
  function UploadKey(processingId: string, filename: string): string {
    "incoming/" + processingId + Extension(filename)
  }

  /** `_get_content_type(file_extension)`. */
  function ContentType(ext: string): string {
    var e := Lower(ext);
    if e == ".pdf" then "application/pdf"
    else if e == ".jpg" || e == ".jpeg" then "image/jpeg"
    else if e == ".png" then "image/png"
    else "application/octet-stream"
  }

  /** The lookup ignores case: an extension and its lower-case form get the same type,
      and so do two extensions that differ only in case. */
  lemma ContentTypeIgnoresCase(a: string, b: string)
    ensures ContentType(a) == ContentType(Lower(a))
    ensures Lower(a) == Lower(b) ==> ContentType(a) == ContentType(b)
  {
    LowerIdempotent(a);
  }

  /** Only the four known extensions get a specific type; everything else is
      `application/octet-stream`. */
  lemma ContentTypeDefault(ext: string)
    ensures ContentType(ext) in {"application/pdf", "image/jpeg", "image/png", "application/octet-stream"}
    ensures ContentType(ext) == "application/octet-stream" <==>
              Lower(ext) !in {".pdf", ".jpg", ".jpeg", ".png"}
  {
  }

  /** `ContentType(".PDF")` and `ContentType(".JpEg")`. */
  lemma ContentTypeExamples()
    ensures ContentType(".PDF") == "application/pdf"
    ensures ContentType(".JpEg") == "image/jpeg"
    ensures ContentType("") == "application/octet-stream"
  {
    assert Lower(".PDF") == ".pdf";
    assert Lower(".JpEg") == ".jpeg";
  }

  /** The object `put_object` writes. */
  datatype PutRequest = PutRequest(bucket: string, key: string, contentType: string)

  /** `S3Service(bucket).upload_file(content, filename, processing_id)`, the S3 call
      being `put`, which answers with the client error it raises, if any: the key is
      returned when the write succeeds, and the error is re-raised otherwise. */
  function UploadFile(bucket: string, filename: string, processingId: string,
                      put: PutRequest -> Option<string>): Result<string, string>
  {
    var ext := Extension(filename);
    var request := PutRequest(bucket, UploadKey(processingId, filename), ContentType(ext));
    match put(request)
    case Some(error) => Err(error)
    case None => Ok(request.key)
  }

  /** An identifier with neither dots nor slashes, as `uuid4` produces. */
  predicate IsPlainId(id: string) {
    id != [] && forall j :: 0 <= j < |id| ==> id[j] != '.' && id[j] != '/'
  }

  /** The key keeps the file name's extension: splitting the key again yields the same
      extension, so the stored object's content type can be recovered from its key. */
  lemma KeyKeepsExtension(processingId: string, filename: string)
    requires IsPlainId(processingId)
    ensures Extension(UploadKey(processingId, filename)) == Extension(filename)
    ensures ContentType(Extension(UploadKey(processingId, filename))) == ContentType(Extension(filename))
  {
    var ext := Extension(filename);
    SplitExtSpec(filename);
    var prefix := "incoming/" + processingId;
    var key := prefix + ext;
    assert key == UploadKey(processingId, filename);
    assert key[8] == '/';
    assert forall j :: 9 <= j < |key| ==> key[j] != '/' by {
      forall j | 9 <= j < |key| ensures key[j] != '/' {
        if j < |prefix| {
          assert key[j] == processingId[j - 9];
        } else {
          assert key[j] == ext[j - |prefix|];
        }
      }
    }
    var sep := LastIndex(key, '/');
    assert sep == 8;
    assert FinalStart(key) == 9;
    var dot := LastIndex(key, '.');
    if ext == [] {
      assert key == prefix;
      forall j | 0 <= j < |key| ensures key[j] != '.' {
        if j >= 9 {
          assert key[j] == processingId[j - 9];
        }
      }
      assert dot == -1;
    } else {
      assert key[|prefix|] == '.';
      forall j | |prefix| < j < |key| ensures key[j] != '.' {
        assert key[j] == ext[j - |prefix|];
      }
      assert dot == |prefix|;
      assert key[9] == processingId[0] && key[9] != '.';
      assert HasNonDot(key, 9, dot);
      assert key[dot..] == ext;
    }
  }

  /** The key returned names the object that was written, in the upload folder, with
      the content type of the key's own extension; a failed write returns its error. */
  lemma UploadReturnsWrittenKey(bucket: string, filename: string, processingId: string,
                                put: PutRequest -> Option<string>)
    requires IsPlainId(processingId)
    ensures UploadFile(bucket, filename, processingId, put).Ok? ==>
              var key := UploadFile(bucket, filename, processingId, put).value;
              put(PutRequest(bucket, key, ContentType(Extension(key)))).None?
              && key[..9] == "incoming/" && key[9..9 + |processingId|] == processingId
    ensures UploadFile(bucket, filename, processingId, put).Err? ==>
              put(PutRequest(bucket, UploadKey(processingId, filename), ContentType(Extension(filename))))
                == Some(UploadFile(bucket, filename, processingId, put).error)
  {
    KeyKeepsExtension(processingId, filename);
  }
}
