/** The HTTP front of the resume parser. `POST /upload` checks the file name's
    extension, writes a `Resumes` record, stores the file and advances the record's
    status; `GET /status/{id}` reads the record back; `GET /resumes` pages through a
    table scan until it holds `limit` records. The table and the bucket are the
    fields of a `ResumeStore`; whether each AWS call raises is a parameter. */
module ResumeApi {
  import opened Wrappers
  import opened Text
  import opened Seqs
  import opened Http

  /** A record of the `Resumes` table. The worker fills in `aiResponse` (the parsed
      reply, its values kept as JSON text) or `errorMessage`. */
  datatype ResumeItem = ResumeItem(
    status: string,
    createdAt: Option<string>,
    mimeType: Option<string>,
    aiResponse: Option<map<string, string>>,
    errorMessage: Option<string>)

  const InProgress := "upload_in_progress"
  const Finished := "upload_finished"
  const Failed := "error"

  /** `update_item` with `SET #status = :status`: DynamoDB upserts, so an absent record
      comes into being holding only its key and its status. */
  function WithStatus(items: map<string, ResumeItem>, id: string, status: string): (r: map<string, ResumeItem>)
    ensures r.Keys == items.Keys + {id} && r[id].status == status
    ensures forall k :: k in items && k != id ==> r[k] == items[k]
  {
    items[id := if id in items then items[id].(status := status) else ResumeItem(status, None, None, None, None)]
  }

  /** Updating the status of a record just put replaces that record's status. */
  lemma StatusOfPut(items: map<string, ResumeItem>, id: string, record: ResumeItem, status: string)
    ensures WithStatus(items[id := record], id, status) == items[id := record.(status := status)]
  {
  }

  /** What an AWS call raises: botocore's `ClientError`, or any other exception; the
      message is `str(e)`. */
  datatype Failure = ClientError(message: string) | OtherError(message: string)

  /** The three AWS calls of an upload, in order. */
  datatype Step = PutItem | UploadObject | UpdateStatus

  /** Which call of the upload raises, if any. */
  datatype Fault = NoFault | FailsAt(step: Step, failure: Failure)

  const NoFileDetail := "No file provided"
  const InvalidTypeDetail := "Invalid file type. Supported formats: PDF, PNG, JPG"
  const Supported: seq<string> := ["pdf", "png", "jpg", "jpeg"]

  /** `filename.split('.')[-1]`. */
  function LastPart(name: string): string {
    var parts := Split(name, '.');
    parts[|parts| - 1]
  }

  /** `filename.split('.')[-1].lower()`. */
  function FileExtension(name: string): string {
    Lower(LastPart(name))
  }

  /** The upload accepts the file. */
  predicate Accepted(name: string) {
    FileExtension(name) in Supported
  }

  /** The extension is the text after the last dot, lower-cased. */
  lemma FileExtensionSpec(name: string)
    ensures FileExtension(name) == Lower(name[LastIndex(name, '.') + 1..])
  {
    LastPartSpec(name);
  }

  /** The last part is the text after the last dot. */
  lemma LastPartSpec(name: string)
    ensures LastPart(name) == name[LastIndex(name, '.') + 1..]
  {
    SplitLastPart(name, '.');
  }

  /** A name without a dot is its own extension, so a file named `pdf` is accepted. */
  lemma FileExtensionNoDot(name: string)
    requires '.' !in name
    ensures FileExtension(name) == Lower(name)
  {
    SplitNoSep(name, '.');
  }

  /** A file named `pdf` is accepted. */
  lemma AcceptedBareExtension()
    ensures Accepted("pdf")
  {
    FileExtensionNoDot("pdf");
    assert Lower("pdf") == "pdf";
  }

  /** The check ignores case. */
  lemma AcceptedUpperCase()
    ensures Accepted("CV.PDF")
  {
    var name := "CV.PDF";
    assert name[2] == '.' && name[3..] == "PDF";
    ExtensionAfter(name, 2);
    assert Lower("PDF") == "pdf";
  }

  /** Only the text past the last dot counts. */
  lemma RejectedDoubleExtension()
    ensures !Accepted("cv.pdf.exe")
  {
    var name := "cv.pdf.exe";
    assert name[6] == '.' && name[7..] == "exe";
    ExtensionAfter(name, 6);
    var ext := FileExtension(name);
    assert ext[0] == LowerChar('e') == 'e';
    UnsupportedInitial(ext);
  }

  /** Every supported extension starts with `p` or `j`. */
  lemma UnsupportedInitial(ext: string)
    requires ext != [] && ext[0] != 'p' && ext[0] != 'j'
    ensures ext !in Supported
  {
    assert forall s :: s in Supported ==> s[0] == 'p' || s[0] == 'j';
  }

  /** When the dot at `d` is the last one, the extension is the lower-cased text after it. */
  lemma ExtensionAfter(name: string, d: nat)
    requires d < |name| && name[d] == '.'
    requires forall k :: d < k < |name| ==> name[k] != '.'
    ensures FileExtension(name) == Lower(name[d + 1..])
  {
    FileExtensionSpec(name);
    var i := LastIndex(name, '.');
    assert !(i < d);
    assert !(d < i);
  }

  /** The object key `f"{file_id}.{file_extension}"`. */
  function ObjectKey(id: string, ext: string): string {
    id + "." + ext
  }

  /** The text of `str(uuid.uuid4())`: 32 lower-case hex digits in groups of 8, 4, 4,
      4 and 12, joined by dashes. */
  predicate IsUuid(id: string) {
    |id| == 36
    && forall i :: 0 <= i < |id| ==>
         if i == 8 || i == 13 || i == 18 || i == 23 then id[i] == '-'
         else '0' <= id[i] <= '9' || 'a' <= id[i] <= 'f'
  }

  /** Every key of the bucket holds a dot. */
  predicate KeysDotted(objects: set<string>) {
    forall k :: k in objects ==> '.' in k
  }

  /** Storing an object under an upload's key keeps every key dotted. */
  lemma StoreKeepsDotted(objects: set<string>, id: string, ext: string)
    requires KeysDotted(objects)
    ensures KeysDotted(objects + {ObjectKey(id, ext)})
  {
    assert ObjectKey(id, ext)[|id|] == '.';
  }

  /** An id `uuid4` gives holds no dot, so it is never the key of an upload. */
  lemma UuidNotUploadKey(id: string, other: string, ext: string)
    requires IsUuid(id)
    ensures '.' !in id && id != ObjectKey(other, ext)
  {
    forall i | 0 <= i < |id| ensures id[i] != '.' {
    }
    assert ObjectKey(other, ext)[|other|] == '.';
  }

  /** The body of a successful upload. */
  datatype UploadResponse = UploadResponse(id: string, status: string, message: string)

  /** The status `GET /status` raises for a missing record, before the catch-all
      handler wraps it. */
  const NotFound := HttpError(404, "File not found")

  /** The `Resumes` table, by id, and the keys of the `resumes` bucket. `log` records
      every status written, in order, with the record it was written to. */
  class ResumeStore {
    var items: map<string, ResumeItem>
    var objects: set<string>
    ghost var log: seq<(string, string)>

    /** Every stored object was stored by an upload, under a key with a dot. */
    predicate Dotted()
      reads this
    {
      KeysDotted(objects)
    }

    constructor()
      ensures items == map[] && objects == {} && log == []
      ensures Dotted()
    {
      items := map[];
      objects := {};
      log := [];
    }

    /** `upload_file`: an empty name or an unsupported extension is a 400 before
        anything is written. Otherwise the record is put as `upload_in_progress`, the
        object is stored under `id.ext` and the status becomes `upload_finished`. A
        `ClientError` from any of these marks the record `error` and is a 500 naming
        the AWS error; any other exception is a 500 that leaves the status as it was. */
    method UploadFile(filename: Option<string>, mimeType: Option<string>, fileId: string, now: string, fault: Fault)
      returns (r: Result<UploadResponse, HttpError>)
      modifies this
      ensures (filename.None? || filename.value == []) ==>
                r == Err(HttpError(400, NoFileDetail)) && unchanged(this)
      ensures filename.Some? && filename.value != [] && !Accepted(filename.value) ==>
                r == Err(HttpError(400, InvalidTypeDetail)) && unchanged(this)
      ensures filename.Some? && filename.value != [] && Accepted(filename.value) ==>
                var record := ResumeItem(InProgress, Some(now), mimeType, None, None);
                var key := ObjectKey(fileId, FileExtension(filename.value));
                match fault
                case NoFault =>
                  r == Ok(UploadResponse(fileId, Finished, "File uploaded successfully"))
                  && items == old(items)[fileId := record.(status := Finished)]
                  && objects == old(objects) + {key}
                  && log == old(log) + [(fileId, InProgress), (fileId, Finished)]
                case FailsAt(step, ClientError(m)) =>
                  r == Err(HttpError(500, "AWS error: " + m))
                  && items == (if step == PutItem then WithStatus(old(items), fileId, Failed)
                               else old(items)[fileId := record.(status := Failed)])
                  && objects == old(objects) + (if step == UpdateStatus then {key} else {})
                  && log == old(log) + (if step == PutItem then [] else [(fileId, InProgress)]) + [(fileId, Failed)]
                case FailsAt(step, OtherError(m)) =>
                  r == Err(HttpError(500, "Unexpected error: " + m))
                  && items == (if step == PutItem then old(items) else old(items)[fileId := record])
                  && objects == old(objects) + (if step == UpdateStatus then {key} else {})
                  && log == old(log) + (if step == PutItem then [] else [(fileId, InProgress)])
      ensures old(Dotted()) ==> Dotted()
    {
      if filename.None? || filename.value == [] {
        return Err(HttpError(400, NoFileDetail));
      }
      var ext := FileExtension(filename.value);
      if ext !in Supported {
        return Err(HttpError(400, InvalidTypeDetail));
      }
      var failure: Option<Failure> := None;
      if fault.FailsAt? && fault.step == PutItem {
        failure := Some(fault.failure);
      } else {
        items := items[fileId := ResumeItem(InProgress, Some(now), mimeType, None, None)];
        log := log + [(fileId, InProgress)];
        if fault.FailsAt? && fault.step == UploadObject {
          failure := Some(fault.failure);
        } else {
          if Dotted() {
            StoreKeepsDotted(objects, fileId, ext);
          }
          objects := objects + {ObjectKey(fileId, ext)};
          if fault.FailsAt? {
            failure := Some(fault.failure);
          } else {
            StatusOfPut(old(items), fileId, items[fileId], Finished);
            items := WithStatus(items, fileId, Finished);
            log := log + [(fileId, Finished)];
            return Ok(UploadResponse(fileId, Finished, "File uploaded successfully"));
          }
        }
      }
      match failure.value
      case ClientError(m) =>
        StatusOfPut(old(items), fileId, ResumeItem(InProgress, Some(now), mimeType, None, None), Failed);
        items := WithStatus(items, fileId, Failed);
        log := log + [(fileId, Failed)];
        return Err(HttpError(500, "AWS error: " + m));
      case OtherError(m) =>
        return Err(HttpError(500, "Unexpected error: " + m));
    }

    /** `get_status`: the record when it exists. The 404 for a missing record is raised
        inside the `try`, so the catch-all turns it into a 500 whose detail quotes it:
        the endpoint never answers 404. */
    method GetStatus(fileId: string, failure: Option<Failure>) returns (r: Result<ResumeItem, HttpError>)
      ensures failure.None? ==> (r.Ok? <==> fileId in items)
      ensures failure.None? && r.Ok? ==> r.value == items[fileId]
      ensures failure.None? && fileId !in items ==>
                r == Err(HttpError(500, "Unexpected error: " + Described(NotFound)))
      ensures failure.Some? && failure.value.ClientError? ==>
                r == Err(HttpError(500, "DynamoDB error: " + failure.value.message))
      ensures failure.Some? && failure.value.OtherError? ==>
                r == Err(HttpError(500, "Unexpected error: " + failure.value.message))
      ensures r.Err? ==> r.error.status == 500
    {
      if failure.Some? {
        match failure.value
        case ClientError(m) => return Err(HttpError(500, "DynamoDB error: " + m));
        case OtherError(m) => return Err(HttpError(500, "Unexpected error: " + m));
      }
      var raised: Option<HttpError> := None;
      if fileId !in items {
        raised := Some(NotFound);
      }
      if raised.Some? {
        return Err(HttpError(500, "Unexpected error: " + Described(raised.value)));
      }
      return Ok(items[fileId]);
    }
  }

  /** The missing record's detail reads `Unexpected error: 404: File not found`: the
      caught 404 is described as `404: File not found`. */
  lemma NotFoundDetail()
    ensures Described(NotFound) == "404: File not found"
  {
    NotFoundDigits();
    assert NotFound.detail == "File not found";
  }

  /** The status code of the missing record is written `404`. */
  lemma NotFoundDigits()
    ensures Digits(NotFound.status) == "404"
  {
    assert Digits(4) == "4" && Digits(0) == "0";
    assert Digits(40) == Digits(4) + Digits(0);
    assert Digits(404) == Digits(40) + Digits(4);
  }

  /** The arguments of `table.scan`: the page size, and a status filter. */
  datatype ScanParams = ScanParams(limit: nat, statusFilter: Option<string>)

  /** The filter is added exactly when the `status` query parameter is non-empty. */
  function ScanRequest(limit: nat, status: Option<string>): (p: ScanParams)
    ensures p.limit == limit
    ensures p.statusFilter.Some? <==> status.Some? && status.value != []
    ensures p.statusFilter.Some? ==> p.statusFilter == status
  {
    ScanParams(limit, if status.Some? && status.value != [] then status else None)
  }

  /** The scan loop of `list_resumes`. `pages` are the `Items` of the successive scan
      responses; every response but the last carries a `LastEvaluatedKey`. DynamoDB
      evaluates at most `limit` records per call, so the first page holds no more. The
      result is the first `limit` records of the scan, or all of them when the scan
      holds fewer. */
  method ListResumes(limit: nat, pages: seq<seq<ResumeItem>>) returns (items: seq<ResumeItem>)
    requires |pages| >= 1 && |pages[0]| <= limit
    ensures |items| <= limit
    ensures |items| <= |Concat(pages)| && items == Concat(pages)[..|items|]
    ensures |items| == if |Concat(pages)| < limit then |Concat(pages)| else limit
  {
    items := pages[0];
    var n := 1;
    assert pages[..1] == [pages[0]];
    assert Concat(pages[..1]) == pages[0] + Concat([]);
    ConcatPrefix(pages, 1);
    while n < |pages| && |items| < limit
      invariant 1 <= n <= |pages|
      invariant |items| <= limit
      invariant items == Concat(pages[..n])
      invariant |items| <= |Concat(pages)| && items == Concat(pages)[..|items|]
    {
      assert pages[..n + 1] == pages[..n] + [pages[n]];
      ConcatAppend(pages[..n], pages[n]);
      items := items + pages[n];
      n := n + 1;
      ConcatPrefix(pages, n);
      if |items| >= limit {
        items := items[..limit];
        break;
      }
    }
    if n == |pages| {
      assert pages[..n] == pages;
    }
  }

  /** What leaves `list_resumes` when a scan raises. */
  datatype ListFailure = Raised(error: HttpError) | Uncaught(exception: string)

  /** As written: the `status` query parameter shadows the `fastapi.status` module,
      so both handlers raise `AttributeError` while building the 500, and the
      exception escapes the endpoint. */
  function ScanFailureAsWritten(status: Option<string>, failure: Failure): ListFailure {
    Uncaught("AttributeError: '" + (if status.None? then "NoneType" else "str")
             + "' object has no attribute 'HTTP_500_INTERNAL_SERVER_ERROR'")
  }

  /** What the handlers evidently mean: a 500 naming the DynamoDB error or the
      unexpected one. */
  function ScanFailure(failure: Failure): ListFailure {
    match failure
    case ClientError(m) => Raised(HttpError(500, "DynamoDB error: " + m))
    case OtherError(m) => Raised(HttpError(500, "Unexpected error: " + m))
  }

  /** Whatever the query and the failure, the handler as written raises no HTTP error:
      the detail it builds never reaches the client. */
  lemma StatusShadowsModule(status: Option<string>, failure: Failure)
    ensures ScanFailureAsWritten(status, failure).Uncaught?
    ensures ScanFailureAsWritten(status, failure) != ScanFailure(failure)
  {
  }

  /** The intended handlers answer 500 and tell a DynamoDB error from any other by the
      detail's prefix, and keep the failure's message. */
  lemma ScanFailureSpec(failure: Failure)
    ensures ScanFailure(failure).Raised? && ScanFailure(failure).error.status == 500
    ensures var d := ScanFailure(failure).error.detail;
            (failure.ClientError? <==> |d| >= 16 && d[..16] == "DynamoDB error: ")
            && d[|d| - |failure.message|..] == failure.message
  {
    var d := ScanFailure(failure).error.detail;
    if failure.OtherError? {
      assert d[..16] != "DynamoDB error: " by { assert d[0] == 'U'; }
    }
  }
}
