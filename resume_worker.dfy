/** The Lambda that parses resumes. It reads the `Resumes` stream; for the first
    record whose status has just become `upload_finished` it marks the record
    `ai_thinking`, fetches the object, extracts the text, asks Gemini for the
    structured fields and stores them as `completed`, and returns. A failure marks the
    record `error` and re-raises. The S3 read, the PDF and image libraries and the
    Gemini call are parameters. */
module ResumeWorker {
  import opened Wrappers
  import opened Seqs
  import opened ResumeApi

  const Thinking := "ai_thinking"
  const Completed := "completed"
  const PdfType := "application/pdf"
  const PlaceholderText := "Sample resume text"
  const MissingApiKey := "GEMINI_API_KEY environment variable is not set"
  const NoSuchKey := "An error occurred (NoSuchKey) when calling the GetObject operation: The specified key does not exist."
  const RequiredFields: seq<string> := ["name", "email", "skills", "experience"]

  /** A stream record: its event name and the string attributes of its new and old
      images, `None` for an image the record does not carry. */
  datatype StreamRecord = StreamRecord(eventName: string, newImage: Option<map<string, string>>,
                                       oldImage: Option<map<string, string>>)

  /** `str(KeyError(key))`. */
  function KeyErrorMessage(key: string): string {
    "'" + key + "'"
  }

  /** The test of `lambda_handler`: only a `MODIFY` reads the images, both of them
      before any status is looked at; the old status is read only when the new one is
      `upload_finished`. A missing image or status raises `KeyError`. */
  function Triggers(r: StreamRecord): Result<bool, string> {
    if r.eventName != "MODIFY" then Ok(false)
    else if r.newImage.None? then Err(KeyErrorMessage("NewImage"))
    else if r.oldImage.None? then Err(KeyErrorMessage("OldImage"))
    else if "status" !in r.newImage.value then Err(KeyErrorMessage("status"))
    else if r.newImage.value["status"] != Finished then Ok(false)
    else if "status" !in r.oldImage.value then Err(KeyErrorMessage("status"))
    else Ok(r.oldImage.value["status"] != Finished)
  }

  /** A record is processed exactly when it is a `MODIFY` whose status changes into
      `upload_finished` from some other status. */
  lemma TriggersSpec(r: StreamRecord)
    ensures Triggers(r) == Ok(true) <==>
              r.eventName == "MODIFY" && r.newImage.Some? && r.oldImage.Some?
              && "status" in r.newImage.value && "status" in r.oldImage.value
              && r.newImage.value["status"] == Finished && r.oldImage.value["status"] != Finished
    ensures r.eventName != "MODIFY" ==> Triggers(r) == Ok(false)
    ensures r.eventName == "MODIFY" && r.newImage.None? ==> Triggers(r) == Err(KeyErrorMessage("NewImage"))
    ensures r.eventName == "MODIFY" && r.newImage.Some? && r.oldImage.None? ==> Triggers(r) == Err(KeyErrorMessage("OldImage"))
    ensures Triggers(r).Err? ==>
              r.eventName == "MODIFY"
              && (r.newImage.None? || r.oldImage.None? || "status" !in r.newImage.value || "status" !in r.oldImage.value)
  {
  }

  /** Where the records the handler reads end: the first that triggers, the first
      whose test raises, or the end of the batch. */
  function FirstTriggered(records: seq<StreamRecord>): (r: Result<Option<nat>, string>)
    ensures r.Ok? && r.value.Some? ==> r.value.value < |records| && Triggers(records[r.value.value]) == Ok(true)
    ensures r.Ok? ==> forall j :: 0 <= j < |records| && (r.value.None? || j < r.value.value) ==>
                        Triggers(records[j]) == Ok(false)
  {
    if records == [] then Ok(None)
    else match Triggers(records[0])
      case Err(e) => Err(e)
      case Ok(true) => Ok(Some(0))
      case Ok(false) =>
        match FirstTriggered(records[1..])
        case Err(e) => Err(e)
        case Ok(None) => Ok(None)
        case Ok(Some(i)) => Ok(Some(i + 1))
  }

  /** Once the records before `i` are all skipped, record `i` settles where the search
      ends: at its test's error, at `i` itself, or at the end of the batch. */
  lemma {:induction false} FirstTriggeredAt(records: seq<StreamRecord>, i: nat)
    requires i <= |records|
    requires forall j :: 0 <= j < i ==> Triggers(records[j]) == Ok(false)
    ensures i == |records| ==> FirstTriggered(records) == Ok(None)
    ensures i < |records| && Triggers(records[i]).Err? ==> FirstTriggered(records) == Err(Triggers(records[i]).error)
    ensures i < |records| && Triggers(records[i]) == Ok(true) ==> FirstTriggered(records) == Ok(Some(i))
    decreases i
  {
    if i > 0 {
      var rest := records[1..];
      assert forall j :: 0 <= j < i - 1 ==> rest[j] == records[j + 1];
      FirstTriggeredAt(rest, i - 1);
      assert Triggers(records[0]) == Ok(false);
      if i < |records| {
        assert rest[i - 1] == records[i];
      }
    }
  }

  /** An object's body: its bytes, and what PyPDF2 and PIL make of them: the text of
      each PDF page, or the error reading it raises; and the error opening it as an
      image raises, if any. */
  datatype Body = Body(bytes: seq<bv8>, pdfPages: Result<seq<string>, string>, imageError: Option<string>)

  /** What `get_object` returns: the body and the stored content type. */
  datatype S3Object = S3Object(body: Body, contentType: string)

  /** `extract_text_from_pdf`: the texts of the pages, one after the other. */
  method ExtractPdfText(pages: seq<string>) returns (text: string)
    ensures text == Concat(pages)
    ensures |text| == Sum(pages)
  {
    text := "";
    for i := 0 to |pages|
      invariant text == Concat(pages[..i])
    {
      assert pages[..i + 1] == pages[..i] + [pages[i]];
      ConcatAppend(pages[..i], pages[i]);
      text := text + pages[i];
    }
    assert pages[..|pages|] == pages;
    ConcatLength(pages);
  }

  /** The total length of the pages. */
  function Sum(pages: seq<string>): nat {
    if pages == [] then 0 else |pages[0]| + Sum(pages[1..])
  }

  /** The extracted text is as long as the pages together. */
  lemma {:induction false} ConcatLength(pages: seq<string>)
    ensures |Concat(pages)| == Sum(pages)
  {
    if pages != [] {
      ConcatLength(pages[1..]);
    }
  }

  /** The text `process_resume` extracts: a PDF's pages, and for any other type a fixed
      placeholder once the image opens. */
  function ExtractedText(fileType: string, body: Body): Result<string, string> {
    if fileType == PdfType then
      match body.pdfPages
      case Err(e) => Err(e)
      case Ok(pages) => Ok(Concat(pages))
    else if body.imageError.Some? then Err(body.imageError.value)
    else Ok(PlaceholderText)
  }

  /** Only PDFs are read: whatever the image holds, its text is the placeholder. */
  lemma ImagesYieldPlaceholder(fileType: string, a: Body, b: Body)
    requires fileType != PdfType && a.imageError.None? && b.imageError.None?
    ensures ExtractedText(fileType, a) == ExtractedText(fileType, b) == Ok(PlaceholderText)
  {
  }

  /** Gemini is sent the image itself: two readable images whose bytes differ can be
      answered differently, although both yield the placeholder text. */
  lemma ImagesAnsweredByContent(fileType: string, a: Body, b: Body, apiKey: string)
    requires fileType != PdfType && a.imageError.None? && b.imageError.None? && apiKey != []
    requires a.bytes != b.bytes
    ensures exists generate: Generate :: ResumeReply(fileType, a, Some(apiKey), generate).Ok?
                                       && ResumeReply(fileType, b, Some(apiKey), generate).Err?
  {
    var full := map["name" := "", "email" := "", "skills" := "", "experience" := ""];
    var generate: Generate := (text, bytes, mime) => if bytes == a.bytes then Ok(full) else Err("");
    assert ResumeReply(fileType, a, Some(apiKey), generate).Ok?;
    assert ResumeReply(fileType, b, Some(apiKey), generate).Err?;
  }

  /** The first required field the reply lacks. */
  function FirstMissing(reply: map<string, string>, fields: seq<string>): (r: Option<string>)
    ensures r.None? <==> forall i :: 0 <= i < |fields| ==> fields[i] in reply
    ensures r.Some? ==> r.value in fields && r.value !in reply
  {
    if fields == [] then None
    else if fields[0] !in reply then Some(fields[0])
    else FirstMissing(reply, fields[1..])
  }

  /** The required-field loop: raises for the first missing field, in the order name,
      email, skills, experience. */
  method CheckRequired(reply: map<string, string>) returns (r: Option<string>)
    ensures r == FirstMissing(reply, RequiredFields)
  {
    for i := 0 to |RequiredFields|
      invariant FirstMissing(reply, RequiredFields) == FirstMissing(reply, RequiredFields[i..])
    {
      assert RequiredFields[i..][1..] == RequiredFields[i + 1..];
      if RequiredFields[i] !in reply {
        return Some(RequiredFields[i]);
      }
    }
    return None;
  }

  /** The replies Gemini gives: the parsed JSON for a request made of the prompt around
      the extracted text and the file's bytes (sent base64-encoded) with its MIME type,
      or the error the call or `json.loads` raises. */
  type Generate = (string, seq<bv8>, string) -> Result<map<string, string>, string>

  /** What `process_resume` returns or raises, as a value. */
  function ResumeReply(fileType: string, body: Body, apiKey: Option<string>, generate: Generate): Result<map<string, string>, string> {
    match ExtractedText(fileType, body)
    case Err(e) => Err(e)
    case Ok(text) =>
      if apiKey.None? || apiKey.value == [] then Err(MissingApiKey)
      else
        match generate(text, body.bytes, fileType)
        case Err(e) => Err(e)
        case Ok(reply) =>
          match FirstMissing(reply, RequiredFields)
          case Some(f) => Err("Missing required field: " + f)
          case None => Ok(reply)
  }

  /** `process_resume`: the text is extracted first, then the API key is checked, then
      Gemini is asked, then the reply must hold every required field. */
  method ProcessResume(fileType: string, body: Body, apiKey: Option<string>, generate: Generate)
    returns (r: Result<map<string, string>, string>)
    ensures ExtractedText(fileType, body).Err? ==> r == Err(ExtractedText(fileType, body).error)
    ensures ExtractedText(fileType, body).Ok? && (apiKey.None? || apiKey.value == []) ==> r == Err(MissingApiKey)
    ensures ExtractedText(fileType, body).Ok? && apiKey.Some? && apiKey.value != [] ==>
              var reply := generate(ExtractedText(fileType, body).value, body.bytes, fileType);
              (reply.Err? ==> r == Err(reply.error))
              && (reply.Ok? && FirstMissing(reply.value, RequiredFields).Some? ==>
                    r == Err("Missing required field: " + FirstMissing(reply.value, RequiredFields).value))
              && (reply.Ok? && FirstMissing(reply.value, RequiredFields).None? ==> r == reply)
    ensures r.Ok? ==> forall f :: f in RequiredFields ==> f in r.value
    ensures r == ResumeReply(fileType, body, apiKey, generate)
  {
    var text: string;
    if fileType == PdfType {
      if body.pdfPages.Err? {
        return Err(body.pdfPages.error);
      }
      text := ExtractPdfText(body.pdfPages.value);
    } else {
      if body.imageError.Some? {
        return Err(body.imageError.value);
      }
      text := PlaceholderText;
    }
    if apiKey.None? || apiKey.value == [] {
      return Err(MissingApiKey);
    }
    var reply := generate(text, body.bytes, fileType);
    if reply.Err? {
      return Err(reply.error);
    }
    var missing := CheckRequired(reply.value);
    if missing.Some? {
      return Err("Missing required field: " + missing.value);
    }
    return reply;
  }

  /** The calls of one processing that can raise besides the ones above: the three
      status updates. */
  datatype WorkerUpdate = MarkThinking | MarkCompleted | MarkError

  /** The world the handler runs in. */
  datatype WorkerEnv = WorkerEnv(
    objectAt: string -> S3Object,
    getError: Option<string>,
    apiKey: Option<string>,
    generate: Generate,
    failingUpdates: map<WorkerUpdate, string>)

  /** What `lambda_handler` ends with. */
  datatype Outcome = Processed(fileId: string) | ReturnedNone | Reraised(message: string)

  /** The update raises in this run, with the message `failingUpdates[u]`. */
  predicate UpdateFails(env: WorkerEnv, u: WorkerUpdate) {
    u in env.failingUpdates
  }

  /** `f"Error processing file {file_id}: {str(e)}"`. */
  function ErrorMessage(fileId: string, e: string): string {
    "Error processing file " + fileId + ": " + e
  }

  /** What the `try` block for one record reaches before its `except`: the result
      `process_resume` gives and the completed update stores, or the message of the
      first call that raises. The handler asks `get_object` for the bare id. */
  function Attempt(objects: set<string>, fileId: string, env: WorkerEnv): Result<map<string, string>, string> {
    AttemptAt(objects, fileId, fileId, env)
  }

  /** The same `try` block with the object read under `key`. */
  function AttemptAt(objects: set<string>, key: string, fileId: string, env: WorkerEnv): Result<map<string, string>, string> {
    if UpdateFails(env, MarkThinking) then Err(env.failingUpdates[MarkThinking])
    else if key !in objects then Err(NoSuchKey)
    else if env.getError.Some? then Err(env.getError.value)
    else
      var stored := env.objectAt(key);
      match ResumeReply(stored.contentType, stored.body, env.apiKey, env.generate)
      case Err(e) => Err(e)
      case Ok(result) => if UpdateFails(env, MarkCompleted) then Err(env.failingUpdates[MarkCompleted]) else Ok(result)
  }

  /** The `except` block's `update_item` on the records: status `error` and the message,
      upserting the record when it is absent. */
  function MarkedFailed(items: map<string, ResumeItem>, fileId: string, message: string): map<string, ResumeItem> {
    var marked := WithStatus(items, fileId, Failed);
    marked[fileId := marked[fileId].(errorMessage := Some(message))]
  }

  /** What handling one record does: the handler's outcome, the records afterwards and
      the statuses written, in order. */
  datatype Effect = Effect(outcome: Outcome, items: map<string, ResumeItem>, written: seq<(string, string)>)

  /** The effect of the `try` block and its `except` for the record `fileId`. */
  function FileEffect(items: map<string, ResumeItem>, objects: set<string>, fileId: string, env: WorkerEnv): Effect {
    var thinking := !UpdateFails(env, MarkThinking);
    var base := if thinking then WithStatus(items, fileId, Thinking) else items;
    var started := if thinking then [(fileId, Thinking)] else [];
    match Attempt(objects, fileId, env)
    case Ok(result) =>
      Effect(Processed(fileId), base[fileId := base[fileId].(status := Completed, aiResponse := Some(result))],
             started + [(fileId, Completed)])
    case Err(e) =>
      if UpdateFails(env, MarkError) then Effect(Reraised(env.failingUpdates[MarkError]), base, started)
      else Effect(Reraised(e), MarkedFailed(base, fileId, ErrorMessage(fileId, e)), started + [(fileId, Failed)])
  }

  /** One record's processing completes exactly when the status update, the object read,
      `process_resume` and the completed update all succeed; `ai_response` is then
      `process_resume`'s result, which holds every required field. */
  lemma FileEffectProcessed(items: map<string, ResumeItem>, objects: set<string>, fileId: string, env: WorkerEnv)
    ensures var e := FileEffect(items, objects, fileId, env);
            var stored := env.objectAt(fileId);
            var reply := ResumeReply(stored.contentType, stored.body, env.apiKey, env.generate);
            && (e.outcome.Processed? <==>
                  !UpdateFails(env, MarkThinking) && fileId in objects && env.getError.None?
                  && reply.Ok? && !UpdateFails(env, MarkCompleted))
            && !e.outcome.ReturnedNone?
            && (e.outcome.Processed? ==>
                  && e.outcome.fileId == fileId
                  && fileId in e.items && e.items[fileId].status == Completed
                  && e.items[fileId].aiResponse == Some(reply.value)
                  && (forall f :: f in RequiredFields ==> f in reply.value)
                  && e.written == [(fileId, Thinking), (fileId, Completed)])
  {
    var stored := env.objectAt(fileId);
    var reply := ResumeReply(stored.contentType, stored.body, env.apiKey, env.generate);
    if reply.Ok? {
      ReplyHasRequiredFields(stored.contentType, stored.body, env.apiKey, env.generate);
    }
  }

  /** A reply `process_resume` returns holds every required field. */
  lemma ReplyHasRequiredFields(fileType: string, body: Body, apiKey: Option<string>, generate: Generate)
    requires ResumeReply(fileType, body, apiKey, generate).Ok?
    ensures forall f :: f in RequiredFields ==> f in ResumeReply(fileType, body, apiKey, generate).value
  {
  }

  /** A failed processing marks the record `error` with the message of the call that
      raised, and that exception propagates; when the error update itself raises, its
      exception propagates instead. A missing object fails with `NoSuchKey`. */
  lemma FileEffectFailed(items: map<string, ResumeItem>, objects: set<string>, fileId: string, env: WorkerEnv)
    ensures var e := FileEffect(items, objects, fileId, env);
            && (e.outcome.Reraised? && !UpdateFails(env, MarkError) ==>
                  && Attempt(objects, fileId, env) == Err(e.outcome.message)
                  && fileId in e.items && e.items[fileId].status == Failed
                  && e.items[fileId].errorMessage == Some(ErrorMessage(fileId, e.outcome.message))
                  && e.written != [] && e.written[|e.written| - 1] == (fileId, Failed))
            && (e.outcome.Reraised? && UpdateFails(env, MarkError) ==>
                  && e.outcome.message == env.failingUpdates[MarkError]
                  && e.items == (if UpdateFails(env, MarkThinking) then items else WithStatus(items, fileId, Thinking))
                  && e.written == (if UpdateFails(env, MarkThinking) then [] else [(fileId, Thinking)]))
            && (UpdateFails(env, MarkThinking) && UpdateFails(env, MarkError) ==>
                  e == Effect(Reraised(env.failingUpdates[MarkError]), items, []))
            && (fileId !in objects && !UpdateFails(env, MarkThinking) && !UpdateFails(env, MarkError) ==>
                  e.outcome == Reraised(NoSuchKey) && e.written == [(fileId, Thinking), (fileId, Failed)])
  {
  }

  /** A record uploaded through the API is never processed: the API stores every
      object under `id.ext` while the handler reads the bare id, which `uuid4` makes
      without a dot, so the read fails with `NoSuchKey` and the record is marked
      `error`. */
  lemma UploadedObjectMissed(items: map<string, ResumeItem>, objects: set<string>, fileId: string, env: WorkerEnv)
    requires KeysDotted(objects) && IsUuid(fileId)
    requires !UpdateFails(env, MarkThinking)
    ensures Attempt(objects, fileId, env) == Err(NoSuchKey)
    ensures !UpdateFails(env, MarkError) ==>
              var e := FileEffect(items, objects, fileId, env);
              && e.outcome == Reraised(NoSuchKey)
              && fileId in e.items && e.items[fileId].status == Failed
              && e.items[fileId].errorMessage == Some(ErrorMessage(fileId, NoSuchKey))
              && e.written == [(fileId, Thinking), (fileId, Failed)]
  {
    UuidNotUploadKey(fileId, fileId, "");
    assert fileId !in objects;
  }

  /** Read under the key the upload wrote, the object is found: the record goes on to
      `process_resume` on that object and completes exactly when it and the completed
      update succeed. */
  lemma UploadKeyRead(objects: set<string>, fileId: string, ext: string, env: WorkerEnv)
    requires ObjectKey(fileId, ext) in objects
    requires !UpdateFails(env, MarkThinking) && env.getError.None?
    ensures var stored := env.objectAt(ObjectKey(fileId, ext));
            var reply := ResumeReply(stored.contentType, stored.body, env.apiKey, env.generate);
            var a := AttemptAt(objects, ObjectKey(fileId, ext), fileId, env);
            && (a.Ok? <==> reply.Ok? && !UpdateFails(env, MarkCompleted))
            && (reply.Err? ==> a == Err(reply.error))
            && (a.Ok? ==> a.value == reply.value && forall f :: f in RequiredFields ==> f in a.value)
  {
    var stored := env.objectAt(ObjectKey(fileId, ext));
    if ResumeReply(stored.contentType, stored.body, env.apiKey, env.generate).Ok? {
      ReplyHasRequiredFields(stored.contentType, stored.body, env.apiKey, env.generate);
    }
  }

  /** Processing one record changes that record at most, and upserts it whenever it
      writes anything. */
  lemma FileEffectFrame(items: map<string, ResumeItem>, objects: set<string>, fileId: string, env: WorkerEnv)
    ensures var e := FileEffect(items, objects, fileId, env);
            && (e.items.Keys == items.Keys + {fileId} || e.items == items)
            && (forall k :: k in items && k != fileId ==> k in e.items && e.items[k] == items[k])
  {
    var base := if !UpdateFails(env, MarkThinking) then WithStatus(items, fileId, Thinking) else items;
    assert base.Keys == items.Keys + {fileId} || base == items;
    assert forall k :: k in items && k != fileId ==> k in base && base[k] == items[k];
  }

  /** The `try` block of `lambda_handler` for one record and what its `except` does. */
  method ProcessFile(store: ResumeStore, fileId: string, env: WorkerEnv) returns (outcome: Outcome)
    modifies store
    ensures store.objects == old(store.objects)
    ensures var e := FileEffect(old(store.items), old(store.objects), fileId, env);
            outcome == e.outcome && store.items == e.items && store.log == old(store.log) + e.written
  {
    var failure: string;
    if UpdateFails(env, MarkThinking) {
      failure := env.failingUpdates[MarkThinking];
    } else {
      store.items := WithStatus(store.items, fileId, Thinking);
      store.log := store.log + [(fileId, Thinking)];
      if fileId !in store.objects {
        failure := NoSuchKey;
      } else if env.getError.Some? {
        failure := env.getError.value;
      } else {
        var stored := env.objectAt(fileId);
        var result := ProcessResume(stored.contentType, stored.body, env.apiKey, env.generate);
        if result.Err? {
          failure := result.error;
        } else if UpdateFails(env, MarkCompleted) {
          failure := env.failingUpdates[MarkCompleted];
        } else {
          var item := store.items[fileId];
          store.items := store.items[fileId := item.(status := Completed, aiResponse := Some(result.value))];
          store.log := store.log + [(fileId, Completed)];
          return Processed(fileId);
        }
      }
    }
    assert Attempt(old(store.objects), fileId, env) == Err(failure);
    if UpdateFails(env, MarkError) {
      return Reraised(env.failingUpdates[MarkError]);
    }
    MarkFailed(store, fileId, ErrorMessage(fileId, failure));
    return Reraised(failure);
  }

  /** The `except` block's `update_item`: the record's status becomes `error` and its
      `error_message` is set; no other record changes. */
  method MarkFailed(store: ResumeStore, fileId: string, message: string)
    modifies store
    ensures store.objects == old(store.objects)
    ensures store.items == MarkedFailed(old(store.items), fileId, message)
    ensures store.items.Keys == old(store.items.Keys) + {fileId}
    ensures forall k :: k in old(store.items) && k != fileId ==> store.items[k] == old(store.items[k])
    ensures store.items[fileId].status == Failed && store.items[fileId].errorMessage == Some(message)
    ensures store.log == old(store.log) + [(fileId, Failed)]
  {
    var marked := WithStatus(store.items, fileId, Failed);
    store.items := marked[fileId := marked[fileId].(errorMessage := Some(message))];
    store.log := store.log + [(fileId, Failed)];
  }

  /** `lambda_handler`: the records are tested in order; the first that triggers is
      processed and the handler returns with it, so later records are never looked
      at. When none triggers the handler returns `None` and nothing changes. */
  method HandleStream(store: ResumeStore, records: seq<StreamRecord>, env: WorkerEnv) returns (outcome: Outcome)
    modifies store
    ensures store.objects == old(store.objects)
    ensures FirstTriggered(records).Err? ==>
              outcome == Reraised(FirstTriggered(records).error) && store.items == old(store.items) && store.log == old(store.log)
    ensures FirstTriggered(records) == Ok(None) ==>
              outcome == ReturnedNone && store.items == old(store.items) && store.log == old(store.log)
    ensures FirstTriggered(records).Ok? && FirstTriggered(records).value.Some? ==>
              var record := records[FirstTriggered(records).value.value];
              record.newImage.Some?
              && ("id" !in record.newImage.value ==>
                    outcome == Reraised(KeyErrorMessage("id")) && store.items == old(store.items) && store.log == old(store.log))
              && ("id" in record.newImage.value ==>
                    var e := FileEffect(old(store.items), old(store.objects), record.newImage.value["id"], env);
                    outcome == e.outcome && store.items == e.items && store.log == old(store.log) + e.written)
    ensures outcome.Processed? ==> outcome.fileId in store.items && store.items[outcome.fileId].status == Completed
  {
    var i := 0;
    while i < |records|
      invariant 0 <= i <= |records|
      invariant forall j :: 0 <= j < i ==> Triggers(records[j]) == Ok(false)
      invariant store.items == old(store.items) && store.log == old(store.log) && store.objects == old(store.objects)
    {
      var record := records[i];
      var triggers := Triggers(record);
      FirstTriggeredAt(records, i);
      if triggers.Err? {
        return Reraised(triggers.error);
      }
      if triggers.value {
        assert FirstTriggered(records) == Ok(Some(i));
        if "id" !in record.newImage.value {
          return Reraised(KeyErrorMessage("id"));
        }
        var fileId := record.newImage.value["id"];
        FileEffectProcessed(store.items, store.objects, fileId, env);
        outcome := ProcessFile(store, fileId, env);
        return;
      }
      i := i + 1;
    }
    FirstTriggeredAt(records, i);
    return ReturnedNone;
  }
}
