/** The stream Lambda of the second resume service. For every `INSERT` whose status
    is `ai_ready_to_process` it reads the object named by the record's `s3_key`, has
    Gemini parse it and writes the outcome back with one `update_item`; a failure on
    one record is written to that record and the batch goes on. The environment, S3,
    Gemini and DynamoDB's failures are parameters. */
module ResumeStream {
  import opened Wrappers
  import opened S3Keys
  import opened ResumeWorker
  import opened JsonText
  import opened Text

  const ReadyStatus := "ai_ready_to_process"
  const FinishedStatus := "ai_finished"
  const ErrorStatus := "error"

  /** A DynamoDB attribute value: a string, or a map of strings (the parsed resume or
      the error). */
  datatype Attr = S(s: string) | M(m: map<string, string>)

  /** One `target = :placeholder` assignment of a `SET` expression. */
  datatype Clause = Clause(target: string, placeholder: string)

  /** An `update_item` call. */
  datatype UpdateItem = UpdateItem(
    keyName: string,
    keyValue: string,
    expression: string,
    values: map<string, Attr>,
    names: map<string, string>)

  function ClauseText(c: Clause): string {
    c.target + " = " + c.placeholder
  }

  /** The clauses joined with commas. */
  function JoinClauses(cs: seq<Clause>): string
    requires |cs| >= 1
  {
    if |cs| == 1 then ClauseText(cs[0])
    else JoinClauses(cs[..|cs| - 1]) + ", " + ClauseText(cs[|cs| - 1])
  }

  /** The text of a `SET` expression with these clauses. */
  function Render(cs: seq<Clause>): string
    requires |cs| >= 1
  {
    "SET " + JoinClauses(cs)
  }

  /** The placeholders the clauses use. */
  function Placeholders(cs: seq<Clause>): set<string> {
    set i | 0 <= i < |cs| :: cs[i].placeholder
  }

  /** The words of DynamoDB's reserved-word list that the attribute names of this
      handler touch; the list is compared without regard to case. */
  const ReservedWords: set<string> := {"STATUS", "RESULT"}

  /** The text `str(ClientError)` gives for DynamoDB's `ValidationException` on an
      update expression, before the reason. */
  const RefusalHead := "An error occurred (ValidationException) when calling the UpdateItem operation: Invalid UpdateExpression: "

  /** The reason given for a reserved word, before the word. */
  const ReservedReason := "Attribute name is a reserved keyword; reserved keyword: "

  /** The refusal of a reserved word used as a plain attribute name. */
  function ReservedMessage(name: string): string {
    RefusalHead + ReservedReason + name
  }

  /** The refusal of the bare `result`. */
  const ResultRefused := RefusalHead + ReservedReason + "result"

  /** The two names are the same letters up to case. */
  predicate SameIgnoringCase(a: string, b: string) {
    |a| == |b| && forall i :: 0 <= i < |a| ==> UpperChar(a[i]) == UpperChar(b[i])
  }

  /** The name is on the reserved-word list, in any case. */
  predicate IsReserved(name: string) {
    exists w :: w in ReservedWords && SameIgnoringCase(name, w)
  }

  /** DynamoDB accepts a clause whose target is a `#` alias defined in the attribute
      names, or a plain name that is not a reserved word. */
  predicate ClauseAccepted(c: Clause, names: map<string, string>) {
    if c.target != [] && c.target[0] == '#' then c.target in names
    else !IsReserved(c.target)
  }

  /** Why DynamoDB refuses a clause. */
  function ClauseError(c: Clause): string {
    if c.target != [] && c.target[0] == '#' then
      RefusalHead + "An expression attribute name used in the document path is not defined; attribute name: " + c.target
    else ReservedMessage(c.target)
  }

  /** DynamoDB validates the whole expression before it changes anything: the first
      clause it refuses names the `ValidationException`. */
  function Rejection(cs: seq<Clause>, names: map<string, string>): (r: Option<string>)
    ensures r.None? <==> forall i :: 0 <= i < |cs| ==> ClauseAccepted(cs[i], names)
    ensures r.Some? && cs != [] && !ClauseAccepted(cs[0], names) ==> r.value == ClauseError(cs[0])
  {
    if cs == [] then None
    else if !ClauseAccepted(cs[0], names) then Some(ClauseError(cs[0]))
    else
      assert forall i :: 0 < i < |cs| ==> cs[i] == cs[1..][i - 1];
      Rejection(cs[1..], names)
  }

  /** How DynamoDB applies the clauses of an expression it accepted to an item: each
      target, resolved through the attribute names when it is one, takes the value of
      its placeholder. */
  function ApplyClauses(item: map<string, Attr>, cs: seq<Clause>, values: map<string, Attr>,
                        names: map<string, string>): map<string, Attr>
    requires Placeholders(cs) <= values.Keys
    decreases |cs|
  {
    if cs == [] then item
    else
      assert cs[0].placeholder in Placeholders(cs);
      assert Placeholders(cs[1..]) <= Placeholders(cs) by {
        forall p | p in Placeholders(cs[1..]) ensures p in Placeholders(cs) {
          var i :| 0 <= i < |cs[1..]| && cs[1..][i].placeholder == p;
          assert cs[i + 1].placeholder == p;
        }
      }
      var name := if cs[0].target in names then names[cs[0].target] else cs[0].target;
      ApplyClauses(item[name := values[cs[0].placeholder]], cs[1..], values, names)
  }

  /** The clauses `update_dynamodb_status` writes. */
  function StatusClauses(withResult: bool): seq<Clause> {
    [Clause("#status", ":status"), Clause("updated_at", ":updated_at")]
      + (if withResult then [Clause("result", ":result")] else [])
  }

  const BaseExpression := "SET #status = :status, updated_at = :updated_at"

  /** The expression without a result is the rendering of the two clauses. */
  lemma RenderBase()
    ensures Render(StatusClauses(false)) == BaseExpression
  {
    var two := StatusClauses(false);
    assert two[..1] == [Clause("#status", ":status")];
    assert JoinClauses(two) == ClauseText(two[0]) + ", " + ClauseText(two[1]);
    BaseLiteral(ClauseText(two[0]), ClauseText(two[1]));
  }

  /** The literal expression, assembled from its two clauses. */
  lemma BaseLiteral(a: string, b: string)
    requires a == "#status = :status" && b == "updated_at = :updated_at"
    ensures "SET " + (a + ", " + b) == BaseExpression
  {
    assert "SET " + (a + ", " + b) == (("SET " + a) + ", ") + b;
    assert "SET " + a == "SET #status = :status";
    assert "SET #status = :status" + ", " == "SET #status = :status, ";
  }

  /** The expression with a result is the rendering of the three clauses. */
  lemma RenderWithResult()
    ensures Render(StatusClauses(true)) == BaseExpression + ", result = :result"
  {
    RenderBase();
    var three := StatusClauses(true);
    assert three[..2] == StatusClauses(false);
    assert ClauseText(three[2]) == "result = :result";
    assert Render(three) == Render(StatusClauses(false)) + ", " + ClauseText(three[2]);
  }

  /** `update_dynamodb_status`: the expression always sets the status and the update
      time, and the result exactly when one is given; the item is found by
      `processing_id`. Only `status` is aliased, so DynamoDB refuses every update
      that carries a result: `result` is a reserved word. What the clauses would do
      is stated for the update without a result, the one DynamoDB accepts. */
  method StatusUpdate(processingId: string, status: string, now: string, result: Option<map<string, string>>)
    returns (u: UpdateItem)
    ensures u.keyName == "processing_id" && u.keyValue == processingId
    ensures u.expression == BaseExpression + (if result.Some? then ", result = :result" else "")
    ensures u.expression == Render(StatusClauses(result.Some?))
    ensures u.values.Keys == Placeholders(StatusClauses(result.Some?))
    ensures Rejection(StatusClauses(result.Some?), u.names) ==
              (if result.Some? then Some(ResultRefused) else None)
    ensures forall item: map<string, Attr> ::
              ApplyClauses(item, StatusClauses(result.Some?), u.values, u.names)
                == Updated(item, status, now, result)
  {
    var expression := BaseExpression;
    var values := map[":status" := S(status), ":updated_at" := S(now)];
    var names := map["#status" := "status"];
    if result.Some? {
      expression := expression + ", result = :result";
      values := values[":result" := M(result.value)];
    }
    u := UpdateItem("processing_id", processingId, expression, values, names);
    RenderBase();
    RenderWithResult();
    var cs := StatusClauses(result.Some?);
    assert Placeholders(cs) == values.Keys by {
      assert cs[0].placeholder == ":status" && cs[1].placeholder == ":updated_at";
      if result.Some? {
        assert cs[2].placeholder == ":result";
      }
    }
    forall item: map<string, Attr>
      ensures ApplyClauses(item, cs, values, names) == Updated(item, status, now, result)
    {
      ApplyStatusClauses(item, status, now, result, values, names);
    }
    StatusRejection(result.Some?);
  }

  /** As written, the expression is refused exactly when it carries the result, and
      then for the reserved word `result`; `#status` and `updated_at` pass. */
  lemma StatusRejection(withResult: bool)
    ensures Rejection(StatusClauses(withResult), map["#status" := "status"]) ==
              (if withResult then Some(ResultRefused) else None)
  {
    var cs, names := StatusClauses(withResult), map["#status" := "status"];
    assert ClauseAccepted(cs[0], names);
    NotReservedByLength("updated_at");
    assert ClauseAccepted(cs[1], names);
    assert cs[1..][1..] == cs[2..];
    if withResult {
      assert SameIgnoringCase("result", "RESULT");
      assert !ClauseAccepted(cs[2], names);
      assert cs[2..] == [cs[2]];
    } else {
      assert cs[2..] == [];
    }
  }

  /** A name of another length than every reserved word is not reserved. */
  lemma NotReservedByLength(name: string)
    requires |name| != 6
    ensures !IsReserved(name)
  {
    forall w | w in ReservedWords ensures |w| == 6 {
    }
  }

  /** The values `update_dynamodb_status` binds to the placeholders. */
  function StatusValues(status: string, now: string, result: Option<map<string, string>>): map<string, Attr> {
    map[":status" := S(status), ":updated_at" := S(now)]
      + (if result.Some? then map[":result" := M(result.value)] else map[])
  }

  /** The clauses with the result aliased, as DynamoDB demands of a reserved word. */
  function AliasedClauses(withResult: bool): seq<Clause> {
    [Clause("#status", ":status"), Clause("updated_at", ":updated_at")]
      + (if withResult then [Clause("#result", ":result")] else [])
  }

  /** The attribute names for the aliased clauses: `#result` only when it is used,
      since DynamoDB also refuses an unused name. */
  function AliasedNames(withResult: bool): map<string, string> {
    map["#status" := "status"] + (if withResult then map["#result" := "result"] else map[])
  }

  /** With `result` aliased, DynamoDB accepts the update and it leaves the status, the
      time and the result, every other attribute kept. */
  lemma AliasedUpdateAccepted(item: map<string, Attr>, status: string, now: string, result: Option<map<string, string>>)
    ensures Placeholders(AliasedClauses(result.Some?)) <= StatusValues(status, now, result).Keys
    ensures Rejection(AliasedClauses(result.Some?), AliasedNames(result.Some?)) == None
    ensures ApplyClauses(item, AliasedClauses(result.Some?), StatusValues(status, now, result), AliasedNames(result.Some?))
              == Updated(item, status, now, result)
  {
    var cs, values, names := AliasedClauses(result.Some?), StatusValues(status, now, result), AliasedNames(result.Some?);
    NotReservedByLength("updated_at");
    assert forall i :: 0 <= i < |cs| ==> ClauseAccepted(cs[i], names);
    assert Placeholders(cs) <= values.Keys by {
      forall p | p in Placeholders(cs) ensures p in values.Keys {
        var i :| 0 <= i < |cs| && cs[i].placeholder == p;
      }
    }
    var a := item["status" := S(status)];
    assert ApplyClauses(item, cs, values, names) == ApplyClauses(a, cs[1..], values, names);
    var b := a["updated_at" := S(now)];
    assert ApplyClauses(a, cs[1..], values, names) == ApplyClauses(b, cs[2..], values, names);
    if result.Some? {
      assert ApplyClauses(b, cs[2..], values, names) == ApplyClauses(b["result" := M(result.value)], cs[3..], values, names);
    }
  }

  /** What the update leaves: the status and the time replaced, the result replaced
      when given, every other attribute kept. */
  function Updated(item: map<string, Attr>, status: string, now: string, result: Option<map<string, string>>): map<string, Attr> {
    var set2 := item["status" := S(status)]["updated_at" := S(now)];
    if result.Some? then set2["result" := M(result.value)] else set2
  }

  lemma ApplyStatusClauses(item: map<string, Attr>, status: string, now: string, result: Option<map<string, string>>,
                           values: map<string, Attr>, names: map<string, string>)
    requires values == map[":status" := S(status), ":updated_at" := S(now)]
                       + (if result.Some? then map[":result" := M(result.value)] else map[])
    requires names == map["#status" := "status"]
    requires Placeholders(StatusClauses(result.Some?)) <= values.Keys
    ensures ApplyClauses(item, StatusClauses(result.Some?), values, names) == Updated(item, status, now, result)
  {
    var cs := StatusClauses(result.Some?);
    var a := item["status" := S(status)];
    assert ApplyClauses(item, cs, values, names) == ApplyClauses(a, cs[1..], values, names);
    var b := a["updated_at" := S(now)];
    assert ApplyClauses(a, cs[1..], values, names) == ApplyClauses(b, cs[2..], values, names);
    if result.Some? {
      assert ApplyClauses(b, cs[2..], values, names) == ApplyClauses(b["result" := M(result.value)], cs[3..], values, names);
    }
  }

  /** The raw bytes of an object. */
  type Bytes = seq<bv8>

  /** `process_resume_with_gemini(file_content, mime_type, api_key)`: the parsed resume,
      or the text of the exception it raises. */
  type Gemini = (Bytes, string, string) -> Result<map<string, string>, string>

  const TypeErrorMessage := "process_resume_with_gemini() missing 1 required positional argument: 'api_key'"

  /** The call as written passes the file and the key only: Python binds the key to
      `mime_type` and raises `TypeError` before the function body runs. */
  function CallAsWritten(content: Bytes, apiKey: string, gemini: Gemini): Result<map<string, string>, string> {
    Err(TypeErrorMessage)
  }

  /** The call with the MIME type the upload stored, recovered from the key's
      extension. */
  function Call(content: Bytes, s3Key: string, apiKey: string, gemini: Gemini): Result<map<string, string>, string> {
    gemini(content, ContentType(Extension(s3Key)), apiKey)
  }

  /** The status and result the `try` block of one record leads to: a failed read, a
      failed call or a failed success update each end in `error`, with the
      exception's text under `"error"`. */
  function RecordWrite(fetched: Result<Bytes, string>, called: Result<map<string, string>, string>,
                       finishError: Option<string>): (string, map<string, string>)
  {
    if fetched.Err? then (ErrorStatus, map["error" := fetched.error])
    else if called.Err? then (ErrorStatus, map["error" := called.error])
    else if finishError.Some? then (ErrorStatus, map["error" := finishError.value])
    else (FinishedStatus, called.value)
  }

  /** A record finishes exactly when the read, the call and the success update all
      succeed, and then it holds what Gemini returned. */
  lemma RecordWriteSpec(fetched: Result<Bytes, string>, called: Result<map<string, string>, string>,
                        finishError: Option<string>)
    ensures RecordWrite(fetched, called, finishError).0 == FinishedStatus <==>
              fetched.Ok? && called.Ok? && finishError.None?
    ensures RecordWrite(fetched, called, finishError).0 == FinishedStatus ==>
              RecordWrite(fetched, called, finishError).1 == called.value
    ensures RecordWrite(fetched, called, finishError).0 == ErrorStatus ==>
              "error" in RecordWrite(fetched, called, finishError).1
  {
  }

  /** As written, no record can finish: the read fails, or the call raises
      `TypeError`. */
  lemma AsWrittenNeverFinishes(fetched: Result<Bytes, string>, apiKey: string, gemini: Gemini,
                               finishError: Option<string>)
    ensures fetched.Ok? ==>
              RecordWrite(fetched, CallAsWritten(fetched.value, apiKey, gemini), finishError)
                == (ErrorStatus, map["error" := TypeErrorMessage])
    ensures fetched.Ok? ==>
              RecordWrite(fetched, CallAsWritten(fetched.value, apiKey, gemini), finishError).0 == ErrorStatus
  {
  }

  /** Corrected, a record the second service uploaded finishes exactly when its object
      reads, the service takes the update and Gemini, asked with the content type of
      the uploaded file's name, succeeds; the record then holds what Gemini returned.
      Both fixes are needed: the MIME type in the call and `result` aliased in the
      update. */
  lemma CorrectedFinishes(r: StreamRecord, env: StreamEnv, filename: string)
    requires Selected(r) == Ok(true) && FirstMissingVar(env.vars).None?
    requires IsPlainId(Id(r)) && r.newImage.value["s3_key"] == UploadKey(Id(r), filename)
    ensures var key := r.newImage.value["s3_key"];
            var fetched := env.fetch(env.vars["S3_BUCKET"], key);
            && ContentType(Extension(key)) == ContentType(Extension(filename))
            && (Outcome(r, env, false).0 == FinishedStatus <==>
                  fetched.Ok? && env.updateError(Id(r), FinishedStatus).None?
                  && env.gemini(fetched.value, ContentType(Extension(filename)), env.vars["GOOGLE_API_KEY"]).Ok?)
            && (Outcome(r, env, false).0 == FinishedStatus ==>
                  Outcome(r, env, false).1
                    == env.gemini(fetched.value, ContentType(Extension(filename)), env.vars["GOOGLE_API_KEY"]).value)
  {
    KeyKeepsExtension(Id(r), filename);
    var key := r.newImage.value["s3_key"];
    var fetched := env.fetch(env.vars["S3_BUCKET"], key);
    var called := if fetched.Err? then Err("") else Call(fetched.value, key, env.vars["GOOGLE_API_KEY"], env.gemini);
    RecordWriteSpec(fetched, called, UpdateFailure(Id(r), FinishedStatus, env, false));
  }

  /** The environment variables `lambda_handler` reads, in order. */
  const RequiredVars: seq<string> := ["DYNAMODB_TABLE", "S3_BUCKET", "GOOGLE_API_KEY"]

  /** The first variable `os.environ[...]` does not find. */
  function FirstMissingVar(vars: map<string, string>): (r: Option<string>)
    ensures r.None? <==> forall v :: v in RequiredVars ==> v in vars
    ensures r.Some? ==> r.value in RequiredVars && r.value !in vars
  {
    if "DYNAMODB_TABLE" !in vars then Some("DYNAMODB_TABLE")
    else if "S3_BUCKET" !in vars then Some("S3_BUCKET")
    else if "GOOGLE_API_KEY" !in vars then Some("GOOGLE_API_KEY")
    else None
  }

  /** Whether `lambda_handler` processes the record: an `INSERT` whose new status is
      `ai_ready_to_process`. Reading a missing image or attribute raises `KeyError`. */
  function Selected(r: StreamRecord): Result<bool, string> {
    if r.eventName != "INSERT" then Ok(false)
    else if r.newImage.None? then Err(KeyErrorMessage("NewImage"))
    else if "status" !in r.newImage.value then Err(KeyErrorMessage("status"))
    else if r.newImage.value["status"] != ReadyStatus then Ok(false)
    else if "processing_id" !in r.newImage.value then Err(KeyErrorMessage("processing_id"))
    else if "s3_key" !in r.newImage.value then Err(KeyErrorMessage("s3_key"))
    else Ok(true)
  }

  /** Only `INSERT` records with status `ai_ready_to_process` are processed, and every
      such record that names its id and key is. */
  lemma SelectedSpec(r: StreamRecord)
    ensures Selected(r) == Ok(true) <==>
              r.eventName == "INSERT" && r.newImage.Some?
              && "status" in r.newImage.value && r.newImage.value["status"] == ReadyStatus
              && "processing_id" in r.newImage.value && "s3_key" in r.newImage.value
    ensures r.eventName != "INSERT" ==> Selected(r) == Ok(false)
    ensures r.eventName == "INSERT" && r.newImage.None? ==> Selected(r) == Err(KeyErrorMessage("NewImage"))
    ensures Selected(r).Err? ==> r.eventName == "INSERT"
  {
  }

  /** The record's processing id. */
  function Id(r: StreamRecord): string {
    if r.newImage.Some? && "processing_id" in r.newImage.value then r.newImage.value["processing_id"] else ""
  }

  /** The world the handler runs in: the environment, the S3 read by bucket and key,
      the Gemini call, the error the service raises for an update of a record to a
      status before it looks at the expression (a network or throttling error), if
      any, and the clock. */
  datatype StreamEnv = StreamEnv(
    vars: map<string, string>,
    fetch: (string, string) -> Result<Bytes, string>,
    gemini: Gemini,
    updateError: (string, string) -> Option<string>,
    now: string)

  /** The error `update_dynamodb_status` raises when it writes a result to record
      `id`: the service's own error, or else, as written, DynamoDB's refusal of the
      bare `result`; with `result` aliased an update the service takes succeeds. */
  function UpdateFailure(id: string, status: string, env: StreamEnv, asWritten: bool): (e: Option<string>)
    ensures asWritten ==> e.Some?
    ensures !asWritten ==> e == env.updateError(id, status)
  {
    if env.updateError(id, status).Some? then env.updateError(id, status)
    else if asWritten then Some(ResultRefused)
    else None
  }

  /** What record `r` writes, the program as written (the two-argument Gemini call and
      the bare `result`) or as intended. */
  function Outcome(r: StreamRecord, env: StreamEnv, asWritten: bool): (string, map<string, string>)
    requires Selected(r) == Ok(true) && FirstMissingVar(env.vars).None?
  {
    var bucket, apiKey, key := env.vars["S3_BUCKET"], env.vars["GOOGLE_API_KEY"], r.newImage.value["s3_key"];
    var fetched := env.fetch(bucket, key);
    var called := if fetched.Err? then Err("") else if asWritten then CallAsWritten(fetched.value, apiKey, env.gemini)
                  else Call(fetched.value, key, apiKey, env.gemini);
    RecordWrite(fetched, called, UpdateFailure(Id(r), FinishedStatus, env, asWritten))
  }

  /** No later selected record of `records[..end]` has the id of record `j`. */
  predicate LastFor(records: seq<StreamRecord>, j: int, end: int)
    requires 0 <= j < end <= |records|
  {
    forall k :: j < k < end && Selected(records[k]) == Ok(true) ==> Id(records[k]) != Id(records[j])
  }

  /** The item holds this status and this result. */
  predicate Holds(item: map<string, Attr>, status: string, result: map<string, string>) {
    "status" in item && item["status"] == S(status) && "result" in item && item["result"] == M(result)
  }

  /** The HTTP-style answer of the handler; the body is the JSON text `json.dumps`
      gives for a string. */
  datatype Response = Response(statusCode: nat, body: string)

  /** A `processing_id`-keyed table. */
  class ProcessingTable {
    var items: map<string, map<string, Attr>>

    constructor()
      ensures items == map[]
    {
      items := map[];
    }

    /** `update_item` with the expression `update_dynamodb_status` builds for a
        result, as written or with `result` aliased. DynamoDB refuses the bare
        `result` and changes nothing; the aliased update is an upsert on
        `processing_id`. */
    method Write(processingId: string, status: string, now: string, result: map<string, string>, aliased: bool)
      returns (rejected: Option<string>)
      modifies this
      ensures rejected == (if aliased then None else Some(ResultRefused))
      ensures rejected.Some? ==> items == old(items)
      ensures rejected.None? ==>
                items == old(items)[processingId :=
                  Updated(if processingId in old(items) then old(items)[processingId]
                          else map["processing_id" := S(processingId)], status, now, Some(result))]
    {
      if !aliased {
        var u := StatusUpdate(processingId, status, now, Some(result));
        return Rejection(StatusClauses(true), u.names);
      }
      var item := if processingId in items then items[processingId] else map["processing_id" := S(processingId)];
      AliasedUpdateAccepted(item, status, now, Some(result));
      var values, names := StatusValues(status, now, Some(result)), AliasedNames(true);
      rejected := Rejection(AliasedClauses(true), names);
      items := items[processingId := ApplyClauses(item, AliasedClauses(true), values, names)];
    }
  }

  /** The inner `try` of `lambda_handler` for a selected record and its `except`:
      the record's outcome is written to it, unless the error update itself raises,
      which ends the handler and leaves the table as it was. */
  method ProcessRecord(table: ProcessingTable, record: StreamRecord, env: StreamEnv, asWritten: bool)
    returns (stop: Option<string>)
    requires Selected(record) == Ok(true) && FirstMissingVar(env.vars).None?
    modifies table
    ensures stop.Some? <==>
              Outcome(record, env, asWritten).0 == ErrorStatus && UpdateFailure(Id(record), ErrorStatus, env, asWritten).Some?
    ensures stop.Some? ==> stop == UpdateFailure(Id(record), ErrorStatus, env, asWritten) && table.items == old(table.items)
    ensures stop.None? ==>
              table.items == old(table.items)[Id(record) :=
                Updated(if Id(record) in old(table.items) then old(table.items)[Id(record)]
                        else map["processing_id" := S(Id(record))],
                        Outcome(record, env, asWritten).0, env.now, Some(Outcome(record, env, asWritten).1))]
  {
    var bucket, apiKey := env.vars["S3_BUCKET"], env.vars["GOOGLE_API_KEY"];
    var id, key := record.newImage.value["processing_id"], record.newImage.value["s3_key"];
    var failure: Option<string> := None;
    var fetched := env.fetch(bucket, key);
    if fetched.Err? {
      failure := Some(fetched.error);
    } else {
      var result := if asWritten then CallAsWritten(fetched.value, apiKey, env.gemini)
                    else Call(fetched.value, key, apiKey, env.gemini);
      if result.Err? {
        failure := Some(result.error);
      } else {
        var finishError := env.updateError(id, FinishedStatus);
        if finishError.None? {
          finishError := table.Write(id, FinishedStatus, env.now, result.value, !asWritten);
          if finishError.None? {
            return None;
          }
        }
        failure := finishError;
      }
    }
    var markError := env.updateError(id, ErrorStatus);
    if markError.None? {
      markError := table.Write(id, ErrorStatus, env.now, map["error" := failure.value], !asWritten);
    }
    return markError;
  }

  /** The table only grew, and ids no selected record of `records[..i]` names are
      untouched. */
  ghost predicate Grown(records: seq<StreamRecord>, i: int, before: map<string, map<string, Attr>>,
                        items: map<string, map<string, Attr>>)
    requires 0 <= i <= |records|
  {
    && before.Keys <= items.Keys
    && forall k :: k in before
         && (forall j :: 0 <= j < i && Selected(records[j]) == Ok(true) ==> Id(records[j]) != k)
         ==> items[k] == before[k]
  }

  /** Each id holds the outcome of the last selected record of `records[..i]` naming
      it. */
  ghost predicate LatestHeld(records: seq<StreamRecord>, i: int, items: map<string, map<string, Attr>>,
                             env: StreamEnv, asWritten: bool)
    requires 0 <= i <= |records| && FirstMissingVar(env.vars).None?
  {
    forall j :: 0 <= j < i && Selected(records[j]) == Ok(true) && LastFor(records, j, i) ==>
      Id(records[j]) in items
      && Holds(items[Id(records[j])], Outcome(records[j], env, asWritten).0, Outcome(records[j], env, asWritten).1)
  }

  /** What holds once the first `i` records are handled: every one was readable, the
      table only grew, ids no selected record names are untouched, each id holds the
      outcome of the last record naming it, and as written no record was selected and
      the table is as it was. */
  ghost predicate HandledUpTo(records: seq<StreamRecord>, i: int, before: map<string, map<string, Attr>>,
                              items: map<string, map<string, Attr>>, env: StreamEnv, asWritten: bool)
    requires 0 <= i <= |records| && FirstMissingVar(env.vars).None?
  {
    && Grown(records, i, before, items)
    && (forall j :: 0 <= j < i ==> Selected(records[j]).Ok?)
    && LatestHeld(records, i, items, env, asWritten)
    && (asWritten ==> items == before && forall j :: 0 <= j < i ==> Selected(records[j]) == Ok(false))
  }

  /** Handling record `i`, which writes `v` to its id when it is selected, keeps the
      untouched ids untouched. */
  lemma GrownStep(records: seq<StreamRecord>, i: int, before: map<string, map<string, Attr>>,
                  items: map<string, map<string, Attr>>, after: map<string, map<string, Attr>>,
                  v: map<string, Attr>)
    requires 0 <= i < |records| && Grown(records, i, before, items)
    requires Selected(records[i]) != Ok(true) ==> after == items
    requires Selected(records[i]) == Ok(true) ==> after == items[Id(records[i]) := v]
    ensures Grown(records, i + 1, before, after)
  {
    forall k | k in before
                 && (forall j :: 0 <= j < i + 1 && Selected(records[j]) == Ok(true) ==> Id(records[j]) != k)
      ensures after[k] == before[k]
    {
      assert items[k] == before[k];
    }
  }

  /** ... and keeps each id holding the outcome of the last record naming it. */
  lemma LatestStep(records: seq<StreamRecord>, i: int, items: map<string, map<string, Attr>>,
                   after: map<string, map<string, Attr>>, v: map<string, Attr>, env: StreamEnv, asWritten: bool)
    requires 0 <= i < |records| && FirstMissingVar(env.vars).None?
    requires LatestHeld(records, i, items, env, asWritten)
    requires Selected(records[i]) != Ok(true) ==> after == items
    requires Selected(records[i]) == Ok(true) ==>
               after == items[Id(records[i]) := v]
               && Holds(v, Outcome(records[i], env, asWritten).0, Outcome(records[i], env, asWritten).1)
    ensures LatestHeld(records, i + 1, after, env, asWritten)
  {
    forall j | 0 <= j < i + 1 && Selected(records[j]) == Ok(true) && LastFor(records, j, i + 1)
      ensures Id(records[j]) in after
              && Holds(after[Id(records[j])], Outcome(records[j], env, asWritten).0, Outcome(records[j], env, asWritten).1)
    {
      if j < i {
        assert LastFor(records, j, i);
        assert Selected(records[i]) == Ok(true) ==> Id(records[i]) != Id(records[j]);
      }
    }
  }

  /** The update of a record's outcome leaves its status and result. */
  lemma UpdatedHolds(item: map<string, Attr>, status: string, now: string, result: map<string, string>)
    ensures Holds(Updated(item, status, now, Some(result)), status, result)
  {
  }

  /** As written, every selected record's outcome is `error`, and writing it raises:
      the service's error, or DynamoDB's refusal of `result`. So the first selected
      record ends the handler. */
  lemma AsWrittenOutcome(r: StreamRecord, env: StreamEnv)
    requires Selected(r) == Ok(true) && FirstMissingVar(env.vars).None?
    ensures Outcome(r, env, true).0 == ErrorStatus
    ensures UpdateFailure(Id(r), ErrorStatus, env, true) ==
              if env.updateError(Id(r), ErrorStatus).Some? then env.updateError(Id(r), ErrorStatus) else Some(ResultRefused)
  {
    var fetched := env.fetch(env.vars["S3_BUCKET"], r.newImage.value["s3_key"]);
    AsWrittenNeverFinishes(fetched, env.vars["GOOGLE_API_KEY"], env.gemini, env.updateError(Id(r), FinishedStatus));
  }

  /** Handling one more record keeps `HandledUpTo`. */
  lemma HandledStep(records: seq<StreamRecord>, i: int, before: map<string, map<string, Attr>>,
                    items: map<string, map<string, Attr>>, after: map<string, map<string, Attr>>,
                    env: StreamEnv, asWritten: bool)
    requires 0 <= i < |records| && FirstMissingVar(env.vars).None?
    requires HandledUpTo(records, i, before, items, env, asWritten)
    requires Selected(records[i]) == Ok(false) ==> after == items
    requires Selected(records[i]) == Ok(true) ==>
               after == items[Id(records[i]) :=
                 Updated(if Id(records[i]) in items then items[Id(records[i])] else map["processing_id" := S(Id(records[i]))],
                         Outcome(records[i], env, asWritten).0, env.now, Some(Outcome(records[i], env, asWritten).1))]
    requires Selected(records[i]).Ok?
    requires asWritten ==> Selected(records[i]) == Ok(false)
    ensures HandledUpTo(records, i + 1, before, after, env, asWritten)
  {
    var v: map<string, Attr> := map[];
    if Selected(records[i]) == Ok(true) {
      var id := Id(records[i]);
      var o := Outcome(records[i], env, asWritten);
      v := Updated(if id in items then items[id] else map["processing_id" := S(id)], o.0, env.now, Some(o.1));
      UpdatedHolds(if id in items then items[id] else map["processing_id" := S(id)], o.0, env.now, o.1);
    }
    GrownStep(records, i, before, items, after, v);
    LatestStep(records, i, items, after, v, env, asWritten);
  }

  /** What a handler stopped after `i` records leaves: the table only grew, and ids no
      selected record of the batch names are untouched. */
  lemma HandledPrefix(records: seq<StreamRecord>, i: int, before: map<string, map<string, Attr>>,
                      items: map<string, map<string, Attr>>, env: StreamEnv, asWritten: bool)
    requires 0 <= i <= |records| && FirstMissingVar(env.vars).None?
    requires HandledUpTo(records, i, before, items, env, asWritten)
    ensures before.Keys <= items.Keys
    ensures forall k :: k in before
                        && (forall j :: 0 <= j < |records| && Selected(records[j]) == Ok(true) ==> Id(records[j]) != k)
                        ==> items[k] == before[k]
  {
    forall k | k in before
                 && (forall j :: 0 <= j < |records| && Selected(records[j]) == Ok(true) ==> Id(records[j]) != k)
      ensures items[k] == before[k]
    {
      assert forall j :: 0 <= j < i && Selected(records[j]) == Ok(true) ==> Id(records[j]) != k;
    }
  }

  /** Once every record is handled, the handler's promises hold. */
  lemma HandledAll(records: seq<StreamRecord>, before: map<string, map<string, Attr>>,
                   items: map<string, map<string, Attr>>, env: StreamEnv, asWritten: bool)
    requires FirstMissingVar(env.vars).None?
    requires HandledUpTo(records, |records|, before, items, env, asWritten)
    ensures before.Keys <= items.Keys
    ensures forall k :: k in before
                        && (forall j :: 0 <= j < |records| && Selected(records[j]) == Ok(true) ==> Id(records[j]) != k)
                        ==> items[k] == before[k]
    ensures forall j :: 0 <= j < |records| ==> Selected(records[j]).Ok?
    ensures forall j :: 0 <= j < |records| && Selected(records[j]) == Ok(true) && LastFor(records, j, |records|) ==>
              Id(records[j]) in items
              && Holds(items[Id(records[j])], Outcome(records[j], env, asWritten).0, Outcome(records[j], env, asWritten).1)
    ensures asWritten ==> items == before && forall j :: 0 <= j < |records| ==> Selected(records[j]) == Ok(false)
  {
  }

  /** `lambda_handler`. A missing variable is a 500 before any record. Records not
      selected are skipped; a selected record's failure is written to that record and
      the batch goes on; only a `KeyError` or a failing error update ends it with a
      500. The last write to each id is the outcome of the last record naming it. As
      written no update with a result is accepted, so the first selected record ends
      the handler with a 500 and the table is never written. */
  method Handle(table: ProcessingTable, records: seq<StreamRecord>, env: StreamEnv, asWritten: bool)
    returns (r: Response)
    modifies table
    ensures FirstMissingVar(env.vars).Some? ==>
              r == Response(500, JsonString("Error: " + KeyErrorMessage(FirstMissingVar(env.vars).value)))
              && table.items == old(table.items)
    ensures r.statusCode == 200 || r.statusCode == 500
    ensures old(table.items).Keys <= table.items.Keys
    ensures forall k :: k in old(table.items)
                        && (forall j :: 0 <= j < |records| && Selected(records[j]) == Ok(true) ==> Id(records[j]) != k)
                        ==> table.items[k] == old(table.items[k])
    ensures r.statusCode == 200 ==>
              r.body == JsonString("Processing completed") && FirstMissingVar(env.vars).None?
              && (forall j :: 0 <= j < |records| ==> Selected(records[j]).Ok?)
              && (forall j :: 0 <= j < |records| && Selected(records[j]) == Ok(true) && LastFor(records, j, |records|) ==>
                    Id(records[j]) in table.items
                    && Holds(table.items[Id(records[j])], Outcome(records[j], env, asWritten).0,
                             Outcome(records[j], env, asWritten).1))
    ensures asWritten ==> table.items == old(table.items)
    ensures asWritten && r.statusCode == 200 ==> forall j :: 0 <= j < |records| ==> Selected(records[j]) == Ok(false)
    ensures FirstMissingVar(env.vars).None?
            && (forall j :: 0 <= j < |records| ==> Selected(records[j]).Ok?)
            && (forall j :: 0 <= j < |records| ==> UpdateFailure(Id(records[j]), ErrorStatus, env, asWritten).None?)
            ==> r.statusCode == 200
  {
    var missing := FirstMissingVar(env.vars);
    if missing.Some? {
      return Response(500, JsonString("Error: " + KeyErrorMessage(missing.value)));
    }
    var i := 0;
    while i < |records|
      invariant 0 <= i <= |records|
      invariant HandledUpTo(records, i, old(table.items), table.items, env, asWritten)
    {
      var record := records[i];
      var selected := Selected(record);
      if selected.Err? {
        HandledPrefix(records, i, old(table.items), table.items, env, asWritten);
        return Response(500, JsonString("Error: " + selected.error));
      }
      ghost var before := table.items;
      if selected.value {
        if asWritten {
          AsWrittenOutcome(record, env);
        }
        var stop := ProcessRecord(table, record, env, asWritten);
        if stop.Some? {
          HandledPrefix(records, i, old(table.items), table.items, env, asWritten);
          return Response(500, JsonString("Error: " + stop.value));
        }
      }
      HandledStep(records, i, old(table.items), before, table.items, env, asWritten);
      i := i + 1;
    }
    HandledAll(records, old(table.items), table.items, env, asWritten);
    return Response(200, JsonString("Processing completed"));
  }

  /** The completion body as it goes out: the text in double quotes. */
  lemma CompletedBody()
    ensures JsonString("Processing completed") == "\"Processing completed\""
  {
    PlainTextQuoted("Processing completed");
  }

  /** The body for a missing variable as it goes out: `Error: 'NAME'` in double
      quotes. */
  lemma MissingVarBody(name: string)
    requires name in RequiredVars
    ensures JsonString("Error: " + KeyErrorMessage(name)) == "\"Error: '" + name + "'\""
  {
    PlainTextQuoted("Error: " + KeyErrorMessage(name));
  }
}
