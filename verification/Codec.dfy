/** The spool payload: poll results as a JSON value tree and back. */
module Codec {

  import opened Results
  import opened Timestamps
  import opened Base64
  import opened Domain
  import opened Lists

  datatype Json =
    | Null
    | Bool(truth: bool)
    | Int(number: int)
    | Float(amount: real)
    | Str(text: string)
    | Arr(items: seq<Json>)
    | Obj(fields: map<string, Json>)

  datatype CodecError =
    | MissingKey
    | InvalidField
    | UnknownName
    | BadTimestamp(time: TimeError)
    | BadBase64
    | Rejected(domain: DomainError)

  // ---------------------------------------------------------------- enumerations by name

  function QualityName(q: Quality): string {
    match q
    case Good => "good"
    case Uncertain => "uncertain"
    case Bad => "bad"
  }

  function QualityNamed(s: string): Result<Quality, CodecError> {
    if s == "good" then Ok(Good)
    else if s == "uncertain" then Ok(Uncertain)
    else if s == "bad" then Ok(Bad)
    else Err(UnknownName)
  }

  function ValueTypeName(t: ValueType): string {
    match t
    case Numeric => "numeric"
    case Integer => "integer"
    case Boolean => "boolean"
    case Textual => "text"
    case Binary => "binary"
  }

  function ValueTypeNamed(s: string): Result<ValueType, CodecError> {
    if s == "numeric" then Ok(Numeric)
    else if s == "integer" then Ok(Integer)
    else if s == "boolean" then Ok(Boolean)
    else if s == "text" then Ok(Textual)
    else if s == "binary" then Ok(Binary)
    else Err(UnknownName)
  }

  function StatusName(s: PollStatus): string {
    match s
    case Running => "running"
    case Success => "success"
    case PartialFailure => "partial_failure"
    case Failed => "failed"
    case Skipped => "skipped"
    case Cancelled => "cancelled"
  }

  function StatusNamed(s: string): Result<PollStatus, CodecError> {
    if s == "running" then Ok(Running)
    else if s == "success" then Ok(Success)
    else if s == "partial_failure" then Ok(PartialFailure)
    else if s == "failed" then Ok(Failed)
    else if s == "skipped" then Ok(Skipped)
    else if s == "cancelled" then Ok(Cancelled)
    else Err(UnknownName)
  }

  lemma QualityNameInverse(q: Quality)
    ensures QualityNamed(QualityName(q)) == Ok(q)
  {
    assert "bad"[0] != "good"[0];
  }

  lemma ValueTypeNameInverse(t: ValueType)
    ensures ValueTypeNamed(ValueTypeName(t)) == Ok(t)
  {
    assert "integer"[0] != "numeric"[0] && "boolean"[0] != "numeric"[0] && "boolean"[0] != "integer"[0];
  }

  lemma StatusNameInverse(s: PollStatus)
    ensures StatusNamed(StatusName(s)) == Ok(s)
  {
    assert "success"[0] != "running"[0] && "skipped"[0] != "running"[0] && "skipped"[1] != "success"[1];
  }

  /** The stored names, in the order in which the enumerations are declared. */
  lemma StoredNames()
    ensures Map(QualityName, [Good, Uncertain, Bad]) == ["good", "uncertain", "bad"]
    ensures Map(ValueTypeName, [Numeric, Integer, Boolean, Textual, Binary]) ==
            ["numeric", "integer", "boolean", "text", "binary"]
    ensures Map(StatusName, [Running, Success, PartialFailure, Failed, Skipped, Cancelled]) ==
            ["running", "success", "partial_failure", "failed", "skipped", "cancelled"]
  {
  }

  // ---------------------------------------------------------------- field access

  /** `payload[key]` */
  function Required(o: map<string, Json>, key: string): Result<Json, CodecError> {
    if key in o then Ok(o[key]) else Err(MissingKey)
  }

  /** `payload.get(key)` */
  function Get(o: map<string, Json>, key: string): Json {
    if key in o then o[key] else Null
  }

  function RequireStr(j: Json): Result<string, CodecError> {
    if j.Str? then Ok(j.text) else Err(InvalidField)
  }

  function RequireInt(j: Json): Result<int, CodecError> {
    if j.Int? then Ok(j.number) else Err(InvalidField)
  }

  function RequireObj(j: Json): Result<map<string, Json>, CodecError> {
    if j.Obj? then Ok(j.fields) else Err(InvalidField)
  }

  function RequireArr(j: Json): Result<seq<Json>, CodecError> {
    if j.Arr? then Ok(j.items) else Err(InvalidField)
  }

  function RequiredStr(o: map<string, Json>, key: string): Result<string, CodecError> {
    var j :- Required(o, key);
    RequireStr(j)
  }

  function RequiredInt(o: map<string, Json>, key: string): Result<int, CodecError> {
    var j :- Required(o, key);
    RequireInt(j)
  }

  function OptionalStr(j: Json): Result<Option<string>, CodecError> {
    if j.Null? then Ok(None)
    else
      var s :- RequireStr(j);
      Ok(Some(s))
  }

  function OptionalStrToJson(s: Option<string>): Json {
    if s.Some? then Str(s.value) else Null
  }

  lemma OptionalStrInverse(s: Option<string>)
    ensures OptionalStr(OptionalStrToJson(s)) == Ok(s)
  {
  }

  // ---------------------------------------------------------------- timestamps

  function DatetimeToJson(d: Utc): string {
    IsoFormat(d)
  }

  function DatetimeFromJson(s: string): Result<Utc, CodecError> {
    match Load(s)
    case Ok(d) => Ok(d)
    case Err(e) => Err(BadTimestamp(e))
  }

  function OptionalDatetimeToJson(d: Option<Utc>): Json {
    if d.Some? then Str(DatetimeToJson(d.value)) else Null
  }

  function OptionalDatetimeFromJson(j: Json): Result<Option<Utc>, CodecError> {
    if j.Null? then Ok(None)
    else
      var s :- RequireStr(j);
      var d :- DatetimeFromJson(s);
      Ok(Some(d))
  }

  lemma DatetimeInverse(d: Utc)
    ensures DatetimeFromJson(DatetimeToJson(d)) == Ok(d)
  {
    ParseIsoFormat(d);
    NormalizeUtc(d);
  }

  lemma OptionalDatetimeInverse(d: Option<Utc>)
    ensures OptionalDatetimeFromJson(OptionalDatetimeToJson(d)) == Ok(d)
  {
    if d.Some? {
      DatetimeInverse(d.value);
    }
  }

  // ---------------------------------------------------------------- tag values

  function TagValueToJson(v: TagValue): map<string, Json> {
    map[
      "value_type" := Str(ValueTypeName(v.valueType)),
      "numeric_value" := if v.numericValue.Some? then Float(v.numericValue.value) else Null,
      "integer_value" := if v.integerValue.Some? then Int(v.integerValue.value) else Null,
      "boolean_value" := if v.booleanValue.Some? then Bool(v.booleanValue.value) else Null,
      "text_value" := OptionalStrToJson(v.textValue),
      "binary_value" := if v.binaryValue.Some? then Str(Encode(v.binaryValue.value)) else Null
    ]
  }

  function BuildValue(v: TagValue): (r: Result<TagValue, CodecError>)
    ensures r.Ok? ==> r.value.Valid()
    ensures v.Valid() ==> r == Ok(v)
  {
    match NewTagValue(v)
    case Ok(value) => Ok(value)
    case Err(e) => Err(Rejected(e))
  }

  function TagValueFromJson(o: map<string, Json>): (r: Result<TagValue, CodecError>)
    ensures r.Ok? ==> r.value.Valid()
  {
    var name :- RequiredStr(o, "value_type");
    var valueType :- ValueTypeNamed(name);
    match valueType
    case Numeric =>
      (match Get(o, "numeric_value")
       case Float(x) => BuildValue(NumericTag(x))
       case Int(n) => BuildValue(NumericTag(n as real))
       case _ => Err(InvalidField))
    case Integer =>
      (match Get(o, "integer_value")
       case Int(n) => BuildValue(IntegerTag(n))
       case _ => Err(InvalidField))
    case Boolean =>
      (match Get(o, "boolean_value")
       case Bool(b) => BuildValue(BooleanTag(b))
       case _ => Err(InvalidField))
    case Textual =>
      var text :- RequireStr(Get(o, "text_value"));
      BuildValue(TextTag(text))
    case Binary =>
      var encoded :- RequireStr(Get(o, "binary_value"));
      if !IsAscii(encoded) then Err(BadBase64)
      else
        match Decode(encoded)
        case Some(data) => BuildValue(BinaryTag(data))
        case None => Err(BadBase64)
  }

  lemma TagValueKeys()
    ensures "numeric_value"[0] != "integer_value"[0] && "numeric_value"[0] != "boolean_value"[0]
    ensures "integer_value"[0] != "boolean_value"[0] && "value_type"[0] != "text_value"[0]
  {
  }

  /** A stored value has its type's name and these five fields, of which the one that the type names is not null. */
  lemma TagValueStored(v: TagValue)
    requires v.Valid()
    ensures
      var o := TagValueToJson(v);
      && o.Keys == {"value_type", "numeric_value", "integer_value", "boolean_value", "text_value", "binary_value"}
      && (o["numeric_value"] != Null <==> v.valueType == Numeric)
      && (o["integer_value"] != Null <==> v.valueType == Integer)
      && (o["boolean_value"] != Null <==> v.valueType == Boolean)
      && (o["text_value"] != Null <==> v.valueType == Textual)
      && (o["binary_value"] != Null <==> v.valueType == Binary)
  {
    TagValueKeys();
  }

  lemma TagValueRoundTrip(v: TagValue)
    requires v.Valid()
    ensures TagValueFromJson(TagValueToJson(v)) == Ok(v)
  {
    TagValueKeys();
    ValueTypeNameInverse(v.valueType);
    if v.valueType == Binary {
      DecodeEncode(v.binaryValue.value);
    }
  }

  // ---------------------------------------------------------------- tag results

  function TagResultToJson(t: TagResult): map<string, Json> {
    map[
      "tag_id" := Str(t.tagId),
      "quality" := Str(QualityName(t.quality)),
      "received_at" := Str(DatetimeToJson(t.receivedAt)),
      "source_timestamp" := OptionalDatetimeToJson(t.sourceTimestamp),
      "value" := if t.value.Some? then Obj(TagValueToJson(t.value.value)) else Null,
      "error_code" := OptionalStrToJson(t.errorCode),
      "error_message" := OptionalStrToJson(t.errorMessage)
    ]
  }

  function OptionalTagValue(j: Json): (r: Result<Option<TagValue>, CodecError>)
    ensures r.Ok? && r.value.Some? ==> r.value.value.Valid()
  {
    if j.Null? then Ok(None)
    else
      var o :- RequireObj(j);
      var v :- TagValueFromJson(o);
      Ok(Some(v))
  }

  function TagResultFromJson(o: map<string, Json>): (r: Result<TagResult, CodecError>)
    ensures r.Ok? ==> r.value.Valid()
  {
    var tagId :- RequiredStr(o, "tag_id");
    var qualityName :- RequiredStr(o, "quality");
    var quality :- QualityNamed(qualityName);
    var receivedText :- RequiredStr(o, "received_at");
    var receivedAt :- DatetimeFromJson(receivedText);
    var sourceTimestamp :- OptionalDatetimeFromJson(Get(o, "source_timestamp"));
    var value :- OptionalTagValue(Get(o, "value"));
    var errorCode :- OptionalStr(Get(o, "error_code"));
    var errorMessage :- OptionalStr(Get(o, "error_message"));
    match NewTagResult(
      TagResultArgs(tagId, quality, AsStamp(receivedAt), AsOptionalStamp(sourceTimestamp), value, errorCode,
          errorMessage))
    case Ok(t) => Ok(t)
    case Err(e) => Err(Rejected(e))
  }

  /** A stored result has these seven fields, optional ones as null, and its texts are the result's own. */
  lemma TagResultStored(t: TagResult)
    ensures
      var o := TagResultToJson(t);
      && o.Keys == {"tag_id", "quality", "received_at", "source_timestamp", "value", "error_code", "error_message"}
      && o["tag_id"] == Str(t.tagId)
      && o["error_code"] == (if t.errorCode == None then Null else Str(t.errorCode.value))
      && o["error_message"] == (if t.errorMessage == None then Null else Str(t.errorMessage.value))
      && o["received_at"] == Str(IsoFormat(t.receivedAt))
      && o["source_timestamp"] == (if t.sourceTimestamp == None then Null else Str(IsoFormat(t.sourceTimestamp.value)))
      && o["value"] == (if t.value == None then Null else Obj(TagValueToJson(t.value.value)))
      && o["quality"] == Str(QualityName(t.quality))
  {
    hide IsoFormat, QualityName, TagValueToJson;
  }

  lemma TagResultRoundTrip(t: TagResult)
    requires t.Valid()
    ensures TagResultFromJson(TagResultToJson(t)) == Ok(t)
  {
    hide DatetimeFromJson, DatetimeToJson, OptionalDatetimeFromJson, OptionalDatetimeToJson, TagValueFromJson,
         TagValueToJson, NewTagResult, OptionalStr, OptionalStrToJson, QualityNamed, QualityName;
    QualityNameInverse(t.quality);
    DatetimeInverse(t.receivedAt);
    OptionalDatetimeInverse(t.sourceTimestamp);
    if t.value.Some? {
      TagValueRoundTrip(t.value.value);
    }
    OptionalStrInverse(t.errorCode);
    OptionalStrInverse(t.errorMessage);
    TagResultFixedPoint(t);
  }

  function TagResultsToJson(ts: seq<TagResult>): seq<Json> {
    if ts == [] then [] else [Obj(TagResultToJson(ts[0]))] + TagResultsToJson(ts[1..])
  }

  function TagResultsFromJson(items: seq<Json>): (r: Result<seq<TagResult>, CodecError>)
    ensures r.Ok? ==> forall i :: 0 <= i < |r.value| ==> r.value[i].Valid()
  {
    if items == [] then Ok([])
    else
      var o :- RequireObj(items[0]);
      var t :- TagResultFromJson(o);
      var rest :- TagResultsFromJson(items[1..]);
      Ok([t] + rest)
  }

  lemma {:induction false} TagResultsRoundTrip(ts: seq<TagResult>)
    requires forall i :: 0 <= i < |ts| ==> ts[i].Valid()
    ensures TagResultsFromJson(TagResultsToJson(ts)) == Ok(ts)
  {
    hide TagResultFromJson, TagResultToJson;
    if ts != [] {
      TagResultRoundTrip(ts[0]);
      TagResultsRoundTrip(ts[1..]);
      assert TagResultsToJson(ts)[1..] == TagResultsToJson(ts[1..]);
      assert [ts[0]] + ts[1..] == ts;
    }
  }

  // ---------------------------------------------------------------- poll executions

  function PollExecutionToJson(e: PollExecution): map<string, Json> {
    map[
      "execution_id" := Str(e.executionId),
      "connection_id" := Str(e.connectionId),
      "tag_group_id" := Str(e.tagGroupId),
      "status" := Str(StatusName(e.status)),
      "started_at" := Str(DatetimeToJson(e.startedAt)),
      "finished_at" := OptionalDatetimeToJson(e.finishedAt),
      "requested_tags" := Int(e.requestedTags),
      "successful_tags" := Int(e.successfulTags),
      "failed_tags" := Int(e.failedTags),
      "error_message" := OptionalStrToJson(e.errorMessage)
    ]
  }

  function PollExecutionFromJson(o: map<string, Json>): (r: Result<PollExecution, CodecError>)
    ensures r.Ok? ==> r.value.Valid()
  {
    var executionId :- RequiredStr(o, "execution_id");
    var connectionId :- RequiredStr(o, "connection_id");
    var tagGroupId :- RequiredStr(o, "tag_group_id");
    var statusName :- RequiredStr(o, "status");
    var status :- StatusNamed(statusName);
    var startedText :- RequiredStr(o, "started_at");
    var startedAt :- DatetimeFromJson(startedText);
    var finishedAt :- OptionalDatetimeFromJson(Get(o, "finished_at"));
    var requestedTags :- RequiredInt(o, "requested_tags");
    var successfulTags :- RequiredInt(o, "successful_tags");
    var failedTags :- RequiredInt(o, "failed_tags");
    var errorMessage :- OptionalStr(Get(o, "error_message"));
    match NewPollExecution(
      PollExecutionArgs(executionId, connectionId, tagGroupId, status, AsStamp(startedAt), AsOptionalStamp(finishedAt),
        requestedTags, successfulTags, failedTags, errorMessage))
    case Ok(e) => Ok(e)
    case Err(e) => Err(Rejected(e))
  }

  lemma PollExecutionKeys()
    ensures "execution_id"[0] != "tag_group_id"[0] && "finished_at"[1] != "failed_tags"[1]
    ensures "connection_id"[0] != "error_message"[0]
  {
  }

  /** A stored execution has these ten fields, and each holds what its name says. */
  lemma PollExecutionStored(e: PollExecution)
    ensures
      var o := PollExecutionToJson(e);
      && o.Keys == {"execution_id", "connection_id", "tag_group_id", "status", "started_at", "finished_at",
                    "requested_tags", "successful_tags", "failed_tags", "error_message"}
      && o["execution_id"] == Str(e.executionId) && o["connection_id"] == Str(e.connectionId)
      && o["tag_group_id"] == Str(e.tagGroupId) && o["started_at"] == Str(IsoFormat(e.startedAt))
      && o["requested_tags"] == Int(e.requestedTags) && o["successful_tags"] == Int(e.successfulTags)
      && o["failed_tags"] == Int(e.failedTags) && o["status"] == Str(StatusName(e.status))
      && o["finished_at"] == (if e.finishedAt == None then Null else Str(IsoFormat(e.finishedAt.value)))
      && o["error_message"] == (if e.errorMessage == None then Null else Str(e.errorMessage.value))
  {
    hide IsoFormat, StatusName;
    PollExecutionKeys();
  }

  lemma PollExecutionRoundTrip(e: PollExecution)
    requires e.Valid()
    ensures PollExecutionFromJson(PollExecutionToJson(e)) == Ok(e)
  {
    hide DatetimeFromJson, DatetimeToJson, OptionalDatetimeFromJson, OptionalDatetimeToJson, NewPollExecution,
         OptionalStr, OptionalStrToJson, StatusNamed, StatusName;
    PollExecutionKeys();
    StatusNameInverse(e.status);
    DatetimeInverse(e.startedAt);
    OptionalDatetimeInverse(e.finishedAt);
    OptionalStrInverse(e.errorMessage);
    PollExecutionFixedPoint(e);
  }

  // ---------------------------------------------------------------- poll results

  function PollResultToJson(r: WorkerPollResult): Json {
    Obj(map[
      "execution" := Obj(PollExecutionToJson(r.execution)),
      "results" := Arr(TagResultsToJson(r.results))
    ])
  }

  function PollResultFromJson(j: Json): Result<PollResult, CodecError> {
    var payload :- RequireObj(j);
    var executionJson :- Required(payload, "execution");
    var executionPayload :- RequireObj(executionJson);
    var resultsJson :- Required(payload, "results");
    var resultsPayload :- RequireArr(resultsJson);
    var execution :- PollExecutionFromJson(executionPayload);
    var results :- TagResultsFromJson(resultsPayload);
    Ok(WorkerPollResult(execution, results))
  }

  /** Whatever the constructors can build is read back from the spool exactly as it was. */
  lemma PollResultRoundTrip(r: PollResult)
    ensures PollResultFromJson(PollResultToJson(r)) == Ok(r)
  {
    hide PollExecutionFromJson, PollExecutionToJson;
    PollExecutionRoundTrip(r.execution);
    TagResultsRoundTrip(r.results);
  }
}
