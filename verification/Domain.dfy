/** The value objects that cross the pipeline, with the checks and normalisation of their constructors. */
module Domain {

  import opened Results
  import opened Text
  import opened Timestamps
  import opened Base64

  datatype Quality = Good | Uncertain | Bad

  datatype ValueType = Numeric | Integer | Boolean | Textual | Binary

  datatype PollStatus = Running | Success | PartialFailure | Failed | Skipped | Cancelled

  datatype DomainError =
    | EmptyField
    | Timestamp(cause: TimeError)
    | PayloadCount
    | PayloadMismatch
    | QualityMismatch
    | ErrorsOnSuccess
    | MissingErrorDetails
    | FinishedBeforeStarted
    | MissingFinish
    | NegativeCount
    | TooManyResults

  // ---------------------------------------------------------------- tag values

  /** Floats are exact numbers here; the other payloads are as in the source. */
  datatype TagValue = TagValue(
    valueType: ValueType,
    numericValue: Option<real>,
    integerValue: Option<int>,
    booleanValue: Option<bool>,
    textValue: Option<string>,
    binaryValue: Option<seq<Byte>>)
  {
    /** Exactly the payload that the type announces. */
    predicate Valid() {
      && (numericValue.Some? <==> valueType == Numeric)
      && (integerValue.Some? <==> valueType == Integer)
      && (booleanValue.Some? <==> valueType == Boolean)
      && (textValue.Some? <==> valueType == Textual)
      && (binaryValue.Some? <==> valueType == Binary)
    }
  }

  function Count(populated: bool): nat {
    if populated then 1 else 0
  }

  /** The constructor counts payloads, then looks for the one the type names. */
  function NewTagValue(v: TagValue): (r: Result<TagValue, DomainError>)
    ensures r.Ok? <==> v.Valid()
    ensures r.Ok? ==> r.value == v
  {
    var populated :=
      Count(v.numericValue.Some?) + Count(v.integerValue.Some?) + Count(v.booleanValue.Some?)
      + Count(v.textValue.Some?) + Count(v.binaryValue.Some?);
    if populated != 1 then Err(PayloadCount)
    else
      var matching :=
        match v.valueType
        case Numeric => v.numericValue.Some?
        case Integer => v.integerValue.Some?
        case Boolean => v.booleanValue.Some?
        case Textual => v.textValue.Some?
        case Binary => v.binaryValue.Some?;
      if !matching then Err(PayloadMismatch) else Ok(v)
  }

  function NumericTag(x: real): TagValue {
    TagValue(Numeric, Some(x), None, None, None, None)
  }

  function IntegerTag(x: int): TagValue {
    TagValue(Integer, None, Some(x), None, None, None)
  }

  function BooleanTag(x: bool): TagValue {
    TagValue(Boolean, None, None, Some(x), None, None)
  }

  function TextTag(x: string): TagValue {
    TagValue(Textual, None, None, None, Some(x), None)
  }

  function BinaryTag(x: seq<Byte>): TagValue {
    TagValue(Binary, None, None, None, None, Some(x))
  }

  // ---------------------------------------------------------------- shared field rules

  function RequireText(s: string): (r: Result<string, DomainError>)
    ensures r.Ok? ==> Trimmed(r.value)
    ensures Trimmed(s) ==> r == Ok(s)
  {
    if Strip(s) == "" then Err(EmptyField) else Ok(Strip(s))
  }

  /** Optional text is stripped, and blank text becomes absent. */
  function OptionalText(s: Option<string>): (r: Option<string>)
    ensures r.Some? ==> Trimmed(r.value)
    ensures s.None? || Trimmed(s.value) ==> r == s
  {
    if s.None? || Strip(s.value) == "" then None else Some(Strip(s.value))
  }

  predicate TrimmedIfPresent(s: Option<string>) {
    s.Some? ==> Trimmed(s.value)
  }

  function RequireUtc(stamp: Stamp): Result<Utc, DomainError> {
    match Normalize(stamp)
    case Ok(utc) => Ok(utc)
    case Err(e) => Err(Timestamp(e))
  }

  function OptionalUtc(stamp: Option<Stamp>): Result<Option<Utc>, DomainError> {
    if stamp.None? then Ok(None)
    else
      var utc :- RequireUtc(stamp.value);
      Ok(Some(utc))
  }

  function AsStamp(d: Utc): Stamp {
    Stamp(d, Some(0))
  }

  function AsOptionalStamp(d: Option<Utc>): Option<Stamp> {
    match d
    case Some(utc) => Some(AsStamp(utc))
    case None => None
  }

  lemma UtcUnchanged(d: Utc)
    ensures RequireUtc(AsStamp(d)) == Ok(d)
  {
    NormalizeUtc(d);
  }

  lemma OptionalUtcUnchanged(d: Option<Utc>)
    ensures OptionalUtc(AsOptionalStamp(d)) == Ok(d)
  {
    if d.Some? {
      UtcUnchanged(d.value);
    }
  }

  // ---------------------------------------------------------------- tag results

  /** Constructor arguments: timestamps in any zone, text not yet stripped. */
  datatype TagResultArgs = TagResultArgs(
    tagId: string,
    quality: Quality,
    receivedAt: Stamp,
    sourceTimestamp: Option<Stamp>,
    value: Option<TagValue>,
    errorCode: Option<string>,
    errorMessage: Option<string>)

  datatype TagResult = TagResult(
    tagId: string,
    quality: Quality,
    receivedAt: Utc,
    sourceTimestamp: Option<Utc>,
    value: Option<TagValue>,
    errorCode: Option<string>,
    errorMessage: Option<string>)
  {
    predicate IsSuccess() {
      value.Some?
    }

    predicate Valid() {
      && Trimmed(tagId)
      && if value.Some? then
           value.value.Valid() && quality != Bad && errorCode.None? && errorMessage.None?
         else
           && quality == Bad && errorCode.Some? && errorMessage.Some?
           && Trimmed(errorCode.value) && Trimmed(errorMessage.value)
    }

    function Args(): TagResultArgs {
      TagResultArgs(tagId, quality, AsStamp(receivedAt), AsOptionalStamp(sourceTimestamp), value, errorCode,
          errorMessage)
    }
  }

  function NewTagResult(a: TagResultArgs): (r: Result<TagResult, DomainError>)
    requires a.value.Some? ==> a.value.value.Valid()
    ensures r.Ok? ==> r.value.Valid()
  {
    var tagId :- RequireText(a.tagId);
    var receivedAt :- RequireUtc(a.receivedAt);
    var sourceTimestamp :- OptionalUtc(a.sourceTimestamp);
    if a.value.Some? then
      if a.quality == Bad then Err(QualityMismatch)
      else if a.errorCode.Some? || a.errorMessage.Some? then Err(ErrorsOnSuccess)
      else Ok(TagResult(tagId, a.quality, receivedAt, sourceTimestamp, a.value, None, None))
    else if a.quality != Bad then Err(QualityMismatch)
    else
      var errorCode, errorMessage := OptionalText(a.errorCode), OptionalText(a.errorMessage);
      if errorCode.None? || errorMessage.None? then Err(MissingErrorDetails)
      else Ok(TagResult(tagId, a.quality, receivedAt, sourceTimestamp, None, errorCode, errorMessage))
  }

  /** A stamp that has a UTC form, which is then the same point in time. */
  ghost predicate SameInstant(stamp: Stamp, utc: Utc) {
    HasUtc(stamp) && Instant(utc) == Instant(stamp.local) - stamp.offset.value
  }

  ghost predicate SameOptionalInstant(stamp: Option<Stamp>, utc: Option<Utc>) {
    if stamp.Some? then utc.Some? && SameInstant(stamp.value, utc.value) else utc.None?
  }

  ghost predicate HasText(s: Option<string>) {
    s.Some? && Strip(s.value) != ""
  }

  lemma UtcAccepted(stamp: Stamp)
    ensures RequireUtc(stamp).Ok? <==> HasUtc(stamp)
    ensures RequireUtc(stamp).Ok? ==> SameInstant(stamp, RequireUtc(stamp).value)
  {
  }

  lemma OptionalUtcAccepted(stamp: Option<Stamp>)
    ensures OptionalUtc(stamp).Ok? <==> (stamp.Some? ==> HasUtc(stamp.value))
    ensures OptionalUtc(stamp).Ok? ==> SameOptionalInstant(stamp, OptionalUtc(stamp).value)
  {
    if stamp.Some? {
      UtcAccepted(stamp.value);
    }
  }

  /** What the constructor accepts, and where each field of the result comes from. */
  lemma TagResultAccepted(a: TagResultArgs)
    requires a.value.Some? ==> a.value.value.Valid()
    ensures NewTagResult(a).Ok? <==>
              && Strip(a.tagId) != "" && HasUtc(a.receivedAt)
              && (a.sourceTimestamp.Some? ==> HasUtc(a.sourceTimestamp.value))
              && if a.value.Some? then a.quality != Bad && a.errorCode.None? && a.errorMessage.None?
                 else a.quality == Bad && HasText(a.errorCode) && HasText(a.errorMessage)
    ensures NewTagResult(a).Ok? ==>
              var t := NewTagResult(a).value;
              && t.tagId == Strip(a.tagId) && t.quality == a.quality && t.value == a.value
              && SameInstant(a.receivedAt, t.receivedAt) && SameOptionalInstant(a.sourceTimestamp, t.sourceTimestamp)
              && (a.value.None? ==>
                    && t.errorCode == Some(Strip(a.errorCode.value))
                    && t.errorMessage == Some(Strip(a.errorMessage.value)))
  {
    hide RequireUtc, OptionalUtc, HasUtc, Strip, SameInstant;
    UtcAccepted(a.receivedAt);
    OptionalUtcAccepted(a.sourceTimestamp);
  }

  /** The constructor accepts exactly its own results unchanged. */
  lemma TagResultFixedPoint(t: TagResult)
    requires t.value.Some? ==> t.value.value.Valid()
    ensures t.Valid() <==> NewTagResult(t.Args()) == Ok(t)
  {
    UtcUnchanged(t.receivedAt);
    OptionalUtcUnchanged(t.sourceTimestamp);
  }

  // ---------------------------------------------------------------- poll executions

  datatype PollExecutionArgs = PollExecutionArgs(
    executionId: string,
    connectionId: string,
    tagGroupId: string,
    status: PollStatus,
    startedAt: Stamp,
    finishedAt: Option<Stamp>,
    requestedTags: int,
    successfulTags: int,
    failedTags: int,
    errorMessage: Option<string>)

  datatype PollExecution = PollExecution(
    executionId: string,
    connectionId: string,
    tagGroupId: string,
    status: PollStatus,
    startedAt: Utc,
    finishedAt: Option<Utc>,
    requestedTags: int,
    successfulTags: int,
    failedTags: int,
    errorMessage: Option<string>)
  {
    predicate Valid() {
      && Trimmed(executionId) && Trimmed(connectionId) && Trimmed(tagGroupId)
      && (finishedAt.None? ==> status == Running)
      && (finishedAt.Some? ==> Instant(startedAt) <= Instant(finishedAt.value))
      && 0 <= successfulTags && 0 <= failedTags && successfulTags + failedTags <= requestedTags
      && TrimmedIfPresent(errorMessage)
    }

    function Args(): PollExecutionArgs {
      PollExecutionArgs(executionId, connectionId, tagGroupId, status, AsStamp(startedAt),
        AsOptionalStamp(finishedAt), requestedTags, successfulTags, failedTags, errorMessage)
    }
  }

  function NewPollExecution(a: PollExecutionArgs): (r: Result<PollExecution, DomainError>)
    ensures r.Ok? ==> r.value.Valid()
  {
    var executionId :- RequireText(a.executionId);
    var connectionId :- RequireText(a.connectionId);
    var tagGroupId :- RequireText(a.tagGroupId);
    var startedAt :- RequireUtc(a.startedAt);
    var finishedAt :- OptionalUtc(a.finishedAt);
    if finishedAt.Some? && Instant(finishedAt.value) < Instant(startedAt) then Err(FinishedBeforeStarted)
    else if finishedAt.None? && a.status != Running then Err(MissingFinish)
    else if a.requestedTags < 0 || a.successfulTags < 0 || a.failedTags < 0 then Err(NegativeCount)
    else if a.successfulTags + a.failedTags > a.requestedTags then Err(TooManyResults)
    else
      Ok(PollExecution(executionId, connectionId, tagGroupId, a.status, startedAt, finishedAt,
        a.requestedTags, a.successfulTags, a.failedTags, OptionalText(a.errorMessage)))
  }

  /** What the constructor accepts, and where each field of the result comes from. */
  lemma PollExecutionAccepted(a: PollExecutionArgs)
    ensures NewPollExecution(a).Ok? <==>
              && Strip(a.executionId) != "" && Strip(a.connectionId) != "" && Strip(a.tagGroupId) != ""
              && HasUtc(a.startedAt)
              && (if a.finishedAt.Some? then
                    && HasUtc(a.finishedAt.value)
                    && Instant(a.startedAt.local) - a.startedAt.offset.value
                       <= Instant(a.finishedAt.value.local) - a.finishedAt.value.offset.value
                  else a.status == Running)
              && 0 <= a.successfulTags && 0 <= a.failedTags && a.successfulTags + a.failedTags <= a.requestedTags
    ensures NewPollExecution(a).Ok? ==>
              var e := NewPollExecution(a).value;
              && e.executionId == Strip(a.executionId) && e.connectionId == Strip(a.connectionId)
              && e.tagGroupId == Strip(a.tagGroupId) && e.status == a.status
              && SameInstant(a.startedAt, e.startedAt) && SameOptionalInstant(a.finishedAt, e.finishedAt)
              && e.requestedTags == a.requestedTags && e.successfulTags == a.successfulTags
              && e.failedTags == a.failedTags
              && e.errorMessage == if HasText(a.errorMessage) then Some(Strip(a.errorMessage.value)) else None
  {
    hide RequireUtc, OptionalUtc, HasUtc, Strip;
    UtcAccepted(a.startedAt);
    OptionalUtcAccepted(a.finishedAt);
  }

  /** The constructor accepts exactly its own results unchanged. */
  lemma PollExecutionFixedPoint(e: PollExecution)
    ensures e.Valid() <==> NewPollExecution(e.Args()) == Ok(e)
  {
    UtcUnchanged(e.startedAt);
    OptionalUtcUnchanged(e.finishedAt);
  }

  // ---------------------------------------------------------------- poll results

  datatype WorkerPollResult = WorkerPollResult(execution: PollExecution, results: seq<TagResult>)
  {
    predicate Valid() {
      && execution.Valid()
      && forall i :: 0 <= i < |results| ==> results[i].Valid()
    }

    function Id(): string {
      execution.executionId
    }
  }

  /** Poll results as they exist at run time: built by the constructors above. */
  type PollResult = r: WorkerPollResult | r.Valid() witness
    WorkerPollResult(PollExecution("e", "c", "g", Running, EPOCH, None, 0, 0, 0, None), [])

  /** The identifiers are random per poll, so one identifier stands for one content. */
  ghost predicate IdDeterminesContent(universe: set<WorkerPollResult>) {
    forall x, y :: x in universe && y in universe && x.Id() == y.Id() ==> x == y
  }
}
