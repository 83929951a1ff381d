/** The two reading tables and the transactional, idempotent batch save. */
module Repository {

  import opened Results
  import opened Text
  import opened Timestamps
  import opened Base64
  import opened Domain
  import opened Codec

  // ---------------------------------------------------------------- tables

  /** The `tags` table: configured value type by tag id; the column may be null. */
  type Catalog = map<string, Option<string>>

  /** Columns written on insert only. */
  datatype FixedColumns = FixedColumns(connectionId: string, tagGroupId: string, startedAt: string)

  /** Columns overwritten when the execution id already exists. */
  datatype LatestColumns = LatestColumns(
    status: string,
    finishedAt: Option<string>,
    requestedTags: int,
    successfulTags: int,
    failedTags: int,
    errorMessage: Option<string>)

  datatype ExecutionRow = ExecutionRow(fixed: FixedColumns, latest: LatestColumns)

  datatype ReadingRow = ReadingRow(
    connectionId: string,
    tagGroupId: string,
    tagId: string,
    sourceTimestamp: Option<string>,
    receivedAt: string,
    quality: string,
    valueType: string,
    numericValue: Option<real>,
    integerValue: Option<int>,
    booleanValue: Option<bool>,
    textValue: Option<string>,
    binaryValue: Option<seq<Byte>>,
    errorCode: Option<string>,
    errorMessage: Option<string>)

  /** `poll_executions` by execution id and `tag_readings` by event id. */
  datatype Tables = Tables(executions: map<string, ExecutionRow>, readings: map<string, ReadingRow>)

  datatype SaveError = MissingTagValueType(tagId: string)

  // ---------------------------------------------------------------- event ids

  function EventId(executionId: string, index: nat): string {
    executionId + ":" + Decimal(index)
  }

  lemma ShorterPrefixDiffers(e1: string, i1: nat, e2: string, i2: nat)
    requires |e1| < |e2|
    ensures EventId(e1, i1) != EventId(e2, i2)
  {
    assert EventId(e2, i2)[|e2|] == ':';
    if |EventId(e1, i1)| > |e2| {
      assert EventId(e1, i1)[|e2|] == Decimal(i1)[|e2| - |e1| - 1];
    }
  }

  /** The separator that counts is the last colon, so colons inside the execution id do no harm. */
  lemma EventIdInjective(e1: string, i1: nat, e2: string, i2: nat)
    ensures EventId(e1, i1) == EventId(e2, i2) <==> e1 == e2 && i1 == i2
  {
    if |e1| < |e2| {
      ShorterPrefixDiffers(e1, i1, e2, i2);
    } else if |e2| < |e1| {
      ShorterPrefixDiffers(e2, i2, e1, i1);
    } else if EventId(e1, i1) == EventId(e2, i2) {
      var whole := EventId(e1, i1);
      assert e1 == whole[..|e1|] && e2 == whole[..|e2|];
      assert Decimal(i1) == whole[|e1| + 1..] && Decimal(i2) == whole[|e2| + 1..];
      DecimalNumber(i1);
      DecimalNumber(i2);
    }
  }

  /** An event id is the execution id, a colon, and the index in decimal without leading zeros. */
  lemma EventIdReads(executionId: string, index: nat)
    ensures
      var key, n := EventId(executionId, index), |executionId|;
      && n + 1 < |key| && key[..n] == executionId && key[n] == ':'
      && AllDigits(key[n + 1..]) && Number(key[n + 1..]) == index
      && (key[n + 1] == '0' ==> index == 0 && |key| == n + 2)
  {
    var key, n := EventId(executionId, index), |executionId|;
    DecimalNumber(index);
    assert key[n + 1..] == Decimal(index);
  }

  // ---------------------------------------------------------------- rows

  function FixedOf(e: PollExecution): FixedColumns {
    FixedColumns(e.connectionId, e.tagGroupId, IsoFormat(e.startedAt))
  }

  function OptionalIso(d: Option<Utc>): Option<string> {
    match d
    case Some(utc) => Some(IsoFormat(utc))
    case None => None
  }

  function LatestOf(e: PollExecution): LatestColumns {
    LatestColumns(StatusName(e.status), OptionalIso(e.finishedAt), e.requestedTags, e.successfulTags,
        e.failedTags, e.errorMessage)
  }

  /** A failed reading takes its type from the configuration, which has to know it. */
  function ReadingValueType(catalog: Catalog, t: TagResult): Result<string, SaveError> {
    if t.value.Some? then Ok(ValueTypeName(t.value.value.valueType))
    else if t.tagId in catalog && catalog[t.tagId].Some? && catalog[t.tagId].value != "" then Ok(catalog[t.tagId].value)
    else Err(MissingTagValueType(t.tagId))
  }

  predicate AllTyped(catalog: Catalog, results: seq<TagResult>) {
    forall i :: 0 <= i < |results| ==> ReadingValueType(catalog, results[i]).Ok?
  }

  predicate ItemStorable(catalog: Catalog, item: WorkerPollResult) {
    AllTyped(catalog, item.results)
  }

  predicate Storable(catalog: Catalog, batch: seq<WorkerPollResult>) {
    forall i :: 0 <= i < |batch| ==> ItemStorable(catalog, batch[i])
  }

  /** The row of one result; the type is blank only where the save would be refused. */
  function RowOf(catalog: Catalog, item: WorkerPollResult, index: nat): ReadingRow
    requires index < |item.results|
  {
    var t := item.results[index];
    var valueType := ReadingValueType(catalog, t);
    var empty := ReadingRow(
      item.execution.connectionId, item.execution.tagGroupId, t.tagId, OptionalIso(t.sourceTimestamp),
      IsoFormat(t.receivedAt), QualityName(t.quality), if valueType.Ok? then valueType.value else "",
      None, None, None, None, None, t.errorCode, t.errorMessage);
    if t.value.None? then empty
    else
      var v := t.value.value;
      empty.(numericValue := v.numericValue, integerValue := v.integerValue, booleanValue := v.booleanValue,
             textValue := v.textValue, binaryValue := v.binaryValue)
  }

  /** The rows of the first `n` results of a poll, by event id. */
  function RowsOf(catalog: Catalog, item: WorkerPollResult, n: nat): map<string, ReadingRow>
    requires n <= |item.results|
  {
    if n == 0 then map[] else RowsOf(catalog, item, n - 1)[EventId(item.Id(), n - 1) := RowOf(catalog, item, n - 1)]
  }

  predicate Owns(item: WorkerPollResult, key: string, index: nat) {
    index < |item.results| && key == EventId(item.Id(), index)
  }

  ghost predicate OwnsSome(item: WorkerPollResult, key: string) {
    exists i: nat :: Owns(item, key, i)
  }

  lemma {:induction false} RowsAt(catalog: Catalog, item: WorkerPollResult, n: nat)
    requires n <= |item.results|
    ensures forall i: nat :: i < n ==>
              EventId(item.Id(), i) in RowsOf(catalog, item, n)
              && RowsOf(catalog, item, n)[EventId(item.Id(), i)] == RowOf(catalog, item, i)
    ensures forall key :: key in RowsOf(catalog, item, n) ==> exists i: nat :: i < n && Owns(item, key, i)
  {
    hide RowOf, EventId;
    if n > 0 {
      RowsAt(catalog, item, n - 1);
      forall i: nat | i < n - 1
        ensures EventId(item.Id(), i) != EventId(item.Id(), n - 1)
      {
        EventIdInjective(item.Id(), i, item.Id(), n - 1);
      }
      assert Owns(item, EventId(item.Id(), n - 1), n - 1);
    }
  }

  // ---------------------------------------------------------------- what a save does

  /** Upsert of the execution; readings already present win over the new ones. */
  function Saved(catalog: Catalog, t: Tables, item: WorkerPollResult): Tables {
    var id := item.Id();
    var fixed := if id in t.executions then t.executions[id].fixed else FixedOf(item.execution);
    Tables(
      t.executions[id := ExecutionRow(fixed, LatestOf(item.execution))],
      RowsOf(catalog, item, |item.results|) + t.readings)
  }

  function SaveAll(catalog: Catalog, t: Tables, batch: seq<WorkerPollResult>): Tables {
    if batch == [] then t
    else Saved(catalog, SaveAll(catalog, t, batch[..|batch| - 1]), batch[|batch| - 1])
  }

  /** Saving one batch and then another is saving them joined. */
  lemma {:induction false} SaveAllConcat(catalog: Catalog, t: Tables, a: seq<WorkerPollResult>,
      b: seq<WorkerPollResult>)
    ensures SaveAll(catalog, t, a + b) == SaveAll(catalog, SaveAll(catalog, t, a), b)
    decreases |b|
  {
    hide Saved;
    if b == [] {
      assert a + b == a;
    } else {
      SaveAllConcat(catalog, t, a, b[..|b| - 1]);
      assert (a + b)[..|a + b| - 1] == a + b[..|b| - 1];
    }
  }

  // ---------------------------------------------------------------- executions, point by point

  predicate HasId(batch: seq<WorkerPollResult>, id: string) {
    exists i :: 0 <= i < |batch| && batch[i].Id() == id
  }

  function FirstWith(batch: seq<WorkerPollResult>, id: string): (r: WorkerPollResult)
    requires HasId(batch, id)
    ensures r in batch && r.Id() == id
  {
    var front := batch[..|batch| - 1];
    if HasId(front, id) then FirstWith(front, id) else batch[|batch| - 1]
  }

  function LastWith(batch: seq<WorkerPollResult>, id: string): (r: WorkerPollResult)
    requires HasId(batch, id)
    ensures r in batch && r.Id() == id
  {
    if batch[|batch| - 1].Id() == id then batch[|batch| - 1] else LastWith(batch[..|batch| - 1], id)
  }

  /** The first of the items with an identifier, and the last. */
  lemma {:induction false} FirstAndLast(batch: seq<WorkerPollResult>, id: string, i: nat)
    requires i < |batch| && batch[i].Id() == id
    ensures HasId(batch, id)
    ensures (forall j :: 0 <= j < i ==> batch[j].Id() != id) ==> FirstWith(batch, id) == batch[i]
    ensures (forall j :: i < j < |batch| ==> batch[j].Id() != id) ==> LastWith(batch, id) == batch[i]
  {
    var front := batch[..|batch| - 1];
    assert HasId(batch, id);
    assert forall j :: 0 <= j < |front| ==> front[j] == batch[j];
    if i < |front| {
      FirstAndLast(front, id, i);
    }
  }

  lemma {:induction false} ExecutionAt(catalog: Catalog, t: Tables, batch: seq<WorkerPollResult>, id: string)
    ensures
      var rows := SaveAll(catalog, t, batch).executions;
      && (id in rows <==> id in t.executions || HasId(batch, id))
      && (id in t.executions ==> rows[id].fixed == t.executions[id].fixed)
      && (id in t.executions && !HasId(batch, id) ==> rows[id] == t.executions[id])
      && (id !in t.executions && HasId(batch, id) ==> rows[id].fixed == FixedOf(FirstWith(batch, id).execution))
      && (HasId(batch, id) ==> rows[id].latest == LatestOf(LastWith(batch, id).execution))
  {
    hide RowsOf, LatestOf, FixedOf;
    if batch != [] {
      var front := batch[..|batch| - 1];
      ExecutionAt(catalog, t, front, id);
      assert forall i :: 0 <= i < |front| ==> front[i] == batch[i];
      assert HasId(batch, id) <==> HasId(front, id) || batch[|batch| - 1].Id() == id;
    }
  }

  // ---------------------------------------------------------------- readings, point by point

  ghost predicate HasKey(batch: seq<WorkerPollResult>, key: string) {
    exists x :: x in batch && OwnsSome(x, key)
  }

  lemma HasKeyStep(batch: seq<WorkerPollResult>, key: string)
    requires batch != []
    ensures HasKey(batch, key) <==> HasKey(batch[..|batch| - 1], key) || OwnsSome(batch[|batch| - 1], key)
  {
    var front, last := batch[..|batch| - 1], batch[|batch| - 1];
    assert batch == front + [last];
    if OwnsSome(last, key) {
      assert last in batch;
    }
  }

  lemma SavedReadingsKeys(catalog: Catalog, t: Tables, item: WorkerPollResult, key: string)
    ensures key in Saved(catalog, t, item).readings <==> key in t.readings || OwnsSome(item, key)
    ensures key in t.readings ==> Saved(catalog, t, item).readings[key] == t.readings[key]
  {
    hide RowOf, LatestOf, FixedOf, EventId;
    RowsAt(catalog, item, |item.results|);
  }

  /** Which event ids exist after a save, and that present readings never change. */
  lemma {:induction false} ReadingKeys(catalog: Catalog, t: Tables, batch: seq<WorkerPollResult>, key: string)
    ensures key in SaveAll(catalog, t, batch).readings <==> key in t.readings || HasKey(batch, key)
    ensures key in t.readings ==> SaveAll(catalog, t, batch).readings[key] == t.readings[key]
  {
    if batch != [] {
      var front := batch[..|batch| - 1];
      ReadingKeys(catalog, t, front, key);
      SavedReadingsKeys(catalog, SaveAll(catalog, t, front), batch[|batch| - 1], key);
      HasKeyStep(batch, key);
    }
  }

  ghost predicate Within(batch: seq<WorkerPollResult>, universe: set<WorkerPollResult>) {
    forall x :: x in batch ==> x in universe
  }

  /** With one content per identifier, a new reading is the row of whichever item owns its event id. */
  lemma {:induction false} ReadingAt(catalog: Catalog, t: Tables, batch: seq<WorkerPollResult>,
                                      universe: set<WorkerPollResult>, x: WorkerPollResult, index: nat)
    requires IdDeterminesContent(universe) && Within(batch, universe) && x in batch
    requires index < |x.results| && EventId(x.Id(), index) !in t.readings
    ensures EventId(x.Id(), index) in SaveAll(catalog, t, batch).readings
    ensures SaveAll(catalog, t, batch).readings[EventId(x.Id(), index)] == RowOf(catalog, x, index)
  {
    hide RowOf, LatestOf, FixedOf;
    var key := EventId(x.Id(), index);
    var front, last := batch[..|batch| - 1], batch[|batch| - 1];
    var before := SaveAll(catalog, t, front);
    assert Owns(x, key, index);
    ReadingKeys(catalog, t, batch, key);
    ReadingKeys(catalog, t, front, key);
    SavedReadingsKeys(catalog, before, last, key);
    if key in before.readings {
      var y :| y in front && OwnsSome(y, key);
      var j: nat :| Owns(y, key, j);
      EventIdInjective(x.Id(), index, y.Id(), j);
      assert y in batch;
      assert x == y;
      ReadingAt(catalog, t, front, universe, x, index);
    } else {
      assert OwnsSome(x, key);
      assert x !in front;
      RowsAt(catalog, last, |last.results|);
    }
  }

  // ---------------------------------------------------------------- order, repetition, idempotence

  /** Saving a batch again changes nothing, even when the batch repeats an identifier. */
  lemma SaveIdempotent(catalog: Catalog, t: Tables, batch: seq<WorkerPollResult>)
    ensures SaveAll(catalog, SaveAll(catalog, t, batch), batch) == SaveAll(catalog, t, batch)
  {
    hide Saved, LatestOf, FixedOf, HasKey;
    var once := SaveAll(catalog, t, batch);
    var twice := SaveAll(catalog, once, batch);
    forall id
      ensures id in twice.executions <==> id in once.executions
      ensures id in once.executions ==> twice.executions[id] == once.executions[id]
    {
      ExecutionAt(catalog, t, batch, id);
      ExecutionAt(catalog, once, batch, id);
    }
    forall key
      ensures key in twice.readings <==> key in once.readings
      ensures key in once.readings ==> twice.readings[key] == once.readings[key]
    {
      ReadingKeys(catalog, t, batch, key);
      ReadingKeys(catalog, once, batch, key);
    }
    assert twice.executions == once.executions && twice.readings == once.readings;
  }

  ghost predicate SameItems(a: seq<WorkerPollResult>, b: seq<WorkerPollResult>) {
    forall x :: x in a <==> x in b
  }

  lemma SameItemsSameIds(a: seq<WorkerPollResult>, b: seq<WorkerPollResult>, id: string)
    requires SameItems(a, b)
    ensures HasId(a, id) <==> HasId(b, id)
  {
    if HasId(a, id) {
      assert FirstWith(a, id) in b;
    }
    if HasId(b, id) {
      assert FirstWith(b, id) in a;
    }
  }

  /** Neither order nor repetition of the saved items shows in the tables. */
  lemma SaveOrderIrrelevant(catalog: Catalog, t: Tables, a: seq<WorkerPollResult>, b: seq<WorkerPollResult>,
                            universe: set<WorkerPollResult>)
    requires IdDeterminesContent(universe) && Within(a, universe) && SameItems(a, b)
    ensures SaveAll(catalog, t, a) == SaveAll(catalog, t, b)
  {
    hide Saved, RowOf, LatestOf, FixedOf;
    var ta, tb := SaveAll(catalog, t, a), SaveAll(catalog, t, b);
    assert Within(b, universe);
    forall id
      ensures id in ta.executions <==> id in tb.executions
      ensures id in ta.executions ==> ta.executions[id] == tb.executions[id]
    {
      ExecutionAt(catalog, t, a, id);
      ExecutionAt(catalog, t, b, id);
      SameItemsSameIds(a, b, id);
      if HasId(a, id) {
        assert FirstWith(a, id) == FirstWith(b, id) && LastWith(a, id) == LastWith(b, id);
      }
    }
    forall key
      ensures key in ta.readings <==> key in tb.readings
      ensures key in ta.readings ==> ta.readings[key] == tb.readings[key]
    {
      ReadingKeys(catalog, t, a, key);
      ReadingKeys(catalog, t, b, key);
      if key !in t.readings && HasKey(a, key) {
        var x :| x in a && OwnsSome(x, key);
        var i: nat :| Owns(x, key, i);
        ReadingAt(catalog, t, a, universe, x, i);
        ReadingAt(catalog, t, b, universe, x, i);
      }
    }
    assert ta.executions == tb.executions && ta.readings == tb.readings;
  }

  // ---------------------------------------------------------------- "fully in the database"

  /** The execution shows this poll's outcome and every one of its readings is present. */
  ghost predicate InDatabase(t: Tables, item: WorkerPollResult) {
    && item.Id() in t.executions
    && t.executions[item.Id()].latest == LatestOf(item.execution)
    && forall i: nat :: i < |item.results| ==> EventId(item.Id(), i) in t.readings
  }

  /**
   * The rows of `t` are this poll's own: both rows and columns that only the first insert writes, except
   * where `origin`, the tables at the start, already held them.
   */
  ghost predicate HoldsContent(catalog: Catalog, origin: Tables, t: Tables, item: WorkerPollResult) {
    && InDatabase(t, item)
    && t.executions[item.Id()].fixed ==
       (if item.Id() in origin.executions then origin.executions[item.Id()].fixed else FixedOf(item.execution))
    && forall i: nat :: i < |item.results| ==>
         t.readings[EventId(item.Id(), i)] ==
         if EventId(item.Id(), i) in origin.readings then origin.readings[EventId(item.Id(), i)]
         else RowOf(catalog, item, i)
  }

  /** An item is fully in the database exactly when saving it would change nothing. */
  lemma InDatabaseIffAbsorbed(catalog: Catalog, t: Tables, item: WorkerPollResult)
    ensures InDatabase(t, item) <==> Saved(catalog, t, item) == t
  {
    hide RowOf, LatestOf, FixedOf, EventId;
    RowsAt(catalog, item, |item.results|);
    var after := Saved(catalog, t, item);
    if InDatabase(t, item) {
      assert after.executions == t.executions;
      forall key | key in after.readings
        ensures key in t.readings && after.readings[key] == t.readings[key]
      {
        SavedReadingsKeys(catalog, t, item, key);
      }
      assert after.readings.Keys == t.readings.Keys;
      assert after.readings == t.readings;
    } else if item.Id() in t.executions && t.executions[item.Id()].latest == LatestOf(item.execution) {
      var i: nat :| i < |item.results| && EventId(item.Id(), i) !in t.readings;
      assert EventId(item.Id(), i) in after.readings;
    } else {
      assert after.executions[item.Id()].latest == LatestOf(item.execution);
    }
  }

  /** Everything ever saved stays in the database, whatever was saved before or after it. */
  lemma SavedStaysInDatabase(catalog: Catalog, t: Tables, batch: seq<WorkerPollResult>,
                             universe: set<WorkerPollResult>, x: WorkerPollResult)
    requires IdDeterminesContent(universe) && Within(batch, universe) && x in batch
    ensures HoldsContent(catalog, t, SaveAll(catalog, t, batch), x)
  {
    hide RowOf, LatestOf, FixedOf, EventId, SaveAll;
    var i :| 0 <= i < |batch| && batch[i] == x;
    assert HasId(batch, x.Id());
    ExecutionAt(catalog, t, batch, x.Id());
    assert LastWith(batch, x.Id()) == x && FirstWith(batch, x.Id()) == x;
    forall j: nat | j < |x.results|
      ensures EventId(x.Id(), j) in SaveAll(catalog, t, batch).readings
      ensures SaveAll(catalog, t, batch).readings[EventId(x.Id(), j)] ==
              if EventId(x.Id(), j) in t.readings then t.readings[EventId(x.Id(), j)] else RowOf(catalog, x, j)
    {
      var key := EventId(x.Id(), j);
      assert Owns(x, key, j);
      ReadingKeys(catalog, t, batch, key);
      if key !in t.readings {
        ReadingAt(catalog, t, batch, universe, x, j);
      }
    }
  }

  // ---------------------------------------------------------------- reading the tables back

  function LoadOption(text: Option<string>): Option<Option<Utc>> {
    if text.None? then Some(None)
    else
      match Load(text.value)
      case Ok(d) => Some(Some(d))
      case Err(_) => None
  }

  /** The tag result that a reader takes from a reading's columns; the error columns tell a failure. */
  function ReadResult(row: ReadingRow): Option<TagResult> {
    match (QualityNamed(row.quality), Load(row.receivedAt), LoadOption(row.sourceTimestamp),
        ValueTypeNamed(row.valueType))
    case (Ok(quality), Ok(receivedAt), Some(sourceTimestamp), valueType) =>
      if row.errorCode.Some? then
        Some(TagResult(row.tagId, quality, receivedAt, sourceTimestamp, None, row.errorCode, row.errorMessage))
      else if valueType.Ok? then
        var value := TagValue(valueType.value, row.numericValue, row.integerValue, row.booleanValue, row.textValue,
                              row.binaryValue);
        Some(TagResult(row.tagId, quality, receivedAt, sourceTimestamp, Some(value), None, row.errorMessage))
      else None
    case _ => None
  }

  function ReadExecution(id: string, row: ExecutionRow): Option<PollExecution> {
    match (StatusNamed(row.latest.status), Load(row.fixed.startedAt), LoadOption(row.latest.finishedAt))
    case (Ok(status), Ok(startedAt), Some(finishedAt)) =>
      Some(PollExecution(id, row.fixed.connectionId, row.fixed.tagGroupId, status, startedAt, finishedAt,
        row.latest.requestedTags, row.latest.successfulTags, row.latest.failedTags, row.latest.errorMessage))
    case _ => None
  }

  /** The tables hold this poll: its execution and each of its readings read back as they were, and no more readings. */
  ghost predicate ReadsBack(t: Tables, x: WorkerPollResult) {
    && x.Id() in t.executions && ReadExecution(x.Id(), t.executions[x.Id()]) == Some(x.execution)
    && (forall i: nat :: EventId(x.Id(), i) in t.readings <==> i < |x.results|)
    && (forall i: nat :: i < |x.results| ==>
          var row := t.readings[EventId(x.Id(), i)];
          && ReadResult(row) == Some(x.results[i])
          && row.connectionId == x.execution.connectionId && row.tagGroupId == x.execution.tagGroupId)
  }

  lemma LoadsBack(d: Utc)
    ensures Load(IsoFormat(d)) == Ok(d)
  {
    ParseIsoFormat(d);
    NormalizeUtc(d);
  }

  lemma OptionLoadsBack(d: Option<Utc>)
    ensures LoadOption(OptionalIso(d)) == Some(d)
  {
    if d.Some? {
      LoadsBack(d.value);
    }
  }

  lemma RowReadsBack(catalog: Catalog, x: WorkerPollResult, index: nat)
    requires index < |x.results| && x.results[index].Valid()
    ensures ReadResult(RowOf(catalog, x, index)) == Some(x.results[index])
  {
    hide Load, IsoFormat, QualityName, QualityNamed, ValueTypeName, ValueTypeNamed, LoadOption, OptionalIso;
    var t := x.results[index];
    LoadsBack(t.receivedAt);
    OptionLoadsBack(t.sourceTimestamp);
    QualityNameInverse(t.quality);
    if t.value.Some? {
      ValueTypeNameInverse(t.value.value.valueType);
    }
  }

  lemma ExecutionReadsBack(e: PollExecution)
    ensures ReadExecution(e.executionId, ExecutionRow(FixedOf(e), LatestOf(e))) == Some(e)
  {
    hide Load, IsoFormat, StatusName, StatusNamed, LoadOption, OptionalIso;
    LoadsBack(e.startedAt);
    OptionLoadsBack(e.finishedAt);
    StatusNameInverse(e.status);
  }

  /** A saved poll whose rows are new is read back from the tables exactly as it was, whatever else is saved. */
  lemma SavedReadsBack(catalog: Catalog, t: Tables, batch: seq<WorkerPollResult>,
                       universe: set<WorkerPollResult>, x: WorkerPollResult)
    requires IdDeterminesContent(universe) && Within(batch, universe) && x in batch && x.Valid()
    requires x.Id() !in t.executions && forall i: nat :: EventId(x.Id(), i) !in t.readings
    ensures ReadsBack(SaveAll(catalog, t, batch), x)
  {
    hide RowOf, LatestOf, FixedOf, EventId, SaveAll, ReadResult, ReadExecution, PollExecution.Valid, TagResult.Valid;
    SavedStaysInDatabase(catalog, t, batch, universe, x);
    ExecutionReadsBack(x.execution);
    var after := SaveAll(catalog, t, batch);
    forall i: nat
      ensures EventId(x.Id(), i) in after.readings <==> i < |x.results|
    {
      OwnReadings(catalog, t, batch, universe, x, i);
    }
    forall i: nat | i < |x.results|
      ensures ReadResult(after.readings[EventId(x.Id(), i)]) == Some(x.results[i])
      ensures after.readings[EventId(x.Id(), i)].connectionId == x.execution.connectionId
      ensures after.readings[EventId(x.Id(), i)].tagGroupId == x.execution.tagGroupId
    {
      assert after.readings[EventId(x.Id(), i)] == RowOf(catalog, x, i);
      RowReadsBack(catalog, x, i);
      RowNames(catalog, x, i);
    }
  }

  lemma RowNames(catalog: Catalog, x: WorkerPollResult, i: nat)
    requires i < |x.results|
    ensures RowOf(catalog, x, i).connectionId == x.execution.connectionId
    ensures RowOf(catalog, x, i).tagGroupId == x.execution.tagGroupId
    ensures x.results[i].value.None? && TypeConfigured(catalog, x.results[i].tagId) ==>
              RowOf(catalog, x, i).valueType == catalog[x.results[i].tagId].value
  {
  }

  /** Readings under an event id of `x` that was free are those of `x`. */
  lemma OwnReadings(catalog: Catalog, t: Tables, batch: seq<WorkerPollResult>, universe: set<WorkerPollResult>,
                    x: WorkerPollResult, i: nat)
    requires IdDeterminesContent(universe) && Within(batch, universe) && x in batch
    requires EventId(x.Id(), i) !in t.readings
    ensures EventId(x.Id(), i) in SaveAll(catalog, t, batch).readings <==> i < |x.results|
  {
    hide EventId, SaveAll;
    var key := EventId(x.Id(), i);
    ReadingKeys(catalog, t, batch, key);
    if HasKey(batch, key) {
      var y :| y in batch && OwnsSome(y, key);
      var j: nat :| Owns(y, key, j);
      EventIdInjective(x.Id(), i, y.Id(), j);
    }
    if i < |x.results| {
      assert Owns(x, key, i);
    }
  }

  /** The configuration knows a type for the tag. */
  predicate TypeConfigured(catalog: Catalog, tagId: string) {
    tagId in catalog && catalog[tagId].Some? && catalog[tagId].value != ""
  }

  /** What can be stored: every result carries a value or belongs to a tag of configured type. */
  lemma StorableExactly(catalog: Catalog, batch: seq<WorkerPollResult>)
    ensures Storable(catalog, batch) <==>
              forall b, i :: 0 <= b < |batch| && 0 <= i < |batch[b].results| ==>
                batch[b].results[i].value.Some? || TypeConfigured(catalog, batch[b].results[i].tagId)
  {
  }

  lemma NoRows(catalog: Catalog, item: WorkerPollResult, readings: map<string, ReadingRow>)
    ensures RowsOf(catalog, item, 0) + readings == readings
    ensures AllTyped(catalog, item.results[..0])
  {
  }

  lemma TypedNext(catalog: Catalog, results: seq<TagResult>, i: nat)
    requires i < |results|
    ensures AllTyped(catalog, results[..i + 1]) <==>
        AllTyped(catalog, results[..i]) && ReadingValueType(catalog, results[i]).Ok?
    ensures AllTyped(catalog, results) ==> ReadingValueType(catalog, results[i]).Ok?
  {
    hide ReadingValueType;
    var longer := results[..i + 1];
    assert forall k :: 0 <= k < i ==> longer[k] == results[..i][k];
    assert longer[i] == results[i];
  }

  /** Inserting the next row, unless its event id is taken, is what the merged tables say. */
  lemma RowsGrow(catalog: Catalog, item: WorkerPollResult, i: nat, readings: map<string, ReadingRow>)
    requires i < |item.results|
    ensures
      var sofar := RowsOf(catalog, item, i) + readings;
      var key := EventId(item.Id(), i);
      RowsOf(catalog, item, i + 1) + readings == if key in sofar then sofar else sofar[key := RowOf(catalog, item, i)]
  {
    hide RowOf, EventId;
    var key := EventId(item.Id(), i);
    RowsAt(catalog, item, i);
    if key in RowsOf(catalog, item, i) {
      var j: nat :| j < i && Owns(item, key, j);
      EventIdInjective(item.Id(), i, item.Id(), j);
      assert false;
    }
  }

  lemma Unconfigured(catalog: Catalog, t: TagResult)
    requires ReadingValueType(catalog, t).Err?
    ensures !TypeConfigured(catalog, ReadingValueType(catalog, t).error.tagId)
  {
  }

  lemma SaveNothing(catalog: Catalog, t: Tables)
    ensures SaveAll(catalog, t, []) == t && Storable(catalog, [])
  {
  }

  lemma UnstorableItem(catalog: Catalog, batch: seq<WorkerPollResult>, b: nat)
    requires b < |batch| && !ItemStorable(catalog, batch[b])
    ensures !Storable(catalog, batch)
  {
  }

  lemma SaveNext(catalog: Catalog, t: Tables, batch: seq<WorkerPollResult>, b: nat, after: Tables)
    requires b < |batch| && after == SaveAll(catalog, t, batch[..b])
    ensures
      SaveAll(catalog, t, batch[..b + 1]) ==
      Tables(UpsertExecution(after.executions, batch[b].execution),
          RowsOf(catalog, batch[b], |batch[b].results|) + after.readings)
    ensures Storable(catalog, batch[..b + 1]) <==> Storable(catalog, batch[..b]) && ItemStorable(catalog, batch[b])
  {
    hide RowsOf, LatestOf, FixedOf, ItemStorable;
    assert batch[..b + 1][..b] == batch[..b];
    assert forall i :: 0 <= i < b ==> batch[..b + 1][i] == batch[..b][i];
  }

  // ---------------------------------------------------------------- the repository object

  /** Insert, or on conflict overwrite the latest columns only. */
  function UpsertExecution(executions: map<string, ExecutionRow>, e: PollExecution): map<string, ExecutionRow> {
    if e.executionId in executions then executions[e.executionId := executions[e.executionId].(latest := LatestOf(e))]
    else executions[e.executionId := ExecutionRow(FixedOf(e), LatestOf(e))]
  }

  /** The readings of one poll, each ignored when its event id is present. */
  method InsertReadings(catalog: Catalog, readings: map<string, ReadingRow>, item: WorkerPollResult)
    returns (r: Result<map<string, ReadingRow>, SaveError>)
    ensures r.Ok? <==> ItemStorable(catalog, item)
    ensures r.Err? ==> !TypeConfigured(catalog, r.error.tagId)
    ensures r.Ok? ==> r.value == RowsOf(catalog, item, |item.results|) + readings && |r.value| >= |readings|
  {
    hide RowOf, EventId, RowsOf, ReadingValueType, AllTyped, TypeConfigured;
    var work := readings;
    var i := 0;
    NoRows(catalog, item, readings);
    assert item.results[..|item.results|] == item.results;
    while i < |item.results|
      invariant 0 <= i <= |item.results|
      invariant AllTyped(catalog, item.results[..i])
      invariant work == RowsOf(catalog, item, i) + readings && |work| >= |readings|
    {
      var valueType := ReadingValueType(catalog, item.results[i]);
      TypedNext(catalog, item.results, i);
      if valueType.Err? {
        Unconfigured(catalog, item.results[i]);
        return Err(valueType.error);
      }
      var eventId := EventId(item.Id(), i);
      RowsGrow(catalog, item, i, readings);
      if eventId !in work {
        work := work[eventId := RowOf(catalog, item, i)];
      }
      i := i + 1;
    }
    r := Ok(work);
  }

  class ReadingRepository {

    const catalog: Catalog
    var executions: map<string, ExecutionRow>
    var readings: map<string, ReadingRow>

    constructor (catalog: Catalog)
      ensures this.catalog == catalog && View() == Tables(map[], map[])
    {
      this.catalog := catalog;
      executions, readings := map[], map[];
    }

    ghost function View(): Tables
      reads this
    {
      Tables(executions, readings)
    }

    /**
     * One transaction for the whole batch. It fails exactly when some failed reading has no configured
     * type, and then nothing is written; otherwise the result is the number of new readings.
     */
    method SavePollResults(batch: seq<WorkerPollResult>) returns (r: Result<nat, SaveError>)
      modifies this
      ensures r.Ok? <==> Storable(catalog, batch)
      ensures r.Ok? <==>
                forall b, i :: 0 <= b < |batch| && 0 <= i < |batch[b].results| ==>
                  batch[b].results[i].value.Some? || TypeConfigured(catalog, batch[b].results[i].tagId)
      ensures r.Err? ==> !TypeConfigured(catalog, r.error.tagId)
      ensures View() == if r.Ok? then SaveAll(catalog, old(View()), batch) else old(View())
      ensures r.Ok? ==> r.value == |readings| - |old(readings)|
    {
      hide SaveAll, RowsOf, ItemStorable, Storable, UpsertExecution, TypeConfigured;
      StorableExactly(catalog, batch);
      SaveNothing(catalog, Tables(executions, readings));
      var workExecutions, workReadings, inserted := executions, readings, 0;
      var b := 0;
      assert batch[..0] == [];
      while b < |batch|
        invariant 0 <= b <= |batch|
        invariant executions == old(executions) && readings == old(readings)
        invariant Storable(catalog, batch[..b])
        invariant Tables(workExecutions, workReadings) == SaveAll(catalog, Tables(executions, readings), batch[..b])
        invariant 0 <= inserted == |workReadings| - |readings|
      {
        var item := batch[b];
        SaveNext(catalog, Tables(executions, readings), batch, b, Tables(workExecutions, workReadings));
        workExecutions := UpsertExecution(workExecutions, item.execution);
        var saved := InsertReadings(catalog, workReadings, item);
        if saved.Err? {
          UnstorableItem(catalog, batch, b);
          return Err(saved.error);
        }
        inserted := inserted + |saved.value| - |workReadings|;
        workReadings := saved.value;
        b := b + 1;
      }
      assert batch[..b] == batch;
      executions, readings := workExecutions, workReadings;
      r := Ok(inserted);
    }
  }
}
