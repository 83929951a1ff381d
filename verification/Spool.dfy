/** The durable spool: a bounded table of poll results awaiting another attempt at the database. */
module Spool {

  import opened Results
  import opened Text
  import opened Timestamps
  import opened Domain
  import opened Codec
  import opened Lists

  // ---------------------------------------------------------------- entries and their rows

  /** One spooled poll result, in the terms of the domain. */
  datatype Entry = Entry(item: WorkerPollResult, retryCount: nat, nextRetryAt: Utc, createdAt: Utc)
  {
    function Id(): string {
      item.Id()
    }
  }

  /** One row of the table: payload as JSON, timestamps as text. */
  datatype Row = Row(executionId: string, payload: Json, retryCount: nat, nextRetryAt: string, createdAt: string)

  /** What a fetch hands to the writer. */
  datatype SpoolEntry = SpoolEntry(executionId: string, pollResult: WorkerPollResult, retryCount: nat, nextRetryAt: Utc)

  datatype SpoolError =
    | SpoolFull
    | DuplicateId
    | InvalidArgument
    | CorruptPayload(cause: CodecError)
    | RetryTimeOverflow

  function RowFor(e: Entry): Row {
    Row(e.Id(), PollResultToJson(e.item), e.retryCount, DatetimeToJson(e.nextRetryAt), DatetimeToJson(e.createdAt))
  }

  function Handed(e: Entry): SpoolEntry {
    SpoolEntry(e.Id(), e.item, e.retryCount, e.nextRetryAt)
  }

  function IdsOf(entries: seq<Entry>): set<string> {
    set e | e in entries :: e.Id()
  }

  function RowIds(rows: seq<Row>): set<string> {
    set r | r in rows :: r.executionId
  }

  function ItemIds(items: seq<WorkerPollResult>): set<string> {
    set x | x in items :: x.Id()
  }

  function IdSet(ids: seq<string>): set<string> {
    set id | id in ids
  }

  predicate DistinctIds(items: seq<WorkerPollResult>) {
    forall i, j :: 0 <= i < j < |items| ==> items[i].Id() != items[j].Id()
  }

  predicate DistinctEntries(entries: seq<Entry>) {
    forall i, j :: 0 <= i < j < |entries| ==> entries[i].Id() != entries[j].Id()
  }

  ghost predicate AllValid(entries: seq<Entry>) {
    forall e :: e in entries ==> e.item.Valid()
  }

  // ---------------------------------------------------------------- appending

  /** The items of a batch whose identifiers are not spooled yet. */
  function Fresh(ids: set<string>, batch: seq<WorkerPollResult>): (r: seq<WorkerPollResult>)
    ensures |r| <= |batch|
    ensures forall x :: x in r <==> x in batch && x.Id() !in ids
  {
    if batch == [] then []
    else
      var rest := Fresh(ids, batch[1..]);
      assert batch == [batch[0]] + batch[1..];
      if batch[0].Id() in ids then rest else [batch[0]] + rest
  }

  function NewEntries(items: seq<WorkerPollResult>, now: Utc): (r: seq<Entry>)
    ensures |r| == |items|
    ensures forall i :: 0 <= i < |items| ==> r[i] == Entry(items[i], 0, now, now)
  {
    seq(|items|, i requires 0 <= i < |items| => Entry(items[i], 0, now, now))
  }

  function Unseen(ids: set<string>): WorkerPollResult -> bool {
    (x: WorkerPollResult) => x.Id() !in ids
  }

  lemma {:induction false} FreshIsFilter(ids: set<string>, batch: seq<WorkerPollResult>)
    ensures Fresh(ids, batch) == Filter(Unseen(ids), batch)
  {
    if batch != [] {
      FreshIsFilter(ids, batch[1..]);
    }
  }

  predicate IsStored(entries: seq<Entry>, id: string) {
    exists k :: 0 <= k < |entries| && entries[k].Id() == id
  }

  predicate HasItem(items: seq<WorkerPollResult>, id: string) {
    exists j :: 0 <= j < |items| && items[j].Id() == id
  }

  /** The positions of a batch at which an item is not stored yet. */
  function NewPositions(entries: seq<Entry>, batch: seq<WorkerPollResult>): set<nat> {
    set i: nat | i < |batch| && !IsStored(entries, batch[i].Id())
  }

  /** No identifier that is not stored yet comes twice. */
  predicate NewIdsDistinct(entries: seq<Entry>, batch: seq<WorkerPollResult>) {
    forall i, j :: 0 <= i < j < |batch| && batch[i].Id() == batch[j].Id() ==> IsStored(entries, batch[i].Id())
  }

  lemma StoredIds(entries: seq<Entry>, id: string)
    ensures id in IdsOf(entries) <==> IsStored(entries, id)
  {
    if id in IdsOf(entries) {
      var e :| e in entries && e.Id() == id;
      var k :| 0 <= k < |entries| && entries[k] == e;
    }
    if k :| 0 <= k < |entries| && entries[k].Id() == id {
      assert entries[k] in entries;
    }
  }

  lemma {:induction false} FreshDistinct(entries: seq<Entry>, batch: seq<WorkerPollResult>)
    ensures DistinctIds(Fresh(IdsOf(entries), batch)) <==> NewIdsDistinct(entries, batch)
  {
    hide IdsOf, DistinctIds, HasItem, IsStored, NewIdsDistinct, Fresh;
    var ids := IdsOf(entries);
    if batch == [] {
      NothingRepeated(entries);
    } else {
      FreshDistinct(entries, batch[1..]);
      StoredIds(entries, batch[0].Id());
      FreshNext(ids, batch);
      HeadDistinct(batch[0], Fresh(ids, batch[1..]));
      FreshHasItem(ids, batch[1..], batch[0].Id());
      NewIdsNext(entries, batch);
    }
  }

  lemma NothingRepeated(entries: seq<Entry>)
    ensures DistinctIds(Fresh(IdsOf(entries), [])) && NewIdsDistinct(entries, [])
  {
  }

  lemma FreshNext(ids: set<string>, batch: seq<WorkerPollResult>)
    requires batch != []
    ensures Fresh(ids, batch) ==
            if batch[0].Id() in ids then Fresh(ids, batch[1..]) else [batch[0]] + Fresh(ids, batch[1..])
  {
  }

  lemma FreshHasItem(ids: set<string>, batch: seq<WorkerPollResult>, id: string)
    ensures HasItem(Fresh(ids, batch), id) <==> id !in ids && HasItem(batch, id)
  {
    var unseen := Fresh(ids, batch);
    if j :| 0 <= j < |unseen| && unseen[j].Id() == id {
      assert unseen[j] in batch;
      var i :| 0 <= i < |batch| && batch[i] == unseen[j];
    }
    if id !in ids {
      if i :| 0 <= i < |batch| && batch[i].Id() == id {
        assert batch[i] in unseen;
        var j :| 0 <= j < |unseen| && unseen[j] == batch[i];
      }
    }
  }

  lemma HeadDistinct(head: WorkerPollResult, rest: seq<WorkerPollResult>)
    ensures DistinctIds([head] + rest) <==> DistinctIds(rest) && !HasItem(rest, head.Id())
  {
    var all := [head] + rest;
    assert forall i :: 0 <= i < |rest| ==> all[i + 1] == rest[i];
    if DistinctIds(all) {
      forall i, j | 0 <= i < j < |rest|
        ensures rest[i].Id() != rest[j].Id()
      {
        assert all[i + 1].Id() != all[j + 1].Id();
      }
      forall j | 0 <= j < |rest|
        ensures rest[j].Id() != head.Id()
      {
        assert all[0].Id() != all[j + 1].Id();
      }
    }
  }

  lemma NewIdsNext(entries: seq<Entry>, batch: seq<WorkerPollResult>)
    requires batch != []
    ensures NewIdsDistinct(entries, batch) <==>
              NewIdsDistinct(entries, batch[1..]) &&
              (IsStored(entries, batch[0].Id()) || !HasItem(batch[1..], batch[0].Id()))
  {
    hide IsStored;
    var rest := batch[1..];
    assert forall i :: 0 <= i < |rest| ==> rest[i] == batch[i + 1];
    if NewIdsDistinct(entries, batch) {
      forall i, j | 0 <= i < j < |rest| && rest[i].Id() == rest[j].Id()
        ensures IsStored(entries, rest[i].Id())
      {
        assert batch[i + 1].Id() == batch[j + 1].Id();
      }
      if j :| 0 <= j < |rest| && rest[j].Id() == batch[0].Id() {
        assert batch[0].Id() == batch[j + 1].Id();
      }
    } else {
      var i, j :| 0 <= i < j < |batch| && batch[i].Id() == batch[j].Id() && !IsStored(entries, batch[i].Id());
      if i > 0 {
        assert rest[i - 1].Id() == rest[j - 1].Id();
      } else {
        assert rest[j - 1].Id() == batch[0].Id();
      }
    }
  }

  lemma FreshCount(entries: seq<Entry>, batch: seq<WorkerPollResult>)
    ensures |Fresh(IdsOf(entries), batch)| == |NewPositions(entries, batch)|
  {
    hide IdsOf, Fresh;
    var ids := IdsOf(entries);
    FreshIsFilter(ids, batch);
    FilterCount(Unseen(ids), batch);
    forall i: nat | i < |batch|
      ensures i in Positions(Unseen(ids), batch) <==> i in NewPositions(entries, batch)
    {
      StoredIds(entries, batch[i].Id());
    }
    assert Positions(Unseen(ids), batch) == NewPositions(entries, batch);
  }

  /** All of the unseen items are stored, or none: too many of them, or one identifier twice, refuses the batch. */
  function Appended(entries: seq<Entry>, maxItems: nat, batch: seq<WorkerPollResult>, now: Utc)
    : (r: Result<seq<Entry>, SpoolError>)
    ensures r.Ok? ==> entries <= r.value && |r.value| <= if |entries| < maxItems then maxItems else |entries|
  {
    var unseen := Fresh(IdsOf(entries), batch);
    if batch == [] then Ok(entries)
    else if |unseen| > maxItems - |entries| then Err(SpoolFull)
    else if !DistinctIds(unseen) then Err(DuplicateId)
    else Ok(entries + NewEntries(unseen, now))
  }

  /** When an append succeeds, how it fails otherwise, and how many entries it adds. */
  lemma AppendSucceedsExactly(entries: seq<Entry>, maxItems: nat, batch: seq<WorkerPollResult>, now: Utc)
    ensures
      var r := Appended(entries, maxItems, batch, now);
      var needed := |entries| + |NewPositions(entries, batch)|;
      && (r.Ok? <==> batch == [] || (needed <= maxItems && NewIdsDistinct(entries, batch)))
      && (r == Err(SpoolFull) <==> batch != [] && needed > maxItems)
      && (r.Err? ==> r.error == SpoolFull || r.error == DuplicateId)
      && (r.Ok? ==> |r.value| == needed)
  {
    hide Fresh, IdsOf, NewIdsDistinct, NewPositions;
    FreshCount(entries, batch);
    FreshDistinct(entries, batch);
    NothingNew(entries);
  }

  lemma NothingNew(entries: seq<Entry>)
    ensures NewPositions(entries, []) == {}
  {
  }

  /** After a successful append every item of the batch is spooled, and nothing else is new. */
  lemma AppendedHoldsBatch(entries: seq<Entry>, maxItems: nat, batch: seq<WorkerPollResult>, now: Utc)
    requires DistinctEntries(entries) && Appended(entries, maxItems, batch, now).Ok?
    ensures
      var after := Appended(entries, maxItems, batch, now).value;
      && DistinctEntries(after)
      && (forall x :: x in batch ==> x.Id() in IdsOf(after))
      && (forall e :: e in entries ==> e in after)
      && (forall e :: e in after ==>
            e in entries || (e.item in batch && e == Entry(e.item, 0, now, now)))
  {
    var unseen := Fresh(IdsOf(entries), batch);
    var after := Appended(entries, maxItems, batch, now).value;
    if batch != [] {
      var added := NewEntries(unseen, now);
      forall x | x in batch
        ensures x.Id() in IdsOf(after)
      {
        if x in unseen {
          var i :| 0 <= i < |unseen| && unseen[i] == x;
          assert added[i] in after;
        } else {
          var e :| e in entries && e.Id() == x.Id();
          assert e in after;
        }
      }
      forall e | e in added
        ensures e.item in batch && e == Entry(e.item, 0, now, now) && e.Id() !in IdsOf(entries)
      {
        var i :| 0 <= i < |added| && added[i] == e;
        assert unseen[i] in unseen;
      }
      forall i, j | 0 <= i < j < |after|
        ensures after[i].Id() != after[j].Id()
      {
        if i < |entries| <= j {
          assert entries[i] in entries && added[j - |entries|] in added;
        }
      }
    }
  }

  // ---------------------------------------------------------------- fetching

  function DueBy(now: Utc): Entry -> bool {
    (e: Entry) => Instant(e.nextRetryAt) <= Instant(now)
  }

  /** Creation time first, execution id among equals. */
  predicate EntryBefore(a: Entry, b: Entry) {
    || Instant(a.createdAt) < Instant(b.createdAt)
    || (Instant(a.createdAt) == Instant(b.createdAt) && Less(a.Id(), b.Id()))
  }

  function FetchedDue(entries: seq<Entry>, now: Utc, limit: nat): seq<Entry> {
    Take(Sort(EntryBefore, Filter(DueBy(now), entries)), limit)
  }

  /** How many entries a fetch at `now` could return. */
  function DueCount(entries: seq<Entry>, now: Utc): nat {
    |Filter(DueBy(now), entries)|
  }

  lemma EntryOrderStrict(entries: seq<Entry>)
    requires DistinctEntries(entries)
    ensures StrictOn(EntryBefore, entries)
  {
    forall x, y, z | EntryBefore(x, y) && EntryBefore(y, z)
      ensures EntryBefore(x, z)
    {
      if Less(x.Id(), y.Id()) && Less(y.Id(), z.Id()) {
        LessTransitive(x.Id(), y.Id(), z.Id());
      }
    }
    forall i, j | 0 <= i < j < |entries|
      ensures EntryBefore(entries[i], entries[j]) || EntryBefore(entries[j], entries[i])
    {
      LessTotal(entries[i].Id(), entries[j].Id());
    }
  }

  lemma {:induction false} FilterKeepsDistinct(keep: Entry -> bool, entries: seq<Entry>)
    requires DistinctEntries(entries)
    ensures DistinctEntries(Filter(keep, entries))
  {
    if entries != [] {
      FilterKeepsDistinct(keep, entries[1..]);
      FilterMembers(keep, entries[1..]);
      var rest := Filter(keep, entries[1..]);
      forall j | 0 <= j < |rest|
        ensures rest[j].Id() != entries[0].Id()
      {
        assert rest[j] in entries[1..];
        var k :| 0 <= k < |entries[1..]| && entries[1..][k] == rest[j];
        assert entries[k + 1] == rest[j];
      }
    }
  }

  /** The positions of the entries whose retry time is not after `now`. */
  function DuePositions(entries: seq<Entry>, now: Utc): set<nat> {
    set i: nat | i < |entries| && Instant(entries[i].nextRetryAt) <= Instant(now)
  }

  lemma DueCountExact(entries: seq<Entry>, now: Utc)
    ensures DueCount(entries, now) == |DuePositions(entries, now)|
  {
    FilterCount(DueBy(now), entries);
    assert Positions(DueBy(now), entries) == DuePositions(entries, now);
  }

  /**
   * A fetch returns as many due entries as there are up to the limit, oldest creation first and by id among
   * equals, none that is not due, and none while leaving out one that comes before it.
   */
  lemma FetchIsOldestDue(entries: seq<Entry>, now: Utc, limit: nat)
    requires DistinctEntries(entries)
    ensures
      var r := FetchedDue(entries, now, limit);
      var due := |DuePositions(entries, now)|;
      && |r| == (if due <= limit then due else limit)
      && (forall e :: e in r ==> e in entries && Instant(e.nextRetryAt) <= Instant(now))
      && (forall i, j :: 0 <= i < j < |r| ==> OlderThan(r[i], r[j]))
      && (forall e, x :: e in entries && Instant(e.nextRetryAt) <= Instant(now) && e !in r && x in r ==>
          OlderThan(x, e))
  {
    hide EntryBefore, OlderThan, DueCount, DuePositions, Sorted;
    OldestDueFirst(entries, now, limit);
    DueCountExact(entries, now);
    var r := FetchedDue(entries, now, limit);
    OrderIsAge(r);
    forall e, x | e in entries && Instant(e.nextRetryAt) <= Instant(now) && e !in r && x in r
      ensures OlderThan(x, e)
    {
      assert DueBy(now)(e) && EntryBefore(x, e);
      BeforeIsOlder(x, e);
    }
  }

  /** Created earlier, or at the same time with a smaller id. */
  predicate OlderThan(a: Entry, b: Entry) {
    Instant(a.createdAt) <= Instant(b.createdAt) && (Instant(a.createdAt) == Instant(b.createdAt) ==>
        Less(a.Id(), b.Id()))
  }

  lemma BeforeIsOlder(a: Entry, b: Entry)
    ensures EntryBefore(a, b) <==> OlderThan(a, b)
  {
  }

  lemma OrderIsAge(r: seq<Entry>)
    requires Sorted(EntryBefore, r)
    ensures forall i, j :: 0 <= i < j < |r| ==> OlderThan(r[i], r[j])
  {
    hide EntryBefore, OlderThan;
    forall i, j | 0 <= i < j < |r|
      ensures OlderThan(r[i], r[j])
    {
      BeforeIsOlder(r[i], r[j]);
    }
  }

  lemma OldestDueFirst(entries: seq<Entry>, now: Utc, limit: nat)
    requires DistinctEntries(entries)
    ensures
      var r := FetchedDue(entries, now, limit);
      && |r| == (if DueCount(entries, now) <= limit then DueCount(entries, now) else limit)
      && (forall e :: e in r ==> e in entries && DueBy(now)(e))
      && Sorted(EntryBefore, r)
      && (forall e, x :: e in entries && DueBy(now)(e) && e !in r && x in r ==> EntryBefore(x, e))
  {
    hide EntryBefore, Sort, Filter;
    var due := Filter(DueBy(now), entries);
    var sorted := Sort(EntryBefore, due);
    var r := FetchedDue(entries, now, limit);
    FilterMembers(DueBy(now), entries);
    FilterKeepsDistinct(DueBy(now), entries);
    EntryOrderStrict(due);
    SortSorted(EntryBefore, due);
    SortKeepsMembers(EntryBefore, due);
    forall e, x | e in entries && DueBy(now)(e) && e !in r && x in r
      ensures EntryBefore(x, e)
    {
      assert e in sorted;
      var i :| 0 <= i < |sorted| && sorted[i] == e;
      var j :| 0 <= j < |r| && r[j] == x;
      assert forall k :: 0 <= k < |r| ==> sorted[k] == r[k] && sorted[k] in r;
      assert sorted[j] == x;
    }
  }

  /** All that the writer needs to know of a fetch. */
  lemma FetchedMembers(entries: seq<Entry>, now: Utc, limit: nat)
    ensures forall e :: e in FetchedDue(entries, now, limit) ==> e in entries && DueBy(now)(e)
    ensures limit > 0 ==> (FetchedDue(entries, now, limit) == [] <==> DueCount(entries, now) == 0)
  {
    FilterMembers(DueBy(now), entries);
    SortKeepsMembers(EntryBefore, Filter(DueBy(now), entries));
  }

  // ---------------------------------------------------------------- the same query on rows

  function RowDueBy(nowText: string): Row -> bool {
    (r: Row) => AtMost(r.nextRetryAt, nowText)
  }

  predicate RowBefore(a: Row, b: Row) {
    Less(a.createdAt, b.createdAt) || (a.createdAt == b.createdAt && Less(a.executionId, b.executionId))
  }

  /** WHERE next_retry_at <= ? ORDER BY created_at, execution_id LIMIT ?, all on text. */
  function SelectDue(rows: seq<Row>, nowText: string, limit: nat): seq<Row> {
    Take(Sort(RowBefore, Filter(RowDueBy(nowText), rows)), limit)
  }

  lemma RowOrderIsEntryOrder(a: Entry, b: Entry)
    ensures RowBefore(RowFor(a), RowFor(b)) == EntryBefore(a, b)
  {
    TextOrderIsTimeOrder(a.createdAt, b.createdAt);
    TextOrderIsTimeOrder(b.createdAt, a.createdAt);
    FieldOrderIsTimeOrder(a.createdAt, b.createdAt);
    LessIrreflexive(IsoFormat(a.createdAt));
  }

  /** Comparing text selects exactly the rows that comparing points in time selects. */
  lemma SelectMeansFetch(entries: seq<Entry>, now: Utc, limit: nat)
    ensures SelectDue(Map(RowFor, entries), IsoFormat(now), limit) == Map(RowFor, FetchedDue(entries, now, limit))
  {
    hide RowFor, EntryBefore, RowBefore, IsoFormat;
    forall e | e in entries
      ensures RowDueBy(IsoFormat(now))(RowFor(e)) == DueBy(now)(e)
    {
      RowDueIsEntryDue(e, now);
    }
    FilterMap(RowFor, DueBy(now), RowDueBy(IsoFormat(now)), entries);
    var due := Filter(DueBy(now), entries);
    forall a, b | a in due && b in due
      ensures RowBefore(RowFor(a), RowFor(b)) == EntryBefore(a, b)
    {
      RowOrderIsEntryOrder(a, b);
    }
    SortMap(RowFor, EntryBefore, RowBefore, due);
    TakeMap(RowFor, Sort(EntryBefore, due), limit);
  }

  lemma RowDueIsEntryDue(e: Entry, now: Utc)
    ensures RowDueBy(IsoFormat(now))(RowFor(e)) == DueBy(now)(e)
  {
    TextOrderIsTimeOrder(e.nextRetryAt, now);
  }

  function DecodeRow(row: Row): Result<SpoolEntry, CodecError> {
    var item :- PollResultFromJson(row.payload);
    var nextRetryAt :- DatetimeFromJson(row.nextRetryAt);
    Ok(SpoolEntry(row.executionId, item, row.retryCount, nextRetryAt))
  }

  /** Every selected row is decoded; one corrupt payload fails the fetch. */
  function DecodeRows(rows: seq<Row>): Result<seq<SpoolEntry>, SpoolError> {
    if rows == [] then Ok([])
    else
      match DecodeRow(rows[0])
      case Err(e) => Err(CorruptPayload(e))
      case Ok(entry) =>
        var rest :- DecodeRows(rows[1..]);
        Ok([entry] + rest)
  }

  lemma DecodeRowInverse(e: Entry)
    requires e.item.Valid()
    ensures DecodeRow(RowFor(e)) == Ok(Handed(e))
  {
    hide PollResultToJson, PollResultFromJson, DatetimeFromJson, DatetimeToJson;
    PollResultRoundTrip(e.item);
    DatetimeInverse(e.nextRetryAt);
  }

  /** What was spooled is what a fetch hands out. */
  lemma {:induction false} DecodeRowsInverse(entries: seq<Entry>)
    requires AllValid(entries)
    ensures DecodeRows(Map(RowFor, entries)) == Ok(Map(Handed, entries))
  {
    hide DecodeRow, RowFor, Handed;
    if entries != [] {
      DecodeRowInverse(entries[0]);
      DecodeRowsInverse(entries[1..]);
      assert Map(RowFor, entries)[1..] == Map(RowFor, entries[1..]);
      assert Map(Handed, entries) == [Handed(entries[0])] + Map(Handed, entries[1..]);
    }
  }

  // ---------------------------------------------------------------- marking

  function NotIn(ids: set<string>): Entry -> bool {
    (e: Entry) => e.Id() !in ids
  }

  function Removed(entries: seq<Entry>, ids: set<string>): seq<Entry> {
    Filter(NotIn(ids), entries)
  }

  function DeferEntry(ids: set<string>, at: Utc): Entry -> Entry {
    (e: Entry) => if e.Id() in ids then e.(retryCount := e.retryCount + 1, nextRetryAt := at) else e
  }

  function Deferred(entries: seq<Entry>, ids: set<string>, at: Utc): seq<Entry> {
    Map(DeferEntry(ids, at), entries)
  }

  lemma RemovedMembers(entries: seq<Entry>, ids: set<string>)
    ensures forall e :: e in Removed(entries, ids) <==> e in entries && e.Id() !in ids
    ensures DistinctEntries(entries) ==> DistinctEntries(Removed(entries, ids))
    ensures |Removed(entries, ids)| <= |entries|
    ensures (exists e :: e in entries && e.Id() in ids) ==> |Removed(entries, ids)| < |entries|
    ensures (forall e :: e in entries ==> e.Id() !in ids) ==> Removed(entries, ids) == entries
  {
    FilterMembers(NotIn(ids), entries);
    if forall e :: e in entries ==> e.Id() !in ids {
      FilterKeepsAll(NotIn(ids), entries);
    }
    if DistinctEntries(entries) {
      FilterKeepsDistinct(NotIn(ids), entries);
    }
    if e :| e in entries && e.Id() in ids {
      FilterDrops(NotIn(ids), entries, e);
    }
  }

  lemma {:induction false} FilterKeepsAll(keep: Entry -> bool, entries: seq<Entry>)
    requires forall e :: e in entries ==> keep(e)
    ensures Filter(keep, entries) == entries
  {
    if entries != [] {
      assert entries == [entries[0]] + entries[1..];
      FilterKeepsAll(keep, entries[1..]);
    }
  }

  /** With distinct ids, a deletion removes exactly one entry for each named id that is stored. */
  lemma {:induction false} RemovedCount(entries: seq<Entry>, ids: set<string>)
    requires DistinctEntries(entries)
    ensures |Removed(entries, ids)| + |IdsOf(entries) * ids| == |entries|
  {
    hide IdsOf, DistinctEntries, Removed;
    if entries == [] {
      NothingRemoved(ids);
    } else {
      var id, rest := entries[0].Id(), entries[1..];
      IdsOfNext(entries);
      RemovedCount(rest, ids);
      RemovedNext(entries, ids);
      if id in ids {
        assert IdsOf(entries) * ids == IdsOf(rest) * ids + {id};
      } else {
        assert IdsOf(entries) * ids == IdsOf(rest) * ids;
      }
    }
  }

  lemma NothingRemoved(ids: set<string>)
    ensures Removed([], ids) == [] && IdsOf([]) * ids == {}
  {
  }

  lemma RemovedNext(entries: seq<Entry>, ids: set<string>)
    requires entries != []
    ensures |Removed(entries, ids)| == |Removed(entries[1..], ids)| + if entries[0].Id() in ids then 0 else 1
  {
    assert entries == [entries[0]] + entries[1..];
  }

  lemma IdsOfNext(entries: seq<Entry>)
    requires DistinctEntries(entries) && entries != []
    ensures IdsOf(entries) == IdsOf(entries[1..]) + {entries[0].Id()}
    ensures entries[0].Id() !in IdsOf(entries[1..]) && DistinctEntries(entries[1..])
  {
    assert entries == [entries[0]] + entries[1..];
    forall e | e in entries[1..]
      ensures e.Id() != entries[0].Id()
    {
      var i :| 0 <= i < |entries| - 1 && entries[1..][i] == e;
      assert entries[i + 1] == e;
    }
  }

  lemma {:induction false} FilterDrops(keep: Entry -> bool, entries: seq<Entry>, e: Entry)
    requires e in entries && !keep(e)
    ensures |Filter(keep, entries)| < |entries|
  {
    FilterMembers(keep, entries[1..]);
    if keep(entries[0]) {
      assert entries == [entries[0]] + entries[1..];
      FilterDrops(keep, entries[1..], e);
    }
  }

  /** Putting off changes the retry time of exactly the named entries, counts one more attempt on each, and no more. */
  lemma DeferredExactly(entries: seq<Entry>, ids: set<string>, at: Utc)
    ensures
      var after := Deferred(entries, ids, at);
      && |after| == |entries|
      && forall i :: 0 <= i < |after| ==>
           && after[i].item == entries[i].item && after[i].createdAt == entries[i].createdAt
           && after[i].retryCount - entries[i].retryCount == (if entries[i].Id() in ids then 1 else 0)
           && after[i].nextRetryAt == (if entries[i].Id() in ids then at else entries[i].nextRetryAt)
  {
  }

  lemma DeferKeepsItems(ids: set<string>, at: Utc)
    ensures forall e :: DeferEntry(ids, at)(e).item == e.item
  {
  }

  ghost predicate HoldsItem(entries: seq<Entry>, x: WorkerPollResult) {
    exists e :: e in entries && e.item == x
  }

  /** Deferring touches times and counts only: the same items stay spooled. */
  lemma DeferredMembers(entries: seq<Entry>, ids: set<string>, at: Utc)
    ensures forall x :: HoldsItem(Deferred(entries, ids, at), x) <==> HoldsItem(entries, x)
    ensures DistinctEntries(entries) ==> DistinctEntries(Deferred(entries, ids, at))
    ensures |Deferred(entries, ids, at)| == |entries|
  {
    hide DeferEntry;
    DeferKeepsItems(ids, at);
    var after := Deferred(entries, ids, at);
    forall x
      ensures HoldsItem(after, x) <==> HoldsItem(entries, x)
    {
      if HoldsItem(after, x) {
        var i :| 0 <= i < |after| && after[i].item == x;
        assert entries[i] in entries && entries[i].item == x;
      }
      if HoldsItem(entries, x) {
        var i :| 0 <= i < |entries| && entries[i].item == x;
        assert after[i] in after && after[i].item == x;
      }
    }
  }

  /** Putting off a due entry past a deadline leaves fewer entries due by that deadline. */
  lemma {:induction false} DeferReducesDue(entries: seq<Entry>, ids: set<string>, at: Utc, deadline: Utc)
    requires Instant(deadline) < Instant(at)
    ensures DueCount(Deferred(entries, ids, at), deadline) <= DueCount(entries, deadline)
    ensures (exists e :: e in entries && e.Id() in ids && DueBy(deadline)(e)) ==>
              DueCount(Deferred(entries, ids, at), deadline) < DueCount(entries, deadline)
  {
    if entries != [] {
      DeferReducesDue(entries[1..], ids, at, deadline);
      assert Deferred(entries, ids, at)[1..] == Deferred(entries[1..], ids, at);
      assert entries == [entries[0]] + entries[1..];
    }
  }

  // ---------------------------------------------------------------- whole histories of one spool

  /** A call that changes the spool. */
  datatype SpoolCall =
    | AppendCall(batch: seq<WorkerPollResult>, now: Utc)
    | ReplayedCall(ids: set<string>)
    | FailedCall(deferred: set<string>, until: Utc)

  function AfterCall(entries: seq<Entry>, maxItems: nat, c: SpoolCall): seq<Entry> {
    match c
    case AppendCall(batch, now) =>
      var r := Appended(entries, maxItems, batch, now);
      if r.Ok? then r.value else entries
    case ReplayedCall(ids) => Removed(entries, ids)
    case FailedCall(ids, until) => Deferred(entries, ids, until)
  }

  function AfterCalls(entries: seq<Entry>, maxItems: nat, calls: seq<SpoolCall>): seq<Entry> {
    if calls == [] then entries
    else AfterCall(AfterCalls(entries, maxItems, calls[..|calls| - 1]), maxItems, calls[|calls| - 1])
  }

  /** The unseen items of the batches that were appended. */
  function TotalAppended(entries: seq<Entry>, maxItems: nat, calls: seq<SpoolCall>): nat {
    if calls == [] then 0
    else
      var front, last := calls[..|calls| - 1], calls[|calls| - 1];
      var before := AfterCalls(entries, maxItems, front);
      TotalAppended(entries, maxItems, front)
      + if last.AppendCall? && Appended(before, maxItems, last.batch, last.now).Ok? then
          |Fresh(IdsOf(before), last.batch)|
        else 0
  }

  /** The ids that were named for deletion while they were stored. */
  function TotalReplayed(entries: seq<Entry>, maxItems: nat, calls: seq<SpoolCall>): nat {
    if calls == [] then 0
    else
      var front, last := calls[..|calls| - 1], calls[|calls| - 1];
      TotalReplayed(entries, maxItems, front)
      + if last.ReplayedCall? then |IdsOf(AfterCalls(entries, maxItems, front)) * last.ids| else 0
  }

  /**
   * Over any sequence of calls: what is stored is what was there, plus the unseen items of the appended
   * batches, minus the stored ids named for deletion; the limit holds unless the file was opened beyond it;
   * identifiers stay distinct.
   */
  lemma {:induction false} SpoolConserves(entries: seq<Entry>, maxItems: nat, calls: seq<SpoolCall>)
    requires DistinctEntries(entries)
    ensures
      var after := AfterCalls(entries, maxItems, calls);
      && DistinctEntries(after)
      && |after| == |entries| + TotalAppended(entries, maxItems, calls) - TotalReplayed(entries, maxItems, calls)
      && |after| <= (if |entries| < maxItems then maxItems else |entries|)
  {
    hide DistinctEntries, Appended, Removed, Deferred, Fresh, IdsOf;
    if calls != [] {
      var front, last := calls[..|calls| - 1], calls[|calls| - 1];
      SpoolConserves(entries, maxItems, front);
      AfterCallKeeps(AfterCalls(entries, maxItems, front), maxItems, last);
    }
  }

  lemma AfterCallKeeps(entries: seq<Entry>, maxItems: nat, c: SpoolCall)
    requires DistinctEntries(entries)
    ensures
      var after := AfterCall(entries, maxItems, c);
      && DistinctEntries(after)
      && |after| <= (if |entries| < maxItems then maxItems else |entries|)
      && match c
         case AppendCall(batch, now) =>
           |after| == |entries| + if Appended(entries, maxItems, batch, now).Ok? then |Fresh(IdsOf(entries), batch)|
                                  else 0
         case ReplayedCall(ids) => |after| + |IdsOf(entries) * ids| == |entries|
         case FailedCall(_, _) => |after| == |entries|
  {
    hide DistinctEntries, Removed, Deferred, Fresh, IdsOf;
    match c
    case AppendCall(batch, now) =>
      if Appended(entries, maxItems, batch, now).Ok? {
        AppendedHoldsBatch(entries, maxItems, batch, now);
      }
    case ReplayedCall(ids) =>
      RemovedMembers(entries, ids);
      RemovedCount(entries, ids);
    case FailedCall(ids, until) =>
      DeferredMembers(entries, ids, until);
  }

  // ---------------------------------------------------------------- the same operations on rows

  function DeferRow(ids: set<string>, at: string): Row -> Row {
    (r: Row) => if r.executionId in ids then r.(retryCount := r.retryCount + 1, nextRetryAt := at) else r
  }

  lemma SameIds(entries: seq<Entry>)
    ensures RowIds(Map(RowFor, entries)) == IdsOf(entries)
  {
    hide PollResultToJson, DatetimeToJson;
    var rows := Map(RowFor, entries);
    forall id | id in RowIds(rows)
      ensures id in IdsOf(entries)
    {
      var r :| r in rows && r.executionId == id;
      var i :| 0 <= i < |rows| && rows[i] == r;
      assert entries[i] in entries;
    }
    forall id | id in IdsOf(entries)
      ensures id in RowIds(rows)
    {
      var e :| e in entries && e.Id() == id;
      var i :| 0 <= i < |entries| && entries[i] == e;
      assert rows[i] in rows;
    }
  }

  lemma IdsAfter(entries: seq<Entry>, items: seq<WorkerPollResult>, now: Utc)
    ensures IdsOf(entries + NewEntries(items, now)) == IdsOf(entries) + ItemIds(items)
  {
    var added := NewEntries(items, now);
    forall id | id in ItemIds(items)
      ensures id in IdsOf(entries + added)
    {
      var i :| 0 <= i < |items| && items[i].Id() == id;
      assert added[i] in entries + added;
    }
    forall e | e in added
      ensures e.Id() in ItemIds(items)
    {
      var i :| 0 <= i < |added| && added[i] == e;
      assert items[i] in items;
    }
    forall e | e in entries
      ensures e in entries + added
    {
    }
  }

  lemma NewEntriesValid(entries: seq<Entry>, items: seq<WorkerPollResult>, batch: seq<PollResult>, now: Utc)
    requires AllValid(entries) && forall x :: x in items ==> x in batch
    ensures AllValid(entries + NewEntries(items, now))
  {
    var added := NewEntries(items, now);
    forall e | e in added
      ensures e.item.Valid()
    {
      var i :| 0 <= i < |added| && added[i] == e;
      assert items[i] in items;
    }
  }

  lemma NoItemsDistinct(items: seq<WorkerPollResult>)
    ensures DistinctIds(items[..0])
  {
  }

  lemma NextDistinct(items: seq<WorkerPollResult>, k: nat)
    requires k < |items| && DistinctIds(items[..k])
    ensures DistinctIds(items[..k + 1]) <==> items[k].Id() !in ItemIds(items[..k])
    ensures DistinctIds(items) ==> DistinctIds(items[..k + 1])
  {
    var front, longer := items[..k], items[..k + 1];
    assert longer == front + [items[k]];
    if items[k].Id() in ItemIds(front) {
      var i :| 0 <= i < k && front[i].Id() == items[k].Id();
      assert longer[i].Id() == longer[k].Id();
    } else {
      forall i | 0 <= i < k
        ensures longer[i].Id() != longer[k].Id()
      {
        assert front[i] in front;
      }
    }
  }

  function RowNotIn(ids: set<string>): Row -> bool {
    (r: Row) => r.executionId !in ids
  }

  lemma RemovedRows(entries: seq<Entry>, ids: set<string>)
    ensures Filter(RowNotIn(ids), Map(RowFor, entries)) == Map(RowFor, Removed(entries, ids))
  {
    hide PollResultToJson, DatetimeToJson;
    FilterMap(RowFor, NotIn(ids), RowNotIn(ids), entries);
  }

  lemma RemovedValid(entries: seq<Entry>, ids: set<string>)
    requires AllValid(entries)
    ensures AllValid(Removed(entries, ids))
  {
    RemovedMembers(entries, ids);
  }

  lemma DeferredRows(entries: seq<Entry>, ids: set<string>, at: Utc)
    ensures Map(DeferRow(ids, DatetimeToJson(at)), Map(RowFor, entries)) == Map(RowFor, Deferred(entries, ids, at))
  {
    hide PollResultToJson, DatetimeToJson;
  }

  lemma DeferredValid(entries: seq<Entry>, ids: set<string>, at: Utc)
    requires AllValid(entries)
    ensures AllValid(Deferred(entries, ids, at))
  {
    hide Deferred;
    DeferredMembers(entries, ids, at);
    var after := Deferred(entries, ids, at);
    forall e | e in after
      ensures e.item.Valid()
    {
      assert HoldsItem(after, e.item);
    }
  }

  lemma HandedAll(due: seq<Entry>)
    ensures
      var r := Map(Handed, due);
      forall i :: 0 <= i < |due| ==>
        && r[i].executionId == due[i].item.Id() && r[i].pollResult == due[i].item
        && r[i].retryCount == due[i].retryCount && r[i].nextRetryAt == due[i].nextRetryAt
  {
  }

  /** The insert loop of one transaction: the primary key refuses a second row with the same id. */
  method InsertRows(rows: seq<Row>, ghost entries: seq<Entry>, newItems: seq<WorkerPollResult>, now: Utc)
    returns (r: Option<seq<Row>>)
    requires rows == Map(RowFor, entries)
    requires forall x :: x in newItems ==> x.Id() !in IdsOf(entries)
    ensures r.Some? <==> DistinctIds(newItems)
    ensures r.Some? ==> r.value == Map(RowFor, entries + NewEntries(newItems, now))
  {
    hide RowFor, DistinctIds;
    NoItemsDistinct(newItems);
    var work := rows;
    var inserted := 0;
    assert entries + NewEntries(newItems[..0], now) == entries;
    while inserted < |newItems|
      invariant 0 <= inserted <= |newItems|
      invariant DistinctIds(newItems[..inserted])
      invariant work == Map(RowFor, entries + NewEntries(newItems[..inserted], now))
    {
      var item := newItems[inserted];
      IdsAfter(entries, newItems[..inserted], now);
      SameIds(entries + NewEntries(newItems[..inserted], now));
      NextDistinct(newItems, inserted);
      assert item in newItems;
      if item.Id() in RowIds(work) {
        return None;
      }
      work := work + [RowFor(Entry(item, 0, now, now))];
      assert newItems[..inserted + 1] == newItems[..inserted] + [item];
      inserted := inserted + 1;
    }
    assert newItems[..inserted] == newItems;
    r := Some(work);
  }

  // ---------------------------------------------------------------- the spool object

  class DurableSpool {

    const maxItems: nat
    var rows: seq<Row>
    var rejectedItems: nat
    var replayedItems: nat
    var failedReplays: nat

    /** What the rows stand for. */
    ghost var entries: seq<Entry>
    /** Rows found when the file was opened, and rows added since. */
    ghost const countAtOpen: nat
    ghost var added: nat

    ghost predicate Valid()
      reads this
    {
      && maxItems > 0
      && rows == Map(RowFor, entries)
      && DistinctEntries(entries)
      && AllValid(entries)
      && |rows| + replayedItems == countAtOpen + added
      && |rows| <= if countAtOpen < maxItems then maxItems else countAtOpen
    }

    /** Opens a file that an earlier process may have left with entries in it. */
    constructor (maxItems: nat, rows: seq<Row>, ghost entries: seq<Entry>)
      requires maxItems > 0 && rows == Map(RowFor, entries) && DistinctEntries(entries)
      requires AllValid(entries)
      ensures Valid() && this.entries == entries && this.maxItems == maxItems
      ensures countAtOpen == |entries| && replayedItems == 0 && rejectedItems == 0 && failedReplays == 0 && added == 0
    {
      this.maxItems, this.rows, this.entries := maxItems, rows, entries;
      countAtOpen, added := |rows|, 0;
      rejectedItems, replayedItems, failedReplays := 0, 0, 0;
    }

    method Append(batch: seq<PollResult>, now: Utc) returns (r: Result<nat, SpoolError>)
      requires Valid()
      modifies this
      ensures Valid() && replayedItems == old(replayedItems) && failedReplays == old(failedReplays)
      ensures
        match Appended(old(entries), maxItems, batch, now)
        case Ok(after) => entries == after && r == Ok(|after| - |old(entries)|) && rejectedItems == old(rejectedItems)
        case Err(e) => entries == old(entries) && r == Err(e) && rejectedItems >= old(rejectedItems)
      ensures r.Err? && r.error == SpoolFull ==>
                var overflow := |Fresh(IdsOf(old(entries)), batch)|;
                var available := maxItems - |old(entries)|;
                rejectedItems == old(rejectedItems) + overflow - if available > 0 then available else 0
      ensures added == old(added) + if r.Ok? then r.value else 0
      ensures
        var needed := |old(entries)| + |NewPositions(old(entries), batch)|;
        && (r.Ok? <==> batch == [] || (needed <= maxItems && NewIdsDistinct(old(entries), batch)))
        && (r == Err(SpoolFull) <==> batch != [] && needed > maxItems)
        && (r.Ok? ==> r.value == |NewPositions(old(entries), batch)| && |entries| == needed)
    {
      hide RowFor, AllValid, DistinctIds, DistinctEntries, Fresh, IdsOf, RowIds, NewPositions, NewIdsDistinct;
      AppendSucceedsExactly(entries, maxItems, batch, now);
      if batch == [] {
        return Ok(0);
      }
      SameIds(entries);
      var newItems := Fresh(RowIds(rows), batch);
      var available := maxItems - |rows|;
      if |newItems| > available {
        rejectedItems := rejectedItems + |newItems| - if available > 0 then available else 0;
        return Err(SpoolFull);
      }
      var work := InsertRows(rows, entries, newItems, now);
      if work.None? {
        return Err(DuplicateId);
      }
      AppendedHoldsBatch(entries, maxItems, batch, now);
      NewEntriesValid(entries, newItems, batch, now);
      rows := work.value;
      entries := entries + NewEntries(newItems, now);
      added := added + |newItems|;
      r := Ok(|newItems|);
    }

    /** Due entries, oldest first; decoding a stored payload cannot fail. */
    method FetchDue(limit: int, now: Utc) returns (r: Result<seq<SpoolEntry>, SpoolError>)
      requires Valid()
      ensures r == if limit <= 0 then Err(InvalidArgument) else Ok(Map(Handed, FetchedDue(entries, now, limit)))
      ensures r.Ok? ==>
                var due := FetchedDue(entries, now, limit);
                |r.value| == |due| && forall i :: 0 <= i < |due| ==>
                  && r.value[i].executionId == due[i].item.Id() && r.value[i].pollResult == due[i].item
                  && r.value[i].retryCount == due[i].retryCount && r.value[i].nextRetryAt == due[i].nextRetryAt
    {
      hide RowFor, FetchedDue, SelectDue, DecodeRows, Handed;
      if limit <= 0 {
        return Err(InvalidArgument);
      }
      HandedAll(FetchedDue(entries, now, limit));
      SelectMeansFetch(entries, now, limit);
      FetchedMembers(entries, now, limit);
      DecodeRowsInverse(FetchedDue(entries, now, limit));
      r := DecodeRows(SelectDue(rows, DatetimeToJson(now), limit));
    }

    method MarkReplayed(ids: seq<string>) returns (deleted: nat)
      requires Valid()
      modifies this
      ensures Valid() && rejectedItems == old(rejectedItems) && failedReplays == old(failedReplays)
      ensures entries == Removed(old(entries), IdSet(ids))
      ensures deleted == |old(entries)| - |entries| && replayedItems == old(replayedItems) + deleted
      ensures added == old(added)
    {
      hide RowFor, AllValid, DistinctEntries, Removed, RowNotIn, Filter;
      var chosen := IdSet(ids);
      RemovedMembers(entries, chosen);
      RemovedRows(entries, chosen);
      RemovedValid(entries, chosen);
      var kept := Filter(RowNotIn(chosen), rows);
      deleted := |rows| - |kept|;
      rows, entries := kept, Removed(entries, chosen);
      replayedItems := replayedItems + deleted;
    }

    method MarkFailed(ids: seq<string>, retryDelay: int, now: Utc) returns (r: Result<nat, SpoolError>)
      requires Valid()
      modifies this
      ensures Valid() && rejectedItems == old(rejectedItems) && replayedItems == old(replayedItems)
      ensures retryDelay < 0 ==> r == Err(InvalidArgument)
      ensures retryDelay >= 0 ==>
          (r == Err(RetryTimeOverflow) <==> ids != [] && Instant(now) + retryDelay >= END_OF_TIME)
      ensures r.Err? ==> r.error == InvalidArgument || r.error == RetryTimeOverflow
      ensures r.Err? ==> entries == old(entries) && failedReplays == old(failedReplays)
      ensures r.Ok? <==> retryDelay >= 0 && (ids == [] || Instant(now) + retryDelay < END_OF_TIME)
      ensures r.Ok? ==> failedReplays == old(failedReplays) + r.value
      ensures r.Ok? ==> r.value == if ids == [] then 0 else |old(entries)| - |Removed(old(entries), IdSet(ids))|
      ensures r.Ok? ==> entries == if ids == [] then old(entries)
                                   else Deferred(old(entries), IdSet(ids), Later(now, retryDelay).value)
      ensures added == old(added)
    {
      hide RowFor, AllValid, DistinctEntries, Deferred, Removed, DeferRow, Later, Filter;
      if retryDelay < 0 {
        return Err(InvalidArgument);
      }
      if ids == [] {
        return Ok(0);
      }
      var later := Later(now, retryDelay);
      if later.Err? {
        return Err(RetryTimeOverflow);
      }
      var chosen := IdSet(ids);
      DeferredMembers(entries, chosen, later.value);
      DeferredRows(entries, chosen, later.value);
      RemovedRows(entries, chosen);
      RemovedMembers(entries, chosen);
      DeferredValid(entries, chosen, later.value);
      var updated := |rows| - |Filter(RowNotIn(chosen), rows)|;
      rows := Map(DeferRow(chosen, DatetimeToJson(later.value)), rows);
      entries := Deferred(entries, chosen, later.value);
      failedReplays := failedReplays + updated;
      r := Ok(updated);
    }

    method Count() returns (stored: nat)
      requires Valid()
      ensures stored == |entries|
      ensures stored == countAtOpen + added - replayedItems
      ensures stored <= if countAtOpen < maxItems then maxItems else countAtOpen
    {
      stored := |rows|;
    }
  }
}
