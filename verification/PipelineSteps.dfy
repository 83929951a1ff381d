/**
 * What each step of the pipeline does to the state, said from its inputs: which attempt ends a save, what the
 * database, the spool and the counters hold after it, and that a timed-out operation which lands late leaves
 * what a completed one would have left.
 */
module PipelineSteps {

  import opened Results
  import opened Timestamps
  import opened Text
  import opened Domain
  import opened Repository
  import opened Spool
  import opened Retry
  import opened Pipeline
  import opened PipelineSafety
  import opened PipelineDrain

  // ---------------------------------------------------------------- one save attempt

  /**
   * An attempt that reports failure after the commit leaves the database of one that completes, and one that
   * times out leaves it once its save lands; a refused attempt, or an unstorable batch, changes nothing.
   */
  lemma SaveFaultsAgree(cfg: Config, w: World, batch: seq<Item>, e: Failure)
    requires cfg.Valid()
    ensures
      var completed := Attempted(cfg, w, batch, Completes);
      && completed == Attempted(cfg, w, batch, CommitsThenFails(e))
      && completed == Step(cfg, Attempted(cfg, w, batch, TimesOut), Lands(|w.stragglers|))
      && completed == w.(tables := completed.tables, ledger := w.ledger.(log := completed.ledger.log))
      && completed.tables == (if Storable(cfg.catalog, batch) then SaveAll(cfg.catalog, w.tables, batch) else w.tables)
      && completed.ledger.log == w.ledger.log + (if Storable(cfg.catalog, batch) then batch else [])
    ensures Attempted(cfg, w, batch, Fails(e)) == w
    ensures Attempted(cfg, w, batch, TimesOut) == w.(stragglers := w.stragglers + [LateSave(batch)])
  {
    hide SaveAll, Storable;
    var late := Attempted(cfg, w, batch, TimesOut);
    assert late.stragglers[..|w.stragglers|] + late.stragglers[|w.stragglers| + 1..] == w.stragglers;
  }

  // ---------------------------------------------------------------- the retry loop

  /** The failures after which an attempt is worth repeating. */
  predicate Repeatable(e: Failure) {
    e in {TransientCommunicationFailure, StorageFailure, TimeoutFailure}
  }

  /** An attempt that failed in a way that is worth repeating. */
  predicate Repeated(f: Fault, storable: bool) {
    match f
    case Fails(e) => Repeatable(e)
    case TimesOut => true
    case CommitsThenFails(e) => !storable || Repeatable(e)
    case Completes => !storable
  }

  /** From attempt `k` on, the loop stops after attempt `n`. */
  ghost predicate StopsAfter(cfg: Config, faults: seq<Fault>, storable: bool, k: nat, n: nat) {
    && k <= n < cfg.maxAttempts
    && (forall j: nat :: k <= j < n ==> Repeated(FaultAt(faults, j), storable))
    && (n + 1 == cfg.maxAttempts || !Repeated(FaultAt(faults, n), storable))
  }

  /** An attempt from `k` to `n` takes effect. */
  ghost predicate SomeEffect(faults: seq<Fault>, k: nat, n: nat) {
    exists i: nat :: k <= i <= n && TakesEffect(FaultAt(faults, i))
  }

  function TimeoutsIn(faults: seq<Fault>, k: nat, n: nat): set<nat> {
    set i: nat | k <= i <= n && FaultAt(faults, i) == TimesOut
  }

  function LateSaves(batch: seq<Item>, count: nat): seq<Straggler> {
    seq(count, i => LateSave(batch))
  }

  /** What the loop leaves in the database and in the counters when it starts at `k` and stops after `n`. */
  ghost predicate SaveOutcome(cfg: Config, w: World, v: World, ok: bool, batch: seq<Item>, faults: seq<Fault>,
      k: nat, n: nat) {
    var storable := Storable(cfg.catalog, batch);
    && StopsAfter(cfg, faults, storable, k, n)
    && (ok <==> storable && FaultAt(faults, n) == Completes)
    && v.tables == (if storable && SomeEffect(faults, k, n) then SaveAll(cfg.catalog, w.tables, batch) else w.tables)
    && (ok ==> forall x :: x in batch ==> x in v.ledger.log)
    && v.stragglers == w.stragglers + LateSaves(batch, |TimeoutsIn(faults, k, n)|)
    && v.counters.retryAttempts == w.counters.retryAttempts + n - k
    && v.counters.lastError == (if ok then w.counters.lastError else Some(SaveStage))
    && v.counters.insertedReadings - w.counters.insertedReadings
       == (if ok && !(n > k && SomeEffect(faults, k, n - 1)) then |v.tables.readings| - |w.tables.readings| else 0)
  }

  lemma RepeatableExact(e: Failure)
    ensures IsRetryable(e) <==> Repeatable(e)
  {
    RetriedFailures(e);
  }

  lemma EffectNext(faults: seq<Fault>, k: nat, n: nat)
    requires k < n
    ensures SomeEffect(faults, k, n) <==> TakesEffect(FaultAt(faults, k)) || SomeEffect(faults, k + 1, n)
  {
    if TakesEffect(FaultAt(faults, k)) {
      assert SomeEffect(faults, k, n);
    }
    if SomeEffect(faults, k + 1, n) {
      var i: nat :| k + 1 <= i <= n && TakesEffect(FaultAt(faults, i));
      assert SomeEffect(faults, k, n);
    }
  }

  lemma EffectAlone(faults: seq<Fault>, k: nat)
    ensures SomeEffect(faults, k, k) <==> TakesEffect(FaultAt(faults, k))
  {
  }

  lemma TimeoutsNext(faults: seq<Fault>, k: nat, n: nat)
    requires k < n
    ensures |TimeoutsIn(faults, k, n)| ==
            |TimeoutsIn(faults, k + 1, n)| + if FaultAt(faults, k) == TimesOut then 1 else 0
  {
    if FaultAt(faults, k) == TimesOut {
      assert TimeoutsIn(faults, k, n) == TimeoutsIn(faults, k + 1, n) + {k};
    } else {
      assert TimeoutsIn(faults, k, n) == TimeoutsIn(faults, k + 1, n);
    }
  }

  lemma TimeoutsAlone(faults: seq<Fault>, k: nat)
    ensures |TimeoutsIn(faults, k, k)| == if FaultAt(faults, k) == TimesOut then 1 else 0
  {
    if FaultAt(faults, k) == TimesOut {
      assert TimeoutsIn(faults, k, k) == {k};
    } else {
      assert TimeoutsIn(faults, k, k) == {};
    }
  }

  /** The last attempt of the loop. */
  lemma LastAttempt(cfg: Config, w: World, batch: seq<Item>, faults: seq<Fault>, k: nat)
    requires StopsAfter(cfg, faults, Storable(cfg.catalog, batch), k, k)
    ensures
      var (v, ok) := Persist(cfg, w, batch, faults, k);
      SaveOutcome(cfg, w, v, ok, batch, faults, k, k)
  {
    hide SaveAll, Storable, IsRetryable, SomeEffect, TimeoutsIn, Repeatable;
    var f := FaultAt(faults, k);
    EffectAlone(faults, k);
    TimeoutsAlone(faults, k);
    if f.Fails? || f.CommitsThenFails? {
      RepeatableExact(if f.Fails? then f.failure else f.late);
    }
    RepeatableExact(StorageFailure);
    RepeatableExact(TimeoutFailure);
  }

  /** The loop goes on exactly after a failure worth repeating that was not the last allowed. */
  lemma NextAttempt(cfg: Config, w: World, batch: seq<Item>, faults: seq<Fault>, k: nat)
    requires k + 1 < cfg.maxAttempts && Repeated(FaultAt(faults, k), Storable(cfg.catalog, batch))
    ensures
      var u := CountRetry(Attempted(cfg, w, batch, FaultAt(faults, k)));
      Persist(cfg, w, batch, faults, k) == Persist(cfg, u, batch, faults, k + 1)
  {
    hide SaveAll, Storable, IsRetryable;
    var f := FaultAt(faults, k);
    if f.Fails? || f.CommitsThenFails? {
      RepeatableExact(if f.Fails? then f.failure else f.late);
    }
    RepeatableExact(StorageFailure);
    RepeatableExact(TimeoutFailure);
  }

  /** What the attempts from `k + 1` on leave, preceded by attempt `k`. */
  lemma OutcomeExtends(cfg: Config, w: World, u: World, v: World, ok: bool, batch: seq<Item>, faults: seq<Fault>,
      k: nat, n: nat)
    requires k + 1 < cfg.maxAttempts && Repeated(FaultAt(faults, k), Storable(cfg.catalog, batch))
    requires u == CountRetry(Attempted(cfg, w, batch, FaultAt(faults, k)))
    requires SaveOutcome(cfg, u, v, ok, batch, faults, k + 1, n)
    ensures SaveOutcome(cfg, w, v, ok, batch, faults, k, n)
  {
    hide SaveAll, Storable, SomeEffect, TimeoutsIn, Repeatable;
    EffectNext(faults, k, n);
    EffectAlone(faults, k);
    TimeoutsNext(faults, k, n);
    SaveIdempotent(cfg.catalog, w.tables, batch);
    if n > k + 1 {
      EffectNext(faults, k, n - 1);
    }
  }

  /**
   * The whole retry loop: where it stops, and what it leaves. The batch is in the database iff it is storable
   * and an attempt made takes effect, success means that the last attempt completed, every wait is counted,
   * every timeout leaves a save running, and what was inserted is counted iff success is what inserted it.
   */
  lemma {:induction false} PersistExactly(cfg: Config, w: World, batch: seq<Item>, faults: seq<Fault>, k: nat)
    returns (n: nat)
    requires k < cfg.maxAttempts
    ensures
      var (v, ok) := Persist(cfg, w, batch, faults, k);
      SaveOutcome(cfg, w, v, ok, batch, faults, k, n)
    decreases cfg.maxAttempts - k
  {
    hide SaveOutcome, Repeated, Attempted, Storable;
    if k + 1 == cfg.maxAttempts || !Repeated(FaultAt(faults, k), Storable(cfg.catalog, batch)) {
      n := k;
      LastAttempt(cfg, w, batch, faults, k);
    } else {
      var u := CountRetry(Attempted(cfg, w, batch, FaultAt(faults, k)));
      n := PersistExactly(cfg, u, batch, faults, k + 1);
      NextAttempt(cfg, w, batch, faults, k);
      var (v, ok) := Persist(cfg, w, batch, faults, k);
      OutcomeExtends(cfg, w, u, v, ok, batch, faults, k, n);
    }
  }

  // ---------------------------------------------------------------- handing a batch to the spool

  /** The spool takes the batch: what is not stored yet has distinct identifiers and fits. */
  predicate Spoolable(cfg: Config, entries: seq<Entry>, batch: seq<Item>) {
    batch == []
    || (|entries| + |NewPositions(entries, batch)| <= cfg.spoolCapacity && NewIdsDistinct(entries, batch))
  }

  /** `after` holds the entries of before and one new one for each item of the batch that was not stored. */
  ghost predicate HoldsBatch(before: seq<Entry>, after: seq<Entry>, batch: seq<Item>, at: Utc) {
    && before <= after && |after| == |before| + |NewPositions(before, batch)|
    && (forall x :: x in batch ==> IsStored(after, x.Id()))
    && (forall e :: e in after ==> e in before || (e.item in batch && e == Entry(e.item, 0, at, at)))
  }

  /** What the spool holds, whether it confirmed the batch, and what is counted. */
  ghost predicate SpoolOutcome(cfg: Config, w: World, v: World, confirmed: bool, batch: seq<Item>, f: Fault, at: Utc) {
    && v == w.(entries := v.entries, stragglers := v.stragglers, counters := v.counters)
    && (confirmed <==> cfg.hasSpool && f == Completes && Spoolable(cfg, w.entries, batch))
    && (if cfg.hasSpool && TakesEffect(f) && Spoolable(cfg, w.entries, batch)
        then HoldsBatch(w.entries, v.entries, batch, at) else v.entries == w.entries)
    && v.stragglers == w.stragglers + (if cfg.hasSpool && f == TimesOut then [LateAppend(batch, at)] else [])
    && v.counters == w.counters.(
         spooledItems := w.counters.spooledItems + if confirmed then |NewPositions(w.entries, batch)| else 0,
         spoolRefusals := w.counters.spoolRefusals + if cfg.hasSpool && !confirmed then 1 else 0,
         lastError := if cfg.hasSpool && !confirmed then Some(AppendStage) else w.counters.lastError)
  }

  lemma AppendedOutcome(cfg: Config, entries: seq<Entry>, batch: seq<Item>, at: Utc)
    requires DistinctEntries(entries)
    ensures
      var r := Spool.Appended(entries, cfg.spoolCapacity, batch, at);
      && (r.Ok? <==> Spoolable(cfg, entries, batch))
      && (r.Ok? ==> HoldsBatch(entries, r.value, batch, at))
  {
    hide DistinctEntries, Appended, NewPositions, NewIdsDistinct, IsStored, IdsOf;
    AppendSucceedsExactly(entries, cfg.spoolCapacity, batch, at);
    NothingNew(entries);
    var r := Spool.Appended(entries, cfg.spoolCapacity, batch, at);
    if r.Ok? {
      AppendedGrowth(entries, cfg.spoolCapacity, batch, at);
      AppendedHoldsBatch(entries, cfg.spoolCapacity, batch, at);
      forall x | x in batch
        ensures IsStored(r.value, x.Id())
      {
        StoredIds(r.value, x.Id());
      }
    }
  }

  lemma SpoolExactly(cfg: Config, w: World, batch: seq<Item>, f: Fault, at: Utc)
    requires DistinctEntries(w.entries)
    ensures
      var (v, confirmed) := SpoolBatch(cfg, w, batch, f, at);
      SpoolOutcome(cfg, w, v, confirmed, batch, f, at)
  {
    hide DistinctEntries, Appended, HoldsBatch, Spoolable, NewPositions;
    AppendedOutcome(cfg, w.entries, batch, at);
    AppendSucceedsExactly(w.entries, cfg.spoolCapacity, batch, at);
  }

  /** A timed-out append, deletion or deferral that lands at once leaves the entries of a completed one. */
  lemma LateSpoolWorkAgrees(cfg: Config, w: World, batch: seq<Item>, due: seq<Entry>, at: Utc)
    requires cfg.Valid() && cfg.hasSpool
    ensures
      var k := |w.stragglers|;
      && Step(cfg, SpoolBatch(cfg, w, batch, TimesOut, at).0, Lands(k)).entries
         == SpoolBatch(cfg, w, batch, Completes, at).0.entries
      && Step(cfg, MarkReplayed(w, due, TimesOut), Lands(k)).entries == MarkReplayed(w, due, Completes).entries
      && Step(cfg, MarkFailed(cfg, w, due, TimesOut, at), Lands(k)).entries
         == MarkFailed(cfg, w, due, Completes, at).entries
  {
    hide Appended, Removed, Deferred, Later, IdsOf;
  }

  // ---------------------------------------------------------------- flushing

  lemma AcknowledgedExactly(w: World)
    ensures
      var v := Acknowledged(w);
      && v == w.(unfinished := v.unfinished, pending := [], ledger := v.ledger)
      && v.unfinished + |w.pending| == w.unfinished
      && v.ledger == w.ledger.(batches := v.ledger.batches)
      && v.ledger.batches == w.ledger.batches + [w.pending]
  {
  }

  /** A flush that ends with the batch in the database, and confirmed. */
  ghost predicate FlushSaved(w: World, v: World) {
    && v.entries == w.entries && v.ledger.lost == w.ledger.lost
    && v.counters.successfulBatches == w.counters.successfulBatches + 1
    && v.counters.successfulItems == w.counters.successfulItems + |w.pending|
    && v.counters.failedBatches == w.counters.failedBatches
    && v.counters.failedItems == w.counters.failedItems
    && v.counters.spooledItems == w.counters.spooledItems && v.counters.spoolRefusals == w.counters.spoolRefusals
    && v.counters.lastError == None
  }

  /** A flush whose save failed: the batch goes to the spool, or is lost and known to be. */
  ghost predicate FlushSpooled(cfg: Config, w: World, v: World, f: Fault, at: Utc) {
    var confirmed := cfg.hasSpool && f == Completes && Spoolable(cfg, w.entries, w.pending);
    && (if cfg.hasSpool && TakesEffect(f) && Spoolable(cfg, w.entries, w.pending)
        then HoldsBatch(w.entries, v.entries, w.pending, at) else v.entries == w.entries)
    && v.ledger.lost == w.ledger.lost + (if confirmed then [] else [w.pending])
    && v.counters.failedBatches == w.counters.failedBatches + 1
    && v.counters.failedItems == w.counters.failedItems + |w.pending|
    && v.counters.successfulBatches == w.counters.successfulBatches
    && v.counters.successfulItems == w.counters.successfulItems
    && v.counters.spooledItems
       == w.counters.spooledItems + (if confirmed then |NewPositions(w.entries, w.pending)| else 0)
    && v.counters.spoolRefusals == w.counters.spoolRefusals + (if cfg.hasSpool && !confirmed then 1 else 0)
    && v.counters.lastError == Some(if cfg.hasSpool && !confirmed then AppendStage else SaveStage)
  }

  /** What a flush does that does not depend on how its save ends. */
  ghost predicate FlushAlways(w: World, v: World) {
    && v.pending == [] && v.queue == w.queue && v.stopping == w.stopping
    && v.unfinished + |w.pending| == w.unfinished
    && v.ledger.batches == w.ledger.batches + [w.pending]
    && v.ledger.arrived == w.ledger.arrived && v.ledger.taken == w.ledger.taken
    && v.counters.replayedItems == w.counters.replayedItems && v.counters.failedReplays == w.counters.failedReplays
  }

  /**
   * A flush saves the pending batch, and if that fails hands it to the spool. In either case the batch is
   * acknowledged once; it counts as a success iff the database confirmed it.
   */
  lemma FlushExactly(cfg: Config, w: World, t: Turn) returns (n: nat)
    requires cfg.Valid() && w.pending != [] && DistinctEntries(w.entries)
    ensures StopsAfter(cfg, t.saves, Storable(cfg.catalog, w.pending), 0, n)
    ensures
      var v := Flushed(cfg, w, t);
      var storable := Storable(cfg.catalog, w.pending);
      && FlushAlways(w, v)
      && v.tables == (if storable && SomeEffect(t.saves, 0, n) then SaveAll(cfg.catalog, w.tables, w.pending)
                      else w.tables)
      && v.counters.retryAttempts == w.counters.retryAttempts + n
      && (if storable && FaultAt(t.saves, n) == Completes then FlushSaved(w, v)
          else FlushSpooled(cfg, w, v, t.append, t.appendAt))
  {
    hide DistinctEntries, SaveAll, Storable, SomeEffect, StopsAfter, SpoolBatch, Persist, TimeoutsIn, Spoolable,
         HoldsBatch, NewPositions, LateSaves;
    n := PersistExactly(cfg, w, w.pending, t.saves, 0);
    var (saved, ok) := Persist(cfg, w, w.pending, t.saves, 0);
    PersistSaves(cfg, w, w.pending, t.saves, 0);
    if !ok {
      SpoolExactly(cfg, saved, w.pending, t.append, t.appendAt);
    }
  }

  // ---------------------------------------------------------------- replaying

  /** What is replayed: nothing unless a fetch is made, completes, and finds an entry due. */
  lemma DueNowExactly(cfg: Config, w: World, t: Turn)
    requires cfg.Valid() && DistinctEntries(w.entries)
    ensures DueNow(cfg, w, t) != [] <==>
              && w.pending == [] && cfg.hasSpool && t.fetch == Completes
              && exists e :: e in w.entries && Instant(e.nextRetryAt) <= Instant(t.fetchAt)
    ensures DueNow(cfg, w, t) != [] ==> DueNow(cfg, w, t) == FetchedDue(w.entries, t.fetchAt, cfg.replayBatchSize)
  {
    hide FetchedDue, DistinctEntries, Instant, OlderThan;
    FetchIsOldestDue(w.entries, t.fetchAt, cfg.replayBatchSize);
    var r := FetchedDue(w.entries, t.fetchAt, cfg.replayBatchSize);
    var due := DuePositions(w.entries, t.fetchAt);
    if e :| e in w.entries && Instant(e.nextRetryAt) <= Instant(t.fetchAt) {
      var i :| 0 <= i < |w.entries| && w.entries[i] == e;
      assert i in due;
    }
    if r != [] {
      assert r[0] in r;
    }
  }

  /** The entries named were saved: they leave the spool iff the deletion takes effect. */
  ghost predicate ReplaySaved(w: World, v: World, due: seq<Entry>, f: Fault) {
    && v.entries == (if TakesEffect(f) then Removed(w.entries, IdsOf(due)) else w.entries)
    && v.counters.replayedItems == w.counters.replayedItems + (if f == Completes then |due| else 0)
    && v.counters.failedReplays == w.counters.failedReplays
    && v.counters.lastError == (if f == Completes then w.counters.lastError else Some(MarkStage))
  }

  /** The save failed: the entries stay, put off by the delay iff the deferral takes effect within the calendar. */
  ghost predicate ReplayDeferred(cfg: Config, w: World, v: World, due: seq<Entry>, f: Fault, at: Utc) {
    var inTime := Instant(at) + cfg.retryDelay < END_OF_TIME;
    && (if TakesEffect(f) && inTime
        then exists until: Utc :: Instant(until) == Instant(at) + cfg.retryDelay
                                  && v.entries == Deferred(w.entries, IdsOf(due), until)
        else v.entries == w.entries)
    && v.counters.replayedItems == w.counters.replayedItems
    && v.counters.failedReplays == w.counters.failedReplays + (if f == Completes && inTime then |due| else 0)
    && v.counters.lastError == Some(if f == Completes && inTime then SaveStage else MarkStage)
  }

  /** Everything a replay leaves alone. */
  ghost predicate ReplayAlways(w: World, v: World) {
    && v.pending == w.pending && v.queue == w.queue && v.stopping == w.stopping && v.unfinished == w.unfinished
    && v.ledger == w.ledger.(log := v.ledger.log)
    && v.counters == w.counters.(insertedReadings := v.counters.insertedReadings,
                       retryAttempts := v.counters.retryAttempts, replayedItems := v.counters.replayedItems,
                       failedReplays := v.counters.failedReplays, lastError := v.counters.lastError)
  }

  lemma MarkReplayedExactly(w: World, due: seq<Entry>, f: Fault)
    ensures
      var v := MarkReplayed(w, due, f);
      && ReplaySaved(w, v, due, f) && ReplayAlways(w, v) && v.tables == w.tables
      && v.counters.retryAttempts == w.counters.retryAttempts
  {
    hide Removed, IdsOf;
  }

  lemma MarkFailedExactly(cfg: Config, w: World, due: seq<Entry>, f: Fault, at: Utc)
    requires w.counters.lastError == Some(SaveStage)
    ensures
      var v := MarkFailed(cfg, w, due, f, at);
      && ReplayDeferred(cfg, w, v, due, f, at) && ReplayAlways(w, v) && v.tables == w.tables
      && v.counters.retryAttempts == w.counters.retryAttempts
  {
    hide Deferred, IdsOf, Instant;
  }

  /** The outcome of a mark, seen from before the save. */
  lemma SeenFromBefore(cfg: Config, w: World, saved: World, v: World, due: seq<Entry>, f: Fault, at: Utc)
    requires saved.entries == w.entries && ReplayAlways(w, saved) && ReplayAlways(saved, v)
    requires saved.counters.replayedItems == w.counters.replayedItems
    requires saved.counters.failedReplays == w.counters.failedReplays
    ensures ReplayAlways(w, v)
    ensures ReplaySaved(saved, v, due, f) && saved.counters.lastError == w.counters.lastError ==>
              ReplaySaved(w, v, due, f)
    ensures ReplayDeferred(cfg, saved, v, due, f, at) ==> ReplayDeferred(cfg, w, v, due, f, at)
  {
    hide Removed, Deferred, IdsOf, Instant;
  }

  lemma SavedKeepsReplay(cfg: Config, w: World, saved: World, batch: seq<Item>)
    requires SavedFrom(cfg, w, saved, batch)
    ensures saved.entries == w.entries && ReplayAlways(w, saved)
    ensures saved.counters.replayedItems == w.counters.replayedItems
    ensures saved.counters.failedReplays == w.counters.failedReplays
  {
  }

  lemma ReplayExactly(cfg: Config, w: World, t: Turn, due: seq<Entry>) returns (n: nat, items: seq<Item>)
    requires cfg.Valid()
    ensures |items| == |due| && forall i :: 0 <= i < |items| ==> items[i] == due[i].item
    ensures StopsAfter(cfg, t.saves, Storable(cfg.catalog, items), 0, n)
    ensures
      var v := Replayed(cfg, w, t, due);
      var storable := Storable(cfg.catalog, items);
      && ReplayAlways(w, v)
      && v.tables == (if storable && SomeEffect(t.saves, 0, n) then SaveAll(cfg.catalog, w.tables, items) else w.tables)
      && v.counters.retryAttempts == w.counters.retryAttempts + n
      && (if storable && FaultAt(t.saves, n) == Completes then ReplaySaved(w, v, due, t.mark)
          else ReplayDeferred(cfg, w, v, due, t.mark, t.markAt))
  {
    hide Storable, SomeEffect, StopsAfter, Persist, TimeoutsIn, LateSaves, MarkReplayed, MarkFailed, SavedFrom, Instant,
         ReplayAlways, ReplaySaved, ReplayDeferred;
    items := ItemsOf(due);
    n := PersistExactly(cfg, w, items, t.saves, 0);
    var (saved, ok) := Persist(cfg, w, items, t.saves, 0);
    PersistSaves(cfg, w, items, t.saves, 0);
    SavedKeepsReplay(cfg, w, saved, items);
    if ok {
      MarkReplayedExactly(saved, due, t.mark);
    } else {
      MarkFailedExactly(cfg, saved, due, t.mark, t.markAt);
    }
    SeenFromBefore(cfg, w, saved, Replayed(cfg, w, t, due), due, t.mark, t.markAt);
  }

  // ---------------------------------------------------------------- consuming

  /** The item a turn takes, when nothing is replayed: the oldest queued, or the one that arrives meanwhile. */
  function NextItem(cfg: Config, w: World, t: Turn): Option<Item> {
    if |w.pending| >= cfg.batchSize then None
    else if w.queue != [] then Some(w.queue[0])
    else if w.stopping then None
    else t.arrival
  }

  /** `w` with `x` moved from the head of the queue, or from outside, to the end of the pending batch. */
  ghost predicate Took(w: World, v: World, x: Item) {
    && v.pending == w.pending + [x]
    && [x] + v.queue == (if w.queue == [] then [x] else w.queue)
    && v.stopping == w.stopping && v.unfinished == w.unfinished + (if w.queue == [] then 1 else 0)
    && v.tables == w.tables && v.entries == w.entries && v.stragglers == w.stragglers && v.counters == w.counters
    && v.ledger == w.ledger.(taken := w.ledger.taken + [x],
                   arrived := w.ledger.arrived + if w.queue == [] then [x] else [])
  }

  /**
   * A turn that replays nothing takes the next item if there is one, and flushes when that fills the batch;
   * with nothing to take it flushes what is pending.
   */
  lemma TurnExactly(cfg: Config, w: World, t: Turn) returns (ready: World)
    requires cfg.Valid() && DueNow(cfg, w, t) == []
    ensures ready == w.(counters := w.counters.(lastError :=
                if w.pending == [] && cfg.hasSpool && t.fetch != Completes then Some(FetchStage)
                else w.counters.lastError))
    ensures NextItem(cfg, w, t) == None ==> Turned(cfg, w, t) == Flushed(cfg, ready, t)
    ensures NextItem(cfg, w, t).Some? && |w.pending| + 1 < cfg.batchSize ==>
              Took(ready, Turned(cfg, w, t), NextItem(cfg, w, t).value)
    ensures NextItem(cfg, w, t).Some? && |w.pending| + 1 >= cfg.batchSize ==>
              exists v :: Took(ready, v, NextItem(cfg, w, t).value) && Turned(cfg, w, t) == Flushed(cfg, v, t)
  {
    hide Flushed, DueNow;
    ready := FetchNoted(cfg, w, t);
    if NextItem(cfg, w, t).Some? {
      var v := Taken(if w.queue == [] then Arrived(ready, t.arrival.value) else ready);
      assert Took(ready, v, NextItem(cfg, w, t).value);
    }
  }

  /** A put appends to the queue while there is room, a stop request sets the flag; nothing else changes. */
  lemma PutExactly(cfg: Config, w: World, item: Item)
    requires cfg.Valid()
    ensures
      var v := Step(cfg, w, Put(item));
      && v == w.(queue := v.queue, unfinished := v.unfinished, ledger := w.ledger.(arrived := v.ledger.arrived))
      && v.queue == w.queue + (if |w.queue| < cfg.queueCapacity then [item] else [])
      && v.unfinished - w.unfinished == |v.queue| - |w.queue|
      && v.ledger.arrived == w.ledger.arrived + (if |w.queue| < cfg.queueCapacity then [item] else [])
    ensures Step(cfg, w, Stop) == w.(stopping := true)
  {
  }

  // ---------------------------------------------------------------- what a reader of the database sees

  /** A valid poll none of whose rows were in the tables at start. */
  ghost predicate NewPoll(o: Origin, x: Item) {
    x.Valid() && x.Id() !in o.tables.executions && forall i: nat :: EventId(x.Id(), i) !in o.tables.readings
  }

  lemma LoggedReadsBack(cfg: Config, o: Origin, w: World, x: Item)
    requires IdDeterminesContent(o.universe) && Inv(cfg, o, w) && x in w.ledger.log && NewPoll(o, x)
    ensures ReadsBack(w.tables, x)
  {
    hide SaveAll, ReadsBack;
    LogWithin(cfg, o, w);
    SavedReadsBack(cfg.catalog, o.tables, w.ledger.log, o.universe, x);
  }

  /**
   * In every reachable state each new poll that was spooled at start or taken from the queue can be read back
   * from the database field by field, or is pending, spooled, or in a batch the spool did not confirm. Once
   * everything is dealt with, every one that ever arrived can be read back.
   */
  lemma PollsReadBack(cfg: Config, o: Origin, start: World, events: seq<Event>, x: Item)
    requires Start(cfg, o, start) && AllWithin(o, events) && NewPoll(o, x)
    ensures
      var w := Run(cfg, start, events);
      && (x in o.spooled || x in w.ledger.taken ==>
            x in w.pending || ReadsBack(w.tables, x) || HoldsItem(w.entries, x) || x in Flat(w.ledger.lost))
      && (Settled(w) && (x in o.spooled || x in w.ledger.arrived) ==> ReadsBack(w.tables, x))
  {
    hide Inv, Run, NewPoll, ReadsBack;
    var w := Run(cfg, start, events);
    RunKeepsInv(cfg, o, start, events);
    StartIsSound(cfg, o, start);
    if x in w.ledger.log {
      LoggedReadsBack(cfg, o, w, x);
    }
    KnownIsAccounted(cfg, o, w, x);
  }

  lemma KnownIsAccounted(cfg: Config, o: Origin, w: World, x: Item)
    requires Inv(cfg, o, w)
    ensures Known(o, w, x) ==> Accounted(w, x)
    ensures w.ledger.arrived == w.ledger.taken + w.queue
  {
  }
}
