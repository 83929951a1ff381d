/** Safety of every run of the pipeline: nothing is lost silently, and the database forgets the faults. */
module PipelineSafety {

  import opened Text
  import opened Timestamps
  import opened Domain
  import opened Repository
  import opened Spool
  import opened Retry
  import opened Pipeline

  // ---------------------------------------------------------------- saving

  /** `v` is `w` after some saves of (parts of) `batch`, some of them still running. */
  ghost predicate SavedFrom(cfg: Config, w: World, v: World, batch: seq<Item>) {
    && v == w.(tables := v.tables, stragglers := v.stragglers, counters := v.counters, ledger := v.ledger)
    && v.ledger == w.ledger.(log := v.ledger.log)
    && v.counters == w.counters.(insertedReadings := v.counters.insertedReadings,
                                 retryAttempts := v.counters.retryAttempts,
                                 lastError := v.counters.lastError)
    && w.ledger.log <= v.ledger.log
    && v.tables == SaveAll(cfg.catalog, w.tables, v.ledger.log[|w.ledger.log|..])
    && (forall x :: x in v.ledger.log ==> x in w.ledger.log || (x in batch && ItemStorable(cfg.catalog, x)))
    && (forall s :: s in v.stragglers ==> s in w.stragglers || s == LateSave(batch))
    && |w.stragglers| <= |v.stragglers|
  }

  lemma SavedFromSelf(cfg: Config, w: World, v: World, batch: seq<Item>)
    requires v == w.(counters := w.counters.(insertedReadings := v.counters.insertedReadings,
                       retryAttempts := v.counters.retryAttempts, lastError := v.counters.lastError))
    ensures SavedFrom(cfg, w, v, batch)
  {
    assert v.ledger.log[|w.ledger.log|..] == [];
  }

  lemma SavedFromTransitive(cfg: Config, u: World, v: World, w: World, batch: seq<Item>)
    requires SavedFrom(cfg, u, v, batch) && SavedFrom(cfg, v, w, batch)
    ensures SavedFrom(cfg, u, w, batch)
  {
    hide SaveAll, ItemStorable;
    var first, second := v.ledger.log[|u.ledger.log|..], w.ledger.log[|v.ledger.log|..];
    SaveAllConcat(cfg.catalog, u.tables, first, second);
    assert w.ledger.log[|u.ledger.log|..] == first + second;
  }

  lemma AttemptedSaves(cfg: Config, w: World, batch: seq<Item>, f: Fault)
    ensures SavedFrom(cfg, w, Attempted(cfg, w, batch, f), batch)
    ensures SaveCall(f, Storable(cfg.catalog, batch)).Returned? ==>
              forall x :: x in batch ==> x in Attempted(cfg, w, batch, f).ledger.log
  {
    hide SaveAll, ItemStorable;
    var v := Attempted(cfg, w, batch, f);
    if v.ledger.log == w.ledger.log {
      assert v.ledger.log[|w.ledger.log|..] == [];
      NothingSaved(cfg.catalog, w.tables);
      if batch == [] {
        NothingSaved(cfg.catalog, w.tables);
      }
    } else {
      assert v.ledger.log[|w.ledger.log|..] == batch;
    }
  }

  lemma NothingSaved(catalog: Catalog, t: Tables)
    ensures SaveAll(catalog, t, []) == t
  {
  }

  /** The retry loop, whatever it meets, only saves; if it reports success the batch is committed. */
  lemma {:induction false} PersistSaves(cfg: Config, w: World, batch: seq<Item>, faults: seq<Fault>, k: nat)
    requires k < cfg.maxAttempts
    ensures
      var (v, ok) := Persist(cfg, w, batch, faults, k);
      && SavedFrom(cfg, w, v, batch)
      && (ok ==> forall x :: x in batch ==> x in v.ledger.log)
      && v.counters.retryAttempts <= w.counters.retryAttempts + (cfg.maxAttempts - 1 - k)
    decreases cfg.maxAttempts - k
  {
    hide SavedFrom, Attempted;
    var f := FaultAt(faults, k);
    var after := Attempted(cfg, w, batch, f);
    AttemptedSaves(cfg, w, batch, f);
    var (v, ok) := Persist(cfg, w, batch, faults, k);
    assert after.counters == w.counters by { AttemptedKeepsCounters(cfg, w, batch, f); }
    var call := SaveCall(f, Storable(cfg.catalog, batch));
    if call.Threw? && IsRetryable(call.failure) && k + 1 < cfg.maxAttempts {
      var again := CountRetry(after);
      SavedFromSelf(cfg, after, again, batch);
      SavedFromTransitive(cfg, w, after, again, batch);
      PersistSaves(cfg, again, batch, faults, k + 1);
      SavedFromTransitive(cfg, w, again, v, batch);
    } else {
      SavedFromSelf(cfg, after, v, batch);
      SavedFromTransitive(cfg, w, after, v, batch);
    }
  }

  /** The retry loop reaches attempt `i`, and that attempt completes. */
  ghost predicate CompletesAt(cfg: Config, faults: seq<Fault>, k: nat, i: nat) {
    && k <= i < cfg.maxAttempts && FaultAt(faults, i).Completes?
    && forall j: nat :: k <= j < i ==>
         SaveCall(FaultAt(faults, j), true).Threw? && IsRetryable(SaveCall(FaultAt(faults, j), true).failure)
  }

  /**
   * A save reports success exactly when the batch is storable and an attempt the loop reaches completes.
   * One item that cannot be stored keeps its whole batch out of the database, whatever the faults.
   */
  lemma {:induction false} PersistSucceedsExactly(cfg: Config, w: World, batch: seq<Item>, faults: seq<Fault>, k: nat)
    requires k < cfg.maxAttempts
    ensures Persist(cfg, w, batch, faults, k).1 <==>
              Storable(cfg.catalog, batch) && exists i: nat :: CompletesAt(cfg, faults, k, i)
    ensures !Storable(cfg.catalog, batch) ==>
              && Persist(cfg, w, batch, faults, k).0.tables == w.tables
              && Persist(cfg, w, batch, faults, k).0.ledger == w.ledger
    decreases cfg.maxAttempts - k
  {
    hide Storable, SaveAll, IsRetryable;
    var f := FaultAt(faults, k);
    var call := SaveCall(f, Storable(cfg.catalog, batch));
    if call.Returned? {
      assert CompletesAt(cfg, faults, k, k);
    } else if !IsRetryable(call.failure) || k + 1 >= cfg.maxAttempts {
      if Storable(cfg.catalog, batch) {
        StopsBefore(cfg, faults, k);
      }
    } else {
      PersistSucceedsExactly(cfg, CountRetry(Attempted(cfg, w, batch, f)), batch, faults, k + 1);
      if Storable(cfg.catalog, batch) {
        CompletesLater(cfg, faults, k, k + 1);
      }
    }
  }

  lemma StopsBefore(cfg: Config, faults: seq<Fault>, k: nat)
    requires k < cfg.maxAttempts && SaveCall(FaultAt(faults, k), true).Threw?
    requires !IsRetryable(SaveCall(FaultAt(faults, k), true).failure) || k + 1 >= cfg.maxAttempts
    ensures !exists i: nat :: CompletesAt(cfg, faults, k, i)
  {
    hide IsRetryable;
  }

  lemma CompletesLater(cfg: Config, faults: seq<Fault>, k: nat, next: nat)
    requires next == k + 1
    requires SaveCall(FaultAt(faults, k), true).Threw? && IsRetryable(SaveCall(FaultAt(faults, k), true).failure)
    ensures (exists i: nat :: CompletesAt(cfg, faults, k, i)) <==> (exists i: nat :: CompletesAt(cfg, faults, next, i))
  {
    hide IsRetryable;
    if i: nat :| CompletesAt(cfg, faults, k, i) {
      assert CompletesAt(cfg, faults, next, i);
    }
    if i: nat :| CompletesAt(cfg, faults, next, i) {
      assert CompletesAt(cfg, faults, k, i);
    }
  }

  lemma AttemptedKeepsCounters(cfg: Config, w: World, batch: seq<Item>, f: Fault)
    ensures Attempted(cfg, w, batch, f).counters == w.counters
  {
  }

  lemma LoggedMonotone(w: World, v: World)
    requires forall x :: x in w.ledger.log ==> x in v.ledger.log
    ensures forall id :: Logged(w, id) ==> Logged(v, id)
  {
  }

  lemma SavedKeepsGrounded(cfg: Config, o: Origin, w: World, v: World, batch: seq<Item>)
    requires Grounded(cfg, o, w) && AllKnown(o, w, batch) && SavedFrom(cfg, w, v, batch)
    ensures Grounded(cfg, o, v)
  {
    hide SaveAll, ItemStorable;
    var more := v.ledger.log[|w.ledger.log|..];
    SaveAllConcat(cfg.catalog, o.tables, w.ledger.log, more);
    assert w.ledger.log + more == v.ledger.log;
    assert forall x :: x in w.ledger.log ==> x in v.ledger.log;
    LoggedMonotone(w, v);
    forall s | s in v.stragglers
      ensures StragglerSound(o, v, s)
    {
      if s in w.stragglers {
        assert StragglerSound(o, w, s);
      }
    }
  }

  /** Saving known items keeps the whole invariant. */
  lemma SavedKeepsInv(cfg: Config, o: Origin, w: World, v: World, batch: seq<Item>)
    requires Inv(cfg, o, w) && AllKnown(o, w, batch) && SavedFrom(cfg, w, v, batch)
    ensures Inv(cfg, o, v)
  {
    hide SaveAll, ItemStorable;
    assert Grounded(cfg, o, v) by { SavedKeepsGrounded(cfg, o, w, v, batch); }
    assert forall x :: x in w.ledger.log ==> x in v.ledger.log;
    forall x | Known(o, v, x)
      ensures Accounted(v, x)
    {
      assert Known(o, w, x);
      assert Accounted(w, x);
      if Spooled(w, x) {
        assert Spooled(v, x);
      }
    }
  }

  // ---------------------------------------------------------------- spooling

  /** `v` is `w` after handing `batch` to the spool. */
  ghost predicate SpooledFrom(cfg: Config, w: World, v: World, batch: seq<Item>, confirmed: bool) {
    && v == w.(entries := v.entries, stragglers := v.stragglers, counters := v.counters)
    && v.counters == w.counters.(spooledItems := v.counters.spooledItems,
                                 spoolRefusals := v.counters.spoolRefusals,
                                 lastError := v.counters.lastError)
    && v.counters.spoolRefusals == w.counters.spoolRefusals + (if cfg.hasSpool && !confirmed then 1 else 0)
    && (forall e :: e in w.entries ==> e in v.entries)
    && (forall e :: e in v.entries ==> e in w.entries || e.item in batch)
    && DistinctEntries(v.entries)
    && |v.entries| <= (if |w.entries| < cfg.spoolCapacity then cfg.spoolCapacity else |w.entries|)
    && (confirmed ==> forall x :: x in batch ==> x.Id() in IdsOf(v.entries))
    && (forall s :: s in v.stragglers ==> s in w.stragglers || (s.LateAppend? && s.items == batch))
  }

  lemma SpoolBatchSpools(cfg: Config, w: World, batch: seq<Item>, f: Fault, at: Utc)
    requires DistinctEntries(w.entries)
    ensures
      var (v, confirmed) := SpoolBatch(cfg, w, batch, f, at);
      SpooledFrom(cfg, w, v, batch, confirmed)
  {
    hide DistinctEntries, IdsOf, Appended;
    if Spool.Appended(w.entries, cfg.spoolCapacity, batch, at).Ok? {
      AppendedHoldsBatch(w.entries, cfg.spoolCapacity, batch, at);
    }
  }

  /** With one content per identifier, an entry with an item's identifier holds that item. */
  lemma SpooledById(o: Origin, w: World, x: Item)
    requires IdDeterminesContent(o.universe) && x in o.universe
    requires forall e :: e in w.entries ==> e.item in o.universe
    requires x.Id() in IdsOf(w.entries)
    ensures Spooled(w, x)
  {
    var e :| e in w.entries && e.Id() == x.Id();
    assert e.item == x;
  }

  lemma KnownInUniverse(cfg: Config, o: Origin, w: World, x: Item)
    requires Balanced(cfg, w) && Grounded(cfg, o, w) && Known(o, w, x)
    ensures x in o.universe
  {
    if x in w.ledger.taken {
      assert x in w.ledger.arrived;
    }
  }

  lemma SpooledKeepsGrounded(cfg: Config, o: Origin, w: World, v: World, batch: seq<Item>, confirmed: bool)
    requires Grounded(cfg, o, w) && AllKnown(o, w, batch) && SpooledFrom(cfg, w, v, batch, confirmed)
    ensures Grounded(cfg, o, v)
  {
    hide SaveAll, ItemStorable, DistinctEntries;
    forall s | s in v.stragglers
      ensures StragglerSound(o, v, s)
    {
      if s in w.stragglers {
        assert StragglerSound(o, w, s);
        LoggedMonotone(w, v);
      }
    }
  }

  // ---------------------------------------------------------------- acknowledging

  ghost predicate SameStores(w: World, v: World) {
    v.tables == w.tables && v.entries == w.entries && v.stragglers == w.stragglers
    && v.ledger.log == w.ledger.log && v.ledger.arrived == w.ledger.arrived && v.ledger.taken == w.ledger.taken
  }

  lemma SameStoresGrounded(cfg: Config, o: Origin, w: World, v: World)
    requires Grounded(cfg, o, w) && SameStores(w, v)
    ensures Grounded(cfg, o, v)
  {
    hide SaveAll, ItemStorable;
    LoggedMonotone(w, v);
    forall s | s in v.stragglers
      ensures StragglerSound(o, v, s)
    {
      assert StragglerSound(o, w, s);
    }
  }

  /** Acknowledging a batch that was counted keeps the bookkeeping. */
  lemma AcknowledgedBalanced(cfg: Config, w: World, v: World)
    requires Balanced(cfg, w) && 1 <= |w.pending| <= cfg.batchSize
    requires v.ledger.batches == w.ledger.batches + [w.pending] && v.pending == [] && v.queue == w.queue
    requires v.unfinished == w.unfinished - |w.pending|
    requires v.ledger.arrived == w.ledger.arrived && v.ledger.taken == w.ledger.taken
    requires v.counters.successfulBatches + v.counters.failedBatches
             == w.counters.successfulBatches + w.counters.failedBatches + 1
    requires v.counters.successfulItems + v.counters.failedItems
             == w.counters.successfulItems + w.counters.failedItems + |w.pending|
    ensures Balanced(cfg, v)
  {
    FlatAppend(w.ledger.batches, w.pending);
  }

  lemma FlatMembers(parts: seq<seq<Item>>, last: seq<Item>)
    ensures forall x :: x in Flat(parts) || x in last ==> x in Flat(parts + [last])
  {
    FlatAppend(parts, last);
  }

  // ---------------------------------------------------------------- flushing

  lemma FlushSuccessKeepsInv(cfg: Config, o: Origin, w: World)
    requires Inv(cfg, o, w) && 1 <= |w.pending| <= cfg.batchSize
    requires forall x :: x in w.pending ==> x in w.ledger.log
    ensures Inv(cfg, o, Acknowledged(CountSuccess(w)))
  {
    hide SaveAll, ItemStorable, DistinctEntries, Flat;
    var v := Acknowledged(CountSuccess(w));
    AcknowledgedBalanced(cfg, w, v);
    SameStoresGrounded(cfg, o, w, v);
    forall x | Known(o, v, x)
      ensures Accounted(v, x)
    {
      assert Known(o, w, x) && Accounted(w, x);
      if Spooled(w, x) {
        assert Spooled(v, x);
      }
    }
  }

  lemma FlushFailureKeepsInv(cfg: Config, o: Origin, w: World, s: World, confirmed: bool)
    requires IdDeterminesContent(o.universe)
    requires Inv(cfg, o, w) && 1 <= |w.pending| <= cfg.batchSize
    requires SpooledFrom(cfg, w, s, w.pending, confirmed) && (confirmed ==> cfg.hasSpool)
    ensures Inv(cfg, o, Acknowledged(CountFailure(s, confirmed)))
  {
    hide SaveAll, ItemStorable, DistinctEntries, Flat, IdsOf;
    var v := Acknowledged(CountFailure(s, confirmed));
    PendingKnown(cfg, o, w);
    SpooledKeepsGrounded(cfg, o, w, s, w.pending, confirmed);
    SameStoresGrounded(cfg, o, s, v);
    AcknowledgedBalanced(cfg, w, v);
    FlatMembers(w.ledger.lost, w.pending);
    forall x | Known(o, v, x)
      ensures Accounted(v, x)
    {
      assert Known(o, w, x) && Accounted(w, x);
      if x in w.pending && confirmed {
        KnownInUniverse(cfg, o, w, x);
        EntriesInUniverse(cfg, o, v);
        SpooledById(o, v, x);
      } else if Spooled(w, x) {
        var e :| e in w.entries && e.item == x;
        assert e in v.entries;
      }
    }
  }

  lemma PendingKnown(cfg: Config, o: Origin, w: World)
    requires Balanced(cfg, w)
    ensures AllKnown(o, w, w.pending)
  {
  }

  lemma EntriesInUniverse(cfg: Config, o: Origin, w: World)
    requires Balanced(cfg, w) && Grounded(cfg, o, w)
    ensures forall e :: e in w.entries ==> e.item in o.universe
  {
    forall e | e in w.entries
      ensures e.item in o.universe
    {
      KnownInUniverse(cfg, o, w, e.item);
    }
  }

  lemma FlushedKeepsInv(cfg: Config, o: Origin, w: World, t: Turn)
    requires cfg.Valid() && IdDeterminesContent(o.universe) && Inv(cfg, o, w) && |w.pending| <= cfg.batchSize
    ensures AtRest(cfg, o, Flushed(cfg, w, t))
  {
    hide Inv, SavedFrom, SpooledFrom, Persist, SpoolBatch;
    if w.pending != [] {
      var (saved, ok) := Persist(cfg, w, w.pending, t.saves, 0);
      PersistSaves(cfg, w, w.pending, t.saves, 0);
      assert AllKnown(o, w, w.pending) by { InvBalanced(cfg, o, w); PendingKnown(cfg, o, w); }
      SavedKeepsInv(cfg, o, w, saved, w.pending);
      SavedKeepsPending(cfg, w, saved, w.pending);
      if ok {
        FlushSuccessKeepsInv(cfg, o, saved);
      } else {
        var (stored, confirmed) := SpoolBatch(cfg, saved, w.pending, t.append, t.appendAt);
        InvBalanced(cfg, o, saved);
        SpoolBatchSpools(cfg, saved, w.pending, t.append, t.appendAt);
        SpoolNeedsSpool(cfg, saved, w.pending, t.append, t.appendAt);
        FlushFailureKeepsInv(cfg, o, saved, stored, confirmed);
      }
    }
  }

  lemma InvBalanced(cfg: Config, o: Origin, w: World)
    requires Inv(cfg, o, w)
    ensures Balanced(cfg, w) && Grounded(cfg, o, w) && DistinctEntries(w.entries)
  {
  }

  lemma SavedKeepsPending(cfg: Config, w: World, v: World, batch: seq<Item>)
    requires SavedFrom(cfg, w, v, batch)
    ensures v.pending == w.pending && v.queue == w.queue && v.entries == w.entries && v.stopping == w.stopping
    ensures v.ledger.taken == w.ledger.taken
  {
  }

  lemma SpoolNeedsSpool(cfg: Config, w: World, batch: seq<Item>, f: Fault, at: Utc)
    ensures SpoolBatch(cfg, w, batch, f, at).1 ==> cfg.hasSpool
  {
  }

  // ---------------------------------------------------------------- replaying

  /** Removing entries whose items are committed, and nothing else, keeps the invariant. */
  lemma RemovedKeepsInv(cfg: Config, o: Origin, w: World, ids: set<string>)
    requires IdDeterminesContent(o.universe) && Inv(cfg, o, w)
    requires forall id :: id in ids ==> Logged(w, id)
    ensures Inv(cfg, o, w.(entries := Removed(w.entries, ids)))
    ensures forall e :: e in w.entries && e !in Removed(w.entries, ids) ==> e.item in w.ledger.log
  {
    hide SaveAll, ItemStorable, DistinctEntries, Flat, Removed;
    var v := w.(entries := Removed(w.entries, ids));
    RemovedMembers(w.entries, ids);
    EntriesInUniverse(cfg, o, w);
    forall e | e in w.entries && e.Id() in ids
      ensures e.item in w.ledger.log
    {
      var x :| x in w.ledger.log && x.Id() == e.Id();
      KnownInUniverse(cfg, o, w, x);
      assert x == e.item;
    }
    EntriesChangeGrounded(cfg, o, w, v);
    forall x | Known(o, v, x)
      ensures Accounted(v, x)
    {
      assert Known(o, w, x) && Accounted(w, x);
      if Spooled(w, x) {
        var e :| e in w.entries && e.item == x;
        assert e in v.entries || x in w.ledger.log;
      }
    }
  }

  lemma DeferredKeepsInv(cfg: Config, o: Origin, w: World, ids: set<string>, until: Utc)
    requires Inv(cfg, o, w)
    ensures Inv(cfg, o, w.(entries := Deferred(w.entries, ids, until)))
  {
    hide SaveAll, ItemStorable, DistinctEntries, Flat, Deferred;
    var v := w.(entries := Deferred(w.entries, ids, until));
    DeferredMembers(w.entries, ids, until);
    assert forall e :: e in v.entries ==> HoldsItem(v.entries, e.item);
    EntriesChangeGrounded(cfg, o, w, v);
    forall x | Known(o, v, x)
      ensures Accounted(v, x)
    {
      assert Known(o, w, x) && Accounted(w, x);
    }
  }

  /** Entries may come and go as long as their items are known. */
  lemma EntriesChangeGrounded(cfg: Config, o: Origin, w: World, v: World)
    requires Grounded(cfg, o, w) && v == w.(entries := v.entries)
    requires forall e :: e in v.entries ==> HoldsItem(w.entries, e.item)
    ensures Grounded(cfg, o, v)
  {
    hide SaveAll, ItemStorable;
    LoggedMonotone(w, v);
    forall s | s in v.stragglers
      ensures StragglerSound(o, v, s)
    {
      assert StragglerSound(o, w, s);
    }
    forall e | e in v.entries
      ensures Known(o, v, e.item)
    {
      var d :| d in w.entries && d.item == e.item;
    }
  }

  /** Counters other than those of batches and refusals, and sound stragglers, are free to change. */
  lemma BookkeepingKeepsInv(cfg: Config, o: Origin, w: World, v: World)
    requires Inv(cfg, o, w)
    requires v == w.(stragglers := v.stragglers, counters := v.counters)
    requires forall s :: s in v.stragglers ==> s in w.stragglers || StragglerSound(o, w, s)
    requires v.counters.successfulBatches == w.counters.successfulBatches
    requires v.counters.failedBatches == w.counters.failedBatches
    requires v.counters.successfulItems == w.counters.successfulItems
    requires v.counters.failedItems == w.counters.failedItems
    requires v.counters.spoolRefusals == w.counters.spoolRefusals
    ensures Inv(cfg, o, v)
  {
    hide SaveAll, ItemStorable, DistinctEntries, Flat;
    LoggedMonotone(w, v);
    forall s | s in v.stragglers
      ensures StragglerSound(o, v, s)
    {
      assert StragglerSound(o, w, s);
    }
    forall x | Known(o, v, x)
      ensures Accounted(v, x)
    {
      assert Known(o, w, x) && Accounted(w, x);
      if Spooled(w, x) {
        assert Spooled(v, x);
      }
    }
  }

  lemma ItemsOfMembers(due: seq<Entry>)
    ensures forall e :: e in due ==> e.item in ItemsOf(due)
    ensures forall x :: x in ItemsOf(due) ==> exists e :: e in due && e.item == x
    ensures |ItemsOf(due)| == |due|
  {
    var items := ItemsOf(due);
    forall e | e in due
      ensures e.item in items
    {
      var i :| 0 <= i < |due| && due[i] == e;
      assert items[i] == e.item;
    }
    forall x | x in items
      ensures exists e :: e in due && e.item == x
    {
      var i :| 0 <= i < |items| && items[i] == x;
      assert due[i] in due;
    }
  }

  lemma MarkReplayedKeepsInv(cfg: Config, o: Origin, w: World, due: seq<Entry>, f: Fault)
    requires IdDeterminesContent(o.universe) && Inv(cfg, o, w)
    requires forall e :: e in due ==> e.item in w.ledger.log
    ensures Inv(cfg, o, MarkReplayed(w, due, f))
    ensures forall e :: e in w.entries && e !in MarkReplayed(w, due, f).entries ==> e.item in w.ledger.log
  {
    hide Inv, Removed;
    forall id | id in IdsOf(due)
      ensures Logged(w, id)
    {
      var e :| e in due && e.Id() == id;
      assert e.item in w.ledger.log;
    }
    var without := w.(entries := Removed(w.entries, IdsOf(due)));
    RemovedKeepsInv(cfg, o, w, IdsOf(due));
    assert StragglerSound(o, w, LateDelete(IdsOf(due)));
    BookkeepingKeepsInv(cfg, o, if f.Completes? || f.CommitsThenFails? then without else w, MarkReplayed(w, due, f));
  }

  lemma MarkFailedKeepsInv(cfg: Config, o: Origin, w: World, due: seq<Entry>, f: Fault, at: Utc)
    requires Inv(cfg, o, w)
    ensures Inv(cfg, o, MarkFailed(cfg, w, due, f, at))
  {
    hide Inv, Deferred;
    var v := MarkFailed(cfg, w, due, f, at);
    var until := Later(at, cfg.retryDelay);
    if until.Err? || f.Fails? || f.TimesOut? {
      BookkeepingKeepsInv(cfg, o, w, v);
    } else {
      DeferredKeepsInv(cfg, o, w, IdsOf(due), until.value);
      BookkeepingKeepsInv(cfg, o, w.(entries := Deferred(w.entries, IdsOf(due), until.value)), v);
    }
  }

  lemma ReplayedKeepsInv(cfg: Config, o: Origin, w: World, t: Turn, due: seq<Entry>)
    requires cfg.Valid() && IdDeterminesContent(o.universe) && Inv(cfg, o, w)
    requires forall e :: e in due ==> e in w.entries
    ensures Inv(cfg, o, Replayed(cfg, w, t, due)) && Replayed(cfg, w, t, due).pending == w.pending
  {
    hide Inv, SavedFrom, Persist, MarkReplayed, MarkFailed;
    var items := ItemsOf(due);
    var (saved, ok) := Persist(cfg, w, items, t.saves, 0);
    ItemsOfMembers(due);
    assert AllKnown(o, w, items) by { InvBalanced(cfg, o, w); }
    PersistSaves(cfg, w, items, t.saves, 0);
    SavedKeepsInv(cfg, o, w, saved, items);
    SavedKeepsPending(cfg, w, saved, items);
    if ok {
      MarkReplayedKeepsInv(cfg, o, saved, due, t.mark);
      assert MarkReplayed(saved, due, t.mark).pending == saved.pending by {
        MarksKeepPending(cfg, saved, due, t.mark, t.markAt);
      }
    } else {
      MarkFailedKeepsInv(cfg, o, saved, due, t.mark, t.markAt);
      MarksKeepPending(cfg, saved, due, t.mark, t.markAt);
    }
  }

  lemma MarksKeepPending(cfg: Config, w: World, due: seq<Entry>, f: Fault, at: Utc)
    ensures MarkReplayed(w, due, f).pending == w.pending && MarkFailed(cfg, w, due, f, at).pending == w.pending
    ensures MarkReplayed(w, due, f).queue == w.queue && MarkFailed(cfg, w, due, f, at).queue == w.queue
    ensures MarkReplayed(w, due, f).stopping == w.stopping && MarkFailed(cfg, w, due, f, at).stopping == w.stopping
  {
  }

  // ---------------------------------------------------------------- arriving and taking

  lemma ArrivedKeepsInv(cfg: Config, o: Origin, w: World, item: Item)
    requires Inv(cfg, o, w) && |w.queue| < cfg.queueCapacity && item in o.universe
    ensures Inv(cfg, o, Arrived(w, item))
  {
    hide SaveAll, ItemStorable, DistinctEntries, Flat;
    var v := Arrived(w, item);
    assert v.ledger.arrived == w.ledger.taken + (w.queue + [item]);
    LoggedMonotone(w, v);
    forall s | s in v.stragglers
      ensures StragglerSound(o, v, s)
    {
      assert StragglerSound(o, w, s);
    }
    forall x | Known(o, v, x)
      ensures Accounted(v, x)
    {
      assert Known(o, w, x) && Accounted(w, x);
      if Spooled(w, x) {
        assert Spooled(v, x);
      }
    }
  }

  lemma TakenKeepsInv(cfg: Config, o: Origin, w: World)
    requires Inv(cfg, o, w) && w.queue != []
    ensures Inv(cfg, o, Taken(w))
  {
    hide SaveAll, ItemStorable, DistinctEntries, Flat;
    var v := Taken(w);
    assert w.queue == [w.queue[0]] + w.queue[1..];
    assert forall x :: Known(o, w, x) ==> Known(o, v, x);
    LoggedMonotone(w, v);
    forall s | s in v.stragglers
      ensures StragglerSound(o, v, s)
    {
      assert StragglerSound(o, w, s);
    }
    forall x | Known(o, v, x)
      ensures Accounted(v, x)
    {
      if Known(o, w, x) {
        assert Accounted(w, x);
        if Spooled(w, x) {
          assert Spooled(v, x);
        }
      }
    }
  }

  // ---------------------------------------------------------------- turns, stragglers, steps, runs

  lemma ConsumedKeepsInv(cfg: Config, o: Origin, w: World, t: Turn)
    requires cfg.Valid() && IdDeterminesContent(o.universe) && AtRest(cfg, o, w)
    requires t.arrival.Some? ==> t.arrival.value in o.universe
    ensures AtRest(cfg, o, Consumed(cfg, w, t))
  {
    hide Inv, Flushed;
    if w.stopping && w.queue == [] {
      FlushedKeepsInv(cfg, o, w, t);
    } else {
      var ready := if w.queue == [] && t.arrival.Some? then Arrived(w, t.arrival.value) else w;
      if w.queue == [] && t.arrival.Some? {
        ArrivedKeepsInv(cfg, o, w, t.arrival.value);
      }
      if ready.queue == [] {
        FlushedKeepsInv(cfg, o, ready, t);
      } else {
        TakenKeepsInv(cfg, o, ready);
        if |Taken(ready).pending| >= cfg.batchSize {
          FlushedKeepsInv(cfg, o, Taken(ready), t);
        }
      }
    }
  }

  ghost predicate TurnWithin(o: Origin, t: Turn) {
    t.arrival.Some? ==> t.arrival.value in o.universe
  }

  lemma TurnedKeepsInv(cfg: Config, o: Origin, w: World, t: Turn)
    requires cfg.Valid() && IdDeterminesContent(o.universe) && AtRest(cfg, o, w) && TurnWithin(o, t)
    ensures AtRest(cfg, o, Turned(cfg, w, t))
  {
    hide Inv, Replayed, Consumed, FetchedDue;
    var due := DueNow(cfg, w, t);
    if due != [] {
      FetchedMembers(w.entries, t.fetchAt, cfg.replayBatchSize);
      ReplayedKeepsInv(cfg, o, w, t, due);
    } else {
      BookkeepingKeepsInv(cfg, o, w, FetchNoted(cfg, w, t));
      ConsumedKeepsInv(cfg, o, FetchNoted(cfg, w, t), t);
    }
  }

  lemma LandedKeepsInv(cfg: Config, o: Origin, w: World, s: Straggler)
    requires IdDeterminesContent(o.universe) && Inv(cfg, o, w) && StragglerSound(o, w, s)
    ensures Inv(cfg, o, Landed(cfg, w, s)) && Landed(cfg, w, s).pending == w.pending
  {
    hide Inv, SavedFrom;
    match s
    case LateSave(batch) =>
      AttemptedSaves(cfg, w, batch, Completes);
      SavedKeepsInv(cfg, o, w, Commit(cfg, w, batch), batch);
    case LateAppend(items, at) =>
      LateAppendKeepsInv(cfg, o, w, items, at);
    case LateDelete(ids) =>
      RemovedKeepsInv(cfg, o, w, ids);
    case LateDefer(ids, until) =>
      DeferredKeepsInv(cfg, o, w, ids, until);
  }

  lemma LateAppendKeepsInv(cfg: Config, o: Origin, w: World, items: seq<Item>, at: Utc)
    requires Inv(cfg, o, w) && AllKnown(o, w, items)
    ensures Inv(cfg, o, Landed(cfg, w, LateAppend(items, at)))
  {
    hide SaveAll, ItemStorable, DistinctEntries, Flat, Appended;
    var v := Landed(cfg, w, LateAppend(items, at));
    if Spool.Appended(w.entries, cfg.spoolCapacity, items, at).Ok? {
      AppendedHoldsBatch(w.entries, cfg.spoolCapacity, items, at);
    }
    LoggedMonotone(w, v);
    forall s | s in v.stragglers
      ensures StragglerSound(o, v, s)
    {
      assert StragglerSound(o, w, s);
    }
    forall x | Known(o, v, x)
      ensures Accounted(v, x)
    {
      assert Known(o, w, x) && Accounted(w, x);
      if Spooled(w, x) {
        var e :| e in w.entries && e.item == x;
        assert e in v.entries;
      }
    }
  }

  ghost predicate EventWithin(o: Origin, e: Event) {
    match e
    case Put(item) => item in o.universe
    case Loop(t) => TurnWithin(o, t)
    case Stop => true
    case Lands(_) => true
  }

  lemma StepKeepsInv(cfg: Config, o: Origin, w: World, e: Event)
    requires cfg.Valid() && IdDeterminesContent(o.universe) && AtRest(cfg, o, w) && EventWithin(o, e)
    ensures AtRest(cfg, o, Step(cfg, w, e))
  {
    hide Inv, Turned, Landed;
    match e
    case Put(item) =>
      if |w.queue| < cfg.queueCapacity {
        ArrivedKeepsInv(cfg, o, w, item);
      }
    case Stop =>
      StopKeepsInv(cfg, o, w);
    case Loop(t) =>
      TurnedKeepsInv(cfg, o, w, t);
    case Lands(k) =>
      if k < |w.stragglers| {
        var rest := w.(stragglers := w.stragglers[..k] + w.stragglers[k + 1..]);
        BookkeepingKeepsInv(cfg, o, w, rest);
        InvBalanced(cfg, o, w);
        assert w.stragglers[k] in w.stragglers;
        StragglerStillSound(o, w, rest, w.stragglers[k]);
        LandedKeepsInv(cfg, o, rest, w.stragglers[k]);
      }
  }

  lemma StragglerStillSound(o: Origin, w: World, v: World, s: Straggler)
    requires StragglerSound(o, w, s) && v.ledger == w.ledger
    ensures StragglerSound(o, v, s)
  {
    LoggedMonotone(w, v);
  }

  lemma StopKeepsInv(cfg: Config, o: Origin, w: World)
    requires Inv(cfg, o, w)
    ensures Inv(cfg, o, w.(stopping := true))
  {
    hide SaveAll, ItemStorable, DistinctEntries, Flat;
    var v := w.(stopping := true);
    SameStoresGrounded(cfg, o, w, v);
    forall x | Known(o, v, x)
      ensures Accounted(v, x)
    {
      assert Known(o, w, x) && Accounted(w, x);
      if Spooled(w, x) {
        assert Spooled(v, x);
      }
    }
  }

  /** A universe in which identifiers determine contents, and a start within it. */
  ghost predicate Start(cfg: Config, o: Origin, w: World) {
    && cfg.Valid()
    && IdDeterminesContent(o.universe)
    && w == Initial(w.queue, o.tables, w.entries) && |w.queue| <= cfg.queueCapacity
    && (forall x :: x in w.queue ==> x in o.universe)
    && o.spooled == ItemsOf(w.entries)
    && DistinctEntries(w.entries)
    && (forall x :: x in o.spooled ==> x in o.universe)
  }

  ghost predicate AllWithin(o: Origin, events: seq<Event>) {
    forall i :: 0 <= i < |events| ==> EventWithin(o, events[i])
  }

  lemma InitialInv(cfg: Config, o: Origin, w: World)
    requires Start(cfg, o, w)
    ensures AtRest(cfg, o, w)
  {
    hide DistinctEntries, SaveAll;
    ItemsOfMembers(w.entries);
    NothingSaved(cfg.catalog, o.tables);
    forall x | Known(o, w, x)
      ensures Accounted(w, x)
    {
      assert Spooled(w, x);
    }
  }

  lemma {:induction false} RunKeepsInv(cfg: Config, o: Origin, w: World, events: seq<Event>)
    requires Start(cfg, o, w) && AllWithin(o, events)
    ensures AtRest(cfg, o, Run(cfg, w, events))
  {
    hide AtRest, Step;
    if events == [] {
      InitialInv(cfg, o, w);
    } else {
      RunKeepsInv(cfg, o, w, events[..|events| - 1]);
      StepKeepsInv(cfg, o, Run(cfg, w, events[..|events| - 1]), events[|events| - 1]);
    }
  }

  // ---------------------------------------------------------------- theorems about whole runs

  /**
   * Everything found in the spool at start or taken from the queue is pending, in the database with its own
   * contents, in the spool, or in a batch counted as failed that the spool did not confirm; and these batches
   * are counted.
   */
  ghost predicate AllAccountedFor(cfg: Config, o: Origin, w: World) {
    && (forall x :: x in o.spooled || x in w.ledger.taken ==>
          || x in w.pending || HoldsContent(cfg.catalog, o.tables, w.tables, x)
          || HoldsItem(w.entries, x) || x in Flat(w.ledger.lost))
    && (forall b :: b in w.ledger.lost ==> b in w.ledger.batches)
    && |w.ledger.lost| == (if cfg.hasSpool then w.counters.spoolRefusals else w.counters.failedBatches)
  }

  lemma InvAccountsForAll(cfg: Config, o: Origin, w: World)
    requires IdDeterminesContent(o.universe) && Inv(cfg, o, w)
    ensures AllAccountedFor(cfg, o, w)
  {
    hide SaveAll, ItemStorable, Flat, HoldsContent;
    forall x | x in o.spooled || x in w.ledger.taken
      ensures x in w.pending || HoldsContent(cfg.catalog, o.tables, w.tables, x)
              || HoldsItem(w.entries, x) || x in Flat(w.ledger.lost)
    {
      assert Known(o, w, x) && Accounted(w, x);
      if x in w.ledger.log {
        LoggedInDatabase(cfg, o, w, x);
      }
    }
  }

  /** In every reachable state nothing is lost silently. */
  lemma NoSilentLoss(cfg: Config, o: Origin, start: World, events: seq<Event>)
    requires Start(cfg, o, start) && AllWithin(o, events)
    ensures AllAccountedFor(cfg, o, Run(cfg, start, events))
  {
    hide Inv, AllAccountedFor, Run;
    RunKeepsInv(cfg, o, start, events);
    StartIsSound(cfg, o, start);
    InvAccountsForAll(cfg, o, Run(cfg, start, events));
  }

  lemma LogWithin(cfg: Config, o: Origin, w: World)
    requires Inv(cfg, o, w)
    ensures Within(w.ledger.log, o.universe)
  {
    forall x | x in w.ledger.log
      ensures x in o.universe
    {
      KnownInUniverse(cfg, o, w, x);
    }
  }

  lemma LoggedInDatabase(cfg: Config, o: Origin, w: World, x: Item)
    requires IdDeterminesContent(o.universe) && Inv(cfg, o, w) && x in w.ledger.log
    ensures HoldsContent(cfg.catalog, o.tables, w.tables, x)
  {
    hide SaveAll, HoldsContent;
    LogWithin(cfg, o, w);
    SavedStaysInDatabase(cfg.catalog, o.tables, w.ledger.log, o.universe, x);
  }

  /** Everything has been dealt with, and the spool confirmed every batch it was given. */
  ghost predicate Settled(w: World) {
    w.queue == [] && w.pending == [] && w.entries == [] && w.ledger.lost == []
  }

  /** The tables of the run that saves what was spooled at start and then each arrived item once, in order. */
  ghost predicate FaultFree(cfg: Config, o: Origin, w: World) {
    && Storable(cfg.catalog, o.spooled + w.ledger.arrived)
    && w.tables == SaveAll(cfg.catalog, o.tables, o.spooled + w.ledger.arrived)
  }

  lemma SettledIsFaultFree(cfg: Config, o: Origin, w: World)
    requires IdDeterminesContent(o.universe) && Inv(cfg, o, w) && Settled(w)
    ensures FaultFree(cfg, o, w)
  {
    hide SaveAll, ItemStorable;
    LogWithin(cfg, o, w);
    var all := o.spooled + w.ledger.arrived;
    assert w.ledger.arrived == w.ledger.taken;
    forall x
      ensures x in w.ledger.log <==> x in all
    {
      if x in all {
        assert Known(o, w, x) && Accounted(w, x);
      }
      if x in w.ledger.log {
        assert Known(o, w, x);
      }
    }
    SaveOrderIrrelevant(cfg.catalog, o.tables, w.ledger.log, all, o.universe);
  }

  /** A run that ends settled leaves the fault-free tables, whatever failed, timed out or landed late on the way. */
  lemma FaultsLeaveNoTrace(cfg: Config, o: Origin, start: World, events: seq<Event>)
    requires Start(cfg, o, start) && AllWithin(o, events) && Settled(Run(cfg, start, events))
    ensures FaultFree(cfg, o, Run(cfg, start, events))
  {
    hide Inv, FaultFree, Settled, Run;
    RunKeepsInv(cfg, o, start, events);
    StartIsSound(cfg, o, start);
    SettledIsFaultFree(cfg, o, Run(cfg, start, events));
  }

  /** Two runs over the same arrivals that end settled cannot be told apart by the database. */
  lemma FaultSchedulesAgree(cfg: Config, o: Origin, start: World, one: seq<Event>, other: seq<Event>)
    requires Start(cfg, o, start) && AllWithin(o, one) && AllWithin(o, other)
    requires Settled(Run(cfg, start, one)) && Settled(Run(cfg, start, other))
    requires Run(cfg, start, one).ledger.arrived == Run(cfg, start, other).ledger.arrived
    ensures Run(cfg, start, one).tables == Run(cfg, start, other).tables
  {
    FaultsLeaveNoTrace(cfg, o, start, one);
    FaultsLeaveNoTrace(cfg, o, start, other);
  }

  /**
   * At every loop head: unacknowledged items are the queued and the pending ones, the batches flushed so far
   * joined with the pending batch are exactly the items taken, in arrival order, each batch has a legal size,
   * and the counters account for every item taken.
   */
  lemma QueueBalance(cfg: Config, o: Origin, start: World, events: seq<Event>)
    requires Start(cfg, o, start) && AllWithin(o, events)
    ensures
      var w := Run(cfg, start, events);
      && w.unfinished == |w.queue| + |w.pending|
      && w.ledger.arrived == Flat(w.ledger.batches) + w.pending + w.queue
      && (forall b :: b in w.ledger.batches ==> 1 <= |b| <= cfg.batchSize)
      && |w.ledger.taken| == w.counters.successfulItems + w.counters.failedItems + |w.pending|
      && |w.ledger.batches| == w.counters.successfulBatches + w.counters.failedBatches
      && |w.pending| < cfg.batchSize
  {
    RunKeepsInv(cfg, o, start, events);
  }

  /** The spool never outgrows its limit, unless it was opened beyond it, and never holds an identifier twice. */
  lemma SpoolStaysBounded(cfg: Config, o: Origin, start: World, events: seq<Event>)
    requires Start(cfg, o, start) && AllWithin(o, events)
    ensures
      var w := Run(cfg, start, events);
      && DistinctEntries(w.entries)
      && |w.entries| <= if |start.entries| < cfg.spoolCapacity then cfg.spoolCapacity else |start.entries|
  {
    RunKeepsInv(cfg, o, start, events);
    ItemsOfMembers(start.entries);
  }

  // ---------------------------------------------------------------- deletions

  /** `v` has lost no spooled item of `w` that is not committed. */
  ghost predicate DropsOnlyCommitted(w: World, v: World) {
    forall x :: HoldsItem(w.entries, x) && !HoldsItem(v.entries, x) ==> x in v.ledger.log
  }

  lemma FlushedDropsNothing(cfg: Config, w: World, t: Turn)
    requires cfg.Valid() && DistinctEntries(w.entries)
    ensures DropsOnlyCommitted(w, Flushed(cfg, w, t))
  {
    hide SavedFrom, SpooledFrom, Persist, SpoolBatch, DistinctEntries;
    if w.pending != [] {
      var (saved, ok) := Persist(cfg, w, w.pending, t.saves, 0);
      PersistSaves(cfg, w, w.pending, t.saves, 0);
      SavedKeepsPending(cfg, w, saved, w.pending);
      SpoolBatchSpools(cfg, saved, w.pending, t.append, t.appendAt);
      var (stored, confirmed) := SpoolBatch(cfg, saved, w.pending, t.append, t.appendAt);
      SpooledKeepsEntries(cfg, saved, stored, w.pending, confirmed);
    }
  }

  lemma SpooledKeepsEntries(cfg: Config, w: World, v: World, batch: seq<Item>, confirmed: bool)
    requires SpooledFrom(cfg, w, v, batch, confirmed)
    ensures forall x :: HoldsItem(w.entries, x) ==> HoldsItem(v.entries, x)
  {
  }

  lemma ConsumedDropsNothing(cfg: Config, w: World, t: Turn)
    requires cfg.Valid() && DistinctEntries(w.entries)
    ensures DropsOnlyCommitted(w, Consumed(cfg, w, t))
  {
    hide Flushed, DistinctEntries, HoldsItem;
    FlushedDropsNothing(cfg, w, t);
    var ready := if w.queue == [] && t.arrival.Some? then Arrived(w, t.arrival.value) else w;
    FlushedDropsNothing(cfg, ready, t);
    if ready.queue != [] {
      FlushedDropsNothing(cfg, Taken(ready), t);
    }
  }

  lemma ReplayedDropsCommitted(cfg: Config, o: Origin, w: World, t: Turn, due: seq<Entry>)
    requires cfg.Valid() && IdDeterminesContent(o.universe) && Inv(cfg, o, w)
    requires forall e :: e in due ==> e in w.entries
    ensures DropsOnlyCommitted(w, Replayed(cfg, w, t, due))
  {
    hide Inv, SavedFrom, Persist, MarkReplayed, MarkFailed;
    var items := ItemsOf(due);
    var (saved, ok) := Persist(cfg, w, items, t.saves, 0);
    ItemsOfMembers(due);
    assert AllKnown(o, w, items) by { InvBalanced(cfg, o, w); }
    PersistSaves(cfg, w, items, t.saves, 0);
    SavedKeepsInv(cfg, o, w, saved, items);
    SavedKeepsPending(cfg, w, saved, items);
    if ok {
      MarkReplayedKeepsInv(cfg, o, saved, due, t.mark);
      MarkKeepsLog(saved, due, t.mark);
    } else {
      MarkFailedKeepsItems(cfg, saved, due, t.mark, t.markAt);
    }
  }

  lemma MarkKeepsLog(w: World, due: seq<Entry>, f: Fault)
    ensures MarkReplayed(w, due, f).ledger == w.ledger
  {
  }

  lemma MarkFailedKeepsItems(cfg: Config, w: World, due: seq<Entry>, f: Fault, at: Utc)
    ensures forall x :: HoldsItem(w.entries, x) ==> HoldsItem(MarkFailed(cfg, w, due, f, at).entries, x)
  {
    hide Deferred, HoldsItem;
    var until := Later(at, cfg.retryDelay);
    if until.Ok? {
      DeferredMembers(w.entries, IdsOf(due), until.value);
    }
  }

  lemma LandedDropsCommitted(cfg: Config, o: Origin, w: World, s: Straggler)
    requires IdDeterminesContent(o.universe) && Inv(cfg, o, w) && StragglerSound(o, w, s)
    ensures DropsOnlyCommitted(w, Landed(cfg, w, s))
  {
    hide Inv, Appended, Removed, Deferred, Commit;
    match s
    case LateSave(batch) =>
      CommitKeepsEntries(cfg, w, batch);
    case LateAppend(items, at) =>
      InvBalanced(cfg, o, w);
      if Spool.Appended(w.entries, cfg.spoolCapacity, items, at).Ok? {
        AppendedHoldsBatch(w.entries, cfg.spoolCapacity, items, at);
      }
    case LateDelete(ids) =>
      RemovedKeepsInv(cfg, o, w, ids);
    case LateDefer(ids, until) =>
      DeferredMembers(w.entries, ids, until);
  }

  lemma CommitKeepsEntries(cfg: Config, w: World, batch: seq<Item>)
    ensures Commit(cfg, w, batch).entries == w.entries
  {
  }

  /** Whatever leaves the spool in a step is, after that step, in the database with its own contents. */
  lemma DeletionsAreCommitted(cfg: Config, o: Origin, start: World, events: seq<Event>, e: Event, x: Item)
    requires Start(cfg, o, start) && AllWithin(o, events) && EventWithin(o, e)
    requires HoldsItem(Run(cfg, start, events).entries, x)
    ensures
      var after := Step(cfg, Run(cfg, start, events), e);
      HoldsItem(after.entries, x) || HoldsContent(cfg.catalog, o.tables, after.tables, x)
  {
    hide Inv, Turned, Landed, HoldsContent, HoldsItem, Start;
    StartIsSound(cfg, o, start);
    var w := Run(cfg, start, events);
    RunKeepsInv(cfg, o, start, events);
    StepKeepsInv(cfg, o, w, e);
    InvBalanced(cfg, o, w);
    var after := Step(cfg, w, e);
    assert DropsOnlyCommitted(w, after) by {
      match e
      case Put(_) =>
      case Stop =>
      case Loop(t) =>
        TurnedDropsCommitted(cfg, o, w, t);
      case Lands(k) =>
        if k < |w.stragglers| {
          var rest := w.(stragglers := w.stragglers[..k] + w.stragglers[k + 1..]);
          BookkeepingKeepsInv(cfg, o, w, rest);
          assert w.stragglers[k] in w.stragglers;
          StragglerStillSound(o, w, rest, w.stragglers[k]);
          LandedDropsCommitted(cfg, o, rest, w.stragglers[k]);
        }
    }
    if x in after.ledger.log {
      LoggedInDatabase(cfg, o, after, x);
    }
  }

  lemma StartIsSound(cfg: Config, o: Origin, start: World)
    requires Start(cfg, o, start)
    ensures cfg.Valid() && IdDeterminesContent(o.universe)
  {
  }

  lemma TurnedDropsCommitted(cfg: Config, o: Origin, w: World, t: Turn)
    requires cfg.Valid() && IdDeterminesContent(o.universe) && Inv(cfg, o, w)
    ensures DropsOnlyCommitted(w, Turned(cfg, w, t))
  {
    hide Inv, Replayed, Consumed, FetchedDue, HoldsItem;
    var due := DueNow(cfg, w, t);
    if due != [] {
      FetchedMembers(w.entries, t.fetchAt, cfg.replayBatchSize);
      ReplayedDropsCommitted(cfg, o, w, t, due);
    } else {
      InvBalanced(cfg, o, w);
      ConsumedDropsNothing(cfg, FetchNoted(cfg, w, t), t);
    }
  }
}
