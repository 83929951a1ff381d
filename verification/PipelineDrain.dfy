/** Liveness of the writer's loop after a stop request: when it drains, and exactly what can keep it from draining. */
module PipelineDrain {

  import opened Results
  import opened Timestamps
  import opened Domain
  import opened Lists
  import opened Repository
  import opened Spool
  import opened Retry
  import opened Pipeline
  import opened PipelineSafety

  /** The loop turned `n` times. */
  function Turns(cfg: Config, w: World, ts: nat -> Turn, n: nat): World
    requires cfg.Valid()
  {
    if n == 0 then w else Turned(cfg, Turns(cfg, w, ts, n - 1), ts(n - 1))
  }

  /** Steps still owed: one to take an item and one to flush it. */
  function Work(w: World): nat {
    2 * |w.queue| + |w.pending|
  }

  // ---------------------------------------------------------------- one turn

  lemma PersistKeepsQueue(cfg: Config, w: World, batch: seq<Item>, faults: seq<Fault>)
    requires cfg.Valid()
    ensures
      var v := Persist(cfg, w, batch, faults, 0).0;
      v.queue == w.queue && v.pending == w.pending && v.stopping == w.stopping && v.entries == w.entries
  {
    hide Persist;
    PersistSaves(cfg, w, batch, faults, 0);
    SavedKeepsPending(cfg, w, Persist(cfg, w, batch, faults, 0).0, batch);
  }

  lemma FlushedEmptiesPending(cfg: Config, w: World, t: Turn)
    requires cfg.Valid()
    ensures
      var v := Flushed(cfg, w, t);
      v.pending == [] && v.queue == w.queue && v.stopping == w.stopping
  {
    hide Persist, Appended;
    PersistKeepsQueue(cfg, w, w.pending, t.saves);
  }

  lemma ReplayedKeepsQueue(cfg: Config, w: World, t: Turn, due: seq<Entry>)
    requires cfg.Valid()
    ensures
      var v := Replayed(cfg, w, t, due);
      v.pending == w.pending && v.queue == w.queue && v.stopping == w.stopping
  {
    hide Persist, MarkReplayed, MarkFailed;
    var saved := Persist(cfg, w, ItemsOf(due), t.saves, 0).0;
    PersistKeepsQueue(cfg, w, ItemsOf(due), t.saves);
    MarksKeepPending(cfg, saved, due, t.mark, t.markAt);
  }

  lemma ConsumedReducesWork(cfg: Config, w: World, t: Turn)
    requires cfg.Valid() && w.stopping && Work(w) > 0
    ensures Work(Consumed(cfg, w, t)) < Work(w) && Consumed(cfg, w, t).stopping
  {
    hide Flushed;
    FlushedEmptiesPending(cfg, w, t);
    if w.queue != [] {
      FlushedEmptiesPending(cfg, Taken(w), t);
    }
  }

  /** After a stop request a turn makes progress exactly when its replay step finds nothing due. */
  lemma TurnProgress(cfg: Config, w: World, t: Turn)
    requires cfg.Valid() && w.stopping && Work(w) > 0
    ensures Work(Turned(cfg, w, t)) < Work(w) <==> DueNow(cfg, w, t) == []
    ensures DueNow(cfg, w, t) != [] ==> Work(Turned(cfg, w, t)) == Work(w)
    ensures Turned(cfg, w, t).stopping
  {
    hide Replayed, Consumed, DueNow;
    var due := DueNow(cfg, w, t);
    if due != [] {
      ReplayedKeepsQueue(cfg, w, t, due);
    } else {
      ConsumedReducesWork(cfg, FetchNoted(cfg, w, t), t);
    }
  }

  // ---------------------------------------------------------------- draining before a deadline

  ghost predicate TakesEffect(f: Fault) {
    f.Completes? || f.CommitsThenFails?
  }

  /** Fetches happen by the deadline, and whatever a mark puts off, it puts off past the deadline. */
  ghost predicate ByDeadline(cfg: Config, t: Turn, deadline: Utc) {
    && Instant(t.fetchAt) <= Instant(deadline)
    && TakesEffect(t.mark)
    && Instant(t.markAt) + cfg.retryDelay < END_OF_TIME
    && Instant(deadline) < Instant(t.markAt) + cfg.retryDelay
  }

  lemma {:induction false} RemovedReducesDue(entries: seq<Entry>, ids: set<string>, deadline: Utc)
    ensures DueCount(Removed(entries, ids), deadline) <= DueCount(entries, deadline)
    ensures (exists e :: e in entries && e.Id() in ids && DueBy(deadline)(e)) ==>
              DueCount(Removed(entries, ids), deadline) < DueCount(entries, deadline)
  {
    if entries != [] {
      RemovedReducesDue(entries[1..], ids, deadline);
      assert entries == [entries[0]] + entries[1..];
      var rest := Removed(entries[1..], ids);
      if entries[0].Id() in ids {
        assert Removed(entries, ids) == rest;
      } else {
        assert Removed(entries, ids) == [entries[0]] + rest;
        assert ([entries[0]] + rest)[1..] == rest;
      }
    }
  }

  lemma ReplayedReducesDue(cfg: Config, w: World, t: Turn, due: seq<Entry>, deadline: Utc)
    requires cfg.Valid() && ByDeadline(cfg, t, deadline)
    requires due != [] && forall e :: e in due ==> e in w.entries && DueBy(deadline)(e)
    ensures DueCount(Replayed(cfg, w, t, due).entries, deadline) < DueCount(w.entries, deadline)
  {
    hide Persist, Removed, Deferred, DueCount, Later;
    PersistKeepsQueue(cfg, w, ItemsOf(due), t.saves);
    assert due[0] in due && due[0].Id() in IdsOf(due);
    RemovedReducesDue(w.entries, IdsOf(due), deadline);
    DeferReducesDue(w.entries, IdsOf(due), Later(t.markAt, cfg.retryDelay).value, deadline);
  }

  /** Whatever the database does, each turn before the deadline reduces the work or the entries still due. */
  lemma DeadlineTurnDecreases(cfg: Config, w: World, t: Turn, deadline: Utc)
    requires cfg.Valid() && w.stopping && Work(w) > 0 && ByDeadline(cfg, t, deadline)
    ensures
      var v := Turned(cfg, w, t);
      && v.stopping
      && (Work(v) < Work(w) || (Work(v) == Work(w) && DueCount(v.entries, deadline) < DueCount(w.entries, deadline)))
  {
    hide Replayed, Consumed, DueCount, FetchedDue;
    TurnProgress(cfg, w, t);
    var due := DueNow(cfg, w, t);
    if due != [] {
      FetchedMembers(w.entries, t.fetchAt, cfg.replayBatchSize);
      ReplayedReducesDue(cfg, w, t, due, deadline);
    }
  }

  // ---------------------------------------------------------------- one number that falls

  /** How many entries a late operation can still make due. */
  function Weight(s: Straggler): nat {
    match s
    case LateAppend(items, _) => |items|
    case LateDefer(ids, _) => |ids|
    case LateSave(_) => 0
    case LateDelete(_) => 0
  }

  function TotalWeight(ss: seq<Straggler>): nat {
    if ss == [] then 0 else TotalWeight(ss[..|ss| - 1]) + Weight(ss[|ss| - 1])
  }

  /**
   * Turns still owed before the drain is over. An item costs one turn to take and one to flush, and the
   * entry that its flush may leave in the spool one more to put off.
   */
  function Owed(w: World, deadline: Utc): nat {
    3 * |w.queue| + 2 * |w.pending| + DueCount(w.entries, deadline) + TotalWeight(w.stragglers)
  }

  lemma WeightNext(ss: seq<Straggler>, s: Straggler)
    ensures TotalWeight(ss + [s]) == TotalWeight(ss) + Weight(s)
  {
    assert (ss + [s])[..|ss|] == ss;
  }

  lemma {:induction false} WeightWithout(ss: seq<Straggler>, k: nat)
    requires k < |ss|
    ensures TotalWeight(ss) == TotalWeight(ss[..k] + ss[k + 1..]) + Weight(ss[k])
  {
    hide Weight;
    var n := |ss| - 1;
    if k == n {
      assert ss[..k] + ss[k + 1..] == ss[..n];
    } else {
      WeightWithout(ss[..n], k);
      assert ss[..n][..k] + ss[..n][k + 1..] == (ss[..k] + ss[k + 1..])[..n - 1];
    }
  }

  /** Saves that time out can only land in the database. */
  lemma {:induction false} PersistKeepsWeight(cfg: Config, w: World, batch: seq<Item>, faults: seq<Fault>, k: nat)
    requires k < cfg.maxAttempts
    ensures TotalWeight(Persist(cfg, w, batch, faults, k).0.stragglers) == TotalWeight(w.stragglers)
    decreases cfg.maxAttempts - k
  {
    hide TotalWeight, Storable, SaveAll, IsRetryable;
    var f := FaultAt(faults, k);
    WeightNext(w.stragglers, LateSave(batch));
    var after := Attempted(cfg, w, batch, f);
    var call := SaveCall(f, Storable(cfg.catalog, batch));
    if call.Threw? && IsRetryable(call.failure) && k + 1 < cfg.maxAttempts {
      PersistKeepsWeight(cfg, CountRetry(after), batch, faults, k + 1);
    }
  }

  lemma {:induction false} DueCountAppend(a: seq<Entry>, b: seq<Entry>, deadline: Utc)
    ensures DueCount(a + b, deadline) <= DueCount(a, deadline) + |b|
  {
    if a == [] {
      assert a + b == b;
      FilterMembers(DueBy(deadline), b);
    } else {
      DueCountAppend(a[1..], b, deadline);
      assert (a + b)[1..] == a[1..] + b;
    }
  }

  lemma AppendAddsDue(entries: seq<Entry>, capacity: nat, batch: seq<Item>, at: Utc, deadline: Utc)
    requires Appended(entries, capacity, batch, at).Ok?
    ensures DueCount(Appended(entries, capacity, batch, at).value, deadline) <= DueCount(entries, deadline) + |batch|
  {
    hide DueCount;
    var after := Appended(entries, capacity, batch, at).value;
    assert after == entries + after[|entries|..];
    assert |after[|entries|..]| <= |batch|;
    DueCountAppend(entries, after[|entries|..], deadline);
  }

  /** Putting entries off, to whatever time, makes at most the named ones due. */
  lemma {:induction false} DeferAddsDue(entries: seq<Entry>, ids: set<string>, at: Utc, deadline: Utc)
    requires DistinctEntries(entries)
    ensures DueCount(Deferred(entries, ids, at), deadline) <= DueCount(entries, deadline) + |ids|
  {
    if entries != [] {
      var id, rest := entries[0].Id(), entries[1..];
      assert forall i :: 0 <= i < |rest| ==> rest[i] == entries[i + 1] && rest[i].Id() != id;
      assert Deferred(entries, ids, at)[1..] == Deferred(rest, ids, at);
      if id in ids {
        assert Deferred(rest, ids, at) == Deferred(rest, ids - {id}, at);
        DeferAddsDue(rest, ids - {id}, at, deadline);
      } else {
        DeferAddsDue(rest, ids, at, deadline);
      }
    }
  }

  /** A flush owes less by the size of the batch. */
  lemma FlushedOwesLess(cfg: Config, w: World, t: Turn, deadline: Utc)
    requires cfg.Valid()
    ensures Owed(Flushed(cfg, w, t), deadline) + |w.pending| <= Owed(w, deadline)
  {
    hide Persist, Appended, DueCount, TotalWeight;
    if w.pending != [] {
      var saved := Persist(cfg, w, w.pending, t.saves, 0).0;
      PersistKeepsQueue(cfg, w, w.pending, t.saves);
      PersistKeepsWeight(cfg, w, w.pending, t.saves, 0);
      WeightNext(saved.stragglers, LateAppend(w.pending, t.appendAt));
      if Appended(saved.entries, cfg.spoolCapacity, w.pending, t.appendAt).Ok? {
        AppendAddsDue(saved.entries, cfg.spoolCapacity, w.pending, t.appendAt, deadline);
      }
    }
  }

  lemma ConsumedOwesLess(cfg: Config, w: World, t: Turn, deadline: Utc)
    requires cfg.Valid() && w.stopping && Work(w) > 0
    ensures Owed(Consumed(cfg, w, t), deadline) < Owed(w, deadline)
  {
    hide Flushed, DueCount, TotalWeight;
    FlushedOwesLess(cfg, w, t, deadline);
    if w.queue != [] {
      FlushedOwesLess(cfg, Taken(w), t, deadline);
    }
  }

  lemma ReplayedOwesLess(cfg: Config, w: World, t: Turn, due: seq<Entry>, deadline: Utc)
    requires cfg.Valid() && ByDeadline(cfg, t, deadline)
    requires due != [] && forall e :: e in due ==> e in w.entries && DueBy(deadline)(e)
    ensures Owed(Replayed(cfg, w, t, due), deadline) < Owed(w, deadline)
  {
    hide Persist, Removed, Deferred, DueCount, TotalWeight, Later;
    ReplayedKeepsQueue(cfg, w, t, due);
    ReplayedReducesDue(cfg, w, t, due, deadline);
    PersistKeepsWeight(cfg, w, ItemsOf(due), t.saves, 0);
  }

  /** Whatever the database does, each turn before the deadline leaves fewer turns owed. */
  lemma TurnOwesLess(cfg: Config, w: World, t: Turn, deadline: Utc)
    requires cfg.Valid() && w.stopping && Work(w) > 0 && ByDeadline(cfg, t, deadline)
    ensures Owed(Turned(cfg, w, t), deadline) < Owed(w, deadline)
  {
    hide Replayed, Consumed, DueCount, FetchedDue, TotalWeight;
    var due := DueNow(cfg, w, t);
    if due != [] {
      FetchedMembers(w.entries, t.fetchAt, cfg.replayBatchSize);
      ReplayedOwesLess(cfg, w, t, due, deadline);
    } else {
      ConsumedOwesLess(cfg, FetchNoted(cfg, w, t), t, deadline);
    }
  }

  /** An operation that takes effect late never adds to what is owed. */
  lemma LandedOwesNoMore(cfg: Config, w: World, s: Straggler, deadline: Utc)
    requires DistinctEntries(w.entries)
    ensures
      var v := Landed(cfg, w, s);
      && v.queue == w.queue && v.pending == w.pending && v.stopping == w.stopping && v.stragglers == w.stragglers
      && DistinctEntries(v.entries)
      && DueCount(v.entries, deadline) <= DueCount(w.entries, deadline) + Weight(s)
      && |v.entries| <= |w.entries| + Weight(s)
  {
    hide DueCount, Commit, Appended, Removed, Deferred, DistinctEntries;
    match s
    case LateSave(batch) =>
      CommitKeepsRest(cfg, w, batch);
    case LateAppend(items, at) =>
      if Appended(w.entries, cfg.spoolCapacity, items, at).Ok? {
        AppendedHoldsBatch(w.entries, cfg.spoolCapacity, items, at);
        AppendedGrowth(w.entries, cfg.spoolCapacity, items, at);
        AppendAddsDue(w.entries, cfg.spoolCapacity, items, at, deadline);
      }
    case LateDelete(ids) =>
      RemovedMembers(w.entries, ids);
      RemovedReducesDue(w.entries, ids, deadline);
    case LateDefer(ids, until) =>
      DeferredMembers(w.entries, ids, until);
      DeferAddsDue(w.entries, ids, until, deadline);
  }

  lemma CommitKeepsRest(cfg: Config, w: World, batch: seq<Item>)
    ensures Commit(cfg, w, batch) == w.(tables := Commit(cfg, w, batch).tables, ledger := Commit(cfg, w, batch).ledger)
  {
  }

  lemma AppendedGrowth(entries: seq<Entry>, capacity: nat, batch: seq<Item>, at: Utc)
    requires Appended(entries, capacity, batch, at).Ok?
    ensures |Appended(entries, capacity, batch, at).value| <= |entries| + |batch|
  {
  }

  // ---------------------------------------------------------------- draining with a healthy database

  ghost predicate HealthyTurn(t: Turn) {
    TakesEffect(t.mark) && forall k: nat :: FaultAt(t.saves, k).Completes?
  }

  /** No stored configuration gap can make a save of these items fail. */
  ghost predicate EntriesStorable(cfg: Config, w: World) {
    forall e :: e in w.entries ==> ItemStorable(cfg.catalog, e.item)
  }

  ghost predicate WaitingStorable(cfg: Config, w: World) {
    && (forall x :: x in w.queue ==> ItemStorable(cfg.catalog, x))
    && (forall x :: x in w.pending ==> ItemStorable(cfg.catalog, x))
  }

  lemma HealthyPersist(cfg: Config, w: World, batch: seq<Item>, t: Turn)
    requires cfg.Valid() && HealthyTurn(t) && Storable(cfg.catalog, batch)
    ensures Persist(cfg, w, batch, t.saves, 0).1
  {
    assert FaultAt(t.saves, 0).Completes?;
  }

  lemma HealthyFlush(cfg: Config, w: World, t: Turn)
    requires cfg.Valid() && HealthyTurn(t) && WaitingStorable(cfg, w)
    ensures Flushed(cfg, w, t).entries == w.entries
  {
    hide Persist, ItemStorable;
    if w.pending != [] {
      HealthyPersist(cfg, w, w.pending, t);
      PersistKeepsQueue(cfg, w, w.pending, t.saves);
    }
  }

  lemma HealthyConsumed(cfg: Config, w: World, t: Turn)
    requires cfg.Valid() && HealthyTurn(t) && w.stopping && Work(w) > 0 && WaitingStorable(cfg, w)
    ensures Consumed(cfg, w, t).entries == w.entries && WaitingStorable(cfg, Consumed(cfg, w, t))
  {
    hide Flushed, ItemStorable;
    HealthyFlush(cfg, w, t);
    FlushedEmptiesPending(cfg, w, t);
    if w.queue != [] {
      assert forall x :: x in w.queue[1..] ==> x in w.queue;
      HealthyFlush(cfg, Taken(w), t);
      FlushedEmptiesPending(cfg, Taken(w), t);
    }
  }

  lemma HealthyReplayed(cfg: Config, w: World, t: Turn, due: seq<Entry>)
    requires cfg.Valid() && HealthyTurn(t) && EntriesStorable(cfg, w)
    requires due != [] && forall e :: e in due ==> e in w.entries
    ensures
      var v := Replayed(cfg, w, t, due);
      EntriesStorable(cfg, v) && |v.entries| < |w.entries|
  {
    hide ItemStorable, Persist, Removed;
    ItemsOfMembers(due);
    HealthyPersist(cfg, w, ItemsOf(due), t);
    PersistKeepsQueue(cfg, w, ItemsOf(due), t.saves);
    assert due[0] in due && due[0].Id() in IdsOf(due);
    RemovedMembers(w.entries, IdsOf(due));
  }

  /** With a healthy database each turn reduces the work or the spool, whatever the clock does. */
  lemma HealthyTurnDecreases(cfg: Config, w: World, t: Turn)
    requires cfg.Valid() && w.stopping && Work(w) > 0
    requires HealthyTurn(t) && EntriesStorable(cfg, w) && WaitingStorable(cfg, w)
    ensures
      var v := Turned(cfg, w, t);
      && v.stopping && EntriesStorable(cfg, v) && WaitingStorable(cfg, v)
      && Work(v) <= Work(w) && |v.entries| <= |w.entries| && Work(v) + |v.entries| < Work(w) + |w.entries|
  {
    hide Consumed, Replayed, FetchedDue, ItemStorable;
    TurnProgress(cfg, w, t);
    var due := DueNow(cfg, w, t);
    if due != [] {
      FetchedMembers(w.entries, t.fetchAt, cfg.replayBatchSize);
      ReplayedKeepsQueue(cfg, w, t, due);
      HealthyReplayed(cfg, w, t, due);
    } else {
      HealthyConsumed(cfg, FetchNoted(cfg, w, t), t);
    }
  }

  // ---------------------------------------------------------------- whole drains

  lemma NoWorkNoGain(cfg: Config, w: World, t: Turn)
    requires cfg.Valid() && w.stopping && Work(w) == 0
    ensures Work(Turned(cfg, w, t)) == 0 && Turned(cfg, w, t).stopping
  {
    hide Replayed, Flushed;
    ReplayedKeepsQueue(cfg, w, t, DueNow(cfg, w, t));
    FlushedEmptiesPending(cfg, FetchNoted(cfg, w, t), t);
  }

  /** Until the drain is over, each turn by the deadline leaves one turn less owed. */
  lemma {:induction false} TurnsPayOff(cfg: Config, w: World, ts: nat -> Turn, deadline: Utc, n: nat)
    requires cfg.Valid() && w.stopping && forall i: nat :: i < n ==> ByDeadline(cfg, ts(i), deadline)
    ensures
      var v := Turns(cfg, w, ts, n);
      v.stopping && (Work(v) == 0 || Owed(v, deadline) + n <= Owed(w, deadline))
  {
    hide Turned, Owed, ByDeadline;
    if n > 0 {
      TurnsPayOff(cfg, w, ts, deadline, n - 1);
      var before := Turns(cfg, w, ts, n - 1);
      if Work(before) == 0 {
        NoWorkNoGain(cfg, before, ts(n - 1));
      } else {
        TurnProgress(cfg, before, ts(n - 1));
        TurnOwesLess(cfg, before, ts(n - 1), deadline);
      }
    }
  }

  /**
   * A stopping writer drains within the turns owed at the start, under arbitrary database failures, when
   * those turns fetch by the deadline and their spool marks take effect past it.
   */
  lemma DrainsByDeadline(cfg: Config, w: World, ts: nat -> Turn, deadline: Utc)
    requires cfg.Valid() && w.stopping
    requires forall i: nat :: i < Owed(w, deadline) ==> ByDeadline(cfg, ts(i), deadline)
    ensures Work(Turns(cfg, w, ts, Owed(w, deadline))) == 0
  {
    hide Turned, ByDeadline;
    TurnsPayOff(cfg, w, ts, deadline, Owed(w, deadline));
  }

  lemma OwedAtRest(w: World, deadline: Utc)
    requires w.stragglers == []
    ensures Owed(w, deadline) == 3 * |w.queue| + 2 * |w.pending| + |DuePositions(w.entries, deadline)|
  {
    DueCountExact(w.entries, deadline);
  }

  /** The bound in plain numbers: three turns per queued item, two per pending one, one per entry due by then. */
  lemma DrainsWithin(cfg: Config, w: World, ts: nat -> Turn, deadline: Utc, bound: nat)
    requires cfg.Valid() && w.stopping && w.stragglers == []
    requires bound == 3 * |w.queue| + 2 * |w.pending| + |DuePositions(w.entries, deadline)|
    requires forall i: nat :: i < bound ==> ByDeadline(cfg, ts(i), deadline)
    ensures Turns(cfg, w, ts, bound).queue == [] && Turns(cfg, w, ts, bound).pending == []
  {
    hide Turns, ByDeadline, Owed, DuePositions;
    OwedAtRest(w, deadline);
    DrainsByDeadline(cfg, w, ts, deadline);
  }

  function LoopCount(events: seq<Event>): nat {
    if events == [] then 0 else LoopCount(events[..|events| - 1]) + if events[|events| - 1].Loop? then 1 else 0
  }

  /** No puts any more; timed-out operations may take effect between turns. */
  ghost predicate DrainEvent(cfg: Config, e: Event, deadline: Utc) {
    e.Lands? || (e.Loop? && ByDeadline(cfg, e.turn, deadline))
  }

  lemma TurnKeepsDistinct(cfg: Config, w: World, t: Turn)
    requires cfg.Valid() && DistinctEntries(w.entries)
    ensures DistinctEntries(Turned(cfg, w, t).entries)
  {
    hide Replayed, Consumed, DueNow, DistinctEntries;
    var noted := FetchNoted(cfg, w, t);
    ReplayKeepsDistinct(cfg, w, t, DueNow(cfg, w, t));
    ConsumeKeepsDistinct(cfg, noted, t);
  }

  lemma ReplayKeepsDistinct(cfg: Config, w: World, t: Turn, due: seq<Entry>)
    requires cfg.Valid() && DistinctEntries(w.entries)
    ensures DistinctEntries(Replayed(cfg, w, t, due).entries)
  {
    hide Persist, Removed, Deferred, Later, DistinctEntries;
    PersistKeepsQueue(cfg, w, ItemsOf(due), t.saves);
    RemovedMembers(w.entries, IdsOf(due));
    if Later(t.markAt, cfg.retryDelay).Ok? {
      DeferredMembers(w.entries, IdsOf(due), Later(t.markAt, cfg.retryDelay).value);
    }
  }

  lemma FlushKeepsDistinct(cfg: Config, w: World, t: Turn)
    requires cfg.Valid() && DistinctEntries(w.entries)
    ensures DistinctEntries(Flushed(cfg, w, t).entries)
  {
    hide Persist, Appended, DistinctEntries;
    PersistKeepsQueue(cfg, w, w.pending, t.saves);
    if Appended(w.entries, cfg.spoolCapacity, w.pending, t.appendAt).Ok? {
      AppendedHoldsBatch(w.entries, cfg.spoolCapacity, w.pending, t.appendAt);
    }
  }

  lemma ConsumeKeepsDistinct(cfg: Config, w: World, t: Turn)
    requires cfg.Valid() && DistinctEntries(w.entries)
    ensures DistinctEntries(Consumed(cfg, w, t).entries)
  {
    hide Flushed, DistinctEntries;
    FlushKeepsDistinct(cfg, w, t);
    var ready := if w.queue == [] && t.arrival.Some? then Arrived(w, t.arrival.value) else w;
    FlushKeepsDistinct(cfg, ready, t);
    if ready.queue != [] {
      FlushKeepsDistinct(cfg, Taken(ready), t);
    }
  }

  lemma LandsOwesNoMore(cfg: Config, w: World, k: nat, deadline: Utc)
    requires cfg.Valid() && DistinctEntries(w.entries)
    ensures
      var v := Step(cfg, w, Lands(k));
      && Work(v) == Work(w) && v.stopping == w.stopping && DistinctEntries(v.entries)
      && Owed(v, deadline) <= Owed(w, deadline)
      && |v.entries| + TotalWeight(v.stragglers) <= |w.entries| + TotalWeight(w.stragglers)
  {
    hide Landed, DueCount, TotalWeight, Weight, DistinctEntries;
    if k < |w.stragglers| {
      WeightWithout(w.stragglers, k);
      LandedOwesNoMore(cfg, w.(stragglers := w.stragglers[..k] + w.stragglers[k + 1..]), w.stragglers[k], deadline);
    }
  }

  /**
   * The same when timed-out operations take effect anywhere between the turns: however the landings fall,
   * as many turns as are owed at the start are enough.
   */
  lemma DrainsWithLandings(cfg: Config, w: World, events: seq<Event>, deadline: Utc)
    requires cfg.Valid() && w.stopping && DistinctEntries(w.entries)
    requires forall i :: 0 <= i < |events| ==> DrainEvent(cfg, events[i], deadline)
    requires LoopCount(events) >= Owed(w, deadline)
    ensures Work(Run(cfg, w, events)) == 0
  {
    hide Step;
    EventsPayOff(cfg, w, events, deadline);
  }

  lemma {:induction false} EventsPayOff(cfg: Config, w: World, events: seq<Event>, deadline: Utc)
    requires cfg.Valid() && w.stopping && DistinctEntries(w.entries)
    requires forall i :: 0 <= i < |events| ==> DrainEvent(cfg, events[i], deadline)
    ensures
      var v := Run(cfg, w, events);
      && v.stopping && DistinctEntries(v.entries)
      && (Work(v) == 0 || Owed(v, deadline) + LoopCount(events) <= Owed(w, deadline))
  {
    hide Owed, ByDeadline, DistinctEntries, Step;
    if events != [] {
      var front, last := events[..|events| - 1], events[|events| - 1];
      EventsPayOff(cfg, w, front, deadline);
      EventPaysOff(cfg, Run(cfg, w, front), last, deadline);
    }
  }

  lemma EventPaysOff(cfg: Config, w: World, e: Event, deadline: Utc)
    requires cfg.Valid() && w.stopping && DistinctEntries(w.entries) && DrainEvent(cfg, e, deadline)
    ensures
      var v := Step(cfg, w, e);
      && v.stopping && DistinctEntries(v.entries)
      && (Work(w) == 0 ==> Work(v) == 0)
      && (Work(v) == 0 || Owed(v, deadline) + (if e.Loop? then 1 else 0) <= Owed(w, deadline))
  {
    hide Owed, ByDeadline, DistinctEntries, Turned;
    match e
    case Lands(k) =>
      LandsOwesNoMore(cfg, w, k, deadline);
    case Loop(t) =>
      TurnKeepsDistinct(cfg, w, t);
      if Work(w) == 0 {
        NoWorkNoGain(cfg, w, t);
      } else {
        TurnProgress(cfg, w, t);
        TurnOwesLess(cfg, w, t, deadline);
      }
    case Put(_) =>
    case Stop =>
  }

  /** Items of an append that may still land can be saved. */
  ghost predicate LateStorable(cfg: Config, w: World) {
    forall s :: s in w.stragglers && s.LateAppend? ==> forall x :: x in s.items ==> ItemStorable(cfg.catalog, x)
  }

  ghost predicate AllStorable(cfg: Config, w: World) {
    EntriesStorable(cfg, w) && WaitingStorable(cfg, w) && LateStorable(cfg, w)
  }

  ghost predicate HealthyEvent(e: Event) {
    e.Lands? || (e.Loop? && HealthyTurn(e.turn))
  }

  function OwedWhenHealthy(w: World): nat {
    Work(w) + |w.entries| + TotalWeight(w.stragglers)
  }

  lemma HealthyKeepsStragglers(cfg: Config, w: World, t: Turn)
    requires cfg.Valid() && w.stopping && HealthyTurn(t) && EntriesStorable(cfg, w) && WaitingStorable(cfg, w)
    ensures Turned(cfg, w, t).stragglers == w.stragglers
  {
    hide FetchedDue, ItemStorable, Removed, SaveAll, Appended, Deferred, Storable;
    assert FaultAt(t.saves, 0).Completes?;
    FetchedMembers(w.entries, t.fetchAt, cfg.replayBatchSize);
    var due := DueNow(cfg, w, t);
    ItemsOfMembers(due);
    BatchStorable(cfg, ItemsOf(due));
    BatchStorable(cfg, w.pending);
    if w.queue != [] {
      BatchStorable(cfg, Taken(w).pending);
    }
  }

  lemma BatchStorable(cfg: Config, batch: seq<Item>)
    requires forall x :: x in batch ==> ItemStorable(cfg.catalog, x)
    ensures Storable(cfg.catalog, batch)
  {
    hide ItemStorable;
  }

  lemma LandsKeepsStorable(cfg: Config, w: World, k: nat)
    requires cfg.Valid() && DistinctEntries(w.entries) && AllStorable(cfg, w)
    ensures AllStorable(cfg, Step(cfg, w, Lands(k)))
  {
    hide ItemStorable, Appended, Removed, Deferred, Commit, DistinctEntries;
    if k < |w.stragglers| {
      var s := w.stragglers[k];
      assert s in w.stragglers;
      var rest := w.(stragglers := w.stragglers[..k] + w.stragglers[k + 1..]);
      assert forall x :: x in rest.stragglers ==> x in w.stragglers;
      match s
      case LateSave(batch) =>
        CommitKeepsRest(cfg, rest, batch);
      case LateAppend(items, at) =>
        if Appended(w.entries, cfg.spoolCapacity, items, at).Ok? {
          AppendedHoldsBatch(w.entries, cfg.spoolCapacity, items, at);
        }
      case LateDelete(ids) =>
        RemovedMembers(w.entries, ids);
      case LateDefer(ids, until) =>
        DeferredMembers(w.entries, ids, until);
        var v := Landed(cfg, rest, s);
        forall e | e in v.entries
          ensures ItemStorable(cfg.catalog, e.item)
        {
          assert HoldsItem(v.entries, e.item);
        }
    }
  }

  lemma HealthyEventPaysOff(cfg: Config, w: World, e: Event)
    requires cfg.Valid() && w.stopping && DistinctEntries(w.entries) && HealthyEvent(e)
    requires Work(w) == 0 || AllStorable(cfg, w)
    ensures
      var v := Step(cfg, w, e);
      && v.stopping && DistinctEntries(v.entries)
      && (Work(w) == 0 ==> Work(v) == 0)
      && (Work(v) == 0 ||
          (AllStorable(cfg, v) && OwedWhenHealthy(v) + (if e.Loop? then 1 else 0) <= OwedWhenHealthy(w)))
  {
    hide HealthyTurn, DistinctEntries, Turned, EntriesStorable, WaitingStorable, TotalWeight, Landed;
    match e
    case Lands(k) =>
      LandsOwesNoMore(cfg, w, k, EPOCH);
      if Work(w) > 0 {
        LandsKeepsStorable(cfg, w, k);
      }
    case Loop(t) =>
      TurnKeepsDistinct(cfg, w, t);
      if Work(w) == 0 {
        NoWorkNoGain(cfg, w, t);
      } else {
        HealthyTurnDecreases(cfg, w, t);
        HealthyKeepsStragglers(cfg, w, t);
      }
    case Put(_) =>
    case Stop =>
  }

  lemma {:induction false} HealthyEventsPayOff(cfg: Config, w: World, events: seq<Event>)
    requires cfg.Valid() && w.stopping && DistinctEntries(w.entries) && AllStorable(cfg, w)
    requires forall i :: 0 <= i < |events| ==> HealthyEvent(events[i])
    ensures
      var v := Run(cfg, w, events);
      && v.stopping && DistinctEntries(v.entries)
      && (Work(v) == 0 || (AllStorable(cfg, v) && OwedWhenHealthy(v) + LoopCount(events) <= OwedWhenHealthy(w)))
  {
    hide HealthyEvent, DistinctEntries, Step, AllStorable, Work, OwedWhenHealthy;
    if events != [] {
      var front := events[..|events| - 1];
      HealthyEventsPayOff(cfg, w, front);
      HealthyEventPaysOff(cfg, Run(cfg, w, front), events[|events| - 1]);
    }
  }

  /**
   * With a healthy database a stopping writer drains within as many turns as there are steps of work and
   * entries, counting those that late appends may still add; the clock may do what it likes.
   */
  lemma DrainsWhenHealthy(cfg: Config, w: World, events: seq<Event>)
    requires cfg.Valid() && w.stopping && DistinctEntries(w.entries) && AllStorable(cfg, w)
    requires forall i :: 0 <= i < |events| ==> HealthyEvent(events[i])
    requires LoopCount(events) >= OwedWhenHealthy(w)
    ensures Work(Run(cfg, w, events)) == 0
  {
    hide HealthyEvent, DistinctEntries, Step, AllStorable;
    HealthyEventsPayOff(cfg, w, events);
  }

  // ---------------------------------------------------------------- starvation

  /** Each of the first `n` turns finds something due to replay. */
  ghost predicate AlwaysReplaying(cfg: Config, w: World, ts: nat -> Turn, n: nat)
    requires cfg.Valid()
  {
    forall i: nat :: i < n ==> DueNow(cfg, Turns(cfg, w, ts, i), ts(i)) != []
  }

  lemma AlwaysReplayingNext(cfg: Config, w: World, ts: nat -> Turn, n: nat)
    requires cfg.Valid()
    ensures AlwaysReplaying(cfg, w, ts, n + 1) <==>
            AlwaysReplaying(cfg, w, ts, n) && DueNow(cfg, Turns(cfg, w, ts, n), ts(n)) != []
  {
    hide Turns, DueNow;
  }

  /** A stopping writer makes no progress in `n` turns exactly when every one of them finds something due to replay. */
  lemma {:induction false} StarvationExact(cfg: Config, w: World, ts: nat -> Turn, n: nat)
    requires cfg.Valid() && w.stopping && Work(w) > 0
    ensures Turns(cfg, w, ts, n).stopping && Work(Turns(cfg, w, ts, n)) <= Work(w)
    ensures Work(Turns(cfg, w, ts, n)) == Work(w) <==> AlwaysReplaying(cfg, w, ts, n)
  {
    hide Turned, DueNow, AlwaysReplaying;
    if n == 0 {
      NoTurnsYet(cfg, w, ts);
    } else {
      StarvationExact(cfg, w, ts, n - 1);
      AlwaysReplayingNext(cfg, w, ts, n - 1);
      var before := Turns(cfg, w, ts, n - 1);
      if Work(before) > 0 {
        TurnProgress(cfg, before, ts(n - 1));
      } else {
        NoWorkNoGain(cfg, before, ts(n - 1));
      }
    }
  }

  lemma NoTurnsYet(cfg: Config, w: World, ts: nat -> Turn)
    requires cfg.Valid()
    ensures AlwaysReplaying(cfg, w, ts, 0)
  {
  }
}
