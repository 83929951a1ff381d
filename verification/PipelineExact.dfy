/** Exactly which settings and clocks make a stopping writer sure to drain, and runs that never do. */
module PipelineExact {

  import opened Results
  import opened Timestamps
  import opened Domain
  import opened Lists
  import opened Repository
  import opened Spool
  import opened Retry
  import opened Pipeline
  import opened PipelineDrain

  // ---------------------------------------------------------------- starvation during an outage

  /** The spool works and the database refuses every save. */
  ghost predicate Outage(cfg: Config, t: Turn) {
    && t.fetch.Completes? && t.mark.Completes?
    && forall k: nat :: k < cfg.maxAttempts ==> FaultAt(t.saves, k).Fails?
  }

  lemma {:induction false} OutagePersist(cfg: Config, w: World, batch: seq<Item>, t: Turn, k: nat)
    requires cfg.Valid() && Outage(cfg, t) && k < cfg.maxAttempts
    ensures !Persist(cfg, w, batch, t.saves, k).1
    decreases cfg.maxAttempts - k
  {
    var f := FaultAt(t.saves, k);
    assert f.Fails?;
    if IsRetryable(f.failure) && k + 1 < cfg.maxAttempts {
      OutagePersist(cfg, CountRetry(w), batch, t, k + 1);
    }
  }

  /** What was due is due again later, also when it was put off to a time that has come by then. */
  lemma {:induction false} DeferStaysDue(entries: seq<Entry>, ids: set<string>, at: Utc, seen: Utc, next: Utc)
    requires Instant(at) <= Instant(next) && Instant(seen) <= Instant(next)
    ensures DueCount(Deferred(entries, ids, at), next) >= DueCount(entries, seen)
    ensures DueCount(entries, next) >= DueCount(entries, seen)
  {
    if entries != [] {
      DeferStaysDue(entries[1..], ids, at, seen, next);
      assert Deferred(entries, ids, at)[1..] == Deferred(entries[1..], ids, at);
    }
  }

  /** By the fetch at `next`, whatever this turn puts off is due again. */
  ghost predicate Outpaces(cfg: Config, t: Turn, next: Utc) {
    && Outage(cfg, t) && Instant(t.fetchAt) <= Instant(next)
    && (Instant(t.markAt) + cfg.retryDelay < END_OF_TIME ==> Instant(t.markAt) + cfg.retryDelay <= Instant(next))
  }

  ghost predicate Outpaced(cfg: Config, ts: nat -> Turn, n: nat) {
    forall i: nat :: i < n ==> Outpaces(cfg, ts(i), ts(i + 1).fetchAt)
  }

  lemma OutpacedTurn(cfg: Config, w: World, t: Turn, next: Utc)
    requires cfg.Valid() && cfg.hasSpool && Outpaces(cfg, t, next)
    requires w.pending == [] && DueCount(w.entries, t.fetchAt) > 0
    ensures
      var v := Turned(cfg, w, t);
      v.queue == w.queue && v.pending == [] && v.stopping == w.stopping && DueCount(v.entries, next) > 0
  {
    hide Persist, Deferred, DueCount, FetchedDue, Later;
    FetchedMembers(w.entries, t.fetchAt, cfg.replayBatchSize);
    var due := DueNow(cfg, w, t);
    OutagePersist(cfg, w, ItemsOf(due), t, 0);
    PersistKeepsQueue(cfg, w, ItemsOf(due), t.saves);
    var until := Later(t.markAt, cfg.retryDelay);
    DeferStaysDue(w.entries, IdsOf(due), if until.Ok? then until.value else next, t.fetchAt, next);
  }

  /**
   * With any replay delay: as long as an outage lasts in which each turn's fetch comes after what the turn
   * before has put off is due again, replaying goes on and the queue is never touched.
   */
  lemma {:induction false} OutpacedStarves(cfg: Config, w: World, ts: nat -> Turn, n: nat)
    requires cfg.Valid() && cfg.hasSpool && Outpaced(cfg, ts, n)
    requires w.pending == [] && DueCount(w.entries, ts(0).fetchAt) > 0
    ensures
      var v := Turns(cfg, w, ts, n);
      && v.queue == w.queue && v.pending == [] && v.stopping == w.stopping
      && DueCount(v.entries, ts(n).fetchAt) > 0
  {
    hide Turned, DueCount, Outpaces;
    if n > 0 {
      assert Outpaced(cfg, ts, n - 1);
      OutpacedStarves(cfg, w, ts, n - 1);
      assert Outpaces(cfg, ts(n - 1), ts(n - 1 + 1).fetchAt);
      OutpacedTurn(cfg, Turns(cfg, w, ts, n - 1), ts(n - 1), ts(n).fetchAt);
    }
  }

  /** One entry left by an earlier process, one item queued, then a stop request. */
  function PutAndStop(cfg: Config, tables: Tables, spooled: Item, at: Utc, item: Item): World
    requires cfg.Valid()
  {
    Run(cfg, Initial([], tables, [Entry(spooled, 0, at, at)]), [Put(item), Stop])
  }

  lemma PutAndStopState(cfg: Config, tables: Tables, spooled: Item, at: Utc, item: Item)
    requires cfg.Valid()
    ensures
      var w := PutAndStop(cfg, tables, spooled, at, item);
      && w.stopping && w.queue == [item] && w.pending == [] && w.entries == [Entry(spooled, 0, at, at)]
      && DueCount(w.entries, at) > 0 && DistinctEntries(w.entries)
  {
    var start := Initial([], tables, [Entry(spooled, 0, at, at)]);
    var events := [Put(item), Stop];
    assert events[..1] == [Put(item)] && [Put(item)][..0] == [];
    assert Run(cfg, start, [Put(item)]) == Step(cfg, start, Put(item));
    assert Run(cfg, start, events) == Step(cfg, Step(cfg, start, Put(item)), Stop);
    assert start.entries[1..] == [];
    assert Filter(DueBy(at), start.entries) == [start.entries[0]] + Filter(DueBy(at), []);
  }

  /** The queued item stays queued for as long as the outage outpaces the delay. */
  lemma StarvedRun(cfg: Config, tables: Tables, spooled: Item, item: Item, ts: nat -> Turn, n: nat)
    requires cfg.Valid() && cfg.hasSpool && Outpaced(cfg, ts, n)
    ensures Turns(cfg, PutAndStop(cfg, tables, spooled, ts(0).fetchAt, item), ts, n).queue == [item]
  {
    hide Turns, Outpaced, PutAndStop, DueCount;
    PutAndStopState(cfg, tables, spooled, ts(0).fetchAt, item);
    OutpacedStarves(cfg, PutAndStop(cfg, tables, spooled, ts(0).fetchAt, item), ts, n);
  }

  // ---------------------------------------------------------------- what a drain is

  ghost predicate Drains(cfg: Config, w: World, ts: nat -> Turn)
    requires cfg.Valid()
  {
    exists n: nat :: Work(Turns(cfg, w, ts, n)) == 0
  }

  /** With every turn outpaced the drain never comes. */
  lemma OutpacedNeverDrains(cfg: Config, tables: Tables, spooled: Item, item: Item, ts: nat -> Turn)
    requires cfg.Valid() && cfg.hasSpool && forall i: nat :: Outpaces(cfg, ts(i), ts(i + 1).fetchAt)
    ensures !Drains(cfg, PutAndStop(cfg, tables, spooled, ts(0).fetchAt, item), ts)
  {
    hide Turns, PutAndStop, Outpaces;
    var w := PutAndStop(cfg, tables, spooled, ts(0).fetchAt, item);
    forall n: nat
      ensures Work(Turns(cfg, w, ts, n)) > 0
    {
      StarvedRun(cfg, tables, spooled, item, ts, n);
    }
  }

  lemma SpoollessDrains(cfg: Config, w: World, ts: nat -> Turn)
    requires cfg.Valid() && w.stopping && !cfg.hasSpool
    ensures Drains(cfg, w, ts)
  {
    hide Turns;
    SpoollessPaysOff(cfg, w, ts, Work(w));
  }

  lemma {:induction false} SpoollessPaysOff(cfg: Config, w: World, ts: nat -> Turn, n: nat)
    requires cfg.Valid() && w.stopping && !cfg.hasSpool
    ensures
      var v := Turns(cfg, w, ts, n);
      v.stopping && (Work(v) == 0 || Work(v) + n <= Work(w))
  {
    hide Turned;
    if n > 0 {
      SpoollessPaysOff(cfg, w, ts, n - 1);
      var before := Turns(cfg, w, ts, n - 1);
      if Work(before) == 0 {
        NoWorkNoGain(cfg, before, ts(n - 1));
      } else {
        TurnProgress(cfg, before, ts(n - 1));
      }
    }
  }

  /** A schedule that repeats one turn of an outage. */
  lemma OutageTurns(cfg: Config, fetchAt: Utc, markAt: Utc) returns (ts: nat -> Turn)
    ensures forall i: nat :: Outage(cfg, ts(i)) && ts(i).fetchAt == fetchAt && ts(i).markAt == markAt
  {
    var saves := seq(cfg.maxAttempts, (k: nat) => Fails(StorageFailure));
    var t := Turn(Completes, fetchAt, saves, Completes, fetchAt, Completes, markAt, None);
    assert forall k: nat :: k < cfg.maxAttempts ==> FaultAt(saves, k).Fails?;
    ts := (i: nat) => t;
    assert Outage(cfg, t);
  }

  function SomeItem(): Item {
    WorkerPollResult(PollExecution("e", "c", "g", Running, EPOCH, None, 0, 0, 0, None), [])
  }

  // ---------------------------------------------------------------- exact, for any clock within a window

  /** Fetch and mark are made between `lo` and `hi`, in either order, and the mark takes effect. */
  ghost predicate InWindow(t: Turn, lo: Utc, hi: Utc) {
    && Instant(lo) <= Instant(t.fetchAt) <= Instant(hi)
    && Instant(lo) <= Instant(t.markAt) <= Instant(hi)
    && TakesEffect(t.mark)
  }

  ghost predicate AllInWindow(ts: nat -> Turn, lo: Utc, hi: Utc) {
    forall i: nat :: InWindow(ts(i), lo, hi)
  }

  /** From every stopping state, and whatever else happens in the turns. */
  ghost predicate AlwaysDrainsIn(cfg: Config, lo: Utc, hi: Utc)
    requires cfg.Valid()
  {
    forall w: World, ts: nat -> Turn :: w.stopping && AllInWindow(ts, lo, hi) ==> Drains(cfg, w, ts)
  }

  /** From every state in which a run of a new writer can be when it is stopping. */
  ghost predicate RunsDrainIn(cfg: Config, lo: Utc, hi: Utc)
    requires cfg.Valid()
  {
    forall tables: Tables, entries: seq<Entry>, events: seq<Event>, ts: nat -> Turn ::
      Run(cfg, Initial([], tables, entries), events).stopping && AllInWindow(ts, lo, hi)
      ==> Drains(cfg, Run(cfg, Initial([], tables, entries), events), ts)
  }

  /** The delay leads from anywhere in the window to a timestamp past it. */
  predicate Outlasts(cfg: Config, lo: Utc, hi: Utc) {
    Instant(hi) + cfg.retryDelay < END_OF_TIME && Instant(hi) < Instant(lo) + cfg.retryDelay
  }

  /**
   * While the clock stays in a window, a stopping writer is sure to drain exactly when it has no spool or its
   * replay delay outlasts the window. In every other configuration some run of a new writer never drains.
   */
  lemma DrainExactIn(cfg: Config, lo: Utc, hi: Utc)
    requires cfg.Valid() && Instant(lo) <= Instant(hi)
    ensures AlwaysDrainsIn(cfg, lo, hi) <==>
              || !cfg.hasSpool
              || (Instant(hi) < Instant(lo) + cfg.retryDelay && Instant(hi) + cfg.retryDelay < END_OF_TIME)
    ensures RunsDrainIn(cfg, lo, hi) <==> AlwaysDrainsIn(cfg, lo, hi)
  {
    hide Drains, AllInWindow, Turns, Run, Initial;
    if !cfg.hasSpool || Outlasts(cfg, lo, hi) {
      forall w: World, ts: nat -> Turn | w.stopping && AllInWindow(ts, lo, hi)
        ensures Drains(cfg, w, ts)
      {
        SureToDrain(cfg, w, ts, lo, hi);
      }
    } else {
      var ts := StarvingInWindow(cfg, lo, hi);
      var start, item := Tables(map[], map[]), SomeItem();
      OutpacedNeverDrains(cfg, start, item, item, ts);
      PutAndStopState(cfg, start, item, hi, item);
      assert !Drains(cfg, Run(cfg, Initial([], start, [Entry(item, 0, hi, hi)]), [Put(item), Stop]), ts);
    }
  }

  lemma SureToDrain(cfg: Config, w: World, ts: nat -> Turn, lo: Utc, hi: Utc)
    requires cfg.Valid() && w.stopping && AllInWindow(ts, lo, hi) && (!cfg.hasSpool || Outlasts(cfg, lo, hi))
    ensures Drains(cfg, w, ts)
  {
    hide Turns, Owed;
    if cfg.hasSpool {
      forall i: nat
        ensures ByDeadline(cfg, ts(i), hi)
      {
        assert InWindow(ts(i), lo, hi);
      }
      DrainsByDeadline(cfg, w, ts, hi);
    } else {
      SpoollessDrains(cfg, w, ts);
    }
  }

  /** Fetches at the end of the window, and marks where their delay is over by then or overflows. */
  lemma StarvingInWindow(cfg: Config, lo: Utc, hi: Utc) returns (ts: nat -> Turn)
    requires cfg.Valid() && Instant(lo) <= Instant(hi) && !Outlasts(cfg, lo, hi)
    ensures AllInWindow(ts, lo, hi) && ts(0).fetchAt == hi
    ensures forall i: nat :: Outpaces(cfg, ts(i), ts(i + 1).fetchAt)
  {
    ts := OutageTurns(cfg, hi, if Instant(hi) + cfg.retryDelay >= END_OF_TIME then hi else lo);
    forall i: nat
      ensures InWindow(ts(i), lo, hi) && Outpaces(cfg, ts(i), ts(i + 1).fetchAt)
    {
      assert Outage(cfg, ts(i)) && ts(i + 1).fetchAt == hi;
    }
  }

  /** The case of a clock that stands still. */
  lemma DrainExact(cfg: Config, now: Utc)
    requires cfg.Valid()
    ensures AlwaysDrainsIn(cfg, now, now) <==>
              !cfg.hasSpool || (cfg.retryDelay > 0 && Instant(now) + cfg.retryDelay < END_OF_TIME)
  {
    hide AlwaysDrainsIn, RunsDrainIn;
    DrainExactIn(cfg, now, now);
  }

  // ---------------------------------------------------------------- exact, for a clock that does not go back in a turn

  /** The clock does not go back between the fetch and the mark of a replay, and reads at most `hi`. */
  ghost predicate Steady(t: Turn, hi: Utc) {
    Instant(t.fetchAt) <= Instant(t.markAt) <= Instant(hi) && TakesEffect(t.mark)
  }

  ghost predicate AllSteady(ts: nat -> Turn, hi: Utc) {
    forall i: nat :: Steady(ts(i), hi)
  }

  ghost predicate AlwaysDrainsSteadily(cfg: Config, hi: Utc)
    requires cfg.Valid()
  {
    forall w: World, ts: nat -> Turn ::
      w.stopping && DistinctEntries(w.entries) && AllSteady(ts, hi) ==> Drains(cfg, w, ts)
  }

  /** Microseconds for which an entry can still be due. */
  function Room(e: Entry, hi: Utc): nat {
    if Instant(e.nextRetryAt) <= Instant(hi) then Instant(hi) + 1 - Instant(e.nextRetryAt) else 0
  }

  function TotalRoom(entries: seq<Entry>, hi: Utc): nat {
    if entries == [] then 0 else Room(entries[0], hi) + TotalRoom(entries[1..], hi)
  }

  lemma {:induction false} RemovedReducesRoom(entries: seq<Entry>, ids: set<string>, hi: Utc)
    ensures TotalRoom(Removed(entries, ids), hi) <= TotalRoom(entries, hi)
    ensures (exists e :: e in entries && e.Id() in ids && Room(e, hi) > 0) ==>
              TotalRoom(Removed(entries, ids), hi) < TotalRoom(entries, hi)
  {
    hide Room;
    if entries != [] {
      RemovedReducesRoom(entries[1..], ids, hi);
      assert entries == [entries[0]] + entries[1..];
      var rest := Removed(entries[1..], ids);
      if entries[0].Id() in ids {
        assert Removed(entries, ids) == rest;
      } else {
        assert Removed(entries, ids) == [entries[0]] + rest;
        assert ([entries[0]] + rest)[1..] == rest;
      }
    }
  }

  lemma {:induction false} DeferReducesRoom(entries: seq<Entry>, ids: set<string>, at: Utc, hi: Utc)
    requires forall e :: e in entries && e.Id() in ids ==> Instant(e.nextRetryAt) < Instant(at)
    ensures TotalRoom(Deferred(entries, ids, at), hi) <= TotalRoom(entries, hi)
    ensures (exists e :: e in entries && e.Id() in ids && Room(e, hi) > 0) ==>
              TotalRoom(Deferred(entries, ids, at), hi) < TotalRoom(entries, hi)
  {
    if entries != [] {
      assert entries == [entries[0]] + entries[1..];
      DeferReducesRoom(entries[1..], ids, at, hi);
      assert Deferred(entries, ids, at)[1..] == Deferred(entries[1..], ids, at);
    }
  }

  lemma NamedAreDue(entries: seq<Entry>, due: seq<Entry>, e: Entry)
    requires DistinctEntries(entries) && forall d :: d in due ==> d in entries
    requires e in entries && e.Id() in IdsOf(due)
    ensures e in due
  {
    var d :| d in due && d.Id() == e.Id();
    var i :| 0 <= i < |entries| && entries[i] == d;
    var j :| 0 <= j < |entries| && entries[j] == e;
    assert i == j;
  }

  /** Every replay takes from the time for which entries can still be due. */
  lemma ReplayedReducesRoom(cfg: Config, w: World, t: Turn, due: seq<Entry>, hi: Utc)
    requires cfg.Valid() && DistinctEntries(w.entries) && Steady(t, hi)
    requires cfg.retryDelay > 0 && Instant(hi) + cfg.retryDelay < END_OF_TIME
    requires due != [] && forall e :: e in due ==> e in w.entries && DueBy(t.fetchAt)(e)
    ensures TotalRoom(Replayed(cfg, w, t, due).entries, hi) < TotalRoom(w.entries, hi)
  {
    hide Persist, Removed, Deferred, TotalRoom, DistinctEntries, IdsOf, Later, Instant, DueBy;
    PersistKeepsQueue(cfg, w, ItemsOf(due), t.saves);
    MarksReduceRoom(cfg, w.entries, t, due, hi);
  }

  lemma MarksReduceRoom(cfg: Config, entries: seq<Entry>, t: Turn, due: seq<Entry>, hi: Utc)
    requires DistinctEntries(entries) && Steady(t, hi)
    requires cfg.retryDelay > 0 && Instant(hi) + cfg.retryDelay < END_OF_TIME
    requires due != [] && forall e :: e in due ==> e in entries && DueBy(t.fetchAt)(e)
    ensures TotalRoom(Removed(entries, IdsOf(due)), hi) < TotalRoom(entries, hi)
    ensures Later(t.markAt, cfg.retryDelay).Ok?
    ensures TotalRoom(Deferred(entries, IdsOf(due), Later(t.markAt, cfg.retryDelay).value), hi) < TotalRoom(entries, hi)
  {
    hide Removed, Deferred, TotalRoom, DistinctEntries, Instant;
    var until := Later(t.markAt, cfg.retryDelay);
    assert until.Ok?;
    assert due[0] in due && due[0].Id() in IdsOf(due) && Room(due[0], hi) > 0;
    RemovedReducesRoom(entries, IdsOf(due), hi);
    forall e | e in entries && e.Id() in IdsOf(due)
      ensures Instant(e.nextRetryAt) < Instant(until.value)
    {
      NamedAreDue(entries, due, e);
    }
    DeferReducesRoom(entries, IdsOf(due), until.value, hi);
  }

  function Rest(ts: nat -> Turn): nat -> Turn {
    (i: nat) => ts(i + 1)
  }

  lemma {:induction false} TurnsFromNext(cfg: Config, w: World, ts: nat -> Turn, n: nat)
    requires cfg.Valid()
    ensures Turns(cfg, w, ts, n + 1) == Turns(cfg, Turned(cfg, w, ts(0)), Rest(ts), n)
  {
    hide Turned;
    if n == 0 {
      assert Turns(cfg, w, ts, 1) == Turned(cfg, Turns(cfg, w, ts, 0), ts(0));
    } else {
      TurnsFromNext(cfg, w, ts, n - 1);
    }
  }

  lemma SteadyTurn(cfg: Config, w: World, t: Turn, hi: Utc)
    requires cfg.Valid() && w.stopping && Work(w) > 0 && DistinctEntries(w.entries) && Steady(t, hi)
    requires cfg.retryDelay > 0 && Instant(hi) + cfg.retryDelay < END_OF_TIME
    ensures
      var v := Turned(cfg, w, t);
      && v.stopping && DistinctEntries(v.entries)
      && (Work(v) < Work(w) || (Work(v) == Work(w) && TotalRoom(v.entries, hi) < TotalRoom(w.entries, hi)))
  {
    hide Replayed, Consumed, TotalRoom, FetchedDue, DistinctEntries, Later;
    TurnProgress(cfg, w, t);
    TurnKeepsDistinct(cfg, w, t);
    var due := DueNow(cfg, w, t);
    if due != [] {
      FetchedMembers(w.entries, t.fetchAt, cfg.replayBatchSize);
      ReplayedReducesRoom(cfg, w, t, due, hi);
    }
  }

  lemma {:induction false} SteadyDrains(cfg: Config, w: World, ts: nat -> Turn, hi: Utc) returns (n: nat)
    requires cfg.Valid() && w.stopping && DistinctEntries(w.entries) && AllSteady(ts, hi)
    requires cfg.retryDelay > 0 && Instant(hi) + cfg.retryDelay < END_OF_TIME
    ensures Work(Turns(cfg, w, ts, n)) == 0
    decreases Work(w), TotalRoom(w.entries, hi)
  {
    hide Turned, TotalRoom, DistinctEntries, Steady, Later, Work;
    if Work(w) == 0 {
      n := 0;
    } else {
      assert Steady(ts(0), hi);
      SteadyTurn(cfg, w, ts(0), hi);
      RestSteady(ts, hi);
      var m := SteadyDrains(cfg, Turned(cfg, w, ts(0)), Rest(ts), hi);
      TurnsFromNext(cfg, w, ts, m);
      n := m + 1;
    }
  }

  lemma RestSteady(ts: nat -> Turn, hi: Utc)
    requires AllSteady(ts, hi)
    ensures AllSteady(Rest(ts), hi)
  {
    hide Steady;
    forall i: nat
      ensures Steady(Rest(ts)(i), hi)
    {
      assert Steady(ts(i + 1), hi);
    }
  }

  /**
   * When the clock does not go back within a turn and never passes `hi`, an outage cannot starve the queue
   * for ever: a drain is sure exactly when there is no spool, or the replay delay is positive and leads from
   * `hi` to a timestamp.
   */
  lemma DrainExactSteadily(cfg: Config, hi: Utc)
    requires cfg.Valid()
    ensures AlwaysDrainsSteadily(cfg, hi) <==>
              !cfg.hasSpool || (cfg.retryDelay > 0 && Instant(hi) + cfg.retryDelay < END_OF_TIME)
  {
    hide Drains, AllSteady, Turns, Later;
    if !cfg.hasSpool || (cfg.retryDelay > 0 && Instant(hi) + cfg.retryDelay < END_OF_TIME) {
      forall w: World, ts: nat -> Turn | w.stopping && DistinctEntries(w.entries) && AllSteady(ts, hi)
        ensures Drains(cfg, w, ts)
      {
        SteadyIsSure(cfg, w, ts, hi);
      }
    } else {
      var ts := StarvingInWindow(cfg, hi, hi);
      WindowIsSteady(ts, hi);
      var start, item := Tables(map[], map[]), SomeItem();
      OutpacedNeverDrains(cfg, start, item, item, ts);
      PutAndStopState(cfg, start, item, hi, item);
    }
  }

  lemma SteadyIsSure(cfg: Config, w: World, ts: nat -> Turn, hi: Utc)
    requires cfg.Valid() && w.stopping && DistinctEntries(w.entries) && AllSteady(ts, hi)
    requires !cfg.hasSpool || (cfg.retryDelay > 0 && Instant(hi) + cfg.retryDelay < END_OF_TIME)
    ensures Drains(cfg, w, ts)
  {
    hide Turns, DistinctEntries, AllSteady, Later;
    if cfg.hasSpool {
      var n := SteadyDrains(cfg, w, ts, hi);
    } else {
      SpoollessDrains(cfg, w, ts);
    }
  }

  lemma WindowIsSteady(ts: nat -> Turn, hi: Utc)
    requires AllInWindow(ts, hi, hi)
    ensures AllSteady(ts, hi)
  {
    forall i: nat
      ensures Steady(ts(i), hi)
    {
      assert InWindow(ts(i), hi, hi);
    }
  }

  // ---------------------------------------------------------------- runs that do not drain

  /** The writer accepts a replay delay of zero; then, with the database down, its stop request never ends it. */
  lemma ZeroDelayExample(cfg: Config, tables: Tables, spooled: Item, item: Item, ts: nat -> Turn)
    requires cfg.Valid() && cfg.hasSpool && cfg.retryDelay == 0
    requires forall i: nat :: Outage(cfg, ts(i)) && ts(i).fetchAt == EPOCH && ts(i).markAt == EPOCH
    ensures !Drains(cfg, PutAndStop(cfg, tables, spooled, EPOCH, item), ts)
  {
    hide Drains, Outage, PutAndStop;
    forall i: nat
      ensures Outpaces(cfg, ts(i), ts(i + 1).fetchAt)
    {
      assert ts(i).markAt == EPOCH && ts(i + 1).fetchAt == EPOCH;
    }
    OutpacedNeverDrains(cfg, tables, spooled, item, ts);
  }

  /** It also accepts a delay longer than the calendar: every attempt to put the entry off is refused. */
  lemma OverflowingDelayExample(cfg: Config, tables: Tables, spooled: Item, item: Item, ts: nat -> Turn, now: Utc)
    requires cfg.Valid() && cfg.hasSpool && cfg.retryDelay == END_OF_TIME
    requires forall i: nat :: Outage(cfg, ts(i)) && ts(i).fetchAt == now && ts(i).markAt == now
    ensures !Drains(cfg, PutAndStop(cfg, tables, spooled, now, item), ts)
  {
    hide Drains, Outage, PutAndStop;
    assert Later(now, cfg.retryDelay).Err?;
    forall i: nat
      ensures Outpaces(cfg, ts(i), ts(i + 1).fetchAt)
    {
      assert ts(i).markAt == now && ts(i + 1).fetchAt == now;
    }
    OutpacedNeverDrains(cfg, tables, spooled, item, ts);
  }

  /** A clock that moves by two seconds from turn to turn. */
  function SlowClock(i: nat): Utc {
    var r := FromInstant(Instant(EPOCH) + 2_000_000 * i);
    if r.Ok? then r.value else EPOCH
  }

  lemma SlowClockReads(i: nat)
    requires Instant(EPOCH) + 2_000_000 * i < END_OF_TIME
    ensures Instant(SlowClock(i)) == Instant(EPOCH) + 2_000_000 * i
  {
    hide Instant;
  }

  lemma SlowClockOutpaces(cfg: Config, t: Turn, i: nat)
    requires cfg.retryDelay == 1_000_000 && Instant(EPOCH) + 2_000_000 * (i + 1) < END_OF_TIME
    requires Outage(cfg, t) && t.fetchAt == SlowClock(i) && t.markAt == SlowClock(i)
    ensures Outpaces(cfg, t, SlowClock(i + 1))
  {
    hide Outage, SlowClock, Instant;
    SlowClockReads(i);
    SlowClockReads(i + 1);
  }

  /**
   * With the default delay of one second and a clock that only goes forward: while the database is down and
   * a turn takes two seconds, the item stays queued, for as many turns as the calendar has room for.
   */
  lemma DefaultDelayExample(cfg: Config, tables: Tables, spooled: Item, item: Item, ts: nat -> Turn, n: nat)
    requires cfg.Valid() && cfg.hasSpool && cfg.retryDelay == 1_000_000
    requires Instant(EPOCH) + 2_000_000 * n < END_OF_TIME
    requires forall i: nat :: Outage(cfg, ts(i)) && ts(i).fetchAt == SlowClock(i) && ts(i).markAt == SlowClock(i)
    ensures Turns(cfg, PutAndStop(cfg, tables, spooled, SlowClock(0), item), ts, n).queue == [item]
  {
    hide Turns, Outage, PutAndStop, SlowClock, Outpaces;
    forall i: nat | i < n
      ensures Outpaces(cfg, ts(i), ts(i + 1).fetchAt)
    {
      assert ts(i + 1).fetchAt == SlowClock(i + 1);
      SlowClockOutpaces(cfg, ts(i), i);
    }
    StarvedRun(cfg, tables, spooled, item, ts, n);
  }
}
