/**
 * The pipeline cut at every point where the writer waits: one step is a fetch, a single save attempt, an
 * append or a mark, and puts, stop requests and late landings may come between any two of them.
 */
module PipelineInterleaved {

  import opened Results
  import opened Timestamps
  import opened Domain
  import opened Lists
  import opened Repository
  import opened Spool
  import opened Retry
  import opened Pipeline
  import opened PipelineSafety

  // ---------------------------------------------------------------- steps

  /** What the writer is waiting for. A save is one of the pending batch, or of the fetched entries `due`. */
  datatype Phase =
    | Idle
    | Saving(batch: seq<Item>, due: seq<Entry>, attempt: nat)
    | Appending
    | MarkingReplayed(replayed: seq<Entry>)
    | MarkingFailed(unsaved: seq<Entry>)

  datatype State = State(world: World, phase: Phase)

  datatype Action =
    | Fetch(fault: Fault, at: Utc)
    | TakeOne
    | BeginFlush
    | Attempt(fault: Fault)
    | Append(fault: Fault, at: Utc)
    | Mark(fault: Fault, at: Utc)
    | Outside(event: Event)

  /** A save reported success: the batch is acknowledged, or the replayed entries are to be deleted. */
  function SaveDone(w: World, due: seq<Entry>): State {
    if due == [] then State(Acknowledged(CountSuccess(w)), Idle) else State(w, MarkingReplayed(due))
  }

  /** A save failed for good: the batch goes to the spool, or the entries are to be put off. */
  function SaveLost(w: World, due: seq<Entry>): State {
    State(w, if due == [] then Appending else MarkingFailed(due))
  }

  function Attempting(cfg: Config, w: World, batch: seq<Item>, due: seq<Entry>, k: nat, f: Fault): State {
    var after := Attempted(cfg, w, batch, f);
    match SaveCall(f, Storable(cfg.catalog, batch))
    case Returned(_) => SaveDone(CountInserted(after, w), due)
    case Threw(e) =>
      if !IsRetryable(e) || k + 1 >= cfg.maxAttempts then SaveLost(Pipeline.SaveError(after), due)
      else State(CountRetry(after), Saving(batch, due, k + 1))
  }

  function Fetching(cfg: Config, w: World, f: Fault, at: Utc): State {
    if !f.Completes? then State(w.(counters := w.counters.(lastError := Some(FetchStage))), Idle)
    else
      var due := FetchedDue(w.entries, at, cfg.replayBatchSize);
      State(w, if due == [] then Idle else Saving(ItemsOf(due), due, 0))
  }

  /** An action that does not fit what the writer waits for changes nothing. */
  function Act(cfg: Config, s: State, a: Action): State
    requires cfg.Valid()
  {
    var w := s.world;
    match a
    case Fetch(f, at) => if s.phase.Idle? && w.pending == [] && cfg.hasSpool then Fetching(cfg, w, f, at) else s
    case TakeOne => if s.phase.Idle? && |w.pending| < cfg.batchSize && w.queue != [] then State(Taken(w), Idle) else s
    case BeginFlush => if s.phase.Idle? && w.pending != [] then State(w, Saving(w.pending, [], 0)) else s
    case Attempt(f) => if s.phase.Saving? then Attempting(cfg, w, s.phase.batch, s.phase.due, s.phase.attempt, f) else s
    case Append(f, at) =>
      if s.phase.Appending? then
        var (stored, confirmed) := SpoolBatch(cfg, w, w.pending, f, at);
        State(Acknowledged(CountFailure(stored, confirmed)), Idle)
      else s
    case Mark(f, at) =>
      (match s.phase
       case MarkingReplayed(due) => State(Pipeline.MarkReplayed(w, due, f), Idle)
       case MarkingFailed(due) => State(Pipeline.MarkFailed(cfg, w, due, f, at), Idle)
       case _ => s)
    case Outside(e) => if e.Loop? then s else State(Step(cfg, w, e), s.phase)
  }

  function Acts(cfg: Config, s: State, actions: seq<Action>): State
    requires cfg.Valid()
    decreases |actions|
  {
    if actions == [] then s else Acts(cfg, Act(cfg, s, actions[0]), actions[1..])
  }

  // ---------------------------------------------------------------- the invariant at every wait

  ghost predicate PhaseSound(cfg: Config, o: Origin, s: State) {
    var w := s.world;
    && |w.pending| <= cfg.batchSize
    && match s.phase
       case Idle => true
       case Saving(batch, due, k) =>
         && k < cfg.maxAttempts && AllKnown(o, w, batch)
         && (if due == [] then w.pending != [] && batch == w.pending else batch == ItemsOf(due))
       case Appending => w.pending != []
       case MarkingReplayed(due) => forall e :: e in due ==> e.item in w.ledger.log
       case MarkingFailed(_) => true
  }

  ghost predicate Sound(cfg: Config, o: Origin, s: State) {
    Inv(cfg, o, s.world) && PhaseSound(cfg, o, s)
  }

  lemma AttemptKeepsSound(cfg: Config, o: Origin, s: State, f: Fault)
    requires cfg.Valid() && IdDeterminesContent(o.universe) && Sound(cfg, o, s) && s.phase.Saving?
    ensures Sound(cfg, o, Act(cfg, s, Attempt(f)))
  {
    hide Inv, SavedFrom, Attempted, AllKnown, ItemsOf, Storable;
    var w, batch, due := s.world, s.phase.batch, s.phase.due;
    var after := Attempted(cfg, w, batch, f);
    AttemptedSaves(cfg, w, batch, f);
    SavedKeepsInv(cfg, o, w, after, batch);
    SavedKeepsPending(cfg, w, after, batch);
    var call := SaveCall(f, Storable(cfg.catalog, batch));
    match call
    case Returned(_) =>
      var counted := CountInserted(after, w);
      BookkeepingKeepsInv(cfg, o, after, counted);
      if due == [] {
        FlushSuccessKeepsInv(cfg, o, counted);
      } else {
        ItemsOfMembers(due);
      }
    case Threw(e) =>
      BookkeepingKeepsInv(cfg, o, after, CountRetry(after));
      BookkeepingKeepsInv(cfg, o, after, Pipeline.SaveError(after));
      KnownStays(o, w, CountRetry(after), batch);
  }

  /** What is known stays known while the taken items only grow. */
  lemma KnownStays(o: Origin, w: World, v: World, items: seq<Item>)
    requires AllKnown(o, w, items) && w.ledger.taken <= v.ledger.taken
    ensures AllKnown(o, v, items)
  {
    forall x | x in items
      ensures Known(o, v, x)
    {
      assert Known(o, w, x);
    }
  }

  lemma AppendKeepsSound(cfg: Config, o: Origin, s: State, f: Fault, at: Utc)
    requires cfg.Valid() && IdDeterminesContent(o.universe) && Sound(cfg, o, s) && s.phase.Appending?
    ensures Sound(cfg, o, Act(cfg, s, Append(f, at)))
  {
    hide Inv, SpooledFrom, SpoolBatch;
    var w := s.world;
    var (stored, confirmed) := SpoolBatch(cfg, w, w.pending, f, at);
    InvBalanced(cfg, o, w);
    SpoolBatchSpools(cfg, w, w.pending, f, at);
    SpoolNeedsSpool(cfg, w, w.pending, f, at);
    FlushFailureKeepsInv(cfg, o, w, stored, confirmed);
  }

  lemma MarkKeepsSound(cfg: Config, o: Origin, s: State, f: Fault, at: Utc)
    requires cfg.Valid() && IdDeterminesContent(o.universe) && Sound(cfg, o, s)
    requires s.phase.MarkingReplayed? || s.phase.MarkingFailed?
    ensures Sound(cfg, o, Act(cfg, s, Mark(f, at)))
  {
    hide Inv, Pipeline.MarkReplayed, Pipeline.MarkFailed;
    match s.phase
    case MarkingReplayed(due) =>
      MarkReplayedKeepsInv(cfg, o, s.world, due, f);
      MarksKeepPending(cfg, s.world, due, f, at);
    case MarkingFailed(due) =>
      MarkFailedKeepsInv(cfg, o, s.world, due, f, at);
      MarksKeepPending(cfg, s.world, due, f, at);
  }

  lemma FetchKeepsSound(cfg: Config, o: Origin, s: State, f: Fault, at: Utc)
    requires cfg.Valid() && Sound(cfg, o, s) && s.phase.Idle?
    ensures Sound(cfg, o, Act(cfg, s, Fetch(f, at)))
  {
    hide Inv, FetchedDue, ItemsOf;
    var w := s.world;
    if w.pending == [] && cfg.hasSpool {
      if f.Completes? {
        var due := FetchedDue(w.entries, at, cfg.replayBatchSize);
        FetchedMembers(w.entries, at, cfg.replayBatchSize);
        ItemsOfMembers(due);
        InvBalanced(cfg, o, w);
        assert AllKnown(o, w, ItemsOf(due));
      } else {
        BookkeepingKeepsInv(cfg, o, w, w.(counters := w.counters.(lastError := Some(FetchStage))));
      }
    }
  }

  lemma LandedGrowsLog(cfg: Config, w: World, s: Straggler)
    ensures
      var v := Landed(cfg, w, s);
      && v.pending == w.pending && v.ledger.taken == w.ledger.taken
      && forall x :: x in w.ledger.log ==> x in v.ledger.log
  {
    hide SaveAll, Storable, Spool.Appended, Removed, Deferred;
  }

  lemma OutsideKeepsInv(cfg: Config, o: Origin, w: World, e: Event)
    requires cfg.Valid() && IdDeterminesContent(o.universe) && Inv(cfg, o, w) && EventWithin(o, e) && !e.Loop?
    ensures Inv(cfg, o, Step(cfg, w, e))
  {
    hide Inv, Landed;
    match e
    case Put(item) =>
      if |w.queue| < cfg.queueCapacity {
        ArrivedKeepsInv(cfg, o, w, item);
      }
    case Stop =>
      StopKeepsInv(cfg, o, w);
    case Lands(k) =>
      if k < |w.stragglers| {
        var rest := w.(stragglers := w.stragglers[..k] + w.stragglers[k + 1..]);
        BookkeepingKeepsInv(cfg, o, w, rest);
        InvBalanced(cfg, o, w);
        assert w.stragglers[k] in w.stragglers;
        StragglerStillSound(o, w, rest, w.stragglers[k]);
        LandedKeepsInv(cfg, o, rest, w.stragglers[k]);
      }
    case Loop(_) =>
  }

  lemma OutsideOnlyAdds(cfg: Config, w: World, e: Event)
    requires cfg.Valid() && !e.Loop?
    ensures
      var v := Step(cfg, w, e);
      && v.pending == w.pending && v.ledger.taken == w.ledger.taken
      && forall x :: x in w.ledger.log ==> x in v.ledger.log
  {
    hide Landed;
    if e.Lands? && e.which < |w.stragglers| {
      var k := e.which;
      LandedGrowsLog(cfg, w.(stragglers := w.stragglers[..k] + w.stragglers[k + 1..]), w.stragglers[k]);
    }
  }

  /** A put, a stop request or a late landing, at whatever the writer is waiting for. */
  lemma OutsideKeepsSound(cfg: Config, o: Origin, s: State, e: Event)
    requires cfg.Valid() && IdDeterminesContent(o.universe) && Sound(cfg, o, s) && EventWithin(o, e) && !e.Loop?
    ensures Sound(cfg, o, Act(cfg, s, Outside(e)))
  {
    hide Inv, Step, ItemsOf, AllKnown;
    OutsideKeepsInv(cfg, o, s.world, e);
    OutsideOnlyAdds(cfg, s.world, e);
    if s.phase.Saving? {
      KnownStays(o, s.world, Step(cfg, s.world, e), s.phase.batch);
    }
  }

  ghost predicate ActionWithin(o: Origin, a: Action) {
    a.Outside? ==> EventWithin(o, a.event)
  }

  lemma ActKeepsSound(cfg: Config, o: Origin, s: State, a: Action)
    requires cfg.Valid() && IdDeterminesContent(o.universe) && Sound(cfg, o, s) && ActionWithin(o, a)
    ensures Sound(cfg, o, Act(cfg, s, a))
  {
    hide Inv, Attempting, Fetching, SpoolBatch, Pipeline.MarkReplayed, Pipeline.MarkFailed, Step, ItemsOf, AllKnown;
    match a
    case Fetch(f, at) =>
      if s.phase.Idle? {
        FetchKeepsSound(cfg, o, s, f, at);
      }
    case TakeOne =>
      if s.phase.Idle? && |s.world.pending| < cfg.batchSize && s.world.queue != [] {
        TakenKeepsInv(cfg, o, s.world);
      }
    case BeginFlush =>
      InvBalanced(cfg, o, s.world);
      PendingKnown(cfg, o, s.world);
    case Attempt(f) =>
      if s.phase.Saving? {
        AttemptKeepsSound(cfg, o, s, f);
      }
    case Append(f, at) =>
      if s.phase.Appending? {
        AppendKeepsSound(cfg, o, s, f, at);
      }
    case Mark(f, at) =>
      if s.phase.MarkingReplayed? || s.phase.MarkingFailed? {
        MarkKeepsSound(cfg, o, s, f, at);
      }
    case Outside(e) =>
      if !e.Loop? {
        OutsideKeepsSound(cfg, o, s, e);
      }
  }

  lemma {:induction false} ActsKeepSound(cfg: Config, o: Origin, s: State, actions: seq<Action>)
    requires cfg.Valid() && IdDeterminesContent(o.universe) && Sound(cfg, o, s)
    requires forall i :: 0 <= i < |actions| ==> ActionWithin(o, actions[i])
    ensures Sound(cfg, o, Acts(cfg, s, actions))
    decreases |actions|
  {
    hide Sound, Act, ActionWithin;
    if actions != [] {
      ActKeepsSound(cfg, o, s, actions[0]);
      ActsKeepSound(cfg, o, Act(cfg, s, actions[0]), actions[1..]);
    }
  }

  // ---------------------------------------------------------------- safety at every wait

  /**
   * Nothing is lost silently at any point where the writer waits, with timed-out operations landing between
   * any two attempts of one save, between a save and its mark, or between a failed save and its append.
   */
  lemma InterleavedNoSilentLoss(cfg: Config, o: Origin, start: World, actions: seq<Action>)
    requires Start(cfg, o, start) && forall i :: 0 <= i < |actions| ==> ActionWithin(o, actions[i])
    ensures AllAccountedFor(cfg, o, Acts(cfg, State(start, Idle), actions).world)
  {
    hide Inv, PhaseSound, AllAccountedFor, Acts, Start;
    StartIsSoundState(cfg, o, start);
    ActsKeepSound(cfg, o, State(start, Idle), actions);
    InvAccountsForAll(cfg, o, Acts(cfg, State(start, Idle), actions).world);
  }

  /** Wherever it stops, a run that is settled has the fault-free tables. */
  lemma InterleavedFaultsLeaveNoTrace(cfg: Config, o: Origin, start: World, actions: seq<Action>)
    requires Start(cfg, o, start) && forall i :: 0 <= i < |actions| ==> ActionWithin(o, actions[i])
    requires Settled(Acts(cfg, State(start, Idle), actions).world)
    ensures FaultFree(cfg, o, Acts(cfg, State(start, Idle), actions).world)
  {
    hide Inv, PhaseSound, FaultFree, Settled, Acts, Start;
    StartIsSoundState(cfg, o, start);
    ActsKeepSound(cfg, o, State(start, Idle), actions);
    SettledIsFaultFree(cfg, o, Acts(cfg, State(start, Idle), actions).world);
  }

  lemma StartIsSoundState(cfg: Config, o: Origin, start: World)
    requires Start(cfg, o, start)
    ensures cfg.Valid() && IdDeterminesContent(o.universe) && Sound(cfg, o, State(start, Idle))
  {
    hide Inv;
    InitialInv(cfg, o, start);
  }

  // ---------------------------------------------------------------- whole turns are made of these steps

  lemma {:induction false} ActsConcat(cfg: Config, s: State, a: seq<Action>, b: seq<Action>)
    requires cfg.Valid()
    ensures Acts(cfg, s, a + b) == Acts(cfg, Acts(cfg, s, a), b)
    decreases |a|
  {
    hide Act;
    if a == [] {
      assert a + b == b;
    } else {
      assert (a + b)[1..] == a[1..] + b;
      ActsConcat(cfg, Act(cfg, s, a[0]), a[1..], b);
    }
  }

  lemma OneAct(cfg: Config, s: State, a: Action)
    requires cfg.Valid()
    ensures Acts(cfg, s, [a]) == Act(cfg, s, a)
  {
    hide Act;
    assert [a][1..] == [];
  }

  /** The attempts that the retry loop makes. */
  function AttemptsOf(cfg: Config, batch: seq<Item>, faults: seq<Fault>, k: nat): seq<Action>
    requires k < cfg.maxAttempts
    decreases cfg.maxAttempts - k
  {
    var f := FaultAt(faults, k);
    var call := SaveCall(f, Storable(cfg.catalog, batch));
    if call.Threw? && IsRetryable(call.failure) && k + 1 < cfg.maxAttempts then
      [Attempt(f)] + AttemptsOf(cfg, batch, faults, k + 1)
    else [Attempt(f)]
  }

  lemma {:induction false} AttemptsArePersist(cfg: Config, w: World, batch: seq<Item>, due: seq<Entry>,
                                              faults: seq<Fault>, k: nat)
    requires cfg.Valid() && k < cfg.maxAttempts
    ensures
      var (saved, ok) := Persist(cfg, w, batch, faults, k);
      Acts(cfg, State(w, Saving(batch, due, k)), AttemptsOf(cfg, batch, faults, k))
      == if ok then SaveDone(saved, due) else SaveLost(saved, due)
    decreases cfg.maxAttempts - k
  {
    hide Attempted, Storable, SaveDone, SaveLost, IsRetryable, Acts;
    var f := FaultAt(faults, k);
    var call := SaveCall(f, Storable(cfg.catalog, batch));
    var s := State(w, Saving(batch, due, k));
    OneAct(cfg, s, Attempt(f));
    if call.Threw? && IsRetryable(call.failure) && k + 1 < cfg.maxAttempts {
      var rest := AttemptsOf(cfg, batch, faults, k + 1);
      ActsConcat(cfg, s, [Attempt(f)], rest);
      AttemptsArePersist(cfg, CountRetry(Attempted(cfg, w, batch, f)), batch, due, faults, k + 1);
    }
  }

  function FlushActions(cfg: Config, w: World, t: Turn): seq<Action>
    requires cfg.Valid()
  {
    if w.pending == [] then []
    else
      [BeginFlush] + AttemptsOf(cfg, w.pending, t.saves, 0)
      + if Persist(cfg, w, w.pending, t.saves, 0).1 then [] else [Append(t.append, t.appendAt)]
  }

  lemma FlushIsActions(cfg: Config, w: World, t: Turn)
    requires cfg.Valid()
    ensures Acts(cfg, State(w, Idle), FlushActions(cfg, w, t)) == State(Flushed(cfg, w, t), Idle)
  {
    hide Persist, SpoolBatch, AttemptsOf, Acknowledged, Acts;
    NoActs(cfg, State(w, Idle));
    if w.pending != [] {
      var s := State(w, Idle);
      var attempts := AttemptsOf(cfg, w.pending, t.saves, 0);
      var (saved, ok) := Persist(cfg, w, w.pending, t.saves, 0);
      OneAct(cfg, s, BeginFlush);
      ActsConcat(cfg, s, [BeginFlush], attempts);
      AttemptsArePersist(cfg, w, w.pending, [], t.saves, 0);
      var last := if ok then [] else [Append(t.append, t.appendAt)];
      ActsConcat(cfg, s, [BeginFlush] + attempts, last);
      PersistSaves(cfg, w, w.pending, t.saves, 0);
      SavedKeepsPending(cfg, w, saved, w.pending);
      if ok {
        NoActs(cfg, SaveDone(saved, []));
      } else {
        OneAct(cfg, SaveLost(saved, []), Append(t.append, t.appendAt));
      }
    }
  }

  lemma NoActs(cfg: Config, s: State)
    requires cfg.Valid()
    ensures Acts(cfg, s, []) == s
  {
  }

  lemma ReplayIsActions(cfg: Config, w: World, t: Turn, due: seq<Entry>)
    requires cfg.Valid() && due != []
    ensures
      Acts(cfg, State(w, Saving(ItemsOf(due), due, 0)),
          AttemptsOf(cfg, ItemsOf(due), t.saves, 0) + [Mark(t.mark, t.markAt)])
      == State(Replayed(cfg, w, t, due), Idle)
  {
    hide Persist, AttemptsOf, Acts, ItemsOf, Pipeline.MarkReplayed, Pipeline.MarkFailed;
    var s := State(w, Saving(ItemsOf(due), due, 0));
    var (saved, ok) := Persist(cfg, w, ItemsOf(due), t.saves, 0);
    AttemptsArePersist(cfg, w, ItemsOf(due), due, t.saves, 0);
    ActsConcat(cfg, s, AttemptsOf(cfg, ItemsOf(due), t.saves, 0), [Mark(t.mark, t.markAt)]);
    OneAct(cfg, if ok then SaveDone(saved, due) else SaveLost(saved, due), Mark(t.mark, t.markAt));
  }

  function ConsumeActions(cfg: Config, w: World, t: Turn): seq<Action>
    requires cfg.Valid()
  {
    if |w.pending| >= cfg.batchSize || (w.stopping && w.queue == []) then FlushActions(cfg, w, t)
    else
      var arrives := w.queue == [] && t.arrival.Some?;
      var ready := if arrives then Arrived(w, t.arrival.value) else w;
      (if arrives then [Outside(Put(t.arrival.value))] else [])
      + if ready.queue == [] then FlushActions(cfg, ready, t)
        else [TakeOne] + if |Taken(ready).pending| >= cfg.batchSize then FlushActions(cfg, Taken(ready), t) else []
  }

  lemma ConsumeIsActions(cfg: Config, w: World, t: Turn)
    requires cfg.Valid()
    ensures Acts(cfg, State(w, Idle), ConsumeActions(cfg, w, t)) == State(Consumed(cfg, w, t), Idle)
  {
    hide Acts, FlushActions, Flushed;
    FlushIsActions(cfg, w, t);
    if !(|w.pending| >= cfg.batchSize || (w.stopping && w.queue == [])) {
      var arrives := w.queue == [] && t.arrival.Some?;
      var ready := if arrives then Arrived(w, t.arrival.value) else w;
      var first := if arrives then [Outside(Put(t.arrival.value))] else [];
      if arrives {
        OneAct(cfg, State(w, Idle), Outside(Put(t.arrival.value)));
      } else {
        NoActs(cfg, State(w, Idle));
      }
      var rest := if ready.queue == [] then FlushActions(cfg, ready, t)
                  else [TakeOne] + if |Taken(ready).pending| >= cfg.batchSize then FlushActions(cfg, Taken(ready), t)
                                   else [];
      ActsConcat(cfg, State(w, Idle), first, rest);
      FlushIsActions(cfg, ready, t);
      if ready.queue != [] {
        OneAct(cfg, State(ready, Idle), TakeOne);
        var last := if |Taken(ready).pending| >= cfg.batchSize then FlushActions(cfg, Taken(ready), t) else [];
        ActsConcat(cfg, State(ready, Idle), [TakeOne], last);
        FlushIsActions(cfg, Taken(ready), t);
        NoActs(cfg, State(Taken(ready), Idle));
      }
    }
  }

  function TurnActions(cfg: Config, w: World, t: Turn): seq<Action>
    requires cfg.Valid()
  {
    var due := DueNow(cfg, w, t);
    [Fetch(t.fetch, t.fetchAt)]
    + if due != [] then AttemptsOf(cfg, ItemsOf(due), t.saves, 0) + [Mark(t.mark, t.markAt)]
      else ConsumeActions(cfg, FetchNoted(cfg, w, t), t)
  }

  /** A whole turn is its steps with nothing in between, so the steps allow every run of whole turns, and more. */
  lemma TurnIsActions(cfg: Config, w: World, t: Turn)
    requires cfg.Valid()
    ensures Acts(cfg, State(w, Idle), TurnActions(cfg, w, t)) == State(Turned(cfg, w, t), Idle)
  {
    hide Acts, AttemptsOf, ConsumeActions, Consumed, Replayed, FetchedDue;
    var due := DueNow(cfg, w, t);
    var fetch := Fetch(t.fetch, t.fetchAt);
    OneAct(cfg, State(w, Idle), fetch);
    if due != [] {
      ActsConcat(cfg, State(w, Idle), [fetch], AttemptsOf(cfg, ItemsOf(due), t.saves, 0) + [Mark(t.mark, t.markAt)]);
      ReplayIsActions(cfg, w, t, due);
    } else {
      ActsConcat(cfg, State(w, Idle), [fetch], ConsumeActions(cfg, FetchNoted(cfg, w, t), t));
      ConsumeIsActions(cfg, FetchNoted(cfg, w, t), t);
    }
  }
}
