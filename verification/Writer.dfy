/** The database writer as an object, every method proved against the pipeline's state machine. */
module Writer {

  import opened Results
  import opened Timestamps
  import opened Domain
  import opened Lists
  import opened Repository
  import opened Spool
  import opened ReadingQueues
  import opened Retry
  import Pipeline
  import opened PipelineDrain

  type World = Pipeline.World
  type Turn = Pipeline.Turn
  type Fault = Pipeline.Fault

  datatype WriterShutdown = WriterShutdown(drained: bool, pendingQueueItems: nat, pendingBatchItems: nat)

  datatype RunError = AlreadyRunning

  datatype ShutdownError = InvalidTimeout

  function Since<T>(s: seq<T>, from: nat): seq<T> {
    if from <= |s| then s[from..] else []
  }

  predicate TurnValid(t: Turn) {
    t.arrival.Some? ==> t.arrival.value.Valid()
  }

  // ---------------------------------------------------------------- runs of the loop

  /** The loop's condition to end. */
  predicate Done(w: World) {
    w.stopping && w.queue == [] && w.pending == []
  }

  /** The first `n` turns, with a stop request before the check that precedes turn `stopAt`. */
  function TurnsAndStop(ts: nat -> Turn, stopAt: nat, n: nat): seq<Pipeline.Event> {
    if n == 0 then if stopAt == 0 then [Pipeline.Stop] else []
    else TurnsAndStop(ts, stopAt, n - 1) + [Pipeline.Loop(ts(n - 1))] + if n == stopAt then [Pipeline.Stop] else []
  }

  /** Where the stop request finds the writer. */
  function StoppedAt(cfg: Pipeline.Config, w: World, ts: nat -> Turn, stopAt: nat): World
    requires cfg.Valid()
  {
    Turns(cfg, w, ts, stopAt).(stopping := true)
  }

  function Loops(turns: seq<Turn>): seq<Pipeline.Event> {
    seq(|turns|, i requires 0 <= i < |turns| => Pipeline.Loop(turns[i]))
  }

  lemma RunNext(cfg: Pipeline.Config, w: World, events: seq<Pipeline.Event>, e: Pipeline.Event)
    requires cfg.Valid()
    ensures Pipeline.Run(cfg, w, events + [e]) == Pipeline.Step(cfg, Pipeline.Run(cfg, w, events), e)
  {
    hide Pipeline.Step;
    assert (events + [e])[..|events|] == events;
  }

  lemma StoppingOwesTheSame(w: World, deadline: Utc)
    ensures Owed(w.(stopping := true), deadline) == Owed(w, deadline)
  {
  }

  lemma WorkLeft(w: World)
    ensures Work(w) == 0 <==> w.queue == [] && w.pending == []
  {
  }

  lemma OwesSomething(w: World, deadline: Utc)
    requires w.queue != [] || w.pending != []
    ensures Owed(w, deadline) > 0
  {
  }

  lemma NoTurnYet(cfg: Pipeline.Config, w: World, ts: nat -> Turn, stopAt: nat)
    requires cfg.Valid()
    ensures Pipeline.Run(cfg, w, TurnsAndStop(ts, stopAt, 0)) == if stopAt == 0 then w.(stopping := true) else w
    ensures Turns(cfg, w, ts, 0) == w
  {
    if stopAt == 0 {
      assert [Pipeline.Stop][..0] == [];
    }
  }

  lemma NextTurn(cfg: Pipeline.Config, w: World, ts: nat -> Turn, stopAt: nat, n: nat)
    requires cfg.Valid()
    ensures
      var v := Pipeline.Turned(cfg, Pipeline.Run(cfg, w, TurnsAndStop(ts, stopAt, n)), ts(n));
      Pipeline.Run(cfg, w, TurnsAndStop(ts, stopAt, n + 1)) == if n + 1 == stopAt then v.(stopping := true) else v
    ensures Turns(cfg, w, ts, n + 1) == Pipeline.Turned(cfg, Turns(cfg, w, ts, n), ts(n))
  {
    hide Pipeline.Turned, Pipeline.Run;
    var before := TurnsAndStop(ts, stopAt, n);
    RunNext(cfg, w, before, Pipeline.Loop(ts(n)));
    RunNext(cfg, w, before + [Pipeline.Loop(ts(n))], Pipeline.Stop);
    assert TurnsAndStop(ts, stopAt, n + 1) ==
           before + [Pipeline.Loop(ts(n))] + if n + 1 == stopAt then [Pipeline.Stop] else [];
    assert before + [Pipeline.Loop(ts(n))] + [] == before + [Pipeline.Loop(ts(n))];
  }

  /** The turns owed when the stop request comes meet the deadline. */
  ghost predicate InTime(cfg: Pipeline.Config, w: World, ts: nat -> Turn, stopAt: nat, deadline: Utc)
    requires cfg.Valid()
  {
    forall j: nat :: stopAt <= j < stopAt + Owed(StoppedAt(cfg, w, ts, stopAt), deadline) ==>
        ByDeadline(cfg, ts(j), deadline)
  }

  /** `w` is where the loop, begun at `start`, stands at its check after `n` turns. */
  ghost predicate Progress(cfg: Pipeline.Config, start: World, w: World, ts: nat -> Turn, stopAt: nat,
      deadline: Utc, n: nat)
    requires cfg.Valid()
  {
    && w == Pipeline.Run(cfg, start, TurnsAndStop(ts, stopAt, n))
    && (forall k: nat :: k < n ==> !Done(Pipeline.Run(cfg, start, TurnsAndStop(ts, stopAt, k))))
    && (n < stopAt ==> w == Turns(cfg, start, ts, n))
    && (n >= stopAt ==> w.stopping)
    && (n >= stopAt && InTime(cfg, start, ts, stopAt, deadline) ==>
          Owed(w, deadline) + n <= Owed(StoppedAt(cfg, start, ts, stopAt), deadline) + stopAt)
  }

  lemma ProgressStarts(cfg: Pipeline.Config, start: World, ts: nat -> Turn, stopAt: nat, deadline: Utc)
    requires cfg.Valid()
    ensures Progress(cfg, start, if stopAt == 0 then start.(stopping := true) else start, ts, stopAt, deadline, 0)
  {
    hide Owed, TurnsAndStop, Pipeline.Run, Turns;
    NoTurnYet(cfg, start, ts, stopAt);
  }

  lemma ProgressContinues(cfg: Pipeline.Config, start: World, w: World, ts: nat -> Turn, stopAt: nat,
      deadline: Utc, n: nat)
    requires cfg.Valid() && Progress(cfg, start, w, ts, stopAt, deadline, n) && !Done(w)
    ensures
      var v := Pipeline.Turned(cfg, w, ts(n));
      Progress(cfg, start, if n + 1 == stopAt then v.(stopping := true) else v, ts, stopAt, deadline, n + 1)
  {
    hide Pipeline.Turned, Owed, ByDeadline, TurnsAndStop, Pipeline.Run, Turns;
    NextTurn(cfg, start, ts, stopAt, n);
    if n >= stopAt {
      OwesSomething(w, deadline);
      WorkLeft(w);
      TurnProgress(cfg, w, ts(n));
      if InTime(cfg, start, ts, stopAt, deadline) {
        assert ByDeadline(cfg, ts(n), deadline);
        TurnOwesLess(cfg, w, ts(n), deadline);
      }
    }
  }

  lemma ProgressEnds(cfg: Pipeline.Config, start: World, w: World, ts: nat -> Turn, stopAt: nat, deadline: Utc, n: nat)
    requires cfg.Valid() && Progress(cfg, start, w, ts, stopAt, deadline, n)
    ensures w == Pipeline.Run(cfg, start, TurnsAndStop(ts, stopAt, n))
    ensures forall k: nat :: k < n ==> !Done(Pipeline.Run(cfg, start, TurnsAndStop(ts, stopAt, k)))
    ensures n >= stopAt ==> w.stopping
    ensures InTime(cfg, start, ts, stopAt, deadline) ==>
              n >= stopAt + Owed(StoppedAt(cfg, start, ts, stopAt), deadline) ==> Done(w)
  {
    hide Owed, TurnsAndStop, Pipeline.Run, Turns, InTime;
    if !Done(w) && w.stopping {
      OwesSomething(w, deadline);
    }
  }

  lemma JustStopped(cfg: Pipeline.Config, w: World, turns: seq<Turn>)
    requires cfg.Valid()
    ensures Pipeline.Run(cfg, w, [Pipeline.Stop] + Loops(turns[..0])) == w.(stopping := true)
  {
    hide Pipeline.Turned, Pipeline.Landed;
    assert [Pipeline.Stop] + Loops(turns[..0]) == [Pipeline.Stop];
    assert [Pipeline.Stop][..0] == [];
  }

  lemma NextLoop(cfg: Pipeline.Config, w: World, turns: seq<Turn>, i: nat)
    requires cfg.Valid() && i < |turns|
    ensures Pipeline.Run(cfg, w, [Pipeline.Stop] + Loops(turns[..i + 1])) ==
            Pipeline.Turned(cfg, Pipeline.Run(cfg, w, [Pipeline.Stop] + Loops(turns[..i])), turns[i])
  {
    hide Pipeline.Turned, Pipeline.Run;
    var before := [Pipeline.Stop] + Loops(turns[..i]);
    assert [Pipeline.Stop] + Loops(turns[..i + 1]) == before + [Pipeline.Loop(turns[i])];
    RunNext(cfg, w, before, Pipeline.Loop(turns[i]));
  }

  // ---------------------------------------------------------------- facts about single steps

  lemma HandedFields(due: seq<Entry>)
    ensures Map((e: SpoolEntry) => e.pollResult, Map(Handed, due)) == Pipeline.ItemsOf(due)
    ensures IdSet(Map((e: SpoolEntry) => e.executionId, Map(Handed, due))) == IdsOf(due)
  {
    var ids := Map((e: SpoolEntry) => e.executionId, Map(Handed, due));
    forall e | e in due
      ensures e.Id() in ids
    {
      var i :| 0 <= i < |due| && due[i] == e;
      assert ids[i] == e.Id();
    }
    forall id | id in ids
      ensures id in IdsOf(due)
    {
      var i :| 0 <= i < |ids| && ids[i] == id;
      assert due[i] in due;
    }
  }

  // The defining cases of the state machine's functions, one level at a time.

  lemma PersistCases(cfg: Pipeline.Config, w: World, batch: seq<WorkerPollResult>, faults: seq<Fault>, k: nat)
    requires k < cfg.maxAttempts
    ensures
      var f := Pipeline.FaultAt(faults, k);
      var after := Pipeline.Attempted(cfg, w, batch, f);
      Pipeline.Persist(cfg, w, batch, faults, k) ==
      match Pipeline.SaveCall(f, Storable(cfg.catalog, batch))
      case Returned(_) => (Pipeline.CountInserted(after, w), true)
      case Threw(e) =>
        if !IsRetryable(e) || k + 1 >= cfg.maxAttempts then (Pipeline.SaveError(after), false)
        else Pipeline.Persist(cfg, Pipeline.CountRetry(after), batch, faults, k + 1)
  {
  }

  lemma FlushedCases(cfg: Pipeline.Config, w: World, t: Turn)
    requires cfg.Valid()
    ensures w.pending == [] ==> Pipeline.Flushed(cfg, w, t) == w
    ensures w.pending != [] ==>
              var (saved, ok) := Pipeline.Persist(cfg, w, w.pending, t.saves, 0);
              var (stored, spooled) := Pipeline.SpoolBatch(cfg, saved, w.pending, t.append, t.appendAt);
              Pipeline.Flushed(cfg, w, t) == Pipeline.Acknowledged(
                if ok then Pipeline.CountSuccess(saved) else Pipeline.CountFailure(stored, spooled))
  {
  }

  lemma TurnedCases(cfg: Pipeline.Config, w: World, t: Turn)
    requires cfg.Valid()
    ensures w.pending != [] ==> Pipeline.DueNow(cfg, w, t) == [] && Pipeline.FetchNoted(cfg, w, t) == w
    ensures Pipeline.DueNow(cfg, w, t) == [] ==>
              Pipeline.Turned(cfg, w, t) == Pipeline.Consumed(cfg, Pipeline.FetchNoted(cfg, w, t), t)
    ensures Pipeline.DueNow(cfg, w, t) != [] ==>
              Pipeline.Turned(cfg, w, t) == Pipeline.Replayed(cfg, w, t, Pipeline.DueNow(cfg, w, t))
  {
  }

  lemma ConsumedCases(cfg: Pipeline.Config, w: World, t: Turn)
    requires cfg.Valid()
    ensures
      var ready := if w.queue == [] && t.arrival.Some? then Pipeline.Arrived(w, t.arrival.value) else w;
      if |w.pending| >= cfg.batchSize || (w.stopping && w.queue == []) then
        Pipeline.Consumed(cfg, w, t) == Pipeline.Flushed(cfg, w, t)
      else if ready.queue == [] then Pipeline.Consumed(cfg, w, t) == Pipeline.Flushed(cfg, ready, t)
      else
        var taken := Pipeline.Taken(ready);
        Pipeline.Consumed(cfg, w, t)
        == if |taken.pending| >= cfg.batchSize then Pipeline.Flushed(cfg, taken, t) else taken
  {
    hide Pipeline.Flushed;
  }

  // ---------------------------------------------------------------- the writer object

  class DatabaseWriter {

    const cfg: Pipeline.Config
    const queue: ReadingQueue
    const repository: ReadingRepository
    const spool: DurableSpool?

    var pendingBatch: seq<PollResult>
    var stopRequested: bool
    var running: bool
    var successfulBatches: nat
    var failedBatches: nat
    var successfulPollResults: nat
    var failedPollResults: nat
    var insertedReadings: int
    var retryAttempts: nat
    var spooledPollResults: int
    var spoolReplayedPollResults: nat
    var spoolFailedReplays: nat
    var spoolFullFailures: nat
    var lastError: Option<Pipeline.Stage>

    /** What other consumers did with the queue before: items taken from it, and those never acknowledged. */
    ghost const takenBefore: nat
    ghost const orphaned: nat

    /** Threads that timed out and may still act, and the history of the run. */
    ghost var stragglers: seq<Pipeline.Straggler>
    ghost var batches: seq<seq<WorkerPollResult>>
    ghost var lost: seq<seq<WorkerPollResult>>
    ghost var log: seq<WorkerPollResult>

    ghost predicate Valid()
      reads this, queue, repository, spool
      ensures Valid() ==> cfg.Valid() && queue.Valid() && (cfg.hasSpool <==> spool != null)
    {
      && cfg.Valid()
      && queue.Valid() && queue.maxSize == cfg.queueCapacity
      && takenBefore <= |queue.removed|
      && queue.unfinished == |queue.items| + |pendingBatch| + orphaned
      && repository.catalog == cfg.catalog
      && (cfg.hasSpool <==> spool != null)
      && (spool != null ==> spool.Valid() && spool.maxItems == cfg.spoolCapacity)
    }

    ghost function View(): (w: World)
      reads this, queue, repository, spool
      ensures w.queue == queue.items && w.pending == pendingBatch && w.stopping == stopRequested
    {
      Pipeline.World(
        queue.items, queue.unfinished - orphaned, pendingBatch, stopRequested, repository.View(),
        if spool == null then [] else spool.entries, stragglers,
        Pipeline.Counters(successfulBatches, failedBatches, successfulPollResults, failedPollResults, insertedReadings,
          retryAttempts, spooledPollResults, spoolReplayedPollResults, spoolFailedReplays,
          spoolFullFailures, lastError),
        Pipeline.Ledger(Since(queue.accepted, takenBefore), Since(queue.removed, takenBefore), batches, lost, log))
    }

    constructor (cfg: Pipeline.Config, queue: ReadingQueue, repository: ReadingRepository, spool: DurableSpool?)
      requires cfg.Valid() && queue.Valid() && queue.maxSize == cfg.queueCapacity
      requires queue.Accounted()
      requires repository.catalog == cfg.catalog && (cfg.hasSpool <==> spool != null)
      requires spool != null ==> spool.Valid() && spool.maxItems == cfg.spoolCapacity
      ensures Valid() && !running
      ensures this.cfg == cfg && this.queue == queue && this.repository == repository && this.spool == spool
      ensures View() == Pipeline.Initial(queue.items, repository.View(), if spool == null then [] else spool.entries)
    {
      this.cfg, this.queue, this.repository, this.spool := cfg, queue, repository, spool;
      takenBefore, orphaned := |queue.removed|, queue.unfinished - |queue.items|;
      pendingBatch, stopRequested, running := [], false, false;
      successfulBatches, failedBatches, successfulPollResults, failedPollResults := 0, 0, 0, 0;
      insertedReadings, retryAttempts, spooledPollResults, spoolReplayedPollResults := 0, 0, 0, 0;
      spoolFailedReplays, spoolFullFailures, lastError := 0, 0, None;
      stragglers, batches, lost, log := [], [], [], [];
    }

    // -------------------------------------------------------------- saving

    /** One save attempt under the storage timeout, with the fate the environment gives it. */
    method SaveBatch(batch: seq<WorkerPollResult>, fault: Fault) returns (call: Attempt<nat>)
      requires Valid()
      modifies this`stragglers, this`log, repository
      ensures Valid() && View() == Pipeline.Attempted(cfg, old(View()), batch, fault)
      ensures call.Returned? <==> Pipeline.SaveCall(fault, Storable(cfg.catalog, batch)).Returned?
      ensures call.Returned? ==> call.value == |View().tables.readings| - |old(View()).tables.readings|
      ensures call.Threw? ==> Pipeline.SaveCall(fault, Storable(cfg.catalog, batch)) == Threw(call.failure)
      ensures
        var saved := TakesEffect(fault) && Storable(cfg.catalog, batch);
        && repository.View() == (if saved then SaveAll(cfg.catalog, old(repository.View()), batch)
                                 else old(repository.View()))
        && log == old(log) + (if saved then batch else [])
        && stragglers == old(stragglers) + (if fault == Pipeline.TimesOut then [Pipeline.LateSave(batch)] else [])
        && (call.Returned? <==> saved && fault == Pipeline.Completes)
        && call == match fault
           case Fails(e) => Threw(e)
           case TimesOut => Threw(TimeoutFailure)
           case CommitsThenFails(e) => Threw(if saved then e else StorageFailure)
           case Completes => if saved then Returned(|repository.View().readings| - |old(repository.View()).readings|)
                             else Threw(StorageFailure)
    {
      hide SaveAll, Storable, DurableSpool.Valid, ReadingQueue.Valid, Since;
      match fault {
        case Fails(e) =>
          call := Threw(e);
        case TimesOut =>
          stragglers := stragglers + [Pipeline.LateSave(batch)];
          call := Threw(TimeoutFailure);
        case Completes =>
          var r := repository.SavePollResults(batch);
          if r.Ok? {
            log := log + batch;
            call := Returned(r.value);
          } else {
            call := Threw(StorageFailure);
          }
        case CommitsThenFails(e) =>
          var r := repository.SavePollResults(batch);
          if r.Ok? {
            log := log + batch;
            call := Threw(e);
          } else {
            call := Threw(StorageFailure);
          }
      }
    }

    /** Called before each wait of the retry loop. */
    method RecordRetry()
      requires Valid()
      modifies this`retryAttempts
      ensures Valid() && View() == Pipeline.CountRetry(old(View()))
    {
      hide DurableSpool.Valid, ReadingQueue.Valid, Since;
      retryAttempts := retryAttempts + 1;
    }

    method RecordSaveError()
      requires Valid()
      modifies this`lastError
      ensures Valid() && View() == Pipeline.SaveError(old(View()))
    {
      hide DurableSpool.Valid, ReadingQueue.Valid, Since;
      lastError := Some(Pipeline.SaveStage);
    }

    method RecordInserted(inserted: int, ghost before: World)
      requires Valid() && inserted == |View().tables.readings| - |before.tables.readings|
      modifies this`insertedReadings
      ensures Valid() && View() == Pipeline.CountInserted(old(View()), before)
    {
      hide DurableSpool.Valid, ReadingQueue.Valid, Since;
      insertedReadings := insertedReadings + inserted;
    }

    /** Saves a batch with retries; the retry loop of the writer's policy, written out around the save. */
    method PersistBatch(batch: seq<WorkerPollResult>, faults: seq<Fault>) returns (ok: bool)
      requires Valid()
      modifies this`stragglers, this`log, this`insertedReadings, this`retryAttempts, this`lastError, repository
      ensures Valid() && (View(), ok) == Pipeline.Persist(cfg, old(View()), batch, faults, 0)
    {
      hide Valid, View, Pipeline.Attempted, Pipeline.Persist, Pipeline.SaveCall, Pipeline.CountInserted,
           Pipeline.CountRetry, Pipeline.SaveError, Storable;
      var attempts := 0;
      while attempts < cfg.maxAttempts
        invariant 0 <= attempts < cfg.maxAttempts
        invariant Valid()
        invariant Pipeline.Persist(cfg, View(), batch, faults, attempts)
                  == Pipeline.Persist(cfg, old(View()), batch, faults, 0)
        decreases cfg.maxAttempts - attempts
      {
        var fault := Pipeline.FaultAt(faults, attempts);
        ghost var before := View();
        attempts := attempts + 1;
        PersistCases(cfg, before, batch, faults, attempts - 1);
        var call := SaveBatch(batch, fault);
        match call {
          case Returned(inserted) =>
            RecordInserted(inserted, before);
            return true;
          case Threw(e) =>
            if !IsRetryable(e) || attempts >= cfg.maxAttempts {
              RecordSaveError();
              return false;
            }
            RecordRetry();
        }
      }
      assert false;
    }

    // -------------------------------------------------------------- flushing

    /** One append under the spool timeout, with the fate the environment gives it; None for any failure. */
    method AppendToSpool(batch: seq<PollResult>, fault: Fault, at: Utc) returns (inserted: Option<nat>)
      requires Valid() && spool != null
      modifies this`stragglers, spool
      ensures Valid()
      ensures
        var result := Appended(old(View()).entries, cfg.spoolCapacity, batch, at);
        && View() == old(View()).(
             entries := if TakesEffect(fault) && result.Ok? then result.value else old(View()).entries,
             stragglers := if fault.TimesOut? then old(View()).stragglers + [Pipeline.LateAppend(batch, at)]
                           else old(View()).stragglers)
        && (inserted.Some? <==> fault.Completes? && result.Ok?)
        && (inserted.Some? ==> inserted.value == |result.value| - |old(View()).entries|)
    {
      hide Appended, DurableSpool.Valid, ReadingQueue.Valid, Since;
      inserted := None;
      match fault {
        case Fails(_) =>
        case TimesOut =>
          stragglers := stragglers + [Pipeline.LateAppend(batch, at)];
        case CommitsThenFails(_) =>
          var _ := spool.Append(batch, at);
        case Completes =>
          var r := spool.Append(batch, at);
          if r.Ok? {
            inserted := Some(r.value);
          }
      }
    }

    /** Hands a batch to the spool; any failure counts as a refusal. */
    method SpoolBatch(batch: seq<PollResult>, fault: Fault, at: Utc) returns (confirmed: bool)
      requires Valid()
      modifies this`stragglers, this`spooledPollResults, this`spoolFullFailures, this`lastError, spool
      ensures Valid() && (View(), confirmed) == Pipeline.SpoolBatch(cfg, old(View()), batch, fault, at)
    {
      hide Appended, DurableSpool.Valid, ReadingQueue.Valid, Since;
      if spool == null {
        return false;
      }
      var inserted := AppendToSpool(batch, fault, at);
      if inserted.None? {
        lastError := Some(Pipeline.AppendStage);
        spoolFullFailures := spoolFullFailures + 1;
        return false;
      }
      spooledPollResults := spooledPollResults + inserted.value;
      confirmed := true;
    }

    /** Drops the acknowledged batch and tells the queue about each of its items; the queue never objects. */
    method AckBatch(count: nat)
      requires Valid() && count == |pendingBatch|
      modifies this`pendingBatch, this`batches, queue`unfinished
      ensures Valid() && View() == Pipeline.Acknowledged(old(View()))
    {
      batches := batches + [pendingBatch];
      var acknowledged := 0;
      while acknowledged < count
        invariant 0 <= acknowledged <= count
        invariant queue.Valid() && queue.unfinished == |queue.items| + |pendingBatch| - acknowledged + orphaned
        invariant pendingBatch == old(pendingBatch) && batches == old(batches) + [old(pendingBatch)]
      {
        var ok := queue.TaskDone();
        assert ok;
        acknowledged := acknowledged + 1;
      }
      pendingBatch := pendingBatch[count..];
    }

    /** Counts and acknowledges a batch that is in the database. */
    method SettleSaved(count: nat)
      requires Valid() && count == |pendingBatch|
      modifies this`successfulBatches, this`successfulPollResults, this`lastError, this`pendingBatch,
          this`batches, queue`unfinished
      ensures Valid() && View() == Pipeline.Acknowledged(Pipeline.CountSuccess(old(View())))
    {
      hide DurableSpool.Valid, ReadingQueue.Valid, Since, Pipeline.Acknowledged;
      successfulBatches := successfulBatches + 1;
      successfulPollResults := successfulPollResults + count;
      lastError := None;
      assert View() == Pipeline.CountSuccess(old(View()));
      AckBatch(count);
    }

    /** Counts and acknowledges a batch that the database did not take. */
    method SettleFailed(count: nat, spooled: bool)
      requires Valid() && count == |pendingBatch|
      modifies this`failedBatches, this`failedPollResults, this`lost, this`pendingBatch, this`batches, queue`unfinished
      ensures Valid() && View() == Pipeline.Acknowledged(Pipeline.CountFailure(old(View()), spooled))
    {
      hide DurableSpool.Valid, ReadingQueue.Valid, Since, Pipeline.Acknowledged;
      failedBatches := failedBatches + 1;
      failedPollResults := failedPollResults + count;
      if !spooled {
        lost := lost + [pendingBatch];
      }
      assert View() == Pipeline.CountFailure(old(View()), spooled);
      AckBatch(count);
    }

    method FlushPending(t: Turn)
      requires Valid()
      modifies this, queue`unfinished, repository, spool
      ensures Valid() && View() == Pipeline.Flushed(cfg, old(View()), t) && running == old(running)
    {
      hide Valid, View, Pipeline.Persist, Pipeline.SpoolBatch, Pipeline.Flushed, Pipeline.Acknowledged;
      FlushedCases(cfg, View(), t);
      if pendingBatch == [] {
        return;
      }
      var batch := pendingBatch;
      var persisted := PersistBatch(batch, t.saves);
      if persisted {
        SettleSaved(|batch|);
        return;
      }
      var spooled := SpoolBatch(batch, t.append, t.appendAt);
      SettleFailed(|batch|, spooled);
    }

    // -------------------------------------------------------------- replaying

    /** Deletes replayed entries from the spool. */
    method MarkReplayed(ids: seq<string>, ghost due: seq<Entry>, count: nat, fault: Fault)
      requires Valid() && spool != null && IdSet(ids) == IdsOf(due) && count == |due|
      modifies this`stragglers, this`spoolReplayedPollResults, this`lastError, spool
      ensures Valid() && View() == Pipeline.MarkReplayed(old(View()), due, fault)
    {
      hide Removed, DurableSpool.Valid, ReadingQueue.Valid, Since;
      match fault {
        case Completes =>
          var _ := spool.MarkReplayed(ids);
          spoolReplayedPollResults := spoolReplayedPollResults + count;
        case CommitsThenFails(_) =>
          var _ := spool.MarkReplayed(ids);
          lastError := Some(Pipeline.MarkStage);
        case Fails(_) =>
          lastError := Some(Pipeline.MarkStage);
        case TimesOut =>
          stragglers := stragglers + [Pipeline.LateDelete(IdsOf(due))];
          lastError := Some(Pipeline.MarkStage);
      }
    }

    /** Puts off entries whose replay failed. */
    method MarkFailed(ids: seq<string>, ghost due: seq<Entry>, count: nat, fault: Fault, at: Utc)
      requires Valid() && spool != null && ids != [] && IdSet(ids) == IdsOf(due) && count == |due|
      modifies this`stragglers, this`spoolFailedReplays, this`lastError, spool
      ensures Valid() && View() == Pipeline.MarkFailed(cfg, old(View()), due, fault, at)
    {
      hide Deferred, Removed, IdSet, IdsOf, Later, DurableSpool.Valid, ReadingQueue.Valid, Since;
      match fault {
        case Completes =>
          var r := spool.MarkFailed(ids, cfg.retryDelay, at);
          if r.Ok? {
            spoolFailedReplays := spoolFailedReplays + count;
          } else {
            lastError := Some(Pipeline.MarkStage);
          }
        case CommitsThenFails(_) =>
          var _ := spool.MarkFailed(ids, cfg.retryDelay, at);
          lastError := Some(Pipeline.MarkStage);
        case Fails(_) =>
          lastError := Some(Pipeline.MarkStage);
        case TimesOut =>
          if Later(at, cfg.retryDelay).Ok? {
            stragglers := stragglers + [Pipeline.LateDefer(IdsOf(due), Later(at, cfg.retryDelay).value)];
          }
          lastError := Some(Pipeline.MarkStage);
      }
    }

    /** One replay attempt; true when something was due, whatever became of it. */
    method ReplaySpoolOnce(t: Turn) returns (replayed: bool)
      requires Valid() && pendingBatch == []
      modifies this, repository, spool
      ensures Valid() && running == old(running)
      ensures replayed <==> Pipeline.DueNow(cfg, old(View()), t) != []
      ensures View() == if replayed then Pipeline.Replayed(cfg, old(View()), t, Pipeline.DueNow(cfg, old(View()), t))
                        else Pipeline.FetchNoted(cfg, old(View()), t)
    {
      hide FetchedDue, Pipeline.Persist, Pipeline.MarkReplayed, Pipeline.MarkFailed, DurableSpool.Valid,
          ReadingQueue.Valid, Since;
      if spool == null {
        return false;
      }
      if !t.fetch.Completes? {
        lastError := Some(Pipeline.FetchStage);
        return false;
      }
      var fetched := spool.FetchDue(cfg.replayBatchSize, t.fetchAt);
      ghost var due := FetchedDue(spool.entries, t.fetchAt, cfg.replayBatchSize);
      var entries := fetched.value;
      if entries == [] {
        return false;
      }
      HandedFields(due);
      var pollResults := Map((e: SpoolEntry) => e.pollResult, entries);
      var executionIds := Map((e: SpoolEntry) => e.executionId, entries);
      var persisted := PersistBatch(pollResults, t.saves);
      if persisted {
        MarkReplayed(executionIds, due, |pollResults|, t.mark);
      } else {
        MarkFailed(executionIds, due, |pollResults|, t.mark, t.markAt);
      }
      replayed := true;
    }

    // -------------------------------------------------------------- the loop

    /** A put that lands while the writer waits at an empty queue. */
    method AwaitArrival(t: Turn)
      requires Valid() && TurnValid(t)
      modifies queue`items, queue`unfinished, queue`accepted
      ensures Valid()
      ensures View() == if old(queue.items) == [] && t.arrival.Some? then Pipeline.Arrived(old(View()), t.arrival.value)
                        else old(View())
    {
      hide DurableSpool.Valid;
      if |queue.items| == 0 && t.arrival.Some? {
        queue.Land(t.arrival.value);
      }
    }

    method TakeItem()
      requires Valid() && queue.items != []
      modifies this`pendingBatch, queue`items, queue`removed
      ensures Valid() && View() == Pipeline.Taken(old(View()))
    {
      hide DurableSpool.Valid;
      var item := queue.Get();
      pendingBatch := pendingBatch + [item];
    }

    /** Waits for an item or a stop request, and moves an item that came to the pending batch. */
    method TakeItemOrStop(t: Turn) returns (taken: bool)
      requires Valid() && TurnValid(t)
      modifies this`pendingBatch, queue`items, queue`unfinished, queue`accepted, queue`removed
      ensures Valid() && (taken <==> old(queue.items) != [] || t.arrival.Some?)
      ensures
        var ready := if old(queue.items) == [] && t.arrival.Some? then Pipeline.Arrived(old(View()), t.arrival.value)
                     else old(View());
        View() == if taken then Pipeline.Taken(ready) else ready
    {
      hide Valid, View;
      AwaitArrival(t);
      taken := |queue.items| > 0;
      if taken {
        TakeItem();
      }
    }

    method ConsumeOrFlush(t: Turn)
      requires Valid() && TurnValid(t)
      modifies this, queue, repository, spool
      ensures Valid() && View() == Pipeline.Turned(cfg, old(View()), t) && running == old(running)
    {
      hide Valid, View, Pipeline.Flushed, Pipeline.Replayed, Pipeline.Consumed, Pipeline.Turned, Pipeline.DueNow;
      TurnedCases(cfg, View(), t);
      ConsumedCases(cfg, Pipeline.FetchNoted(cfg, View(), t), t);
      if pendingBatch == [] {
        var replayed := ReplaySpoolOnce(t);
        if replayed {
          return;
        }
      }
      if |pendingBatch| >= cfg.batchSize {
        FlushPending(t);
        return;
      }
      if stopRequested && |queue.items| == 0 {
        FlushPending(t);
        return;
      }
      var taken := TakeItemOrStop(t);
      if !taken {
        FlushPending(t);
        return;
      }
      if |pendingBatch| >= cfg.batchSize {
        FlushPending(t);
      }
    }

    predicate ShouldStop()
      reads this, queue
    {
      stopRequested && |queue.items| == 0 && pendingBatch == []
    }

    method Stop()
      requires Valid()
      modifies this`stopRequested
      ensures Valid() && View() == Pipeline.Step(cfg, old(View()), Pipeline.Stop)
    {
      stopRequested := true;
    }

    /**
     * The loop, watched for `limit` turns. A stop request arrives before the check that precedes turn number
     * `stopAt`. What happens is the turns in order with that one request among them; the loop ends at the
     * first check that finds it stopping and drained, and it is sure to end within the turns owed at the
     * request when those meet the deadline, whatever the database does.
     */
    method Run(ts: nat -> Turn, stopAt: nat, limit: nat, ghost deadline: Utc) returns (r: Result<nat, RunError>)
      requires Valid() && forall i: nat :: TurnValid(ts(i))
      modifies this, queue, repository, spool
      ensures Valid()
      ensures r.Err? <==> old(running)
      ensures r.Err? ==> View() == old(View()) && running
      ensures r.Ok? ==> View() == Pipeline.Run(cfg, old(View()), TurnsAndStop(ts, stopAt, r.value))
      ensures r.Ok? ==> running == !Done(View()) && r.value <= limit && (running ==> r.value == limit)
      ensures r.Ok? ==> forall k: nat :: k < r.value ==>
          !Done(Pipeline.Run(cfg, old(View()), TurnsAndStop(ts, stopAt, k)))
      ensures r.Ok? && InTime(cfg, old(View()), ts, stopAt, deadline) ==>
                limit >= stopAt + Owed(StoppedAt(cfg, old(View()), ts, stopAt), deadline) ==> !running
    {
      hide Pipeline.Turned, Pipeline.Run, Turns, InTime, Progress, Owed, DurableSpool.Valid, ReadingQueue.Valid,
          Since, TurnsAndStop;
      if running {
        return Err(AlreadyRunning);
      }
      running := true;
      ghost var start := View();
      ProgressStarts(cfg, start, ts, stopAt, deadline);
      if stopAt == 0 {
        Stop();
      }
      var i := 0;
      while !ShouldStop() && i < limit
        invariant Valid() && running && i <= limit
        invariant Progress(cfg, start, View(), ts, stopAt, deadline, i)
        decreases limit - i
      {
        ProgressContinues(cfg, start, View(), ts, stopAt, deadline, i);
        ConsumeOrFlush(ts(i));
        i := i + 1;
        if i == stopAt {
          Stop();
        }
      }
      ProgressEnds(cfg, start, View(), ts, stopAt, deadline, i);
      ghost var end := View();
      // The flush on the way out finds nothing pending.
      running := !ShouldStop();
      assert View() == end;
      r := Ok(i);
    }

    /**
     * A stop request and a bounded wait for the loop to end; `turns` are the turns for which the time is
     * enough. The writer is reported drained exactly when nothing is queued or pending, and that is sure when
     * the time is enough for the turns owed.
     */
    method Shutdown(timeout: real, turns: seq<Turn>, ghost deadline: Utc)
      returns (r: Result<WriterShutdown, ShutdownError>, ghost made: nat)
      requires Valid() && forall i :: 0 <= i < |turns| ==> TurnValid(turns[i])
      modifies this, queue, repository, spool
      ensures Valid() && made <= |turns|
      ensures r.Err? <==> timeout <= 0.0
      ensures r.Err? ==> View() == old(View()) && running == old(running)
      ensures r.Ok? ==> View() == Pipeline.Run(cfg, old(View()), [Pipeline.Stop] + Loops(turns[..made]))
      ensures r.Ok? ==> running == (old(running) && !Done(View()))
      ensures r.Ok? ==> r.value == WriterShutdown(Done(View()), |queue.items|, |pendingBatch|)
      ensures r.Ok? && running ==> made == |turns|
      ensures r.Ok? && !old(running) ==> made == 0
      ensures r.Ok? && old(running) && |turns| >= Owed(old(View()), deadline)
              && (forall i :: 0 <= i < |turns| ==> ByDeadline(cfg, turns[i], deadline))
              ==> r.value.drained
    {
      hide Pipeline.Turned, Pipeline.Run, ByDeadline, Owed, Work, DurableSpool.Valid, ReadingQueue.Valid, Since, Loops;
      made := 0;
      if timeout <= 0.0 {
        return Err(InvalidTimeout), made;
      }
      ghost var start := View();
      StoppingOwesTheSame(start, deadline);
      Stop();
      JustStopped(cfg, start, turns);
      if running {
        var i := 0;
        while !ShouldStop() && i < |turns|
          invariant 0 <= i <= |turns| && Valid() && running && stopRequested
          invariant View() == Pipeline.Run(cfg, start, [Pipeline.Stop] + Loops(turns[..i]))
          invariant (forall k :: 0 <= k < |turns| ==> ByDeadline(cfg, turns[k], deadline)) ==>
                      Owed(View(), deadline) + i <= Owed(start, deadline)
        {
          ghost var before := View();
          WorkLeft(before);
          TurnProgress(cfg, before, turns[i]);
          if ByDeadline(cfg, turns[i], deadline) {
            TurnOwesLess(cfg, before, turns[i], deadline);
          }
          NextLoop(cfg, start, turns, i);
          ConsumeOrFlush(turns[i]);
          i := i + 1;
        }
        made := i;
        WorkLeft(View());
        if !Done(View()) {
          OwesSomething(View(), deadline);
        }
        running := !ShouldStop();
      }
      WorkLeft(View());
      r := Ok(WriterShutdown(!running && |queue.items| == 0 && pendingBatch == [], |queue.items|, |pendingBatch|));
    }
  }
}
