/**
 * The store-and-forward pipeline as a state machine: queue, pending batch, database, spool, and the
 * operations that timed out but may still take effect. Every storage operation may succeed, fail,
 * take effect and fail, or time out; nothing is assumed about when.
 */
module Pipeline {

  import opened Results
  import opened Text
  import opened Timestamps
  import opened Domain
  import opened Lists
  import opened Repository
  import opened Spool
  import opened Retry

  type Item = WorkerPollResult

  // ---------------------------------------------------------------- state

  datatype Config = Config(
    batchSize: nat,
    replayBatchSize: nat,
    maxAttempts: nat,
    hasSpool: bool,
    spoolCapacity: nat,
    retryDelay: nat,
    queueCapacity: nat,
    catalog: Catalog)
  {
    predicate Valid() {
      batchSize > 0 && replayBatchSize > 0 && maxAttempts > 0 && spoolCapacity > 0 && queueCapacity > 0
    }
  }

  /** Where the last reported error came from. */
  datatype Stage = SaveStage | AppendStage | FetchStage | MarkStage

  datatype Counters = Counters(
    successfulBatches: nat,
    failedBatches: nat,
    successfulItems: nat,
    failedItems: nat,
    insertedReadings: int,
    retryAttempts: nat,
    spooledItems: int,
    replayedItems: nat,
    failedReplays: nat,
    spoolRefusals: nat,
    lastError: Option<Stage>)

  const NO_COUNTS := Counters(0, 0, 0, 0, 0, 0, 0, 0, 0, 0, None)

  /** A timed-out operation whose thread is still running. */
  datatype Straggler =
    | LateSave(batch: seq<Item>)
    | LateAppend(items: seq<Item>, at: Utc)
    | LateDelete(ids: set<string>)
    | LateDefer(deferred: set<string>, until: Utc)

  /** History: what arrived, what the writer took, how it was batched, what the spool refused, what was committed. */
  datatype Ledger = Ledger(
    arrived: seq<Item>,
    taken: seq<Item>,
    batches: seq<seq<Item>>,
    lost: seq<seq<Item>>,
    log: seq<Item>)

  datatype World = World(
    queue: seq<Item>,
    unfinished: int,
    pending: seq<Item>,
    stopping: bool,
    tables: Tables,
    entries: seq<Entry>,
    stragglers: seq<Straggler>,
    counters: Counters,
    ledger: Ledger)

  // ---------------------------------------------------------------- faults

  /** What the environment does to one storage operation. */
  datatype Fault = Completes | Fails(failure: Failure) | CommitsThenFails(late: Failure) | TimesOut

  function FaultAt(faults: seq<Fault>, k: nat): Fault {
    if k < |faults| then faults[k] else Completes
  }

  /** How one save attempt looks to the retry loop; an unstorable batch is a storage error of its own. */
  function SaveCall(f: Fault, storable: bool): Attempt<()> {
    match f
    case Fails(e) => Threw(e)
    case TimesOut => Threw(TimeoutFailure)
    case Completes => if storable then Returned(()) else Threw(StorageFailure)
    case CommitsThenFails(e) => if storable then Threw(e) else Threw(StorageFailure)
  }

  // ---------------------------------------------------------------- saving a batch

  function Commit(cfg: Config, w: World, batch: seq<Item>): World {
    if Storable(cfg.catalog, batch) then
      w.(tables := SaveAll(cfg.catalog, w.tables, batch), ledger := w.ledger.(log := w.ledger.log + batch))
    else w
  }

  /** The effect of one save attempt on the database and on the set of stragglers. */
  function Attempted(cfg: Config, w: World, batch: seq<Item>, f: Fault): World {
    match f
    case Fails(_) => w
    case TimesOut => w.(stragglers := w.stragglers + [LateSave(batch)])
    case Completes => Commit(cfg, w, batch)
    case CommitsThenFails(_) => Commit(cfg, w, batch)
  }

  function CountInserted(after: World, before: World): World {
    after.(counters := after.counters.(
      insertedReadings := after.counters.insertedReadings + |after.tables.readings| - |before.tables.readings|))
  }

  function CountRetry(w: World): World {
    w.(counters := w.counters.(retryAttempts := w.counters.retryAttempts + 1))
  }

  function SaveError(w: World): World {
    w.(counters := w.counters.(lastError := Some(SaveStage)))
  }

  /** The retry loop around the save, from attempt number `k` on. */
  function Persist(cfg: Config, w: World, batch: seq<Item>, faults: seq<Fault>, k: nat): (World, bool)
    requires k < cfg.maxAttempts
    decreases cfg.maxAttempts - k
  {
    var f := FaultAt(faults, k);
    var after := Attempted(cfg, w, batch, f);
    match SaveCall(f, Storable(cfg.catalog, batch))
    case Returned(_) => (CountInserted(after, w), true)
    case Threw(e) =>
      if !IsRetryable(e) || k + 1 >= cfg.maxAttempts then (SaveError(after), false)
      else Persist(cfg, CountRetry(after), batch, faults, k + 1)
  }

  // ---------------------------------------------------------------- flushing

  function AppendRefused(w: World): World {
    w.(counters := w.counters.(lastError := Some(AppendStage), spoolRefusals := w.counters.spoolRefusals + 1))
  }

  /** Hands a batch to the spool; the flag says whether the spool confirmed it. */
  function SpoolBatch(cfg: Config, w: World, batch: seq<Item>, f: Fault, at: Utc): (World, bool) {
    if !cfg.hasSpool then (w, false)
    else
      var result := Spool.Appended(w.entries, cfg.spoolCapacity, batch, at);
      match f
      case Fails(_) => (AppendRefused(w), false)
      case TimesOut => (AppendRefused(w.(stragglers := w.stragglers + [LateAppend(batch, at)])), false)
      case CommitsThenFails(_) =>
        (AppendRefused(if result.Ok? then w.(entries := result.value) else w), false)
      case Completes =>
        if result.Ok? then
          (w.(entries := result.value,
              counters := w.counters.(spooledItems := w.counters.spooledItems + |result.value| - |w.entries|)), true)
        else (AppendRefused(w), false)
  }

  /** Acknowledges the whole pending batch. */
  function Acknowledged(w: World): World {
    w.(unfinished := w.unfinished - |w.pending|, pending := [],
       ledger := w.ledger.(batches := w.ledger.batches + [w.pending]))
  }

  function CountSuccess(w: World): World {
    w.(counters := w.counters.(
      successfulBatches := w.counters.successfulBatches + 1,
      successfulItems := w.counters.successfulItems + |w.pending|,
      lastError := None))
  }

  function CountFailure(w: World, spooled: bool): World {
    w.(counters := w.counters.(
         failedBatches := w.counters.failedBatches + 1,
         failedItems := w.counters.failedItems + |w.pending|),
       ledger := if spooled then w.ledger else w.ledger.(lost := w.ledger.lost + [w.pending]))
  }

  /** Everything the environment decides during one turn of the writer's loop. */
  datatype Turn = Turn(
    fetch: Fault,
    fetchAt: Utc,
    saves: seq<Fault>,
    append: Fault,
    appendAt: Utc,
    mark: Fault,
    markAt: Utc,
    arrival: Option<Item>)

  function Flushed(cfg: Config, w: World, t: Turn): World
    requires cfg.Valid()
  {
    if w.pending == [] then w
    else
      var (saved, ok) := Persist(cfg, w, w.pending, t.saves, 0);
      if ok then Acknowledged(CountSuccess(saved))
      else
        var (stored, spooled) := SpoolBatch(cfg, saved, w.pending, t.append, t.appendAt);
        Acknowledged(CountFailure(stored, spooled))
  }

  // ---------------------------------------------------------------- replaying

  function ItemsOf(entries: seq<Entry>): seq<Item> {
    Map((e: Entry) => e.item, entries)
  }

  function MarkError(w: World): World {
    w.(counters := w.counters.(lastError := Some(MarkStage)))
  }

  /** Deletes replayed entries. */
  function MarkReplayed(w: World, due: seq<Entry>, f: Fault): World {
    var without := w.(entries := Removed(w.entries, IdsOf(due)));
    match f
    case Completes => without.(counters := w.counters.(replayedItems := w.counters.replayedItems + |due|))
    case CommitsThenFails(_) => MarkError(without)
    case Fails(_) => MarkError(w)
    case TimesOut => MarkError(w.(stragglers := w.stragglers + [LateDelete(IdsOf(due))]))
  }

  /** Puts off entries whose replay failed. */
  function MarkFailed(cfg: Config, w: World, due: seq<Entry>, f: Fault, at: Utc): World {
    var until := Later(at, cfg.retryDelay);
    if until.Err? then MarkError(w)
    else
      var later := w.(entries := Deferred(w.entries, IdsOf(due), until.value));
      match f
      case Completes => later.(counters := w.counters.(failedReplays := w.counters.failedReplays + |due|))
      case CommitsThenFails(_) => MarkError(later)
      case Fails(_) => MarkError(w)
      case TimesOut => MarkError(w.(stragglers := w.stragglers + [LateDefer(IdsOf(due), until.value)]))
  }

  function Replayed(cfg: Config, w: World, t: Turn, due: seq<Entry>): World
    requires cfg.Valid()
  {
    var (saved, ok) := Persist(cfg, w, ItemsOf(due), t.saves, 0);
    if ok then MarkReplayed(saved, due, t.mark) else MarkFailed(cfg, saved, due, t.mark, t.markAt)
  }

  /** What the replay step of this turn fetches; nothing unless the pending batch is empty and the fetch works. */
  function DueNow(cfg: Config, w: World, t: Turn): seq<Entry> {
    if w.pending == [] && cfg.hasSpool && t.fetch.Completes? then FetchedDue(w.entries, t.fetchAt, cfg.replayBatchSize)
    else []
  }

  // ---------------------------------------------------------------- one turn of the loop

  function FetchNoted(cfg: Config, w: World, t: Turn): World {
    if w.pending == [] && cfg.hasSpool && !t.fetch.Completes? then
      w.(counters := w.counters.(lastError := Some(FetchStage)))
    else w
  }

  function Arrived(w: World, item: Item): World {
    w.(queue := w.queue + [item], unfinished := w.unfinished + 1,
       ledger := w.ledger.(arrived := w.ledger.arrived + [item]))
  }

  function Taken(w: World): World
    requires w.queue != []
  {
    w.(queue := w.queue[1..], pending := w.pending + [w.queue[0]],
       ledger := w.ledger.(taken := w.ledger.taken + [w.queue[0]]))
  }

  /** The part of the turn that consumes or flushes, when nothing was replayed. */
  function Consumed(cfg: Config, w: World, t: Turn): World
    requires cfg.Valid()
  {
    if |w.pending| >= cfg.batchSize || (w.stopping && w.queue == []) then Flushed(cfg, w, t)
    else
      var ready := if w.queue == [] && t.arrival.Some? then Arrived(w, t.arrival.value) else w;
      if ready.queue == [] then Flushed(cfg, ready, t)
      else
        var taken := Taken(ready);
        if |taken.pending| >= cfg.batchSize then Flushed(cfg, taken, t) else taken
  }

  function Turned(cfg: Config, w: World, t: Turn): World
    requires cfg.Valid()
  {
    var due := DueNow(cfg, w, t);
    if due != [] then Replayed(cfg, w, t, due) else Consumed(cfg, FetchNoted(cfg, w, t), t)
  }

  // ---------------------------------------------------------------- stragglers and whole runs

  /** A timed-out operation takes effect after all; by then it may be refused. */
  function Landed(cfg: Config, w: World, s: Straggler): World {
    match s
    case LateSave(batch) => Commit(cfg, w, batch)
    case LateAppend(items, at) =>
      var result := Spool.Appended(w.entries, cfg.spoolCapacity, items, at);
      if result.Ok? then w.(entries := result.value) else w
    case LateDelete(ids) => w.(entries := Removed(w.entries, ids))
    case LateDefer(ids, until) => w.(entries := Deferred(w.entries, ids, until))
  }

  datatype Event = Put(item: Item) | Stop | Loop(turn: Turn) | Lands(which: nat)

  function Step(cfg: Config, w: World, e: Event): World
    requires cfg.Valid()
  {
    match e
    case Put(item) => if |w.queue| < cfg.queueCapacity then Arrived(w, item) else w
    case Stop => w.(stopping := true)
    case Loop(t) => Turned(cfg, w, t)
    case Lands(k) =>
      if k < |w.stragglers| then
        Landed(cfg, w.(stragglers := w.stragglers[..k] + w.stragglers[k + 1..]), w.stragglers[k])
      else w
  }

  function Run(cfg: Config, w: World, events: seq<Event>): World
    requires cfg.Valid()
  {
    if events == [] then w else Step(cfg, Run(cfg, w, events[..|events| - 1]), events[|events| - 1])
  }

  /** A writer just created over a queue that may hold items, a database and a spool that may hold earlier data. */
  function Initial(queue: seq<Item>, tables: Tables, entries: seq<Entry>): World {
    World(queue, |queue|, [], false, tables, entries, [], NO_COUNTS, Ledger(queue, [], [], [], []))
  }

  // ---------------------------------------------------------------- invariant

  /** Where everything comes from: all items there can be, the tables at start, the items spooled at start. */
  datatype Origin = Origin(universe: set<Item>, tables: Tables, spooled: seq<Item>)

  ghost predicate Known(o: Origin, w: World, x: Item) {
    x in o.spooled || x in w.ledger.taken
  }

  ghost predicate AllKnown(o: Origin, w: World, items: seq<Item>) {
    forall x :: x in items ==> Known(o, w, x)
  }

  ghost predicate Logged(w: World, id: string) {
    exists x :: x in w.ledger.log && x.Id() == id
  }

  ghost predicate StragglerSound(o: Origin, w: World, s: Straggler) {
    match s
    case LateSave(batch) => AllKnown(o, w, batch)
    case LateAppend(items, _) => AllKnown(o, w, items)
    case LateDelete(ids) => forall id :: id in ids ==> Logged(w, id)
    case LateDefer(_, _) => true
  }

  /** Queue bookkeeping: every item taken is in exactly one flushed batch or still pending, in order. */
  ghost predicate Balanced(cfg: Config, w: World) {
    && w.unfinished == |w.queue| + |w.pending|
    && |w.queue| <= cfg.queueCapacity
    && w.ledger.arrived == w.ledger.taken + w.queue
    && w.ledger.taken == Flat(w.ledger.batches) + w.pending
    && (forall b :: b in w.ledger.batches ==> 1 <= |b| <= cfg.batchSize)
    && |w.ledger.batches| == w.counters.successfulBatches + w.counters.failedBatches
    && |Flat(w.ledger.batches)| == w.counters.successfulItems + w.counters.failedItems
  }

  /** Refusals are counted: with a spool, one for each batch it did not confirm; without, every failed batch. */
  ghost predicate LossesCounted(cfg: Config, w: World) {
    && |w.ledger.lost| == (if cfg.hasSpool then w.counters.spoolRefusals else w.counters.failedBatches)
    && (forall b :: b in w.ledger.lost ==> b in w.ledger.batches)
  }

  ghost predicate SpoolBounded(cfg: Config, o: Origin, w: World) {
    && DistinctEntries(w.entries)
    && |w.entries| <= (if |o.spooled| < cfg.spoolCapacity then cfg.spoolCapacity else |o.spooled|)
  }

  /** Nothing appears from nowhere, and the database is the committed log. */
  ghost predicate Grounded(cfg: Config, o: Origin, w: World) {
    && w.tables == SaveAll(cfg.catalog, o.tables, w.ledger.log)
    && AllKnown(o, w, w.ledger.log)
    && (forall x :: x in w.ledger.log ==> ItemStorable(cfg.catalog, x))
    && (forall e :: e in w.entries ==> Known(o, w, e.item))
    && (forall s :: s in w.stragglers ==> StragglerSound(o, w, s))
    && (forall x :: x in o.spooled || x in w.ledger.arrived ==> x in o.universe)
  }

  ghost predicate Spooled(w: World, x: Item) {
    HoldsItem(w.entries, x)
  }

  /** Pending, committed, spooled, or in a batch the spool did not confirm. */
  ghost predicate Accounted(w: World, x: Item) {
    x in w.pending || x in w.ledger.log || Spooled(w, x) || x in Flat(w.ledger.lost)
  }

  ghost predicate NothingLost(o: Origin, w: World) {
    forall x :: Known(o, w, x) ==> Accounted(w, x)
  }

  ghost predicate Inv(cfg: Config, o: Origin, w: World) {
    && Balanced(cfg, w)
    && LossesCounted(cfg, w)
    && SpoolBounded(cfg, o, w)
    && Grounded(cfg, o, w)
    && NothingLost(o, w)
  }

  /** The loop head: no full batch is waiting. */
  ghost predicate AtRest(cfg: Config, o: Origin, w: World) {
    Inv(cfg, o, w) && |w.pending| < cfg.batchSize
  }
}
