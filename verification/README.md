# Verified model of the PLC gateway's storage pipeline

This project models, in Dafny, how the gateway moves poll results from its connection workers to the
database, and proves what that machinery keeps under failures.

- **Store and forward.** A bounded queue feeds a batching writer, which saves each batch in one transaction,
  retries, and falls back on a durable spool that it replays later. `Pipeline` is the state machine (queue,
  pending batch, tables, spool, timed-out threads, counters, history). Every storage operation may complete,
  fail without effect, take effect and report failure, or time out and take effect later, or never.
  `PipelineSafety` proves what every run keeps, and `PipelineInterleaved` proves it again with every turn cut at
  each point where the writer waits. `PipelineDrain` bounds drains, and `PipelineExact` says exactly when they are
  sure. `PipelineSteps` says what single steps leave in database, spool and counters, from their inputs alone.
  `Writer` is the writer object; each of its methods is proved to do exactly what the state
  machine says, so the theorems about runs are theorems about the object.
- **Storage.** `Repository` (both tables, with conflict rules and event ids), `Spool` (the rows as text and
  JSON, and the object over them), `ReadingQueue`.
- **Encoding.** `Codec` and `Base64` (the JSON tree of a poll result and back), `Timestamps` (calendar,
  time zones, ISO text, its order), `Domain` (value objects with their validation and normalisation).
- **Running.** `Scheduler` (a fixed grid with missed-cycle accounting), `Retry` (backoff and the retry loop),
  `ConnectionWorker` (life cycle and counters).
- **Credits.** The dependency closure behind the credits file.
- `Text`, `Lists` and `Results` hold general facts used by the rest.

Objects that the source updates in place are classes here, with methods proved against functions on values;
value objects and pure helpers are datatypes and functions. Lemmas then speak about the functions.

Hypotheses that appear in the statements:

- `IdDeterminesContent`: one execution id stands for one content (ids are random per poll).
- `AllWithin`: the items that arrive come from the universe to which that applies.
- `TurnValid`: what enters the queue was built by the domain constructors.
- `AllValid` on driver answers: tag results were built by the domain constructors.

Two things the source is expected to do turn out to depend on conditions, and the model states them exactly:

- *Draining.* A stop request does not by itself make the writer finish: each turn with an empty pending batch
  replays before it consumes, so entries that keep falling due starve the queue. This also happens at usable
  replay delays, the default of one second included: during a database outage in which turns take longer than
  the delay, every turn finds what the turn before put off due again (`OutpacedStarves`,
  `DefaultDelayExample`). `DrainExactIn` says when a drain is sure: while the clock stays in a window, if and
  only if there is no spool, or the delay outlasts the window and does not overflow. `DrainExactSteadily` says
  that a clock which does not go back within a turn cannot starve the queue for ever, if and only if there is no
  spool, or the delay is positive and does not overflow; with a delay of zero or one that overflows, which the
  writer accepts, it can (`ZeroDelayExample`, `OverflowingDelayExample`). `DrainsByDeadline`,
  `DrainsWithLandings` and `DrainsWhenHealthy` bound the number of turns.
- *Poll counters.* `poll_attempts = poll_successes + poll_failures` fails when an attempted poll ends in a
  rejected execution record or a rejected stand-in result. `PollsBalance` says the balance holds if and only
  if every poll meets `PollCompletes`: the clock did not go back, the driver gave at most one result per tag,
  and, when the read failed for good, the error's code and text and the tag ids are not blank. `ClockGoesBack`
  is a call after which the balance does not hold.

## Model

| member | source | states |
|---|---|---|
| PipelineSafety.NoSilentLoss | src/plc_gateway/persistence/writer.py:254-357 | For every sequence of puts, stops, turns with arbitrary faults and late landings: each item taken from the queue or found in the spool is pending, in both tables with its own contents, in the spool, or in a flushed batch the spool did not confirm; the number of such batches is the refusal counter (or the failed-batch counter without a spool) |
| PipelineSafety.DeletionsAreCommitted | src/plc_gateway/persistence/writer.py:313-342 | After any reachable state and any next step, an item that left the spool is in the database with its own contents, also when the deletion is a timed-out one that lands late |
| PipelineSafety.FaultsLeaveNoTrace | src/plc_gateway/persistence/writer.py:218-357 | If a run ends with queue, pending batch and spool empty and nothing refused by the spool, both tables equal those of the fault-free run that saves what was spooled at start and then each arrived item once, in order |
| PipelineSafety.FaultSchedulesAgree | src/plc_gateway/persistence/writer.py:218-357 | Two runs with the same arrivals and different fault schedules and interleavings that both end settled have equal tables |
| PipelineSafety.RunKeepsInv | src/plc_gateway/persistence/writer.py:151-376 | Every run keeps the whole invariant: queue bookkeeping, loss accounting, spool bound, tables equal to the committed log, and at each loop head no full batch waiting |
| PipelineSafety.StepKeepsInv | src/plc_gateway/persistence/writer.py:218-376 | Each single step (put, stop, turn, late landing) keeps that invariant |
| PipelineSafety.QueueBalance | src/plc_gateway/persistence/writer.py:254-276 | At every loop head: unfinished = queued + pending; the flushed batches joined with the pending batch and the queue are exactly the arrivals in order; batch sizes are 1 to the batch size; items taken = successful + failed + pending |
| PipelineSafety.SpoolStaysBounded | src/plc_gateway/persistence/spool.py:62-119 | In every reachable state, late appends included, the spool holds at most max(limit, entries at start) entries, with distinct ids |
| PipelineSafety.PersistSaves | src/plc_gateway/persistence/writer.py:278-296 | Whatever faults the retry loop meets, it changes tables, log, stragglers and its own counters only; success means every item of the batch is committed; retries stay under the attempt limit |
| PipelineSafety.PersistSucceedsExactly | src/plc_gateway/persistence/writer.py:278-296 | A save reports success iff the batch is storable and an attempt that the loop reaches completes; one unstorable item keeps its whole batch out of the tables whatever the faults |
| PipelineSafety.FlushedKeepsInv | src/plc_gateway/persistence/writer.py:254-276 | A flush, through either fallback, keeps the invariant and leaves nothing pending |
| PipelineSafety.ReplayedKeepsInv | src/plc_gateway/persistence/writer.py:313-357 | A replay of spooled entries, whatever its save and its mark do, keeps the invariant and the pending batch |
| PipelineSafety.LandedKeepsInv | src/plc_gateway/persistence/writer.py:359-363 | A save, append, deletion or deferral that timed out and takes effect at any later point keeps the invariant |
| PipelineSteps.PollsReadBack | src/plc_gateway/persistence/writer.py:254-357 | In every reachable state each valid poll whose rows were new and that was spooled at start or taken can be read back from the tables field by field, or is pending, spooled, or in a batch the spool did not confirm; in a settled state every one that arrived can be read back |
| PipelineSteps.SaveFaultsAgree | src/plc_gateway/persistence/writer.py:359-363 | A save attempt that commits and then reports failure leaves the state of one that completes, and so does one that times out once its save lands; for a storable batch that is the saved tables and the batch in the log; a refused attempt changes nothing |
| PipelineSteps.PersistExactly | src/plc_gateway/persistence/writer.py:278-296 | Where the retry loop stops, by the faults alone; afterwards the batch is in the tables iff it is storable and an attempt made took effect, success means the last attempt completed, each wait is counted, each timeout leaves one save running, and inserted readings are counted iff the success is what inserted them |
| PipelineSteps.SpoolExactly | src/plc_gateway/persistence/writer.py:298-311 | The spool confirms iff there is one, the append completes, and the unseen items have distinct ids and fit; then, and after an append that takes effect but reports failure, it holds one new entry per unseen item; every other outcome counts one refusal |
| PipelineSteps.LateSpoolWorkAgrees | src/plc_gateway/persistence/spool.py:62-194 | A timed-out append, deletion or deferral that lands leaves the entries of a completed one |
| PipelineSteps.FlushExactly | src/plc_gateway/persistence/writer.py:254-276 | A flush acknowledges the pending batch once; it counts as a success iff the batch is storable and the last attempt completes, and otherwise as a failure whose batch is in the spool or recorded as lost; tables, spool, every counter and the last error in each case |
| PipelineSteps.DueNowExactly | src/plc_gateway/persistence/writer.py:313-322 | Something is replayed iff nothing is pending, there is a spool, the fetch completes and an entry is due by the clock |
| PipelineSteps.ReplayExactly | src/plc_gateway/persistence/writer.py:313-357 | A replay saves the items fetched; on success the entries leave the spool iff the deletion takes effect, otherwise they stay, put off by the delay iff the deferral takes effect within the calendar; queue and pending batch stay; what is counted in each case |
| PipelineSteps.TurnExactly | src/plc_gateway/persistence/writer.py:218-252 | A turn that replays nothing takes the oldest queued item, or one that arrives while a writer that is not stopping waits, flushes iff that fills the batch, and with nothing to take flushes what is pending |
| PipelineSteps.PutExactly | src/plc_gateway/persistence/writer.py:170-172 | A put appends to the queue iff there is room, a stop request sets the flag; nothing else changes |
| PipelineInterleaved.InterleavedNoSilentLoss | src/plc_gateway/persistence/writer.py:254-363 | The same as NoSilentLoss with each turn cut at every await: at every point, with puts, stop requests and late landings between any two save attempts, between a save and its mark and between a failed save and its append |
| PipelineInterleaved.InterleavedFaultsLeaveNoTrace | src/plc_gateway/persistence/writer.py:254-363 | The same as FaultsLeaveNoTrace for these finer runs, wherever they stop |
| PipelineInterleaved.ActKeepsSound | src/plc_gateway/persistence/writer.py:254-363 | Each single step, and each outside event at any wait, keeps the invariant and what the writer relies on while it waits: the batch is known, the pending batch is the one being saved, replayed entries are committed |
| PipelineInterleaved.TurnIsActions | src/plc_gateway/persistence/writer.py:218-357 | A whole turn is its fetch, attempts, append or mark in order with nothing in between, so the finer steps allow every run of whole turns |
| PipelineDrain.TurnProgress | src/plc_gateway/persistence/writer.py:218-236 | After a stop request a turn reduces 2·queue + pending iff its replay step finds nothing due; otherwise that measure is unchanged |
| PipelineDrain.DeadlineTurnDecreases | src/plc_gateway/persistence/writer.py:218-357 | Under arbitrary database failures, a turn whose fetch is by the deadline and whose mark takes effect past it decreases (2·queue + pending, entries due by the deadline) lexicographically |
| PipelineDrain.HealthyTurnDecreases | src/plc_gateway/persistence/writer.py:218-357 | With saves completing and marks taking effect, a turn raises neither 2·queue + pending nor the stored entries and lowers their sum, for any clock |
| PipelineExact.DrainExactIn | src/plc_gateway/persistence/writer.py:218-357 | While the clock stays between two readings, in any order, and spool marks take effect: every stopping state drains, whatever else fails, iff there is no spool, or the first reading plus the replay delay is after the second and the second plus the delay is before the end of the calendar; otherwise some run of a new writer never drains |
| PipelineExact.DrainExact | src/plc_gateway/persistence/writer.py:218-357 | The case of a clock that stands still: a positive delay, and clock reading plus delay before the end of the calendar |
| PipelineExact.DrainExactSteadily | src/plc_gateway/persistence/writer.py:218-357 | When the clock does not go back between a fetch and its mark and never passes a given reading: every stopping state drains iff there is no spool, or the delay is positive and that reading plus the delay is before the end of the calendar; so with a usable delay starvation lasts no longer than the outage and the calendar allow |
| PipelineExact.SureToDrain | src/plc_gateway/persistence/writer.py:158-161 | The sufficient half of the window condition for a given state and given turns |
| PipelineDrain.DrainsByDeadline | src/plc_gateway/persistence/writer.py:158-161 | Under arbitrary database failures a stopping writer has drained after 3·queue + 2·pending + due entries (plus the items and ids of late operations) turns; only those turns need to fetch by the deadline and mark past it |
| PipelineDrain.DrainsWithin | src/plc_gateway/persistence/writer.py:158-161 | The same bound as a plain number when nothing is running late: queue and pending batch are empty after three turns per queued item, two per pending item and one per entry due by the deadline |
| PipelineDrain.DrainsWithLandings | src/plc_gateway/persistence/writer.py:158-161 | The same bound when timed-out saves, appends, deletions and deferrals take effect anywhere between the turns |
| PipelineDrain.TurnOwesLess | src/plc_gateway/persistence/writer.py:218-357 | Each such turn lowers that bound |
| PipelineDrain.DrainsWhenHealthy | src/plc_gateway/persistence/writer.py:158-161 | With saves completing and marks taking effect, any clock, and late operations landing between turns: drained after 2·queue + pending + stored entries (plus the items and ids of late operations) turns |
| PipelineDrain.StarvationExact | src/plc_gateway/persistence/writer.py:218-236 | Over n turns a stopping writer with work left makes no progress iff each of those turns finds something due to replay |
| PipelineExact.OutpacedStarves | src/plc_gateway/persistence/writer.py:313-357 | With any replay delay: during an outage in which each fetch comes after what the turn before put off is due again, no number of turns touches the queue |
| PipelineExact.ZeroDelayExample | src/plc_gateway/persistence/writer.py:151-161 | A concrete start, one put and a stop request, at replay delay 0: never drained |
| PipelineExact.OverflowingDelayExample | src/plc_gateway/persistence/writer.py:344-357 | The same at a positive delay that leads past the last timestamp |
| PipelineExact.DefaultDelayExample | src/plc_gateway/persistence/writer.py:313-357 | The same start at the default delay of one second with a clock that moves two seconds per turn: the item stays queued for as many turns of an outage as the calendar has room for |
| Writer.DatabaseWriter.constructor | src/plc_gateway/persistence/writer.py:97-149 | A new writer is the initial state of the state machine over the queue, tables and spool it is given; the queue may hold items and may have had other consumers |
| Writer.DatabaseWriter.Run | src/plc_gateway/persistence/writer.py:151-168 | Refused iff already running, without effect; otherwise, watched for any number of turns, exactly the given turns in order with one stop request before the given check; it ends at the first check that finds the writer stopping and drained and not before, and is sure to end within the turns owed at the request when those are in time |
| Writer.DatabaseWriter.Stop | src/plc_gateway/persistence/writer.py:170-172 | The stop step of the state machine |
| Writer.DatabaseWriter.Shutdown | src/plc_gateway/persistence/writer.py:174-191 | Refused iff the timeout is not positive, without effect; otherwise a stop request followed by the turns the time is enough for, fewer only if drained; reported drained iff nothing is queued or pending, which is sure when the turns include those owed; both sizes reported; a writer that is not running only gets the request |
| Writer.DatabaseWriter.ConsumeOrFlush | src/plc_gateway/persistence/writer.py:218-236 | One turn of the object is one turn of the state machine: replay first when nothing is pending, then flush or consume |
| Writer.DatabaseWriter.TakeItemOrStop | src/plc_gateway/persistence/writer.py:238-252 | The oldest queued item, or one that arrives while waiting, moves to the end of the pending batch; nothing moves otherwise |
| Writer.DatabaseWriter.FlushPending | src/plc_gateway/persistence/writer.py:254-276 | The object's whole new state is the flushed state of the state machine, for every fault of saves and append |
| Writer.DatabaseWriter.PersistBatch | src/plc_gateway/persistence/writer.py:278-296 | The retry loop over real saves reaches exactly the state and verdict of the recursive specification |
| Writer.DatabaseWriter.SpoolBatch | src/plc_gateway/persistence/writer.py:298-311 | Confirmed only on a completed append; every other outcome, late or committed, counts one refusal |
| Writer.DatabaseWriter.ReplaySpoolOnce | src/plc_gateway/persistence/writer.py:313-357 | True iff something was due, whatever became of it; the new state is the replayed state over exactly the oldest due entries |
| Writer.DatabaseWriter.MarkReplayed | src/plc_gateway/persistence/writer.py:332-342 | Deletes exactly the replayed entries and counts them only when confirmed |
| Writer.DatabaseWriter.MarkFailed | src/plc_gateway/persistence/writer.py:344-357 | Defers exactly the failed entries and counts them only when confirmed |
| Writer.DatabaseWriter.SaveBatch | src/plc_gateway/persistence/writer.py:359-363 | One attempt: a storable batch is in the tables and the log afterwards iff its fault is to complete or to commit and then fail, whatever is reported; a timeout leaves the save running; the call returns iff a storable save completes, with the growth of the readings table, and otherwise raises what the fault says, or a storage error for an unstorable batch |
| Writer.DatabaseWriter.AckBatch | src/plc_gateway/persistence/writer.py:373-376 | Drops the pending batch and acknowledges each item; the queue never objects to an acknowledgement |
| Spool.AppendedHoldsBatch | src/plc_gateway/persistence/spool.py:62-119 | After a successful append every item of the batch is spooled, no old entry is lost, new entries are items of the batch with no retries and due now, and ids stay distinct |
| Spool.AppendSucceedsExactly | src/plc_gateway/persistence/spool.py:62-119 | An append succeeds iff the batch is empty, or its unseen items have distinct ids and with the stored ones number at most the limit; it is refused as full iff they number more |
| Spool.SpoolConserves | src/plc_gateway/persistence/spool.py:62-206 | Over any sequence of appends, deletions and deferrals: stored = count at open + unseen items of the appended batches − stored ids named for deletion; never more than max(limit, count at open); ids distinct |
| Spool.RemovedCount | src/plc_gateway/persistence/spool.py:149-163 | With distinct ids a deletion removes exactly one entry for each named id that is stored |
| Spool.DurableSpool.constructor | src/plc_gateway/persistence/spool.py:50-60 | Opens a file that may hold entries of an earlier process, with every counter zero |
| Spool.InsertRows | src/plc_gateway/persistence/spool.py:92-108 | The insert loop succeeds iff the new ids are distinct, and then the rows are those of the old entries followed by the new ones |
| Spool.DurableSpool.Append | src/plc_gateway/persistence/spool.py:62-119 | All or nothing: succeeds iff the batch is empty, or the unseen items have distinct ids and fit with the stored ones; full iff they do not fit; a success returns their number, a refusal leaves the rows unchanged, and overflow adds only the excess to the rejected counter |
| Spool.FetchIsOldestDue | src/plc_gateway/persistence/spool.py:121-147 | A fetch returns as many entries as are due by their instants, up to the limit, sorted by creation time then id, none of them not due, and no due entry left out precedes one returned |
| Spool.SelectMeansFetch | src/plc_gateway/persistence/spool.py:127-135 | The query that compares and sorts stored text selects exactly the rows that comparing and sorting by instant selects |
| Spool.DecodeRowsInverse | src/plc_gateway/persistence/spool.py:136-147 | Rows written from valid entries decode to the same ids, poll results, retry counts and times |
| Spool.DurableSpool.FetchDue | src/plc_gateway/persistence/spool.py:121-147 | Fails iff the limit is not positive; otherwise decoding cannot fail and the entries are the oldest due ones |
| Spool.RemovedMembers | src/plc_gateway/persistence/spool.py:149-163 | Deleting by ids keeps exactly the other entries and their distinctness; fewer remain when something matched, and the same ones when nothing did |
| Spool.DurableSpool.MarkReplayed | src/plc_gateway/persistence/spool.py:149-163 | Deletes exactly the named entries; the result and the replayed counter grow by the number that existed |
| Spool.DeferReducesDue | src/plc_gateway/persistence/spool.py:165-194 | Deferring past a deadline leaves strictly fewer entries due by it when a due one was named |
| Spool.DeferredExactly | src/plc_gateway/persistence/spool.py:165-194 | A deferral raises the retry count of the named entries by one and sets their due time; items, creation times, order and all other entries stay |
| Spool.DurableSpool.MarkFailed | src/plc_gateway/persistence/spool.py:165-194 | Refused on a negative delay, or when something is named and now plus the delay is at or past the end of the calendar, changing nothing; otherwise defers exactly the named entries, and returns and counts how many of them existed |
| Spool.DurableSpool.Count | src/plc_gateway/persistence/spool.py:196-211 | Stored = count at open + added − replayed, within the bound |
| Codec.PollResultRoundTrip | src/plc_gateway/persistence/spool.py:261-384 | Every poll result the constructors can build is read back from its JSON tree equal to itself |
| Codec.StoredNames | src/plc_gateway/persistence/spool.py:261-384 | The names under which qualities, value types and statuses are stored |
| Codec.TagValueStored | src/plc_gateway/persistence/spool.py:346-361 | A stored value has the six fields, and exactly the payload that its type names is not null |
| Codec.TagResultStored | src/plc_gateway/persistence/spool.py:315-324 | A stored result has the seven fields and each holds the result's own, absent ones null |
| Codec.PollExecutionStored | src/plc_gateway/persistence/spool.py:261-276 | A stored execution has the ten fields and each holds the execution's own |
| Codec.TagValueRoundTrip | src/plc_gateway/persistence/spool.py:346-384 | For all five value types, through the payload keys and Base64 for bytes |
| Codec.TagResultRoundTrip | src/plc_gateway/persistence/spool.py:315-344 | Through the validating constructor: success and failure results, optional source timestamp |
| Codec.PollExecutionRoundTrip | src/plc_gateway/persistence/spool.py:261-312 | Through the validating constructor: optional end time, counts, optional error text |
| Base64.DecodeEncode | src/plc_gateway/persistence/spool.py:346-384 | Padded Base64 of section 4 of RFC 4648 decodes to the same bytes, for every length |
| Base64.StandardAlphabet | src/plc_gateway/persistence/spool.py:346-384 | The alphabet of section 4 of RFC 4648, character by character |
| Base64.GroupIsBigEndian | src/plc_gateway/persistence/spool.py:346-384 | Three bytes and their four sextets are the same 24-bit number |
| Base64.EncodeByGroups | src/plc_gateway/persistence/spool.py:346-384 | Every three bytes become four characters, independently of the bytes after them |
| Base64.StandardVectors | src/plc_gateway/persistence/spool.py:346-384 | Two of the test vectors of section 10 of RFC 4648, with padding and without |
| Timestamps.TextOrderIsTimeOrder | src/plc_gateway/persistence/spool.py:417-440 | For all UTC datetimes, code-point order of the ISO texts is time order, with or without a fraction |
| Timestamps.FieldOrderIsTimeOrder | src/plc_gateway/persistence/spool.py:417-440 | Over the proleptic Gregorian calendar, comparing fields is comparing instants, and distinct datetimes are distinct instants |
| Timestamps.ParseIsoFormat | src/plc_gateway/persistence/spool.py:417-428 | Parsing the written text gives back the same datetime at offset zero |
| Timestamps.IsoFormatWidth | src/plc_gateway/persistence/types.py:12-29 | The text has 25 characters without and 32 with a fraction |
| Timestamps.IsoFormatReads | src/plc_gateway/persistence/spool.py:417-418 | Each field stands in the text at its place, zero-padded, with the separators of the format; the fraction is there iff it is not zero |
| Timestamps.StoreLoad | src/plc_gateway/persistence/types.py:15-42 | Binding succeeds iff the datetime has an offset and its instant is in the range of UTC datetimes; the text fits the column and loads as the same instant |
| Timestamps.NormalizeUtc | src/plc_gateway/persistence/spool.py:430-440 | Normalising a UTC datetime changes nothing |
| Timestamps.FromInstant | src/plc_gateway/persistence/spool.py:430-440 | Every instant in range, and no other, has a datetime, and that datetime denotes it |
| Timestamps.Later | src/plc_gateway/persistence/spool.py:178-180 | Adding a delay succeeds iff the sum is before the end of the calendar, and then denotes the sum |
| Timestamps.CalendarLandmarks | src/plc_gateway/persistence/spool.py:430-440 | The day number of 1970-01-01, the end of the calendar, and which years are leap years |
| Domain.TagResultFixedPoint | src/plc_gateway/domain/models.py:288-315 | A tag result is valid iff its constructor, fed its own fields, accepts them unchanged |
| Domain.PollExecutionFixedPoint | src/plc_gateway/domain/models.py:333-359 | The same for poll executions |
| Domain.NewTagValue | src/plc_gateway/domain/models.py:116-147 | Accepts iff exactly the payload named by the type is present, and keeps it |
| Domain.TagResultAccepted | src/plc_gateway/domain/models.py:288-315 | The exact conditions on the arguments under which a tag result is accepted, and the argument each of its fields comes from, stripped or normalised |
| Domain.PollExecutionAccepted | src/plc_gateway/domain/models.py:333-359 | The same for a poll execution: texts, instants, their order, the open-ended case and the counts |
| Text.StripIsMiddle | src/plc_gateway/domain/models.py:386-417 | Stripping leaves the middle of the text: what is cut off on either side is whitespace |
| Repository.EventIdInjective | src/plc_gateway/persistence/repositories.py:289-290 | Event ids are equal iff execution id and index are, over all strings, colons included |
| Repository.EventIdReads | src/plc_gateway/persistence/repositories.py:289-290 | An event id is the execution id, a colon and the index in decimal without leading zeros |
| Repository.SaveIdempotent | src/plc_gateway/persistence/repositories.py:138-154 | Saving a batch twice leaves the tables of saving it once, repeated ids included |
| Repository.SaveAllConcat | src/plc_gateway/persistence/repositories.py:138-154 | Saving one batch and then another is saving them joined |
| Repository.SaveOrderIrrelevant | src/plc_gateway/persistence/repositories.py:138-154 | With one content per id, two sequences with the same items give the same tables, whatever order and repetitions |
| Repository.ExecutionAt | src/plc_gateway/persistence/repositories.py:247-272 | For every id: present afterwards iff it was or is saved; insert-only columns come from the first insert, updated columns from the last save, other rows are untouched |
| Repository.ReadingKeys | src/plc_gateway/persistence/repositories.py:275-286 | A reading exists afterwards iff it did or is in the batch; existing readings never change |
| Repository.ReadingAt | src/plc_gateway/persistence/repositories.py:203-244 | A new reading holds exactly the row of the item and index that own its event id, value type included |
| Repository.InDatabaseIffAbsorbed | src/plc_gateway/persistence/repositories.py:138-154 | An item is wholly in both tables iff saving it would change nothing |
| Repository.SavedStaysInDatabase | src/plc_gateway/persistence/repositories.py:138-154 | After any saves an item among them has its latest columns, and its insert-only columns and every reading are its own, unless the tables held that row at the start, which then is unchanged |
| Repository.SavedReadsBack | src/plc_gateway/persistence/repositories.py:203-286 | After any saves, a valid poll among them whose rows were new is read back from both tables equal to itself: execution, every reading with value and errors, its connection and group, and no further readings |
| Repository.StorableExactly | src/plc_gateway/persistence/repositories.py:231-244 | A batch can be stored iff every result has a value or a tag whose type is configured |
| Repository.FirstAndLast | src/plc_gateway/persistence/repositories.py:247-272 | Which item of a batch counts as the first and the last save of an id |
| Repository.InsertReadings | src/plc_gateway/persistence/repositories.py:144-154 | Fails iff a failed reading has no configured type; otherwise adds exactly the missing rows and overwrites none |
| Repository.ReadingRepository.SavePollResults | src/plc_gateway/persistence/repositories.py:138-154 | One transaction: fails iff a result has neither a value nor a configured type and then writes nothing; otherwise both tables are the saved ones and the result is the growth of the readings table |
| ReadingQueues.ReadingQueue.constructor | src/plc_gateway/runtime/reading_queue.py:36-46 | An empty open queue of the given size |
| ReadingQueues.ReadingQueue.Land | src/plc_gateway/runtime/reading_queue.py:61-62 | Where there is space an item is appended and counted as unfinished, also after the queue was closed |
| ReadingQueues.ReadingQueue.Put | src/plc_gateway/runtime/reading_queue.py:53-73 | A whole put, waiting included: refused as closed iff closed on entry; times out iff full and nothing is taken while it waits, counted and without effect; otherwise the item lands last, also when the queue is closed during the wait |
| ReadingQueues.ReadingQueue.Get | src/plc_gateway/runtime/reading_queue.py:75-77 | First in, first out; unfinished is unchanged |
| ReadingQueues.ReadingQueue.TaskDone | src/plc_gateway/runtime/reading_queue.py:79-81 | Succeeds iff an item is unfinished |
| ReadingQueues.ReadingQueue.Close | src/plc_gateway/runtime/reading_queue.py:87-94 | The queue refuses puts from now on and keeps its items; the report says how many are left |
| ReadingQueues.ReadingQueue.DropPending | src/plc_gateway/runtime/reading_queue.py:96-112 | Closes, removes all items in order, acknowledges and counts each |
| Scheduler.GridConservation | src/plc_gateway/runtime/scheduler.py:131-165 | For every sequence of clock readings and cycle ends: next due = start + (started + missed)·interval; the accounted grid points are exactly those up to the latest clock reading, each once; cycles start in strictly increasing grid slots |
| Scheduler.HistoryIsOneStepping | src/plc_gateway/runtime/scheduler.py:131-145 | Over any history, however often and in whatever order the clock is read, started + missed is the count of stepping one interval at a time to the latest reading |
| Scheduler.StepCountIsGridPoints | src/plc_gateway/runtime/scheduler.py:198-202 | Stepping to now counts grid point k iff that point is not after now |
| Scheduler.History | src/plc_gateway/runtime/scheduler.py:131-165 | Every pass and every cycle end keeps the schedule's invariant: grid equation, distinct increasing start slots, failures within starts, overlaps within misses |
| Scheduler.NeverTwoCycles | src/plc_gateway/runtime/scheduler.py:146-165 | With each start adding a numbered task and the end of any task clearing the reference, as the code does: over any history at most one task of a group runs, and the reference is set exactly while one does |
| Scheduler.TickCatchesUp | src/plc_gateway/runtime/scheduler.py:131-153 | After a pass at `now` the next due point is after now, within one interval if the group was due, and untouched otherwise |
| Scheduler.PassCounts | src/plc_gateway/runtime/scheduler.py:131-153 | A pass over a due group moves the due point past every point reached, starts one cycle iff none is active, and misses every other point; overlaps and tasks in both cases |
| Scheduler.StartIsInItsSlot | src/plc_gateway/runtime/scheduler.py:131-153 | A started cycle is recorded in the grid slot that contains the moment of starting |
| Scheduler.JumpEqualsSteps | src/plc_gateway/runtime/scheduler.py:198-202 | One floor division counts the same due points as stepping interval by interval |
| Scheduler.StepsSplit | src/plc_gateway/runtime/scheduler.py:198-202 | Counting to an intermediate time and on from there is counting to the end |
| Scheduler.ExtraWakeUpHarmless | src/plc_gateway/runtime/scheduler.py:131-145 | An intermediate wake-up changes neither the next due point nor started + missed |
| Scheduler.ExactSleepMissesOnlyOverlaps | src/plc_gateway/runtime/scheduler.py:73-89 | With exact sleeps after a first pass at any time, over any number of rounds and groups, no later pass is late and missed cycles grow only by overlaps with an active cycle |
| Scheduler.UntilNextDue | src/plc_gateway/runtime/scheduler.py:167-171 | When no group is overdue, sleeping this long from now ends exactly at the earliest due point |
| Scheduler.GroupSchedule.StartIfDue | src/plc_gateway/runtime/scheduler.py:131-153 | A cycle starts iff the group is due and has no active one; the record becomes the ticked schedule |
| Scheduler.GroupSchedule.FinishCycle | src/plc_gateway/runtime/scheduler.py:155-165 | The task no longer runs, the reference is cleared, failures are counted, the grid is untouched |
| Scheduler.PollScheduler.StartDueCycles | src/plc_gateway/runtime/scheduler.py:131-153 | One pass ticks every group's record and nothing else |
| Scheduler.PollScheduler.SecondsUntilNextDue | src/plc_gateway/runtime/scheduler.py:167-171 | The object's sleep is the specified one over its current records |
| Scheduler.PollScheduler.Loop | src/plc_gateway/runtime/scheduler.py:73-89 | After any rounds the records are those of the specified rounds and the sleeps asked for are the specified ones |
| Scheduler.PollScheduler.Run | src/plc_gateway/runtime/scheduler.py:73-89 | Refused iff already running; otherwise the loop |
| Scheduler.BuildSchedules | src/plc_gateway/runtime/scheduler.py:173-195 | Succeeds iff the enabled groups use the known overlap policy and have distinct ids, and otherwise names a group that does not; then one fresh record per enabled group, in order, due at once |
| Scheduler.EnabledGroupsExact | src/plc_gateway/runtime/scheduler.py:173-195 | The groups scheduled are the enabled ones, in their order |
| Retry.DelayBand | src/plc_gateway/runtime/retry.py:57-71 | Every delay is in [0, max delay] and in the jitter band of the capped exponential delay |
| Retry.DelayMonotone | src/plc_gateway/runtime/retry.py:57-71 | Later retries and larger random values never wait less |
| Retry.RetriedFailures | src/plc_gateway/runtime/retry.py:74-99 | Exactly transient communication errors, storage errors and timeouts are retried |
| Retry.BackoffSteps | src/plc_gateway/runtime/retry.py:57-71 | Before jitter the first delay is the initial one, and each further one the multiple of the one before, up to the cap |
| Retry.JitterEnds | src/plc_gateway/runtime/retry.py:57-71 | The random values 0, a half and 1 give the lower end of the jitter band, the capped delay, and the upper end up to the cap |
| Retry.LegacyPolicy | src/plc_gateway/persistence/writer.py:379-391 | Any retry count and non-negative delay give a valid policy |
| Retry.LegacyDelay | src/plc_gateway/persistence/writer.py:379-391 | No retry that can be made hits the cap: the k-th wait is d·2^(k−1) |
| Retry.LegacyJitter | src/plc_gateway/persistence/writer.py:379-391 | One attempt more than retries, and the smallest random value takes a fifth off each wait |
| Retry.LegacyTotalWait | src/plc_gateway/persistence/writer.py:379-391 | n retries wait d·(2^n − 1) in all |
| Retry.RunWithRetry | src/plc_gateway/runtime/retry.py:102-181 | Stops at the first success, the first failure not worth retrying, or the last attempt; attempts = retries + 1 either way; each wait is the policy's; the fall-through raise is unreachable |
| Retry.StopsExactlyAt | src/plc_gateway/runtime/retry.py:117-181 | That stopping attempt is unique and a function of what the calls do |
| ConnectionWorkers.ConnectsBalance | src/plc_gateway/runtime/connection_worker.py:155-211 | Over any history: connect attempts = successes + failures + retries = driver connects made; poll attempts + poll retries = driver reads made |
| ConnectionWorkers.PollsBalance | src/plc_gateway/runtime/connection_worker.py:226-305 | Over any history of calls given by their inputs: successes + failures never exceed attempts, and are equal iff every poll meets `PollCompletes`, a condition on its tags, its two clock readings and the last driver answer |
| ConnectionWorkers.TagsBalance | src/plc_gateway/runtime/connection_worker.py:390-397 | Over any such history: tag successes + failures never exceed tags requested, and are equal iff every poll with tags completes and its driver, if it answered, answered for each tag |
| ConnectionWorkers.DriverStops | src/plc_gateway/runtime/connection_worker.py:370-380 | The driver call a loop ends with, from the calls themselves: the first answer, the first error not worth retrying, or the last allowed |
| ConnectionWorkers.ClockGoesBack | src/plc_gateway/runtime/connection_worker.py:236-285 | A concrete call: a new worker polls no tags while the clock goes back one second; one attempt, no success and no failure |
| ConnectionWorkers.PollStatusMeaning | src/plc_gateway/runtime/connection_worker.py:439-447 | Success iff no result failed, failed iff there are results and all failed, partial failure otherwise |
| ConnectionWorkers.JoinedErrorsTrimmed | src/plc_gateway/runtime/connection_worker.py:450-454 | The joined error text of valid results needs no stripping, and is empty iff no result failed |
| ConnectionWorkers.FailureResultExact | src/plc_gateway/runtime/connection_worker.py:426-436 | A stand-in result can be built iff code, text and tag id are not blank, and is then the bad result of that tag and moment with that code and that text, stripped |
| ConnectionWorkers.FailureResultsExact | src/plc_gateway/runtime/connection_worker.py:268-270 | Stand-ins for a failed read exist iff there are no tags or each can be built; there is one per tag, each with its own tag and moment |
| ConnectionWorkers.ExecutionAccepted | src/plc_gateway/runtime/connection_worker.py:272-284 | The execution record is accepted iff the clock did not go back and there are at most as many results as tags |
| ConnectionWorkers.RecordFields | src/plc_gateway/runtime/connection_worker.py:272-284 | The record of a poll: its ids, both clock readings, the tags asked for, the results with and without a value, the status they make, and the joined error text |
| ConnectionWorkers.JoinedErrorsText | src/plc_gateway/runtime/connection_worker.py:450-454 | The error text is the failed results' texts in order, joined with a semicolon and a space |
| ConnectionWorkers.SuccessesCount | src/plc_gateway/runtime/connection_worker.py:439-447 | The successes counted are the results that carry a value |
| ConnectionWorkers.ConnectionWorker.constructor | src/plc_gateway/runtime/connection_worker.py:73-113 | A stopped worker for the given connection and policies with zero counters |
| ConnectionWorkers.ConnectionWorker.Connect | src/plc_gateway/runtime/connection_worker.py:155-211 | Ends as the last driver call made does, running or failed with its text as the last error; attempts grow by the calls made, retries by one less, successes or failures by one |
| ConnectionWorkers.ConnectionWorker.TryConnect | src/plc_gateway/runtime/connection_worker.py:370-380 | The retry loop stops at the one stopping attempt, with each call counted as it is made and each retry before its wait |
| ConnectionWorkers.ConnectionWorker.Disconnect | src/plc_gateway/runtime/connection_worker.py:213-224 | Stopped, or failed with the error recorded and raised |
| ConnectionWorkers.ConnectionWorker.HealthCheck | src/plc_gateway/runtime/connection_worker.py:307-322 | Running iff the driver answered healthy, degraded otherwise; an error is recorded, not raised |
| ConnectionWorkers.ConnectionWorker.ReadTags | src/plc_gateway/runtime/connection_worker.py:252-270 | The driver's results, or the stand-ins with the worker degraded; retries are counted |
| ConnectionWorkers.ConnectionWorker.PollGroup | src/plc_gateway/runtime/connection_worker.py:226-305 | The two argument errors exactly and without effect; otherwise completes iff `PollCompletes`, and then the record names this poll, connection and group, both clock readings, the tags asked for, the counts and the texts of its results; the results are the driver's or one stand-in per tag; every counter, the state and the last error |
| Credits.CollectRuntimeDependencyClosure | tools/generate_credits.py:60-77 | Terminates on every graph; succeeds iff every reachable package is installed, and then maps exactly the reachable packages to their installed versions; otherwise names a reachable package that is missing |
| Credits.QueueRequirements | tools/generate_credits.py:70-76 | Adds exactly the unskipped, normalised, unresolved requirements to the worklist |
| Credits.ClosedHoldsReachable | tools/generate_credits.py:60-77 | A set closed under requirements that holds the direct dependencies holds everything reachable |
| Credits.NormalFormExact | tools/generate_credits.py:203-204 | Normalised names are in normal form, exactly the normal forms are left alone, and normalisation is idempotent |
| Credits.NormalizeByRules | tools/generate_credits.py:203-204 | The rules that determine every normalised name: other characters are lowered one by one, and a run of separators is one dash |
| Credits.LowerCharExact | tools/generate_credits.py:203-204 | Capitals become the small letters of the same place in the alphabet, nothing else changes |

## Left out

- asyncio, threads and cancellation: queue, save and spool operations are atomic steps; a cancelled run, a cancelled cycle and a cancelled poll are not modelled.
- When timed-out operations land: safety covers every await (`PipelineInterleaved`); the bounds on drains and the exact drain conditions count whole turns, with landings between turns.
- SQL engines, migrations and foreign keys: tables are maps, and a constraint failure is one of the failing outcomes of a save.
- JSON text, float formatting, NaN and rounding: the codec stops at the JSON tree, floats are real numbers, delays are reals or integers, and an integer too large to become a float is not an error.
- Timestamps.ParseIsoFormat: the parser reads the extended format with a numeric offset in whole minutes, which is all that the writer of the text produces; other formats that Python accepts are not modelled.
- Domain.TagResultFixedPoint: text is any character sequence; lone surrogates, which SQLite cannot store, are not singled out.
- Credits.NormalFormExact: lowering covers ASCII letters, the only letters package names can have.
- Credits.CollectRuntimeDependencyClosure: the direct dependencies are listed in some order rather than sorted; the result does not depend on it, only which missing package is named does. Markers are given as their values.
- Repository.ReadingRepository.SavePollResults: the table of configured tag types does not change while the pipeline runs; saving executions or readings alone, and the other repositories, are not part of this model.
- Writer.DatabaseWriter.Run: puts while no turn is waiting and landings do not occur inside this method, only in runs of the state machine; the healthy-database bound is `DrainsWhenHealthy`.
- Writer.DatabaseWriter.Shutdown: the wait is counted in whole turns of the loop; a turn still under way when the time is up is not part of it.
- Writer.DatabaseWriter.PersistBatch: the retry loop is written out around the save instead of calling the generic one, because each attempt changes the tables; waiting between attempts changes nothing here.
- Writer.DatabaseWriter.constructor: nobody has acknowledged an item that is still queued, which the wrapped queue leaves to its users.
- ReadingQueues.ReadingQueue.Put: space that comes free during a wait goes to the waiting put; other puts waiting at the same time are not modelled.
- Spool.DurableSpool.Append: the rejected counter is exact for overflow only, as in the source; a repeated new id leaves it alone.
- PipelineDrain.DrainsByDeadline: asks that entries put off by the counted turns fall due after the deadline; a fixed clock with a usable delay is the case in which the deadline is that clock reading.
- PipelineExact.DrainExactSteadily: over stored entries with distinct ids, the primary key of the table; it gives no bound on the turns, since an outage can outpace the delay for as long as it lasts.
- ConnectionWorkers.ConnectionWorker.PollGroup: the clock readings, the random execution id and the driver's answers are arguments.
- ConnectionWorkers.ConnectionWorker.TryConnect: the retry loop is written out around the driver call, like that of the read, because each call counts; the waits, which change nothing, are in `Retry.RunWithRetry`.
- Status messages, heartbeats, correlation ids and logging of workers, writer and scheduler.
- The OPC UA and mock drivers, HTTP API, command line, service host, configuration loading, license report and notice parsing: input and output, or one-branch checks.
