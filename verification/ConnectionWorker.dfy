/** A worker that owns one connection: its lifecycle, its polls, and counters that have to add up. */
module ConnectionWorkers {

  import opened Results
  import opened Text
  import opened Timestamps
  import opened Domain
  import opened Lists
  import opened Retry

  datatype WorkerState = Stopped | Starting | RunningState | Degraded | Stopping | FailedState

  /** An exception as the worker reports it: its class, its code or class name, and its text or class name. */
  datatype Error = Error(failure: Failure, code: string, text: string)

  datatype Tag = Tag(id: string, groupId: string)

  datatype PollError = GroupMismatch | TagMismatch | Rejected(cause: DomainError)

  /** What a call of the driver does. Retries are decided by the error's class alone. */
  datatype DriverCall<+T> = Answered(value: T) | Raised(error: Error)

  function CallAt<T>(calls: nat -> DriverCall<T>): nat -> Attempt<T> {
    (k: nat) =>
      match calls(k)
      case Answered(v) => Returned(v)
      case Raised(e) => Threw(e.failure)
  }

  function Outcome(call: DriverCall<()>): (r: Result<(), Error>)
    ensures r.Ok? <==> call.Answered?
    ensures r.Err? ==> call == DriverCall.Raised(r.error)
  {
    match call
    case Answered(_) => Ok(())
    case Raised(e) => Err(e)
  }

  /** The driver call that a loop ends with: the first answer, the first error not worth retrying, or the last. */
  lemma DriverStops<T>(maxAttempts: nat, calls: nat -> DriverCall<T>, made: nat)
    ensures StopsAt(maxAttempts, CallAt(calls), made) <==>
              && 1 <= made <= maxAttempts
              && (forall k: nat :: k + 1 < made ==> calls(k).Raised? && IsRetryable(calls(k).error.failure))
              && (made == maxAttempts || calls(made - 1).Answered? || !IsRetryable(calls(made - 1).error.failure))
  {
    hide IsRetryable;
    var seen := CallAt(calls);
    if StopsAt(maxAttempts, seen, made) {
      forall k: nat | k + 1 < made
        ensures calls(k).Raised? && IsRetryable(calls(k).error.failure)
      {
        assert seen(k).Threw? && IsRetryable(seen(k).failure);
      }
    }
  }

  // ---------------------------------------------------------------- poll results

  function Successes(results: seq<TagResult>): (n: nat)
    ensures n <= |results|
  {
    if results == [] then 0
    else Successes(results[..|results| - 1]) + if results[|results| - 1].IsSuccess() then 1 else 0
  }

  function PollStatusOf(results: seq<TagResult>): PollStatus {
    var failed := |results| - Successes(results);
    if |results| == 0 || failed == 0 then Success
    else if failed == |results| then Failed
    else PartialFailure
  }

  /** The status says exactly how the results divide. */
  lemma {:induction false} SuccessesAll(results: seq<TagResult>)
    ensures Successes(results) == |results| <==> forall i :: 0 <= i < |results| ==> results[i].IsSuccess()
    ensures Successes(results) == 0 <==> forall i :: 0 <= i < |results| ==> !results[i].IsSuccess()
  {
    if results != [] {
      var front := results[..|results| - 1];
      SuccessesAll(front);
      assert forall i :: 0 <= i < |front| ==> front[i] == results[i];
    }
  }

  lemma PollStatusMeaning(results: seq<TagResult>)
    ensures PollStatusOf(results) == Success <==> forall i :: 0 <= i < |results| ==> results[i].IsSuccess()
    ensures PollStatusOf(results) == Failed <==>
              results != [] && forall i :: 0 <= i < |results| ==> !results[i].IsSuccess()
    ensures PollStatusOf(results) in {Success, Failed, PartialFailure}
  {
    SuccessesAll(results);
  }

  /** The error texts of the failed results, joined. */
  function JoinedErrors(results: seq<TagResult>): string {
    if results == [] then ""
    else
      var front, last := JoinedErrors(results[..|results| - 1]), results[|results| - 1];
      if last.errorMessage.None? || last.errorMessage.value == "" then front
      else if front == "" then last.errorMessage.value
      else front + "; " + last.errorMessage.value
  }

  function PollErrorMessage(results: seq<TagResult>): Option<string> {
    if JoinedErrors(results) == "" then None else Some(JoinedErrors(results))
  }

  lemma {:induction false} JoinedErrorsTrimmed(results: seq<TagResult>)
    requires forall i :: 0 <= i < |results| ==> results[i].Valid()
    ensures JoinedErrors(results) == "" || Trimmed(JoinedErrors(results))
    ensures JoinedErrors(results) == "" <==> forall i :: 0 <= i < |results| ==> results[i].IsSuccess()
  {
    if results != [] {
      var front := results[..|results| - 1];
      JoinedErrorsTrimmed(front);
      assert forall i :: 0 <= i < |front| ==> front[i] == results[i];
      var last := results[|results| - 1];
      assert last.Valid();
    }
  }

  // ---------------------------------------------------------------- what the record of a poll says

  predicate AllValid(results: seq<TagResult>) {
    forall i :: 0 <= i < |results| ==> results[i].Valid()
  }

  function HasValue(): TagResult -> bool {
    (t: TagResult) => t.value.Some?
  }

  function NoValue(): TagResult -> bool {
    (t: TagResult) => t.value.None?
  }

  lemma {:induction false} SuccessesCount(results: seq<TagResult>)
    ensures Successes(results) == |Positions(HasValue(), results)|
  {
    if results == [] {
      assert Positions(HasValue(), results) == {};
    } else {
      SuccessesCount(results[..|results| - 1]);
      PositionsNext(HasValue(), results);
    }
  }

  /** The texts of the failed results, in order. */
  function ErrorTexts(results: seq<TagResult>): seq<string> {
    Map((t: TagResult) => if t.errorMessage.Some? then t.errorMessage.value else "", Filter(NoValue(), results))
  }

  function Join(separator: string, parts: seq<string>): string {
    if parts == [] then "" else if |parts| == 1 then parts[0] else parts[0] + separator + Join(separator, parts[1..])
  }

  lemma {:induction false} JoinAppend(separator: string, parts: seq<string>, last: string)
    ensures Join(separator, parts + [last]) == if parts == [] then last else Join(separator, parts) + separator + last
  {
    if parts == [] {
      assert parts + [last] == [last];
    } else {
      JoinAppend(separator, parts[1..], last);
      assert (parts + [last])[1..] == parts[1..] + [last];
      if |parts| > 1 {
        var head, mid := parts[0] + separator, Join(separator, parts[1..]);
        assert head + (mid + separator + last) == head + mid + separator + last;
      } else {
        assert parts[0] + separator + last == Join(separator, parts) + separator + last;
      }
    }
  }

  lemma ErrorTextsNext(results: seq<TagResult>)
    requires results != []
    ensures
      var front, last := results[..|results| - 1], results[|results| - 1];
      ErrorTexts(results) == ErrorTexts(front) +
        if last.value.Some? then [] else [if last.errorMessage.Some? then last.errorMessage.value else ""]
  {
    var front, last := results[..|results| - 1], results[|results| - 1];
    assert results == front + [last];
    FilterAppend(NoValue(), front, [last]);
    assert [last][1..] == [];
  }

  /** The message joins the texts of the failed results in order, with a semicolon and a space in between. */
  lemma {:induction false} JoinedErrorsText(results: seq<TagResult>)
    requires AllValid(results)
    ensures JoinedErrors(results) == Join("; ", ErrorTexts(results))
    ensures JoinedErrors(results) == "" <==> ErrorTexts(results) == []
  {
    hide ErrorTexts, Join;
    if results == [] {
      NoTexts();
    } else {
      var n := |results| - 1;
      assert AllValid(results[..n]) && results[n].Valid();
      JoinedErrorsText(results[..n]);
      ErrorTextsNext(results);
      if results[n].value.None? {
        JoinAppend("; ", ErrorTexts(results[..n]), results[n].errorMessage.value);
      } else {
        assert ErrorTexts(results[..n]) + [] == ErrorTexts(results[..n]);
      }
    }
  }

  lemma NoTexts()
    ensures ErrorTexts([]) == [] && Join("; ", []) == ""
  {
  }

  /** The failed result that stands for a tag when the whole read failed. */
  function FailureResult(tag: Tag, e: Error, at: Utc): Result<TagResult, DomainError> {
    NewTagResult(TagResultArgs(tag.id, Bad, AsStamp(at), None, None, Some(e.code), Some(e.text)))
  }

  /** An error whose code or text is blank after stripping cannot stand in a failed result. */
  predicate Reportable(e: Error) {
    Strip(e.code) != "" && Strip(e.text) != ""
  }

  lemma FailureResultExact(tag: Tag, e: Error, at: Utc)
    ensures FailureResult(tag, e, at).Ok? <==> Reportable(e) && Strip(tag.id) != ""
    ensures FailureResult(tag, e, at).Ok? ==>
              && FailureResult(tag, e, at).value.Valid() && !FailureResult(tag, e, at).value.IsSuccess()
              && FailureResult(tag, e, at).value == TagResult(
                   Strip(tag.id), Bad, at, None, None, Some(Strip(e.code)), Some(Strip(e.text)))
  {
    hide Strip, Instant, Normalize, RequireUtc, AsStamp;
    UtcUnchanged(at);
  }

  /** One stand-in per tag, each stamped when it is made. */
  function FailureResults(tags: seq<Tag>, e: Error, at: seq<Utc>): Result<seq<TagResult>, DomainError>
    requires |tags| <= |at|
  {
    if tags == [] then Ok([])
    else
      var n := |tags| - 1;
      var front :- FailureResults(tags[..n], e, at);
      var last :- FailureResult(tags[n], e, at[n]);
      Ok(front + [last])
  }

  predicate AllNamed(tags: seq<Tag>) {
    forall i :: 0 <= i < |tags| ==> Strip(tags[i].id) != ""
  }

  lemma AllNamedStep(tags: seq<Tag>)
    requires tags != []
    ensures AllNamed(tags) <==> AllNamed(tags[..|tags| - 1]) && Strip(tags[|tags| - 1].id) != ""
    ensures |tags| == 1 ==> AllNamed(tags[..|tags| - 1])
  {
    hide Strip;
    assert forall i :: 0 <= i < |tags| - 1 ==> tags[..|tags| - 1][i] == tags[i];
  }

  lemma {:induction false} FailureResultsExact(tags: seq<Tag>, e: Error, at: seq<Utc>)
    requires |tags| <= |at|
    ensures FailureResults(tags, e, at).Ok? <==> tags == [] || (Reportable(e) && AllNamed(tags))
    ensures FailureResults(tags, e, at).Ok? ==>
              && |FailureResults(tags, e, at).value| == |tags|
              && AllValid(FailureResults(tags, e, at).value)
              && Successes(FailureResults(tags, e, at).value) == 0
              && forall i :: 0 <= i < |tags| ==> FailureResults(tags, e, at).value[i] == TagResult(
                   Strip(tags[i].id), Bad, at[i], None, None, Some(Strip(e.code)), Some(Strip(e.text)))
  {
    hide FailureResult, Reportable, Strip, TagResult.Valid, Instant, AllNamed;
    if tags == [] {
    } else {
      var n := |tags| - 1;
      FailureResultsExact(tags[..n], e, at);
      AllNamedStep(tags);
      FailureResultExact(tags[n], e, at[n]);
      if FailureResults(tags, e, at).Ok? {
        var all := FailureResults(tags, e, at).value;
        assert all[..n] == FailureResults(tags[..n], e, at).value;
      }
    }
  }

  /** The execution record of one poll. */
  function ExecutionArgs(id: string, connectionId: string, groupId: string, startedAt: Utc, finishedAt: Utc,
                         requested: nat, results: seq<TagResult>): PollExecutionArgs {
    PollExecutionArgs(id, connectionId, groupId, PollStatusOf(results), AsStamp(startedAt), Some(AsStamp(finishedAt)),
      requested, Successes(results), |results| - Successes(results), PollErrorMessage(results))
  }

  /** The record is accepted exactly when the clock did not go back and there are not too many results. */
  lemma ExecutionAccepted(id: string, connectionId: string, groupId: string, startedAt: Utc, finishedAt: Utc,
                          requested: nat, results: seq<TagResult>)
    requires Strip(id) != "" && Strip(connectionId) != "" && Strip(groupId) != ""
    ensures
      var r := NewPollExecution(ExecutionArgs(id, connectionId, groupId, startedAt, finishedAt, requested, results));
      && (r.Ok? <==> Instant(startedAt) <= Instant(finishedAt) && |results| <= requested)
      && (r.Ok? ==> r.value.status == PollStatusOf(results) && r.value.successfulTags == Successes(results)
                    && r.value.failedTags == |results| - Successes(results) && r.value.requestedTags == requested)
  {
    hide Strip, Instant, Normalize, RequireUtc, AsStamp, Successes, JoinedErrors, OptionalText;
    UtcUnchanged(startedAt);
    OptionalUtcUnchanged(Some(finishedAt));
    assert PollStatusOf(results) != Running;
  }

  /** The record names what was polled and when, counts its results and carries their errors. */
  lemma RecordFields(id: string, connectionId: string, groupId: string, startedAt: Utc, finishedAt: Utc,
                     requested: nat, results: seq<TagResult>, e: PollExecution)
    requires AllValid(results)
    requires Ok(e) == NewPollExecution(
               ExecutionArgs(id, connectionId, groupId, startedAt, finishedAt, requested, results))
    ensures e.executionId == Strip(id) && e.connectionId == Strip(connectionId) && e.tagGroupId == Strip(groupId)
    ensures e.startedAt == startedAt && e.finishedAt == Some(finishedAt) && e.requestedTags == requested
    ensures e.successfulTags == |Positions(HasValue(), results)| && e.failedTags == |results| - e.successfulTags
    ensures e.errorMessage == if ErrorTexts(results) == [] then None else Some(Join("; ", ErrorTexts(results)))
    ensures e.status == Success <==> forall i :: 0 <= i < |results| ==> results[i].value.Some?
    ensures e.status == Failed <==> results != [] && forall i :: 0 <= i < |results| ==> results[i].value.None?
    ensures e.status in {Success, Failed, PartialFailure}
  {
    hide Strip, Instant, Normalize, RequireUtc, AsStamp, Successes, JoinedErrors, ErrorTexts, Join, AllValid,
         PollStatusOf, TagResult.Valid;
    UtcUnchanged(startedAt);
    OptionalUtcUnchanged(Some(finishedAt));
    SuccessesCount(results);
    JoinedErrorsText(results);
    MessageTrimmed(results);
    PollStatusMeaning(results);
  }

  lemma MessageTrimmed(results: seq<TagResult>)
    requires AllValid(results)
    ensures JoinedErrors(results) == "" || Trimmed(JoinedErrors(results))
  {
    JoinedErrorsTrimmed(results);
  }

  /** When a poll that was attempted also completes: checkable from the clock and the last driver call. */
  predicate PollCompletes(tags: seq<Tag>, startedAt: Utc, finishedAt: Utc, last: DriverCall<seq<TagResult>>) {
    && Instant(startedAt) <= Instant(finishedAt)
    && match last
       case Answered(results) => |results| <= |tags|
       case Raised(e) => tags == [] || (Reportable(e) && AllNamed(tags))
  }

  // ---------------------------------------------------------------- whole histories of one worker

  /** What a completed poll adds to the counters. */
  datatype Record = Record(status: PollStatus, good: int, bad: int)

  /** What a read that stopped with `last` contributes when the poll completes. */
  function RecordOfRead(tags: seq<Tag>, last: DriverCall<seq<TagResult>>): Record {
    match last
    case Answered(results) => Record(PollStatusOf(results), Successes(results), |results| - Successes(results))
    case Raised(_) => Record(if tags == [] then Success else Failed, 0, |tags|)
  }

  /** A call on the worker, by its inputs: what is asked, what the clock reads, what the driver would do. */
  datatype Call =
    | ConnectCall(maxAttempts: nat, connects: nat -> DriverCall<()>)
    | PollCall(maxAttempts: nat, tags: seq<Tag>, startedAt: Utc, finishedAt: Utc,
        answers: nat -> DriverCall<seq<TagResult>>)
  {
    predicate Lawful() {
      maxAttempts > 0
    }

    /** How many driver calls it uses. */
    function Made(): (n: nat)
      requires Lawful()
      ensures n >= 1
    {
      match this
      case ConnectCall(_, _) => StopPoint(maxAttempts, CallAt(connects), 0)
      case PollCall(_, _, _, _, _) => StopPoint(maxAttempts, CallAt(answers), 0)
    }

    predicate Connects()
      requires Lawful() && ConnectCall?
    {
      connects(Made() - 1).Answered?
    }

    function LastRead(): DriverCall<seq<TagResult>>
      requires Lawful() && PollCall?
    {
      answers(Made() - 1)
    }

    predicate Completes()
      requires Lawful() && PollCall?
    {
      PollCompletes(tags, startedAt, finishedAt, LastRead())
    }

    function Adds(): Record
      requires Lawful() && PollCall?
    {
      RecordOfRead(tags, LastRead())
    }

    /** The poll completes and has an answer, good or bad, for every tag. */
    predicate AnswersAll()
      requires Lawful() && PollCall?
    {
      tags == [] || (Completes() && (LastRead().Answered? ==> |LastRead().value| == |tags|))
    }
  }

  lemma AddsBounds(call: Call)
    requires call.Lawful() && call.PollCall?
    ensures 0 <= call.Adds().good && 0 <= call.Adds().bad
    ensures call.Completes() ==> call.Adds().good + call.Adds().bad <= |call.tags|
    ensures call.Completes() ==> (call.AnswersAll() <==> call.Adds().good + call.Adds().bad == |call.tags|)
    ensures !call.Completes() ==> (call.AnswersAll() <==> |call.tags| == 0)
  {
    hide Call.Made, Successes, PollStatusOf, Instant, Reportable, AllNamed;
  }

  datatype Counters = Counters(
    connectAttempts: nat, connectSuccesses: nat, connectFailures: nat, connectRetryAttempts: nat,
    pollAttempts: nat, pollSuccesses: nat, pollFailures: nat, pollRetryAttempts: nat,
    tagSuccesses: nat, tagFailures: nat)

  function Counted(c: Counters, call: Call): Counters
    requires call.Lawful()
  {
    match call
    case ConnectCall(_, _) =>
      c.(connectAttempts := c.connectAttempts + call.Made(),
         connectRetryAttempts := c.connectRetryAttempts + call.Made() - 1,
         connectSuccesses := c.connectSuccesses + (if call.Connects() then 1 else 0),
         connectFailures := c.connectFailures + (if call.Connects() then 0 else 1))
    case PollCall(_, _, _, _, _) =>
      var attempted := c.(pollAttempts := c.pollAttempts + 1,
                          pollRetryAttempts := c.pollRetryAttempts + call.Made() - 1);
      AddsBounds(call);
      if call.Completes() then CountedRecord(attempted, call.Adds()) else attempted
  }

  function CountedRecord(c: Counters, record: Record): Counters
    requires record.good >= 0 && record.bad >= 0
  {
    c.(pollSuccesses := c.pollSuccesses + (if record.status == Success then 1 else 0),
       pollFailures := c.pollFailures + (if record.status == Success then 0 else 1),
       tagSuccesses := c.tagSuccesses + record.good, tagFailures := c.tagFailures + record.bad)
  }

  predicate AllLawful(history: seq<Call>) {
    forall i :: 0 <= i < |history| ==> history[i].Lawful()
  }

  function Tallied(history: seq<Call>): Counters
    requires AllLawful(history)
  {
    if history == [] then Counters(0, 0, 0, 0, 0, 0, 0, 0, 0, 0)
    else Counted(Tallied(history[..|history| - 1]), history[|history| - 1])
  }

  lemma TalliedStep(history: seq<Call>, call: Call)
    requires AllLawful(history) && call.Lawful()
    ensures AllLawful(history + [call])
    ensures Tallied(history + [call]) == Counted(Tallied(history), call)
  {
    assert (history + [call])[..|history|] == history;
  }

  function ConnectCallsMade(history: seq<Call>): nat
    requires AllLawful(history)
  {
    if history == [] then 0
    else
      var last := history[|history| - 1];
      ConnectCallsMade(history[..|history| - 1]) + if last.ConnectCall? then last.Made() else 0
  }

  function ReadCallsMade(history: seq<Call>): nat
    requires AllLawful(history)
  {
    if history == [] then 0
    else
      var last := history[|history| - 1];
      ReadCallsMade(history[..|history| - 1]) + if last.PollCall? then last.Made() else 0
  }

  function TagsRequested(history: seq<Call>): nat {
    if history == [] then 0
    else
      var last := history[|history| - 1];
      TagsRequested(history[..|history| - 1]) + if last.PollCall? then |last.tags| else 0
  }

  predicate EveryPollCompletes(history: seq<Call>)
    requires AllLawful(history)
  {
    forall i :: 0 <= i < |history| ==> history[i].PollCall? ==> history[i].Completes()
  }

  predicate EveryTagAnswered(history: seq<Call>)
    requires AllLawful(history)
  {
    forall i :: 0 <= i < |history| ==> history[i].PollCall? ==> history[i].AnswersAll()
  }

  lemma HistoryFront(history: seq<Call>)
    requires AllLawful(history) && history != []
    ensures AllLawful(history[..|history| - 1]) && history[|history| - 1].Lawful()
    ensures Tallied(history) == Counted(Tallied(history[..|history| - 1]), history[|history| - 1])
    ensures EveryPollCompletes(history) <==>
              EveryPollCompletes(history[..|history| - 1])
              && (history[|history| - 1].PollCall? ==> history[|history| - 1].Completes())
    ensures EveryTagAnswered(history) <==>
              EveryTagAnswered(history[..|history| - 1])
              && (history[|history| - 1].PollCall? ==> history[|history| - 1].AnswersAll())
  {
    hide Counted, Call.Lawful, Call.Completes, Call.AnswersAll;
    assert forall i :: 0 <= i < |history| - 1 ==> history[..|history| - 1][i] == history[i];
  }

  /** Over any history, connects balance, and every call of the driver is counted once. */
  lemma {:induction false} ConnectsBalance(history: seq<Call>)
    requires AllLawful(history)
    ensures
      var c := Tallied(history);
      && c.connectAttempts == c.connectSuccesses + c.connectFailures + c.connectRetryAttempts
      && c.connectAttempts == ConnectCallsMade(history)
      && c.pollAttempts + c.pollRetryAttempts == ReadCallsMade(history)
  {
    hide EveryPollCompletes, EveryTagAnswered, AllLawful, Call.Lawful, Call.Made, Call.Connects,
           Call.Completes, Call.AnswersAll, Call.Adds;
    if history != [] {
      HistoryFront(history);
      ConnectsBalance(history[..|history| - 1]);
    }
  }

  /**
   * Over any history, polls balance exactly when every attempted poll completes, which its tags, its two
   * clock readings and the last answer of its driver decide.
   */
  lemma {:induction false} PollsBalance(history: seq<Call>)
    requires AllLawful(history)
    ensures
      var c := Tallied(history);
      && c.pollSuccesses + c.pollFailures <= c.pollAttempts
      && (c.pollAttempts == c.pollSuccesses + c.pollFailures <==> EveryPollCompletes(history))
  {
    if history != [] {
      hide EveryPollCompletes, EveryTagAnswered, AllLawful, Call.Lawful, Call.Made, Call.Connects,
           Call.Completes, Call.AnswersAll, Call.Adds;
      HistoryFront(history);
      if history[|history| - 1].PollCall? {
        AddsBounds(history[|history| - 1]);
      }
      PollsBalance(history[..|history| - 1]);
    }
  }

  /** Over any history, tags balance exactly when every requested tag is answered in a poll that completes. */
  lemma {:induction false} TagsBalance(history: seq<Call>)
    requires AllLawful(history)
    ensures
      var c := Tallied(history);
      && c.tagSuccesses + c.tagFailures <= TagsRequested(history)
      && (c.tagSuccesses + c.tagFailures == TagsRequested(history) <==> EveryTagAnswered(history))
  {
    if history != [] {
      hide EveryPollCompletes, EveryTagAnswered, AllLawful, Call.Lawful, Call.Made, Call.Connects,
           Call.Completes, Call.AnswersAll, Call.Adds;
      HistoryFront(history);
      if history[|history| - 1].PollCall? {
        AddsBounds(history[|history| - 1]);
      }
      TagsBalance(history[..|history| - 1]);
    }
  }

  lemma ConnectSeen(policy: RetryPolicy, calls: nat -> DriverCall<()>, made: nat) returns (call: Call)
    requires policy.Valid() && StopsAt(policy.maxAttempts, CallAt(calls), made)
    ensures call == ConnectCall(policy.maxAttempts, calls)
    ensures call.Lawful() && made >= 1 && call.Made() == made && (call.Connects() <==> calls(made - 1).Answered?)
  {
    hide StopPoint;
    StopsExactlyAt(policy.maxAttempts, CallAt(calls), made);
    call := ConnectCall(policy.maxAttempts, calls);
  }

  lemma PollSeen(policy: RetryPolicy, tags: seq<Tag>, startedAt: Utc, finishedAt: Utc,
                 calls: nat -> DriverCall<seq<TagResult>>, made: nat) returns (call: Call)
    requires policy.Valid() && StopsAt(policy.maxAttempts, CallAt(calls), made)
    ensures call == PollCall(policy.maxAttempts, tags, startedAt, finishedAt, calls)
    ensures
      && call.Lawful() && made >= 1 && call.Made() == made && call.LastRead() == calls(made - 1)
      && (call.Completes() <==> PollCompletes(tags, startedAt, finishedAt, calls(made - 1)))
      && call.Adds() == RecordOfRead(tags, calls(made - 1))
  {
    hide StopPoint, PollCompletes, RecordOfRead;
    StopsExactlyAt(policy.maxAttempts, CallAt(calls), made);
    call := PollCall(policy.maxAttempts, tags, startedAt, finishedAt, calls);
  }

  lemma AllFailedStatus(results: seq<TagResult>)
    requires Successes(results) == 0
    ensures PollStatusOf(results) == if results == [] then Success else Failed
  {
  }

  /** What a finished poll adds to the counters. */
  function RecordOf(p: WorkerPollResult): Record {
    Record(p.execution.status, p.execution.successfulTags, p.execution.failedTags)
  }

  lemma AssembledValid(p: WorkerPollResult)
    requires p.execution.Valid() && AllValid(p.results)
    ensures p.Valid()
  {
    hide PollExecution.Valid, TagResult.Valid;
  }

  lemma ResultsAreValid(p: WorkerPollResult)
    requires p.Valid()
    ensures AllValid(p.results)
  {
    hide PollExecution.Valid, TagResult.Valid;
  }

  // ---------------------------------------------------------------- the worker object

  class ConnectionWorker {

    const connectionId: string
    const connectPolicy: RetryPolicy
    const pollPolicy: RetryPolicy

    var state: WorkerState
    var connectAttempts: nat
    var connectSuccesses: nat
    var connectFailures: nat
    var connectRetryAttempts: nat
    var pollAttempts: nat
    var pollSuccesses: nat
    var pollFailures: nat
    var pollRetryAttempts: nat
    var tagSuccesses: nat
    var tagFailures: nat
    var lastError: Option<string>

    /** The connects and polls so far. */
    ghost var history: seq<Call>

    ghost function Totals(): Counters
      reads this
    {
      Counters(connectAttempts, connectSuccesses, connectFailures, connectRetryAttempts,
        pollAttempts, pollSuccesses, pollFailures, pollRetryAttempts, tagSuccesses, tagFailures)
    }

    /** The counters are the tally of the history. */
    ghost predicate Valid()
      reads this
    {
      && connectPolicy.Valid() && pollPolicy.Valid() && Strip(connectionId) != ""
      && AllLawful(history) && Totals() == Tallied(history)
    }

    constructor (connectionId: string, connectPolicy: RetryPolicy, pollPolicy: RetryPolicy)
      requires connectPolicy.Valid() && pollPolicy.Valid() && Strip(connectionId) != ""
      ensures Valid() && state == Stopped && history == [] && lastError == None
      ensures this.connectionId == connectionId && this.connectPolicy == connectPolicy && this.pollPolicy == pollPolicy
    {
      this.connectionId, this.connectPolicy, this.pollPolicy := connectionId, connectPolicy, pollPolicy;
      state, lastError := Stopped, None;
      connectAttempts, connectSuccesses, connectFailures, connectRetryAttempts := 0, 0, 0, 0;
      pollAttempts, pollSuccesses, pollFailures, pollRetryAttempts := 0, 0, 0, 0;
      tagSuccesses, tagFailures, history := 0, 0, [];
    }

    /** The retry loop of `Connect`: each call of the driver counts as an attempt, each wait as a retry. */
    method TryConnect(calls: nat -> DriverCall<()>) returns (ghost made: nat, r: Result<(), Error>)
      requires connectPolicy.Valid()
      modifies this`connectAttempts, this`connectRetryAttempts
      ensures made >= 1 && StopsAt(connectPolicy.maxAttempts, CallAt(calls), made)
      ensures r == Outcome(calls(made - 1))
      ensures connectAttempts == old(connectAttempts) + made
      ensures connectRetryAttempts == old(connectRetryAttempts) + made - 1
    {
      var attempts := 0;
      while attempts < connectPolicy.maxAttempts
        invariant 0 <= attempts < connectPolicy.maxAttempts
        invariant forall k: nat :: k < attempts ==> CallAt(calls)(k).Threw? && IsRetryable(CallAt(calls)(k).failure)
        invariant connectAttempts == old(connectAttempts) + attempts
        invariant connectRetryAttempts == old(connectRetryAttempts) + attempts
        decreases connectPolicy.maxAttempts - attempts
      {
        var call := calls(attempts);
        connectAttempts := connectAttempts + 1;
        attempts := attempts + 1;
        match call {
          case Answered(_) =>
            return attempts, Ok(());
          case Raised(e) =>
            if !IsRetryable(e.failure) || attempts >= connectPolicy.maxAttempts {
              return attempts, Err(e);
            }
            connectRetryAttempts := connectRetryAttempts + 1;
        }
      }
      assert false;
    }

    /** Connects with retries. Every attempt but the last was a retry; the last one decides. */
    method Connect(calls: nat -> DriverCall<()>) returns (r: Result<(), Error>, ghost made: nat)
      requires Valid()
      modifies this
      ensures Valid()
      ensures StopsAt(connectPolicy.maxAttempts, CallAt(calls), made)
      ensures r == Outcome(calls(made - 1))
      ensures history == old(history) + [ConnectCall(connectPolicy.maxAttempts, calls)]
      ensures connectAttempts == old(connectAttempts) + made
      ensures connectRetryAttempts == old(connectRetryAttempts) + made - 1
      ensures connectSuccesses == old(connectSuccesses) + if r.Ok? then 1 else 0
      ensures connectFailures == old(connectFailures) + if r.Ok? then 0 else 1
      ensures state == if r.Ok? then RunningState else FailedState
      ensures lastError == if r.Ok? then old(lastError) else Some(r.error.text)
    {
      hide StopsAt, CallAt, RetryPolicy.Valid, Strip, Tallied, AllLawful, Call.Lawful, Call.Made, Call.Connects;
      ghost var before := Totals();
      state := Starting;
      made, r := TryConnect(calls);
      if r.Ok? {
        connectSuccesses := connectSuccesses + 1;
        state := RunningState;
      } else {
        connectFailures := connectFailures + 1;
        lastError := Some(r.error.text);
        state := FailedState;
      }
      ghost var call := ConnectSeen(connectPolicy, calls, made);
      TalliedStep(history, call);
      history := history + [call];
      assert Totals() == Counted(before, call);
    }

    method Disconnect(call: DriverCall<()>) returns (r: Result<(), Error>)
      requires Valid()
      modifies this`state, this`lastError
      ensures Valid()
      ensures r == Outcome(call)
      ensures state == if r.Ok? then Stopped else FailedState
      ensures lastError == if r.Ok? then old(lastError) else Some(r.error.text)
    {
      state := Stopping;
      match call {
        case Answered(_) =>
          state := Stopped;
          r := Ok(());
        case Raised(e) =>
          lastError := Some(e.text);
          state := FailedState;
          r := Err(e);
      }
    }

    method HealthCheck(call: DriverCall<bool>)
      requires Valid()
      modifies this`state, this`lastError
      ensures Valid()
      ensures state == if call == Answered(true) then RunningState else Degraded
      ensures lastError == if call.Raised? then Some(call.error.text) else old(lastError)
    {
      match call {
        case Answered(healthy) =>
          state := if healthy then RunningState else Degraded;
        case Raised(e) =>
          lastError := Some(e.text);
          state := Degraded;
      }
    }

    /** The results of the read, or stand-ins for a read that failed for good. */
    method ReadTags(tags: seq<Tag>, calls: nat -> DriverCall<seq<TagResult>>, failedAt: seq<Utc>)
      returns (r: Result<seq<TagResult>, DomainError>, ghost made: nat)
      requires pollPolicy.Valid() && |tags| <= |failedAt|
      modifies this`state, this`pollRetryAttempts, this`lastError
      ensures made >= 1 && StopsAt(pollPolicy.maxAttempts, CallAt(calls), made)
      ensures pollRetryAttempts == old(pollRetryAttempts) + made - 1
      ensures
        match calls(made - 1)
        case Answered(results) => r == Ok(results) && state == old(state) && lastError == old(lastError)
        case Raised(e) => r == FailureResults(tags, e, failedAt) && state == Degraded && lastError == Some(e.text)
    {
      hide FailureResults;
      var attempts := 0;
      while attempts < pollPolicy.maxAttempts
        invariant 0 <= attempts < pollPolicy.maxAttempts
        invariant forall k: nat :: k < attempts ==> CallAt(calls)(k).Threw? && IsRetryable(CallAt(calls)(k).failure)
        invariant pollRetryAttempts == old(pollRetryAttempts) + attempts
        invariant state == old(state) && lastError == old(lastError)
        decreases pollPolicy.maxAttempts - attempts
      {
        var call := calls(attempts);
        attempts := attempts + 1;
        match call {
          case Answered(results) =>
            return Ok(results), attempts;
          case Raised(e) =>
            if !IsRetryable(e.failure) || attempts >= pollPolicy.maxAttempts {
              lastError := Some(e.text);
              state := Degraded;
              return FailureResults(tags, e, failedAt), attempts;
            }
            pollRetryAttempts := pollRetryAttempts + 1;
        }
      }
      assert false;
    }

    method BuildExecution(groupId: string, executionId: string, startedAt: Utc, finishedAt: Utc,
                          requested: nat, results: seq<TagResult>)
      returns (r: Result<PollExecution, DomainError>)
      requires Strip(connectionId) != "" && Strip(executionId) != "" && Strip(groupId) != ""
      ensures r == NewPollExecution(ExecutionArgs(executionId, connectionId, groupId, startedAt, finishedAt,
          requested, results))
      ensures r.Ok? <==> Instant(startedAt) <= Instant(finishedAt) && |results| <= requested
      ensures r.Ok? ==>
                && r.value.Valid() && r.value.requestedTags == requested && r.value.status == PollStatusOf(results)
                && 0 <= r.value.successfulTags == Successes(results)
                && 0 <= r.value.failedTags == |results| - Successes(results)
                && r.value.successfulTags + r.value.failedTags == |results|
                && (r.value.status == Success <==> r.value.failedTags == 0)
    {
      hide Strip, Instant, NewPollExecution, Successes;
      ExecutionAccepted(executionId, connectionId, groupId, startedAt, finishedAt, requested, results);
      r := NewPollExecution(ExecutionArgs(executionId, connectionId, groupId, startedAt, finishedAt, requested,
          results));
    }

    /** Reads the tags and builds the record, before anything but the attempt and its retries is counted. */
    method MakePoll(groupId: string, tags: seq<Tag>, executionId: string,
                    startedAt: Utc, failedAt: seq<Utc>, finishedAt: Utc,
                    calls: nat -> DriverCall<seq<TagResult>>)
      returns (r: Result<WorkerPollResult, PollError>, ghost made: nat)
      requires pollPolicy.Valid() && Strip(connectionId) != "" && Strip(executionId) != "" && Strip(groupId) != ""
      requires |tags| <= |failedAt|
      requires forall k: nat :: calls(k).Answered? ==> AllValid(calls(k).value)
      modifies this`state, this`pollRetryAttempts, this`lastError
      ensures pollRetryAttempts == old(pollRetryAttempts) + made - 1
      ensures StopsAt(pollPolicy.maxAttempts, CallAt(calls), made) && made >= 1 && (r.Err? ==> r.error.Rejected?)
      ensures r.Ok? <==> PollCompletes(tags, startedAt, finishedAt, calls(made - 1))
      ensures r.Ok? ==>
                && r.value.Valid()
                && Ok(r.value.execution) == NewPollExecution(
                     ExecutionArgs(executionId, connectionId, groupId, startedAt, finishedAt, |tags|, r.value.results))
                && (calls(made - 1).Answered? ==> r.value.results == calls(made - 1).value)
                && (calls(made - 1).Raised? ==>
                      Ok(r.value.results) == FailureResults(tags, calls(made - 1).error, failedAt))
                && RecordOf(r.value) == RecordOfRead(tags, calls(made - 1))
                && 0 <= r.value.execution.successfulTags && 0 <= r.value.execution.failedTags
    {
      hide StopsAt, RetryPolicy.Valid, Strip, CallAt, FailureResults, PollStatusOf, Successes, AllValid, AllNamed,
           Reportable, Instant, WorkerPollResult.Valid, PollExecution.Valid, NewPollExecution, ExecutionArgs;
      var results;
      results, made := ReadTags(tags, calls, failedAt);
      if calls(made - 1).Raised? {
        FailureResultsExact(tags, calls(made - 1).error, failedAt);
        if results.Ok? {
          AllFailedStatus(results.value);
        }
      }
      if results.Err? {
        return Err(Rejected(results.error)), made;
      }
      var execution := BuildExecution(groupId, executionId, startedAt, finishedAt, |tags|, results.value);
      if execution.Err? {
        return Err(Rejected(execution.error)), made;
      }
      r := Ok(WorkerPollResult(execution.value, results.value));
      AssembledValid(r.value);
    }

    /** Counts a poll whose record could be built. */
    method RecordPollMetrics(e: PollExecution)
      requires e.successfulTags >= 0 && e.failedTags >= 0
      modifies this`pollSuccesses, this`pollFailures, this`tagSuccesses, this`tagFailures, this`lastError
      ensures pollSuccesses == old(pollSuccesses) + (if e.status == Success then 1 else 0)
      ensures pollFailures == old(pollFailures) + (if e.status == Success then 0 else 1)
      ensures tagSuccesses == old(tagSuccesses) + e.successfulTags && tagFailures == old(tagFailures) + e.failedTags
      ensures lastError == e.errorMessage
    {
      if e.status == Success {
        pollSuccesses := pollSuccesses + 1;
      } else {
        pollFailures := pollFailures + 1;
      }
      tagSuccesses := tagSuccesses + e.successfulTags;
      tagFailures := tagFailures + e.failedTags;
      lastError := e.errorMessage;
    }

    /** The part of `PollGroup` after its argument checks. */
    method AttemptPoll(groupId: string, tags: seq<Tag>, executionId: string,
                       startedAt: Utc, failedAt: seq<Utc>, finishedAt: Utc,
                       calls: nat -> DriverCall<seq<TagResult>>)
      returns (r: Result<WorkerPollResult, PollError>, ghost made: nat)
      requires Valid() && Strip(executionId) != "" && Strip(groupId) != "" && |tags| <= |failedAt|
      requires forall k: nat :: calls(k).Answered? ==> AllValid(calls(k).value)
      modifies this
      ensures Valid() && (r.Err? ==> r.error.Rejected?)
      ensures StopsAt(pollPolicy.maxAttempts, CallAt(calls), made) && made >= 1
      ensures r.Ok? <==> PollCompletes(tags, startedAt, finishedAt, calls(made - 1))
      ensures history == old(history) + [PollCall(pollPolicy.maxAttempts, tags, startedAt, finishedAt, calls)]
      ensures pollAttempts == old(pollAttempts) + 1 && pollRetryAttempts == old(pollRetryAttempts) + made - 1
      ensures r.Err? ==>
                && pollSuccesses == old(pollSuccesses) && pollFailures == old(pollFailures)
                && tagSuccesses == old(tagSuccesses) && tagFailures == old(tagFailures)
      ensures r.Ok? ==>
                && pollSuccesses == old(pollSuccesses) + (if r.value.execution.status == Success then 1 else 0)
                && pollFailures == old(pollFailures) + (if r.value.execution.status == Success then 0 else 1)
                && tagSuccesses == old(tagSuccesses) + r.value.execution.successfulTags
                && tagFailures == old(tagFailures) + r.value.execution.failedTags
      ensures r.Ok? ==>
                && r.value.Valid()
                && Ok(r.value.execution) == NewPollExecution(
                     ExecutionArgs(executionId, connectionId, groupId, startedAt, finishedAt, |tags|, r.value.results))
                && (calls(made - 1).Answered? ==> r.value.results == calls(made - 1).value)
                && (calls(made - 1).Raised? ==>
                      Ok(r.value.results) == FailureResults(tags, calls(made - 1).error, failedAt))
                && state == (if r.value.execution.status == Success then RunningState else Degraded)
                && lastError == r.value.execution.errorMessage
    {
      hide StopsAt, RetryPolicy.Valid, Strip, Tallied, AllLawful, CallAt, FailureResults, AllValid, PollCompletes,
           PollStatusOf, Successes, WorkerPollResult.Valid, PollExecution.Valid, NewPollExecution, ExecutionArgs,
           Call.Lawful, Call.Made, Call.LastRead, Call.Completes, Call.Adds, RecordOfRead;
      ghost var before, calledBefore := Totals(), history;
      pollAttempts := pollAttempts + 1;
      r, made := MakePoll(groupId, tags, executionId, startedAt, failedAt, finishedAt, calls);
      ghost var call := PollSeen(pollPolicy, tags, startedAt, finishedAt, calls, made);
      if r.Ok? {
        RecordPollMetrics(r.value.execution);
        state := if r.value.execution.status == Success then RunningState else Degraded;
      }
      TalliedStep(calledBefore, call);
      history := calledBefore + [call];
      assert Totals() == Counted(before, call);
    }

    /**
     * Polls a tag group. A poll past its argument checks counts as one attempt. It is also counted as a
     * success or a failure, and hands back a valid poll result, exactly when `PollCompletes`.
     */
    method PollGroup(groupId: string, groupConnectionId: string, tags: seq<Tag>, executionId: string,
                     startedAt: Utc, failedAt: seq<Utc>, finishedAt: Utc,
                     calls: nat -> DriverCall<seq<TagResult>>)
      returns (r: Result<WorkerPollResult, PollError>, ghost made: nat)
      requires Valid() && Strip(executionId) != "" && Strip(groupId) != "" && |tags| <= |failedAt|
      requires forall k: nat :: calls(k).Answered? ==> AllValid(calls(k).value)
      modifies this
      ensures Valid()
      ensures r == Err(GroupMismatch) <==> groupConnectionId != connectionId
      ensures r == Err(TagMismatch) <==>
          groupConnectionId == connectionId && exists t :: t in tags && t.groupId != groupId
      ensures r.Err? && !r.error.Rejected? ==>
          history == old(history) && Totals() == old(Totals()) && state == old(state)
      ensures r.Ok? || r.error.Rejected? ==>
                && StopsAt(pollPolicy.maxAttempts, CallAt(calls), made) && made >= 1
                && (r.Ok? <==> PollCompletes(tags, startedAt, finishedAt, calls(made - 1)))
                && history == old(history) + [PollCall(pollPolicy.maxAttempts, tags, startedAt, finishedAt, calls)]
                && pollAttempts == old(pollAttempts) + 1 && pollRetryAttempts == old(pollRetryAttempts) + made - 1
      ensures r.Err? ==>
                && pollSuccesses == old(pollSuccesses) && pollFailures == old(pollFailures)
                && tagSuccesses == old(tagSuccesses) && tagFailures == old(tagFailures)
      ensures r.Ok? ==>
                && pollSuccesses == old(pollSuccesses) + (if r.value.execution.status == Success then 1 else 0)
                && pollFailures == old(pollFailures) + (if r.value.execution.status == Success then 0 else 1)
                && tagSuccesses == old(tagSuccesses) + r.value.execution.successfulTags
                && tagFailures == old(tagFailures) + r.value.execution.failedTags
      ensures r.Ok? ==>
                var e, results := r.value.execution, r.value.results;
                && e.executionId == Strip(executionId) && e.connectionId == Strip(connectionId)
                && e.tagGroupId == Strip(groupId) && e.startedAt == startedAt && e.finishedAt == Some(finishedAt)
                && e.requestedTags == |tags| && e.successfulTags == |Positions(HasValue(), results)|
                && e.failedTags == |results| - e.successfulTags
                && e.errorMessage == (if ErrorTexts(results) == [] then None else Some(Join("; ", ErrorTexts(results))))
                && (e.status == Success <==> forall i :: 0 <= i < |results| ==> results[i].value.Some?)
                && (e.status == Failed <==> results != [] && forall i :: 0 <= i < |results| ==> results[i].value.None?)
                && e.status in {Success, Failed, PartialFailure}
      ensures r.Ok? ==>
                && r.value.Valid()
                && (calls(made - 1).Answered? ==> r.value.results == calls(made - 1).value)
                && (calls(made - 1).Raised? ==>
                      var raised := calls(made - 1).error;
                      && |r.value.results| == |tags|
                      && forall i :: 0 <= i < |tags| ==> r.value.results[i] == TagResult(
                           Strip(tags[i].id), Bad, failedAt[i], None, None, Some(Strip(raised.code)),
                               Some(Strip(raised.text))))
                && state == (if r.value.execution.status == Success then RunningState else Degraded)
                && lastError == r.value.execution.errorMessage
    {
      hide StopsAt, RetryPolicy.Valid, Strip, Tallied, AllLawful, CallAt, FailureResults, AllValid, PollCompletes,
           WorkerPollResult.Valid, RecordOf, Counted, NewPollExecution, ExecutionArgs, ErrorTexts, Join, StopsAt;
      made := 0;
      if groupConnectionId != connectionId {
        return Err(GroupMismatch), made;
      }
      if exists t :: t in tags && t.groupId != groupId {
        return Err(TagMismatch), made;
      }
      r, made := AttemptPoll(groupId, tags, executionId, startedAt, failedAt, finishedAt, calls);
      if r.Ok? {
        ResultsAreValid(r.value);
        RecordFields(executionId, connectionId, groupId, startedAt, finishedAt, |tags|, r.value.results,
            r.value.execution);
        if calls(made - 1).Raised? {
          FailureResultsExact(tags, calls(made - 1).error, failedAt);
        }
      }
    }
  }

  lemma OnePoll(history: seq<Call>)
    requires |history| == 1 && AllLawful(history) && history[0].PollCall? && !history[0].Completes()
    ensures Tallied(history).pollAttempts == 1
    ensures Tallied(history).pollSuccesses == 0 && Tallied(history).pollFailures == 0
  {
    hide Call.Made, Call.Completes;
    assert history[..0] == [];
  }

  /**
   * A call after which the poll counters do not balance: a new worker polls a group without tags, its driver
   * answers at once, and the clock reads one second less at the end than at the start.
   */
  method ClockGoesBack(connectPolicy: RetryPolicy, pollPolicy: RetryPolicy, answers: nat -> DriverCall<seq<TagResult>>)
    returns (worker: ConnectionWorker)
    requires connectPolicy.Valid() && pollPolicy.Valid() && forall k: nat :: answers(k) == Answered([])
    ensures fresh(worker) && worker.Valid()
    ensures worker.history == [PollCall(pollPolicy.maxAttempts, [], EPOCH.(second := 1), EPOCH, answers)]
    ensures worker.pollAttempts == 1 && worker.pollSuccesses + worker.pollFailures == 0
  {
    hide StopPoint, StopsAt, RetryPolicy.Valid, FailureResults, NewPollExecution, ExecutionArgs, RecordOfRead,
         WorkerPollResult.Valid, Reportable, AllNamed, Counted;
    worker := new ConnectionWorker("connection", connectPolicy, pollPolicy);
    var later: Utc := EPOCH.(second := 1);
    assert Instant(later) > Instant(EPOCH);
    var _, made := worker.PollGroup("group", "connection", [], "execution", later, [], EPOCH, answers);
    assert !PollCompletes([], later, EPOCH, answers(made - 1));
    OnePoll(worker.history);
  }
}
