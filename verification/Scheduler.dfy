/** Fixed-grid, non-overlapping scheduling of tag groups. Time is in whole nanoseconds. */
module Scheduler {

  import opened Results
  import opened Lists

  const TICKS_PER_MS := 1_000_000

  // ---------------------------------------------------------------- configuration

  datatype OverlapPolicy = Skip | Unsupported

  datatype TagGroup = TagGroup(id: string, intervalMs: nat, overlapPolicy: OverlapPolicy, enabled: bool)

  datatype SchedulerError = UnsupportedOverlapPolicy(group: string) | DuplicateTagGroup(group: string)

  // ---------------------------------------------------------------- one group's schedule as a value

  /**
   * `slots` and `overlaps` are history: the grid slots in which cycles started, and how often the group was
   * due while its previous cycle was still active. Tasks are numbered by their start; `activeTask` is the
   * reference that the scheduler keeps, `running` the cycles that the event loop is really running.
   */
  datatype Schedule = Schedule(
    interval: nat,
    start: int,
    nextDueAt: int,
    activeTask: Option<nat>,
    running: set<nat>,
    startedCycles: nat,
    missedCycles: nat,
    failedCycles: nat,
    slots: seq<int>,
    overlaps: nat)
  {
    /** Grid points accounted for so far. */
    function Accounted(): nat {
      startedCycles + missedCycles
    }

    /** Every accounted grid point is exactly one interval: no drift. Starts are on distinct, increasing slots. */
    predicate Valid() {
      && interval > 0
      && nextDueAt == start + Accounted() * interval
      && |slots| == startedCycles
      && (forall i, j :: 0 <= i < j < |slots| ==> slots[i] < slots[j])
      && (forall i :: 0 <= i < |slots| ==> 0 <= slots[i] < Accounted())
      && failedCycles + |running| <= startedCycles
      && overlaps <= missedCycles
    }
  }

  function DueCount(now: int, nextDueAt: int, interval: nat): (count: nat)
    requires interval > 0
    ensures count > 0 <==> now >= nextDueAt
  {
    if now < nextDueAt then 0 else (now - nextDueAt) / interval + 1
  }

  lemma Distribute(a: int, b: int, c: int)
    ensures (a + b) * c == a * c + b * c
  {
  }

  /** What one pass of the scheduler at `now` does to one group: the grid is kept. */
  function Ticked(s: Schedule, now: int): (r: Schedule)
    requires s.Valid()
    ensures r.Valid() && r.start == s.start && r.interval == s.interval
  {
    if now < s.nextDueAt then s
    else
      var due := DueCount(now, s.nextDueAt, s.interval);
      Distribute(s.Accounted(), due, s.interval);
      var moved := s.(nextDueAt := s.nextDueAt + due * s.interval);
      if s.activeTask.Some? then moved.(missedCycles := s.missedCycles + due, overlaps := s.overlaps + 1)
      else
        moved.(startedCycles := s.startedCycles + 1, missedCycles := s.missedCycles + (due - 1),
               activeTask := Some(s.startedCycles), running := s.running + {s.startedCycles},
               slots := s.slots + [s.Accounted() + due - 1])
  }

  /** A running cycle ends, well or with an error, and drops the reference, whichever task that names. */
  function Finished(s: Schedule, task: nat, failed: bool): (r: Schedule)
    requires s.Valid()
    ensures r.Valid() && r == s.(activeTask := r.activeTask, running := r.running, failedCycles := r.failedCycles)
  {
    if task in s.running then
      s.(activeTask := None, running := s.running - {task}, failedCycles := s.failedCycles + if failed then 1 else 0)
    else s
  }

  lemma FloorBounds(elapsed: nat, interval: nat)
    requires interval > 0
    ensures elapsed / interval * interval <= elapsed < (elapsed / interval + 1) * interval
  {
    assert elapsed == elapsed / interval * interval + elapsed % interval;
  }

  /** After a pass that found the group due, the next due point lies within one interval after `now`. */
  lemma TickCatchesUp(s: Schedule, now: int)
    requires s.Valid()
    ensures now < Ticked(s, now).nextDueAt
    ensures now >= s.nextDueAt ==> Ticked(s, now).nextDueAt <= now + s.interval
    ensures now < s.nextDueAt ==> Ticked(s, now) == s
  {
    if now >= s.nextDueAt {
      var quotient := (now - s.nextDueAt) / s.interval;
      FloorBounds(now - s.nextDueAt, s.interval);
      Distribute(quotient, 1, s.interval);
    }
  }

  /** A pass accounts for each due grid point exactly once. */
  lemma TickAccounts(s: Schedule, now: int)
    requires s.Valid()
    ensures Ticked(s, now).Accounted() == s.Accounted() + DueCount(now, s.nextDueAt, s.interval)
  {
  }

  lemma ValidInterval(s: Schedule)
    requires s.Valid()
    ensures s.interval > 0
  {
  }

  /** A pass over a due group moves the due point past every point reached and misses all of them but the start. */
  lemma PassCounts(s: Schedule, now: int)
    requires s.Valid() && now >= s.nextDueAt
    ensures
      var due := (now - s.nextDueAt) / s.interval + 1;
      var r := Ticked(s, now);
      && r.nextDueAt == s.nextDueAt + due * s.interval
      && r.startedCycles == s.startedCycles + (if s.activeTask == None then 1 else 0)
      && r.missedCycles == s.missedCycles + due - (if s.activeTask == None then 1 else 0)
      && r.overlaps == s.overlaps + (if s.activeTask == None then 0 else 1)
      && r.failedCycles == s.failedCycles
      && r.activeTask == (if s.activeTask == None then Some(s.startedCycles) else s.activeTask)
      && r.running == s.running + (if s.activeTask == None then {s.startedCycles} else {})
  {
  }

  /** The slot of a start is the grid interval that contains the moment of starting. */
  lemma StartIsInItsSlot(s: Schedule, now: int)
    requires s.Valid() && now >= s.nextDueAt && s.activeTask.None?
    ensures
      var slot := Ticked(s, now).slots[s.startedCycles];
      s.start + slot * s.interval <= now < s.start + (slot + 1) * s.interval
  {
    var due := DueCount(now, s.nextDueAt, s.interval);
    TickCatchesUp(s, now);
    TickAccounts(s, now);
    Distribute(s.Accounted() + due, -1, s.interval);
  }

  // ---------------------------------------------------------------- whole histories of one group

  datatype Event = Tick(now: int) | Finish(task: nat, failed: bool)

  function Step(s: Schedule, e: Event): (r: Schedule)
    requires s.Valid()
    ensures r.Valid() && r.start == s.start && r.interval == s.interval
  {
    match e
    case Tick(now) => Ticked(s, now)
    case Finish(task, failed) => Finished(s, task, failed)
  }

  function History(s: Schedule, events: seq<Event>): (r: Schedule)
    requires s.Valid()
    ensures r.Valid() && r.start == s.start && r.interval == s.interval
  {
    if events == [] then s
    else Step(History(s, events[..|events| - 1]), events[|events| - 1])
  }

  function Fresh(interval: nat, start: int): Schedule {
    Schedule(interval, start, start, None, {}, 0, 0, 0, [], 0)
  }

  /** The reference names exactly the one cycle that is running, if any. */
  predicate OneTask(s: Schedule) {
    && s.running == (match s.activeTask case Some(task) => {task} case None => {})
    && forall task :: task in s.running ==> task < s.startedCycles
  }

  lemma TickKeepsOneTask(s: Schedule, now: int)
    requires s.Valid() && OneTask(s)
    ensures OneTask(Ticked(s, now))
  {
  }

  lemma FinishKeepsOneTask(s: Schedule, task: nat, failed: bool)
    requires s.Valid() && OneTask(s)
    ensures OneTask(Finished(s, task, failed))
  {
  }

  lemma FreshIsValid(interval: nat, start: int)
    requires interval > 0
    ensures Fresh(interval, start).Valid() && OneTask(Fresh(interval, start))
  {
  }

  /**
   * Whatever the clock readings and whichever cycles end in whatever order, a group never has two cycles
   * running, and the reference that the next pass looks at is set exactly while one is.
   */
  lemma {:induction false} NeverTwoCycles(interval: nat, start: int, events: seq<Event>)
    requires interval > 0
    ensures
      var s := History(Fresh(interval, start), events);
      OneTask(s) && |s.running| <= 1 && (s.activeTask.Some? <==> s.running != {})
  {
    hide Ticked, Finished, Schedule.Valid;
    FreshIsValid(interval, start);
    if events != [] {
      var front, last := events[..|events| - 1], events[|events| - 1];
      NeverTwoCycles(interval, start, front);
      var before := History(Fresh(interval, start), front);
      match last
      case Tick(now) => TickKeepsOneTask(before, now);
      case Finish(task, failed) => FinishKeepsOneTask(before, task, failed);
    }
  }

  // ---------------------------------------------------------------- jumping equals stepping

  /** Catching up one interval at a time. */
  function StepCount(now: int, nextDueAt: int, interval: nat): nat
    requires interval > 0
    decreases if now < nextDueAt then 0 else now - nextDueAt + 1
  {
    if now < nextDueAt then 0 else 1 + StepCount(now, nextDueAt + interval, interval)
  }

  lemma QuotientStep(elapsed: nat, interval: nat)
    requires interval > 0 && elapsed >= interval
    ensures (elapsed - interval) / interval + 1 == elapsed / interval
  {
    FloorBounds(elapsed, interval);
    FloorBounds(elapsed - interval, interval);
    var p, q := (elapsed - interval) / interval + 1, elapsed / interval;
    Distribute((elapsed - interval) / interval, 1, interval);
    Distribute((elapsed - interval) / interval + 1, 1, interval);
    Distribute(q, 1, interval);
    SameFloor(elapsed, interval, p, q);
  }

  lemma SameFloor(elapsed: nat, interval: nat, p: nat, q: nat)
    requires interval > 0
    requires p * interval <= elapsed < (p + 1) * interval && q * interval <= elapsed < (q + 1) * interval
    ensures p == q
  {
    if p < q {
      TimesMonotone(p + 1, q, interval);
    } else if q < p {
      TimesMonotone(q + 1, p, interval);
    }
  }

  lemma TimesMonotone(a: nat, b: nat, c: nat)
    requires a <= b
    ensures a * c <= b * c
  {
    Distribute(a, b - a, c);
  }

  /** One floor division finds the same count as stepping interval by interval. */
  lemma {:induction false} JumpEqualsSteps(now: int, nextDueAt: int, interval: nat)
    requires interval > 0
    ensures DueCount(now, nextDueAt, interval) == StepCount(now, nextDueAt, interval)
    decreases if now < nextDueAt then 0 else now - nextDueAt + 1
  {
    if now >= nextDueAt {
      JumpEqualsSteps(now, nextDueAt + interval, interval);
      if now >= nextDueAt + interval {
        QuotientStep(now - nextDueAt, interval);
      } else {
        SmallQuotient(now - nextDueAt, interval);
      }
    }
  }

  lemma SmallQuotient(elapsed: nat, interval: nat)
    requires elapsed < interval
    ensures elapsed / interval == 0
  {
  }

  /** Stepping can be interrupted: counting up to `mid` and from there to `now` is counting to `now`. */
  lemma {:induction false} StepsSplit(mid: int, now: int, nextDueAt: int, interval: nat)
    requires interval > 0 && mid <= now
    ensures
      var k := StepCount(mid, nextDueAt, interval);
      StepCount(now, nextDueAt, interval) == k + StepCount(now, nextDueAt + k * interval, interval)
    decreases if mid < nextDueAt then 0 else mid - nextDueAt + 1
  {
    if mid >= nextDueAt {
      StepsSplit(mid, now, nextDueAt + interval, interval);
      Distribute(1, StepCount(mid, nextDueAt + interval, interval), interval);
    }
  }

  /** An extra wake-up in between changes neither the next due point nor the number of accounted grid points. */
  lemma ExtraWakeUpHarmless(s: Schedule, mid: int, now: int)
    requires s.Valid() && mid <= now
    ensures Ticked(Ticked(s, mid), now).nextDueAt == Ticked(s, now).nextDueAt
    ensures Ticked(Ticked(s, mid), now).Accounted() == Ticked(s, now).Accounted()
  {
    var m := Ticked(s, mid);
    TickAccounts(s, mid);
    TickAccounts(s, now);
    TickAccounts(m, now);
    JumpEqualsSteps(mid, s.nextDueAt, s.interval);
    JumpEqualsSteps(now, s.nextDueAt, s.interval);
    JumpEqualsSteps(now, m.nextDueAt, s.interval);
    StepsSplit(mid, now, s.nextDueAt, s.interval);
    assert Ticked(m, now).Accounted() == Ticked(s, now).Accounted();
    assert Ticked(m, now).nextDueAt == s.start + Ticked(m, now).Accounted() * s.interval;
    assert Ticked(s, now).nextDueAt == s.start + Ticked(s, now).Accounted() * s.interval;
  }

  /** Stepping counts the grid points up to `now`, each once and no others. */
  lemma {:induction false} StepCountIsGridPoints(now: int, nextDueAt: int, interval: nat, k: nat)
    requires interval > 0
    ensures k < StepCount(now, nextDueAt, interval) <==> nextDueAt + k * interval <= now
    decreases if now < nextDueAt then 0 else now - nextDueAt + 1
  {
    if now < nextDueAt {
      TimesMonotone(0, k, interval);
    } else if k > 0 {
      StepCountIsGridPoints(now, nextDueAt + interval, interval, k - 1);
      Distribute(k - 1, 1, interval);
    }
  }

  /** The latest clock reading of a history; `floor` when there is none. */
  function Latest(floor: int, events: seq<Event>): int {
    if events == [] then floor
    else
      var before, last := Latest(floor, events[..|events| - 1]), events[|events| - 1];
      if last.Tick? && last.now > before then last.now else before
  }

  lemma NothingToStep(start: int, interval: nat)
    requires interval > 0
    ensures StepCount(start - 1, start, interval) == 0
  {
  }

  /** However the clock is read, what has been accounted is the count of stepping to its latest reading. */
  lemma {:induction false} HistoryIsOneStepping(interval: nat, start: int, events: seq<Event>)
    requires interval > 0
    ensures
      var s := History(Fresh(interval, start), events);
      && s.Accounted() == StepCount(Latest(start - 1, events), start, interval)
      && Latest(start - 1, events) < s.nextDueAt
  {
    hide Ticked, StepCount, Schedule.Valid;
    FreshIsValid(interval, start);
    if events == [] {
      NothingToStep(start, interval);
    } else {
      var front, last := events[..|events| - 1], events[|events| - 1];
      HistoryIsOneStepping(interval, start, front);
      if last.Tick? {
        TickContinuesStepping(History(Fresh(interval, start), front), Latest(start - 1, front), last.now);
      }
    }
  }

  lemma TickContinuesStepping(s: Schedule, latest: int, now: int)
    requires s.Valid() && latest < s.nextDueAt && s.Accounted() == StepCount(latest, s.start, s.interval)
    ensures
      var seen := if now > latest then now else latest;
      Ticked(s, now).Accounted() == StepCount(seen, s.start, s.interval) && seen < Ticked(s, now).nextDueAt
  {
    hide StepCount;
    TickAccounts(s, now);
    TickCatchesUp(s, now);
    if now > latest {
      StepsSplit(latest, now, s.start, s.interval);
      JumpEqualsSteps(now, s.nextDueAt, s.interval);
    }
  }

  /**
   * Whatever the clock readings and whenever cycles end: the next due point is exactly as many intervals
   * after the start as cycles were started or missed; these are exactly the grid points up to the latest
   * clock reading, so each is accounted once; and cycles start in strictly increasing grid slots.
   */
  lemma GridConservation(interval: nat, start: int, events: seq<Event>)
    requires interval > 0
    ensures
      var s := History(Fresh(interval, start), events);
      && s.nextDueAt == start + (s.startedCycles + s.missedCycles) * interval
      && (forall k: nat :: k < s.startedCycles + s.missedCycles <==> start + k * interval <= Latest(start - 1, events))
      && |s.slots| == s.startedCycles
      && (forall i, j :: 0 <= i < j < |s.slots| ==> s.slots[i] < s.slots[j])
      && s.failedCycles <= s.startedCycles
  {
    hide StepCount, Latest, History;
    var s := History(Fresh(interval, start), events);
    HistoryIsOneStepping(interval, start, events);
    forall k: nat
      ensures k < s.Accounted() <==> start + k * interval <= Latest(start - 1, events)
    {
      StepCountIsGridPoints(Latest(start - 1, events), start, interval, k);
    }
  }

  // ---------------------------------------------------------------- exact sleeping

  predicate AllValid(ss: seq<Schedule>) {
    forall i :: 0 <= i < |ss| ==> ss[i].Valid()
  }

  function TickAll(ss: seq<Schedule>, now: int): (r: seq<Schedule>)
    requires AllValid(ss)
    ensures |r| == |ss| && AllValid(r)
    ensures forall i :: 0 <= i < |ss| ==> r[i] == Ticked(ss[i], now)
  {
    seq(|ss|, i requires 0 <= i < |ss| => Ticked(ss[i], now))
  }

  function MinDue(ss: seq<Schedule>): (m: int)
    requires ss != []
    ensures forall i :: 0 <= i < |ss| ==> m <= ss[i].nextDueAt
    ensures exists i :: 0 <= i < |ss| && m == ss[i].nextDueAt
  {
    if |ss| == 1 then ss[0].nextDueAt
    else
      var rest := MinDue(ss[..|ss| - 1]);
      var last := ss[|ss| - 1].nextDueAt;
      if last < rest then last else rest
  }

  lemma MinDueNext(ss: seq<Schedule>, i: nat)
    requires 1 <= i < |ss|
    ensures MinDue(ss[..i + 1]) == if ss[i].nextDueAt < MinDue(ss[..i]) then ss[i].nextDueAt else MinDue(ss[..i])
  {
    assert ss[..i + 1][..i] == ss[..i];
  }

  lemma MinDueFirst(ss: seq<Schedule>)
    requires ss != []
    ensures MinDue(ss[..1]) == ss[0].nextDueAt
  {
  }

  /** Nanoseconds to sleep; a tenth of a second when nothing is scheduled. */
  function UntilNextDue(ss: seq<Schedule>, now: int): (delay: nat)
    ensures ss == [] ==> delay == 100_000_000
    ensures ss != [] && (forall i :: 0 <= i < |ss| ==> now <= ss[i].nextDueAt) ==>
              && (forall i :: 0 <= i < |ss| ==> now + delay <= ss[i].nextDueAt)
              && exists i :: 0 <= i < |ss| && now + delay == ss[i].nextDueAt
    ensures (exists i :: 0 <= i < |ss| && ss[i].nextDueAt < now) ==> delay == 0
  {
    if ss == [] then 100 * TICKS_PER_MS
    else if MinDue(ss) < now then 0 else MinDue(ss) - now
  }

  /** When the clock reads no later than the due point, at most one grid point is due. */
  lemma OnTimeTick(s: Schedule, now: int)
    requires s.Valid() && now <= s.nextDueAt
    ensures DueCount(now, s.nextDueAt, s.interval) <= 1
    ensures Ticked(s, now).missedCycles - s.missedCycles == Ticked(s, now).overlaps - s.overlaps
    ensures Ticked(s, now).missedCycles == s.missedCycles ||
            (s.activeTask.Some? && Ticked(s, now).missedCycles == s.missedCycles + 1)
  {
    if now == s.nextDueAt {
      SmallQuotient(0, s.interval);
    }
  }

  datatype Ending = Ending(task: nat, failed: bool)

  /** Which cycles end before a round, by the position of their group. */
  type Endings = map<nat, Ending>

  function EndOf(ends: Endings, i: nat): Option<Ending> {
    if i in ends then Some(ends[i]) else None
  }

  function Ended(s: Schedule, end: Option<Ending>): (r: Schedule)
    requires s.Valid()
    ensures r.Valid() && r.nextDueAt == s.nextDueAt && r.missedCycles == s.missedCycles && r.overlaps == s.overlaps
  {
    if end.Some? then Finished(s, end.value.task, end.value.failed) else s
  }

  function EndSome(ss: seq<Schedule>, ends: Endings): (r: seq<Schedule>)
    requires AllValid(ss)
    ensures |r| == |ss| && AllValid(r)
    ensures forall i :: 0 <= i < |ss| ==> r[i] == Ended(ss[i], EndOf(ends, i))
  {
    var r := seq(|ss|, i requires 0 <= i < |ss| => Ended(ss[i], EndOf(ends, i)));
    assert forall i :: 0 <= i < |r| ==> r[i] == Ended(ss[i], EndOf(ends, i)) && r[i].Valid();
    r
  }

  /** Rounds of: start what is due, sleep exactly until the next due point, let some cycles end. */
  function ExactRounds(ss: seq<Schedule>, now: int, ends: seq<Endings>): (r: (seq<Schedule>, int))
    requires AllValid(ss)
    ensures AllValid(r.0) && |r.0| == |ss|
  {
    if ends == [] then (ss, now)
    else
      var (before, at) := ExactRounds(ss, now, ends[..|ends| - 1]);
      var ticked := TickAll(before, at);
      (EndSome(ticked, ends[|ends| - 1]), at + UntilNextDue(ticked, at))
  }

  /** No group is past due, and misses have grown only together with overlaps. */
  predicate OnTime(ss: seq<Schedule>, r: seq<Schedule>, at: int) {
    |r| == |ss| && forall i :: 0 <= i < |ss| ==>
      at <= r[i].nextDueAt && r[i].missedCycles - ss[i].missedCycles == r[i].overlaps - ss[i].overlaps
  }

  /** However late the first pass is, after it and its exact sleep nothing is past due. */
  lemma OnTimeAfterFirst(ss: seq<Schedule>, now: int, ends: Endings)
    requires AllValid(ss)
    ensures
      var first := TickAll(ss, now);
      OnTime(first, EndSome(first, ends), now + UntilNextDue(first, now))
  {
    hide Ticked;
    forall i | 0 <= i < |ss|
      ensures now < TickAll(ss, now)[i].nextDueAt
    {
      TickCatchesUp(ss[i], now);
    }
  }

  lemma OnTimeRound(ss: seq<Schedule>, before: seq<Schedule>, at: int, ends: Endings)
    requires AllValid(before) && OnTime(ss, before, at)
    ensures OnTime(ss, EndSome(TickAll(before, at), ends), at + UntilNextDue(TickAll(before, at), at))
  {
    hide Ticked, DueCount;
    var ticked := TickAll(before, at);
    forall i | 0 <= i < |before|
      ensures at < ticked[i].nextDueAt
      ensures ticked[i].missedCycles - before[i].missedCycles == ticked[i].overlaps - before[i].overlaps
    {
      TickCatchesUp(before[i], at);
      OnTimeTick(before[i], at);
    }
  }

  lemma LastExactRound(ss: seq<Schedule>, now: int, ends: seq<Endings>)
    requires AllValid(ss) && ends != []
    ensures
      var (before, at) := ExactRounds(ss, now, ends[..|ends| - 1]);
      var ticked := TickAll(before, at);
      ExactRounds(ss, now, ends) == (EndSome(ticked, ends[|ends| - 1]), at + UntilNextDue(ticked, at))
  {
    hide Schedule.Valid, AllValid, Ticked, Ended, TickAll, EndSome, UntilNextDue;
  }

  lemma NoExactRounds(ss: seq<Schedule>, now: int)
    requires AllValid(ss)
    ensures ExactRounds(ss, now, []) == (ss, now)
  {
  }

  /**
   * With exact sleeping, from a first pass at any time, every later pass is on time: since that first pass a
   * cycle is missed only because the previous one is still active, so misses and overlaps grow together.
   */
  lemma {:induction false} ExactSleepMissesOnlyOverlaps(ss: seq<Schedule>, now: int, ends: seq<Endings>)
    requires AllValid(ss) && ends != []
    ensures OnTime(TickAll(ss, now), ExactRounds(ss, now, ends).0, ExactRounds(ss, now, ends).1)
  {
    hide Schedule.Valid, AllValid, Ticked, OnTime, TickAll, EndSome, UntilNextDue;
    hide ExactRounds;
    var last := |ends| - 1;
    LastExactRound(ss, now, ends);
    if last == 0 {
      assert ends[..last] == [];
      NoExactRounds(ss, now);
      OnTimeAfterFirst(ss, now, ends[0]);
    } else {
      ExactSleepMissesOnlyOverlaps(ss, now, ends[..last]);
      var before := ExactRounds(ss, now, ends[..last]);
      OnTimeRound(TickAll(ss, now), before.0, before.1, ends[last]);
    }
  }

  /** One round of the loop: what the clock reads at wake-up, and which cycles end before the next one. */
  datatype Round = Round(now: int, ends: Endings)

  /** The loop with whatever the clock reads at each wake-up. */
  function ClockRounds(ss: seq<Schedule>, rounds: seq<Round>): (r: seq<Schedule>)
    requires AllValid(ss)
    ensures AllValid(r) && |r| == |ss|
  {
    if rounds == [] then ss
    else
      var last := rounds[|rounds| - 1];
      EndSome(TickAll(ClockRounds(ss, rounds[..|rounds| - 1]), last.now), last.ends)
  }

  /** The sleep asked for in each round: the time until the next due point, as seen right after the pass. */
  function Sleeps(ss: seq<Schedule>, rounds: seq<Round>): seq<nat>
    requires AllValid(ss)
  {
    if rounds == [] then []
    else
      var front, last := rounds[..|rounds| - 1], rounds[|rounds| - 1];
      Sleeps(ss, front) + [UntilNextDue(TickAll(ClockRounds(ss, front), last.now), last.now)]
  }

  /** What one more round adds. */
  lemma NextRound(ss: seq<Schedule>, rounds: seq<Round>, k: nat)
    requires AllValid(ss) && k < |rounds|
    ensures
      var ticked := TickAll(ClockRounds(ss, rounds[..k]), rounds[k].now);
      && ClockRounds(ss, rounds[..k + 1]) == EndSome(ticked, rounds[k].ends)
      && Sleeps(ss, rounds[..k + 1]) == Sleeps(ss, rounds[..k]) + [UntilNextDue(ticked, rounds[k].now)]
  {
    hide AllValid, TickAll, EndSome, UntilNextDue;
    assert rounds[..k + 1][..k] == rounds[..k];
  }

  lemma NoRounds(ss: seq<Schedule>)
    requires AllValid(ss)
    ensures ClockRounds(ss, []) == ss && Sleeps(ss, []) == []
  {
  }

  lemma EndedWhenRunning(s: Schedule, end: Option<Ending>)
    requires s.Valid()
    ensures Ended(s, end) ==
            if end.Some? && end.value.task in s.running then Finished(s, end.value.task, end.value.failed) else s
  {
  }

  // ---------------------------------------------------------------- configured groups

  /** The enabled groups, in order. */
  function EnabledGroups(groups: seq<TagGroup>): seq<TagGroup> {
    if groups == [] then []
    else
      var last := groups[|groups| - 1];
      EnabledGroups(groups[..|groups| - 1]) + if last.enabled then [last] else []
  }

  lemma {:induction false} EnabledGroupsExact(groups: seq<TagGroup>)
    ensures EnabledGroups(groups) == Filter((g: TagGroup) => g.enabled, groups)
  {
    if groups != [] {
      var front, last := groups[..|groups| - 1], groups[|groups| - 1];
      EnabledGroupsExact(front);
      FilterAppend((g: TagGroup) => g.enabled, front, [last]);
      assert groups == front + [last];
      assert [last][1..] == [];
    }
  }

  function GroupIds(groups: seq<TagGroup>): set<string> {
    set g | g in groups :: g.id
  }

  /** What the scheduler accepts: enabled groups skip overlaps and have distinct ids. */
  predicate Schedulable(enabled: seq<TagGroup>) {
    && (forall i :: 0 <= i < |enabled| ==> enabled[i].overlapPolicy == Skip)
    && (forall i, j :: 0 <= i < j < |enabled| ==> enabled[i].id != enabled[j].id)
  }

  lemma EnabledNext(groups: seq<TagGroup>, k: nat)
    requires k < |groups|
    ensures EnabledGroups(groups[..k + 1]) == EnabledGroups(groups[..k]) + if groups[k].enabled then [groups[k]] else []
  {
    assert groups[..k + 1][..k] == groups[..k];
  }

  lemma {:induction false} EnabledPrefix(groups: seq<TagGroup>, k: nat)
    requires k <= |groups|
    ensures EnabledGroups(groups[..k]) <= EnabledGroups(groups)
  {
    assert groups[..|groups|] == groups;
    if k < |groups| {
      var front := groups[..|groups| - 1];
      EnabledPrefix(front, k);
      assert front[..k] == groups[..k];
    }
  }

  lemma SchedulableNext(front: seq<TagGroup>, group: TagGroup)
    ensures Schedulable(front + [group]) <==>
            Schedulable(front) && group.overlapPolicy == Skip && group.id !in GroupIds(front)
  {
    var all := front + [group];
    if Schedulable(all) {
      assert forall i :: 0 <= i < |front| ==> all[i] == front[i];
      assert all[|front|] == group;
    }
  }

  /** Enabled groups skip overlaps, and no two of them share an id. */
  predicate AcceptedGroups(groups: seq<TagGroup>) {
    && (forall i :: 0 <= i < |groups| && groups[i].enabled ==> groups[i].overlapPolicy == Skip)
    && (forall i, j :: 0 <= i < j < |groups| && groups[i].enabled && groups[j].enabled ==> groups[i].id != groups[j].id)
  }

  lemma AcceptedNext(groups: seq<TagGroup>)
    requires groups != []
    ensures
      var front, last := groups[..|groups| - 1], groups[|groups| - 1];
      AcceptedGroups(groups) <==>
        && AcceptedGroups(front)
        && (last.enabled ==> last.overlapPolicy == Skip
                             && forall i :: 0 <= i < |front| && front[i].enabled ==> front[i].id != last.id)
  {
    var front := groups[..|groups| - 1];
    assert forall i :: 0 <= i < |front| ==> front[i] == groups[i];
  }

  lemma {:induction false} EnabledIds(groups: seq<TagGroup>, id: string)
    ensures id in GroupIds(EnabledGroups(groups)) <==>
              exists i :: 0 <= i < |groups| && groups[i].enabled && groups[i].id == id
  {
    if groups != [] {
      var front, last := groups[..|groups| - 1], groups[|groups| - 1];
      EnabledIds(front, id);
      assert forall i :: 0 <= i < |front| ==> front[i] == groups[i];
      if last.enabled {
        IdsNext(EnabledGroups(front), last);
      } else {
        assert EnabledGroups(groups) == EnabledGroups(front);
      }
    }
  }

  lemma {:induction false} SchedulableExactly(groups: seq<TagGroup>)
    ensures Schedulable(EnabledGroups(groups)) <==> AcceptedGroups(groups)
  {
    hide Schedulable, GroupIds, AcceptedGroups;
    if groups == [] {
      NothingEnabled(groups);
      NothingAccepted();
    } else {
      var front, last := groups[..|groups| - 1], groups[|groups| - 1];
      SchedulableExactly(front);
      AcceptedNext(groups);
      EnabledIds(front, last.id);
      SchedulableNext(EnabledGroups(front), last);
      assert EnabledGroups(front) + [] == EnabledGroups(front);
    }
  }

  lemma NothingAccepted()
    ensures AcceptedGroups([]) && EnabledGroups([]) == []
  {
  }

  lemma SchedulablePrefix(front: seq<TagGroup>, all: seq<TagGroup>)
    requires front <= all && Schedulable(all)
    ensures Schedulable(front)
  {
    assert forall i :: 0 <= i < |front| ==> front[i] == all[i];
  }

  lemma NothingEnabled(groups: seq<TagGroup>)
    ensures EnabledGroups(groups[..0]) == [] && Schedulable([]) && GroupIds([]) == {}
  {
  }

  lemma IdsNext(front: seq<TagGroup>, group: TagGroup)
    ensures GroupIds(front + [group]) == GroupIds(front) + {group.id}
  {
    assert group in front + [group];
    assert forall g :: g in front ==> g in front + [group];
  }

  lemma RefusedPrefix(front: seq<TagGroup>, all: seq<TagGroup>)
    requires front <= all && !Schedulable(front)
    ensures !Schedulable(all)
  {
    if Schedulable(all) {
      SchedulablePrefix(front, all);
    }
  }

  // ---------------------------------------------------------------- the scheduler object

  class GroupSchedule {

    const group: TagGroup
    ghost const start: int
    var nextDueAt: int
    var activeTask: Option<nat>
    /** The cycles of this group that the event loop is running. */
    var running: set<nat>
    var startedCycles: nat
    var missedCycles: nat
    var failedCycles: nat
    var lastStartedAt: Option<int>
    var lastFinishedAt: Option<int>
    var lastError: Option<string>

    ghost var slots: seq<int>
    ghost var overlaps: nat

    ghost function View(): Schedule
      reads this
    {
      Schedule(Interval(), start, nextDueAt, activeTask, running, startedCycles, missedCycles, failedCycles,
          slots, overlaps)
    }

    function Interval(): nat {
      group.intervalMs * TICKS_PER_MS
    }

    constructor (group: TagGroup, start: int)
      ensures View() == Fresh(group.intervalMs * TICKS_PER_MS, start) && this.group == group
      ensures lastStartedAt == None && lastFinishedAt == None && lastError == None
    {
      this.group := group;
      this.start := start;
      nextDueAt, activeTask, running := start, None, {};
      startedCycles, missedCycles, failedCycles := 0, 0, 0;
      lastStartedAt, lastFinishedAt, lastError := None, None, None;
      slots, overlaps := [], 0;
    }

    /** One group's part of a pass: at most one cycle starts, and none while one is active. */
    method StartIfDue(now: int) returns (started: bool)
      requires View().Valid()
      modifies this
      ensures View() == Ticked(old(View()), now) && View().Valid()
      ensures started <==> old(nextDueAt) <= now && old(activeTask).None?
      ensures startedCycles == old(startedCycles) + if started then 1 else 0
      ensures activeTask == (if started then Some(old(startedCycles)) else old(activeTask))
      ensures running == old(running) + (if started then {old(startedCycles)} else {})
      ensures failedCycles == old(failedCycles) && lastFinishedAt == old(lastFinishedAt)
      ensures now < old(nextDueAt) ==> nextDueAt == old(nextDueAt) && missedCycles == old(missedCycles)
      ensures lastStartedAt == if started then Some(now) else old(lastStartedAt)
      ensures lastFinishedAt == old(lastFinishedAt)
      ensures lastError == if started then None else old(lastError)
    {
      hide Schedule.Valid, DueCount;
      ValidInterval(View());
      started := false;
      if now < nextDueAt {
        return;
      }
      var dueCount := DueCount(now, nextDueAt, Interval());
      ghost var accounted := startedCycles + missedCycles;
      nextDueAt := nextDueAt + dueCount * Interval();
      if activeTask.Some? {
        missedCycles := missedCycles + dueCount;
        overlaps := overlaps + 1;
        return;
      }
      startedCycles := startedCycles + 1;
      lastStartedAt := Some(now);
      lastError := None;
      if dueCount > 1 {
        missedCycles := missedCycles + (dueCount - 1);
      }
      activeTask, running := Some(startedCycles - 1), running + {startedCycles - 1};
      slots := slots + [accounted + dueCount - 1];
      started := true;
    }

    /** The end of a running cycle; `error` is what the handler raised, if anything. */
    method FinishCycle(task: nat, error: Option<string>, at: int)
      requires View().Valid() && task in running
      modifies this
      ensures View() == Finished(old(View()), task, error.Some?) && View().Valid()
      ensures failedCycles == old(failedCycles) + (if error.Some? then 1 else 0) && startedCycles == old(startedCycles)
      ensures activeTask == None && running == old(running) - {task} && nextDueAt == old(nextDueAt)
      ensures lastFinishedAt == Some(at) && lastStartedAt == old(lastStartedAt)
      ensures lastError == if error.Some? then error else old(lastError)
    {
      if error.Some? {
        failedCycles := failedCycles + 1;
        lastError := error;
      }
      lastFinishedAt := Some(at);
      activeTask, running := None, running - {task};
    }

    /** The end of one cycle, unless nothing ends or the named cycle is not running. */
    method EndIfRunning(end: Option<Ending>, at: int)
      requires View().Valid()
      modifies this
      ensures View() == Ended(old(View()), end) && View().Valid()
    {
      hide Schedule.Valid, Finished, Ended;
      EndedWhenRunning(View(), end);
      if end.Some? && end.value.task in running {
        FinishCycle(end.value.task, if end.value.failed then Some("failed") else None, at);
      }
    }
  }

  ghost function Views(schedules: seq<GroupSchedule>): (r: seq<Schedule>)
    reads schedules
    ensures |r| == |schedules| && forall i :: 0 <= i < |r| ==> r[i] == schedules[i].View()
  {
    seq(|schedules|, i requires 0 <= i < |schedules| reads schedules => schedules[i].View())
  }

  /** One schedule per enabled group, in order; refused for an unknown overlap policy or a repeated group. */
  method BuildSchedules(groups: seq<TagGroup>, now: int) returns (r: Result<seq<GroupSchedule>, SchedulerError>)
    requires forall i :: 0 <= i < |groups| ==> groups[i].intervalMs > 0
    ensures r.Ok? <==> AcceptedGroups(groups)
    ensures r.Err? ==>
              match r.error
              case UnsupportedOverlapPolicy(id) =>
                exists g :: g in groups && g.enabled && g.id == id && g.overlapPolicy != Skip
              case DuplicateTagGroup(id) =>
                exists i, j :: 0 <= i < j < |groups| && groups[i].enabled && groups[j].enabled
                               && groups[i].id == groups[j].id == id
    ensures r.Ok? ==>
              && fresh(r.value) && |r.value| == |EnabledGroups(groups)|
              && (forall i, j :: 0 <= i < j < |r.value| ==> r.value[i] != r.value[j])
              && (forall i :: 0 <= i < |r.value| ==>
                    && r.value[i].group == EnabledGroups(groups)[i]
                    && r.value[i].View() == Fresh(r.value[i].Interval(), now))
  {
    hide EnabledGroups, Schedulable, GroupIds, AcceptedGroups;
    SchedulableExactly(groups);
    var schedules: seq<GroupSchedule> := [];
    ghost var enabled := EnabledGroups(groups[..0]);
    NothingEnabled(groups);
    var seen: set<string> := {};
    var k := 0;
    while k < |groups|
      invariant 0 <= k <= |groups| && enabled == EnabledGroups(groups[..k])
      invariant Schedulable(enabled) && seen == GroupIds(enabled)
      invariant fresh(schedules) && |schedules| == |enabled|
      invariant forall i, j :: 0 <= i < j < |schedules| ==> schedules[i] != schedules[j]
      invariant forall i :: 0 <= i < |schedules| ==>
                  schedules[i].group == enabled[i] && schedules[i].View() == Fresh(schedules[i].Interval(), now)
    {
      var group := groups[k];
      EnabledNext(groups, k);
      EnabledPrefix(groups, k + 1);
      if group.enabled {
        SchedulableNext(enabled, group);
        if group.overlapPolicy != Skip {
          RefusedPrefix(enabled + [group], EnabledGroups(groups));
          return Err(UnsupportedOverlapPolicy(group.id));
        }
        if group.id in seen {
          EnabledIds(groups[..k], group.id);
          RefusedPrefix(enabled + [group], EnabledGroups(groups));
          return Err(DuplicateTagGroup(group.id));
        }
        var schedule := new GroupSchedule(group, now);
        schedules := schedules + [schedule];
        IdsNext(enabled, group);
        seen := seen + {group.id};
        enabled := enabled + [group];
      }
      k := k + 1;
    }
    assert groups[..k] == groups;
    r := Ok(schedules);
  }

  class PollScheduler {

    var schedules: seq<GroupSchedule>
    var running: bool

    ghost predicate Valid()
      reads this, schedules
    {
      && (forall i, j :: 0 <= i < j < |schedules| ==> schedules[i] != schedules[j])
      && (forall i :: 0 <= i < |schedules| ==> schedules[i].View().Valid())
    }

    constructor (schedules: seq<GroupSchedule>)
      requires forall i, j :: 0 <= i < j < |schedules| ==> schedules[i] != schedules[j]
      requires forall i :: 0 <= i < |schedules| ==> schedules[i].View().Valid()
      ensures Valid() && this.schedules == schedules && !running
    {
      this.schedules, running := schedules, false;
    }

    /** One pass over all groups. */
    method StartDueCycles(now: int)
      requires Valid()
      modifies schedules
      ensures Valid() && schedules == old(schedules) && running == old(running)
      ensures AllValid(old(Views(schedules))) && Views(schedules) == TickAll(old(Views(schedules)), now)
    {
      hide Schedule.Valid, Ticked;
      ghost var before := Views(schedules);
      var i := 0;
      while i < |schedules|
        invariant 0 <= i <= |schedules| && Valid()
        invariant forall k :: 0 <= k < i ==> schedules[k].View() == Ticked(before[k], now)
        invariant forall k :: i <= k < |schedules| ==> schedules[k].View() == before[k]
      {
        var _ := schedules[i].StartIfDue(now);
        i := i + 1;
      }
    }

    /** How long to sleep after a pass. */
    method SecondsUntilNextDue(now: int) returns (delay: nat)
      requires Valid()
      ensures delay == UntilNextDue(Views(schedules), now)
    {
      hide Schedule.Valid, MinDue;
      if |schedules| == 0 {
        return 100 * TICKS_PER_MS;
      }
      var nextDue := schedules[0].nextDueAt;
      var i := 1;
      ghost var views := Views(schedules);
      MinDueFirst(views);
      while i < |schedules|
        invariant 1 <= i <= |schedules|
        invariant nextDue == MinDue(views[..i])
      {
        MinDueNext(views, i);
        if schedules[i].nextDueAt < nextDue {
          nextDue := schedules[i].nextDueAt;
        }
        i := i + 1;
      }
      assert views[..i] == views;
      delay := if nextDue < now then 0 else nextDue - now;
    }

    /** The cycles that end while the loop sleeps. */
    method EndCycles(ends: Endings, at: int)
      requires Valid()
      modifies schedules
      ensures Valid() && schedules == old(schedules) && running == old(running)
      ensures AllValid(old(Views(schedules))) && Views(schedules) == EndSome(old(Views(schedules)), ends)
    {
      hide Schedule.Valid, Finished, Ended;
      ghost var before := Views(schedules);
      var i := 0;
      while i < |schedules|
        invariant 0 <= i <= |schedules| && Valid() && schedules == old(schedules) && running == old(running)
        invariant forall k :: 0 <= k < i ==> schedules[k].View() == Ended(before[k], EndOf(ends, k))
        invariant forall k :: i <= k < |schedules| ==> schedules[k].View() == before[k]
      {
        schedules[i].EndIfRunning(EndOf(ends, i), at);
        i := i + 1;
      }
    }

    /** The scheduler's loop, stopped after the given rounds; `delays` are the sleeps it asks for. */
    method Loop(rounds: seq<Round>) returns (delays: seq<nat>)
      requires Valid()
      modifies schedules
      ensures Valid() && schedules == old(schedules) && running == old(running)
      ensures AllValid(old(Views(schedules)))
      ensures Views(schedules) == ClockRounds(old(Views(schedules)), rounds)
      ensures delays == Sleeps(old(Views(schedules)), rounds)
    {
      hide Schedule.Valid, AllValid, EndSome, TickAll, UntilNextDue, ClockRounds, Sleeps;
      delays := [];
      AllViewsValid();
      ghost var before := Views(schedules);
      NoRounds(before);
      var k := 0;
      assert rounds[..0] == [];
      while k < |rounds|
        invariant 0 <= k <= |rounds|
        invariant Valid() && schedules == old(schedules) && running == old(running)
        invariant Views(schedules) == ClockRounds(before, rounds[..k])
        invariant delays == Sleeps(before, rounds[..k])
      {
        NextRound(before, rounds, k);
        var now := rounds[k].now;
        StartDueCycles(now);
        var delay := SecondsUntilNextDue(now);
        delays := delays + [delay];
        EndCycles(rounds[k].ends, now + delay);
        k := k + 1;
      }
      assert rounds[..k] == rounds;
    }

    /** Runs the loop unless it is running already. */
    method Run(rounds: seq<Round>) returns (ok: bool, delays: seq<nat>)
      requires Valid()
      modifies this`running, schedules
      ensures Valid() && schedules == old(schedules) && running == old(running)
      ensures ok <==> !old(running)
      ensures AllValid(old(Views(schedules)))
      ensures ok ==> Views(schedules) == ClockRounds(old(Views(schedules)), rounds)
      ensures ok ==> delays == Sleeps(old(Views(schedules)), rounds)
    {
      hide Schedule.Valid, AllValid, ClockRounds, Sleeps;
      delays := [];
      AllViewsValid();
      if running {
        return false, delays;
      }
      ghost var before := Views(schedules);
      running := true;
      assert Views(schedules) == before;
      delays := Loop(rounds);
      ghost var after := Views(schedules);
      running := false;
      assert Views(schedules) == after;
      ok := true;
    }

    lemma AllViewsValid()
      requires Valid()
      ensures AllValid(Views(schedules))
    {
    }
  }
}
