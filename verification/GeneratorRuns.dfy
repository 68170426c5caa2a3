/**
 * The timing record of a run of the fake generator, and what follows from it: the schedule does
 * not drift, the rate is bounded, stalls are caught up, and a cleared running flag stops the
 * worker after at most one more event, provided it reads the flag at all.
 */
module GeneratorRuns {
  import opened Words
  import opened Pacing

  const NANOSECONDS_PER_MICROSECOND: int := 1000

  /** The slice of the wait: one millisecond, in clock ticks. */
  const FLAG_CHECK_PERIOD: int := 1_000_000

  /** How the observation of a run ends. */
  datatype WorkEnd =
    | NoTimestamp    // interrupted while waiting for a first timestamp estimate
    | Stopped        // the running flag was found cleared
    | Unobserved     // the script of flag reads, or that of passes, ended
    | Retrying       // the script of push attempts ended inside the retry loop
    | RawQueueNull   // there is no raw sender; its exception left the worker

  /** The start of a pass: when, after how many of the clock's delays, and after how many flag reads. */
  datatype PassStart = PassStart(at: int, losses: nat, flagReads: nat)

  datatype RunRecord = RunRecord(
    startTime: int,
    period: int,            // event period, in clock ticks
    firstRead: nat,         // position in the flag script at the start
    firstLoss: nat,         // delays met before the start
    delays: nat -> nat,     // the delays of the clock
    starts: seq<PassStart>,
    script: seq<bool>,
    position: nat,          // position in the flag script at the end
    sleptAt: seq<nat>)
  {
    function ReadsPerPass(): nat {
      SliceReads(period, FLAG_CHECK_PERIOD)
    }

    /** When pass `k` is due; fixed at the start of the run. */
    function Target(k: nat): int {
      startTime + Times(k, period)
    }

    /** The flag read before which pass `k` starts. */
    function ReadsBefore(k: nat): int {
      firstRead + Times(k, ReadsPerPass())
    }

    /** A pass meets one delay in its work, one after each flag read and one at its last sleep. */
    function LossesBefore(k: nat): int {
      firstLoss + Times(k, ReadsPerPass() + 2)
    }

    /** The time lost between the start of pass `k` and that of the next. */
    function TimeLost(k: nat): int
      requires k + 1 < |starts|
    {
      Lost(delays, starts[k + 1].losses) - Lost(delays, starts[k].losses)
    }

    ghost predicate OnSchedule() {
      forall k :: 0 <= k < |starts| ==> Target(k) <= starts[k].at
    }

    /** A pass starts when it is due or when the previous pass lets it, give or take the time lost in between. */
    ghost predicate Prompt() {
      forall k {:trigger TimeLost(k)} :: 0 <= k < |starts| - 1 ==>
        && 0 <= TimeLost(k)
        && starts[k].at + TimeLost(k) <= starts[k + 1].at <= Max(Target(k + 1), starts[k].at) + TimeLost(k)
    }

    ghost predicate Polled() {
      forall k :: 0 <= k < |starts| ==>
        starts[k].flagReads == ReadsBefore(k) && starts[k].losses == LossesBefore(k)
    }

    /** What every run keeps. The first pass starts at once. */
    ghost predicate WellPaced() {
      && (|starts| > 0 ==> starts[0].at == startTime)
      && OnSchedule() && Prompt() && Polled()
      && firstRead <= position == |sleptAt| <= |script|
      && (ReadsPerPass() > 0 ==> SleepBetweenReads(sleptAt, firstRead, 3 * FLAG_CHECK_PERIOD))
    }

    /** Where the flag reads stand at the end of the observation; `observable` passes are in the script. */
    ghost predicate EndsAs(end: WorkEnd, observable: nat) {
      var n := |starts|;
      && n <= observable
      && firstRead <= position <= |script|
      && match end
         case NoTimestamp => n == 0 && position == firstRead
         case Stopped =>
           && n > 0
           && ReadsBefore(n - 1) < position <= ReadsBefore(n)
           && AllRunning(script, firstRead, position - 1)
           && !script[position - 1]
         case Unobserved =>
           && AllRunning(script, firstRead, position)
           && position <= ReadsBefore(n)
           && (position == |script| || (n == observable && position == ReadsBefore(n)))
         case Retrying =>
           && n > 0 && position == ReadsBefore(n - 1) && AllRunning(script, firstRead, position)
         case RawQueueNull =>
           && n > 0 && position == ReadsBefore(n - 1) && AllRunning(script, firstRead, position)
    }

    /** The delays met since the start of the last pass. */
    function LossesAtEnd(end: WorkEnd): int
      requires |starts| > 0
    {
      var n := |starts|;
      match end
      case Stopped => position - ReadsBefore(n - 1)
      case Unobserved =>
        if position == ReadsBefore(n) then ReadsPerPass() + 2 else 1 + position - ReadsBefore(n - 1)
      case _ => 1
    }

    /** Until when the last pass slept; one that was cut short in the sending did not. */
    function DueAtEnd(end: WorkEnd): int
      requires |starts| > 0
    {
      var n := |starts|;
      match end
      case Stopped => Target(n - 1) + Times(position - 1 - ReadsBefore(n - 1), FLAG_CHECK_PERIOD)
      case Unobserved =>
        if position == ReadsBefore(n) then Target(n)
        else Target(n - 1) + Times(position - ReadsBefore(n - 1), FLAG_CHECK_PERIOD)
      case _ => starts[n - 1].at
    }

    /** The last pass has slept until `due` at most, and whatever else has passed since its start was lost. */
    ghost predicate SinceLastStart(due: int, now: int, losses: nat)
      requires |starts| > 0
    {
      var last := starts[|starts| - 1];
      var lost := Lost(delays, losses) - Lost(delays, last.losses);
      0 <= lost && last.at + lost <= now <= Max(due, last.at) + lost
    }

    /** What the clock shows at the end of the observation: no time has passed that the record does not account for. */
    ghost predicate ClockAtEnd(end: WorkEnd, now: int, losses: nat, slept: nat) {
      var n := |starts|;
      if n == 0 then
        now == startTime && losses == firstLoss
      else
        && losses == starts[n - 1].losses + LossesAtEnd(end)
        && SinceLastStart(DueAtEnd(end), now, losses)
        && (end == Stopped && 0 < position <= |sleptAt| ==> slept == sleptAt[position - 1])
    }
  }

  // ---------------------------------------------------------------------------------------------
  // One pass after the other
  // ---------------------------------------------------------------------------------------------

  /** The record of a run agrees with the clock and the flag. */
  ghost predicate InSync(run: RunRecord, clock: Clock, flag: RunningFlag)
    reads clock, flag
  {
    && run.WellPaced() && flag.Valid() && clock.Valid()
    && run.script == flag.script && run.position == flag.position && run.sleptAt == flag.sleptAt
    && run.delays == clock.delays
    && AllRunning(flag.script, run.firstRead, flag.position)
    && (run.firstRead < flag.position ==> clock.slept - flag.sleptAt[flag.position - 1] <= 3 * FLAG_CHECK_PERIOD)
  }

  /** The next pass is due at `prev`. */
  ghost predicate BetweenPasses(run: RunRecord, prev: int, clock: Clock, flag: RunningFlag)
    reads clock, flag
  {
    var n := |run.starts|;
    && InSync(run, clock, flag)
    && prev == run.Target(n) <= clock.now
    && flag.position == run.ReadsBefore(n) && clock.losses == run.LossesBefore(n)
    && if n == 0 then clock.now == run.startTime else run.SinceLastStart(prev, clock.now, clock.losses)
  }

  /** The last pass of the record, due at `prev`, has begun and has not yet waited; it may have done its work. */
  ghost predicate InPass(run: RunRecord, prev: int, worked: bool, clock: Clock, flag: RunningFlag)
    reads clock, flag
  {
    var n := |run.starts|;
    && n > 0
    && InSync(run, clock, flag)
    && prev == run.Target(n - 1) <= clock.now
    && flag.position == run.ReadsBefore(n - 1)
    && clock.losses == run.LossesBefore(n - 1) + (if worked then 1 else 0)
    && run.SinceLastStart(run.starts[n - 1].at, clock.now, clock.losses)
  }

  lemma RecordStarts(run: RunRecord, clock: Clock, flag: RunningFlag)
    requires run.starts == [] && run.firstRead == run.position && run.startTime == clock.now
    requires clock.Valid() && run.delays == clock.delays && run.firstLoss == clock.losses
    requires flag.Valid() && run.script == flag.script && run.position == flag.position && run.sleptAt == flag.sleptAt
    ensures BetweenPasses(run, run.startTime, clock, flag)
    ensures run.WellPaced() && forall observable :: run.EndsAs(NoTimestamp, observable)
    ensures run.ClockAtEnd(NoTimestamp, clock.now, clock.losses, clock.slept)
  {
  }

  lemma RecordInSync(run: RunRecord, prev: int, clock: Clock, flag: RunningFlag)
    requires BetweenPasses(run, prev, clock, flag)
    ensures run == run.(starts := run.starts, position := flag.position, sleptAt := flag.sleptAt)
  {
  }

  lemma RecordEnds(run: RunRecord, prev: int, clock: Clock, flag: RunningFlag)
    requires BetweenPasses(run, prev, clock, flag)
    ensures run.WellPaced() && run.EndsAs(Unobserved, |run.starts|)
    ensures clock.Valid() && run.ClockAtEnd(Unobserved, clock.now, clock.losses, clock.slept)
  {
    hide Times, SliceReads, Lost;
    NoPeriods(run.ReadsPerPass() + 2);
    OneMore(|run.starts| - 1, run.ReadsPerPass() + 2);
  }

  ghost function Begin(run: RunRecord, clock: Clock, flag: RunningFlag): RunRecord
    reads clock, flag
  {
    run.(starts := run.starts + [PassStart(clock.now, clock.losses, flag.position)])
  }

  lemma BeginPass(run: RunRecord, prev: int, clock: Clock, flag: RunningFlag)
    requires BetweenPasses(run, prev, clock, flag)
    ensures InPass(Begin(run, clock, flag), prev, false, clock, flag)
    ensures Begin(run, clock, flag) == run.(starts := Begin(run, clock, flag).starts)
    ensures |Begin(run, clock, flag).starts| == |run.starts| + 1
  {
    hide Times, SliceReads, SleepBetweenReads, AllRunning, Lost;
    var n := |run.starts|;
    var after := Begin(run, clock, flag);
    assert forall k :: 0 <= k < n ==> after.starts[k] == run.starts[k];
    SameSchedule(run, after);
    forall k | 0 <= k < n
      ensures 0 <= after.TimeLost(k)
      ensures after.starts[k].at + after.TimeLost(k) <= after.starts[k + 1].at
      ensures after.starts[k + 1].at <= Max(after.Target(k + 1), after.starts[k].at) + after.TimeLost(k)
    {
      if k < n - 1 {
        assert after.TimeLost(k) == run.TimeLost(k);
      }
    }
  }

  /** The schedule is fixed at the start of a run, whatever is recorded later. */
  lemma SameSchedule(run: RunRecord, after: RunRecord)
    requires after == run.(starts := after.starts, position := after.position, sleptAt := after.sleptAt)
    ensures forall k: nat :: after.Target(k) == run.Target(k) && after.ReadsBefore(k) == run.ReadsBefore(k)
                             && after.LossesBefore(k) == run.LossesBefore(k)
  {
  }

  /** What the pass takes to draw its map and to send, before the wait. */
  method WorkInPass(clock: Clock, flag: RunningFlag, ghost prev: int, ghost run: RunRecord)
    requires InPass(run, prev, false, clock, flag)
    modifies clock
    ensures InPass(run, prev, true, clock, flag)
  {
    hide Times, SliceReads, Lost;
    clock.Work();
  }

  /** A run can be cut short inside a pass, in the sending of its event or frame. */
  lemma CutInPass(run: RunRecord, prev: int, clock: Clock, flag: RunningFlag, end: WorkEnd, observable: nat)
    requires InPass(run, prev, true, clock, flag) && observable >= |run.starts|
    requires end == Retrying || end == RawQueueNull
    ensures run.WellPaced() && run == run.(position := flag.position, sleptAt := flag.sleptAt)
    ensures run.EndsAs(end, observable)
    ensures clock.Valid() && run.ClockAtEnd(end, clock.now, clock.losses, clock.slept)
  {
    hide Times, SliceReads, Lost;
  }

  /**
   * The wait of a pass. When it has elapsed the next pass is due one period after this one,
   * whatever was lost meanwhile; otherwise the record says how the run ends.
   */
  method WaitForNextPass(
    clock: Clock, flag: RunningFlag, prev: int, ghost run: RunRecord, period: int, ghost observable: nat)
    returns (wait: WaitEnd, ghost after: RunRecord)
    requires InPass(run, prev, true, clock, flag) && period == run.period && observable >= |run.starts|
    modifies clock, flag
    ensures after == run.(position := flag.position, sleptAt := flag.sleptAt)
    ensures wait == Elapsed ==> BetweenPasses(after, prev + period, clock, flag)
    ensures wait != Elapsed ==>
              var end := if wait == FlagDown then Stopped else Unobserved;
              && after.WellPaced() && after.EndsAs(end, observable)
              && clock.Valid() && after.ClockAtEnd(end, clock.now, clock.losses, clock.slept)
  {
    hide Times, SliceReads, Lost;
    ghost var n := |run.starts|;
    wait := SlicedWait(clock, flag, prev, period, FLAG_CHECK_PERIOD);
    after := run.(position := flag.position, sleptAt := flag.sleptAt);
    OneMore(n - 1, period);
    OneMore(n - 1, run.ReadsPerPass());
    OneMore(n - 1, run.ReadsPerPass() + 2);
    NothingTimes(n - 1);
    if run.ReadsPerPass() > 0 {
      SleepJoin(run.sleptAt, flag.sleptAt, run.firstRead, FLAG_CHECK_PERIOD, 3 * FLAG_CHECK_PERIOD);
    }
    SameSchedule(run, after);
    SamePace(run, after);
  }

  /** More flag reads do not change when the passes started. */
  lemma SamePace(run: RunRecord, after: RunRecord)
    requires after == run.(position := after.position, sleptAt := after.sleptAt)
    requires run.OnSchedule() && run.Prompt() && run.Polled()
    ensures after.OnSchedule() && after.Prompt() && after.Polled()
  {
    hide Times, SliceReads, Lost;
    SameSchedule(run, after);
    assert forall k :: 0 <= k < |run.starts| - 1 ==> after.TimeLost(k) == run.TimeLost(k);
  }

  // ---------------------------------------------------------------------------------------------
  // The schedule
  // ---------------------------------------------------------------------------------------------

  /** How many passes have started by a given time. */
  function StartedBy(starts: seq<PassStart>, time: int): nat {
    if |starts| == 0 then 0
    else StartedBy(starts[..|starts| - 1], time) + if starts[|starts| - 1].at <= time then 1 else 0
  }

  lemma {:induction false} StartedByAtMost(starts: seq<PassStart>, time: int, n: nat)
    requires forall k :: n <= k < |starts| ==> time < starts[k].at
    ensures StartedBy(starts, time) <= n
  {
    if |starts| > 0 {
      if n < |starts| {
        StartedByAtMost(starts[..|starts| - 1], time, n);
      } else {
        StartedByAtMost(starts[..|starts| - 1], time, |starts| - 1);
      }
    }
  }

  /**
   * However the sends were delayed, no more than floor((time - startTime) / period) + 1 passes have
   * started by `time`.
   */
  lemma RateBound(run: RunRecord, time: int)
    requires run.OnSchedule() && run.period > 0 && time >= run.startTime
    ensures StartedBy(run.starts, time) <= (time - run.startTime) / run.period + 1
  {
    var elapsed := time - run.startTime;
    var n := elapsed / run.period + 1;
    assert elapsed < Times(n, run.period) by {
      OneMore(n - 1, run.period);
    }
    forall k | n <= k < |run.starts|
      ensures time < run.starts[k].at
    {
      ProductGrows(n, k, run.period);
      assert run.Target(k) <= run.starts[k].at;
    }
    StartedByAtMost(run.starts, time, n);
  }

  function Lateness(run: RunRecord, k: nat): int
    requires k < |run.starts|
  {
    run.starts[k].at - run.Target(k)
  }

  /**
   * A stall is caught up: while each pass loses at most `loss <= period`, the lateness of pass `m`
   * shrinks by `period - loss` per pass until it is at most `loss`, and the targets do not move.
   */
  lemma {:induction false} StallsAreCaughtUp(run: RunRecord, m: nat, n: nat, loss: nat)
    requires run.OnSchedule() && run.Prompt()
    requires m + n < |run.starts| && loss <= run.period
    requires forall k :: m <= k < m + n ==> run.TimeLost(k) <= loss
    ensures 0 <= Lateness(run, m + n) <= Max(loss, Lateness(run, m) - Times(n, run.period - loss))
  {
    if n > 0 {
      var k := m + n - 1;
      StallsAreCaughtUp(run, m, n - 1, loss);
      OneMore(n - 1, run.period - loss);
      OneMore(k, run.period);
      assert run.Target(k + 1) == run.Target(k) + run.period;
      assert run.TimeLost(k) <= loss;
    } else {
      NoPeriods(run.period - loss);
    }
  }

  /** What a pass loses if each of its delays is `delay`. */
  function LossOf(run: RunRecord, delay: nat): int {
    Times(run.ReadsPerPass() + 2, delay)
  }

  lemma LossAtMost(run: RunRecord, k: nat, delay: nat)
    requires run.Polled() && k + 1 < |run.starts|
    requires forall i :: run.starts[k].losses <= i < run.starts[k + 1].losses ==> run.delays(i) <= delay
    ensures run.TimeLost(k) <= LossOf(run, delay)
  {
    hide Times, SliceReads, Lost;
    OneMore(k, run.ReadsPerPass() + 2);
    LostAtMost(run.delays, run.starts[k].losses, run.starts[k + 1].losses, delay);
  }

  lemma LossAtLeast(run: RunRecord, k: nat, delay: nat)
    requires run.Polled() && k + 1 < |run.starts|
    requires forall i :: run.starts[k].losses <= i < run.starts[k + 1].losses ==> delay <= run.delays(i)
    ensures LossOf(run, delay) <= run.TimeLost(k)
  {
    hide Times, SliceReads, Lost;
    OneMore(k, run.ReadsPerPass() + 2);
    LostAtLeast(run.delays, run.starts[k].losses, run.starts[k + 1].losses, delay);
  }

  /** The delays of a stretch of passes are met in the order of the passes. */
  lemma LossesInOrder(run: RunRecord, j: nat, k: nat)
    requires run.Polled() && j <= k < |run.starts|
    ensures run.starts[j].losses <= run.starts[k].losses
  {
    hide Times, SliceReads;
    ProductGrows(j, k, run.ReadsPerPass() + 2);
  }

  /**
   * Catching up, in terms of the environment: while each delay is at most `delay`, and the delays of a
   * pass fit its period, the lateness of pass `m` shrinks by what is left of a period with every pass.
   */
  lemma CatchesUpUnderDelays(run: RunRecord, m: nat, n: nat, delay: nat)
    requires run.OnSchedule() && run.Prompt() && run.Polled()
    requires m + n < |run.starts| && LossOf(run, delay) <= run.period
    requires forall i :: run.starts[m].losses <= i < run.starts[m + n].losses ==> run.delays(i) <= delay
    ensures 0 <= Lateness(run, m + n)
    ensures Lateness(run, m + n) <=
            Max(LossOf(run, delay), Lateness(run, m) - Times(n, run.period - LossOf(run, delay)))
  {
    hide Times, SliceReads, Lost;
    forall k | m <= k < m + n
      ensures run.TimeLost(k) <= LossOf(run, delay)
    {
      LossesInOrder(run, m, k);
      LossesInOrder(run, k + 1, m + n);
      LossAtMost(run, k, delay);
    }
    ProductGrows(0, run.ReadsPerPass() + 2, delay);
    NoPeriods(delay);
    StallsAreCaughtUp(run, m, n, LossOf(run, delay));
  }

  /** While the delays of a pass fit its period, no pass is later than what one pass can lose. */
  lemma LatenessIsBounded(run: RunRecord, k: nat, delay: nat)
    requires run.WellPaced() && k < |run.starts| && LossOf(run, delay) <= run.period
    requires forall i :: run.firstLoss <= i < run.starts[k].losses ==> run.delays(i) <= delay
    ensures 0 <= Lateness(run, k) <= LossOf(run, delay)
  {
    hide Times, SliceReads, Lost;
    NoPeriods(run.period);
    NoPeriods(run.ReadsPerPass() + 2);
    CatchesUpUnderDelays(run, 0, k, delay);
    ProductGrows(0, run.ReadsPerPass() + 2, delay);
    NoPeriods(delay);
    ProductGrows(0, k, run.period - LossOf(run, delay));
    NoPeriods(run.period - LossOf(run, delay));
  }

  /** Without delays every pass starts exactly when it is due. */
  lemma ExactWithoutDelays(run: RunRecord, k: nat)
    requires run.WellPaced() && k < |run.starts| && run.period >= 0
    requires forall i :: run.firstLoss <= i < run.starts[k].losses ==> run.delays(i) == 0
    ensures run.starts[k].at == run.Target(k)
  {
    hide Times, SliceReads, Lost;
    NothingTimes(run.ReadsPerPass() + 2);
    LatenessIsBounded(run, k, 0);
  }

  /** Whatever the delays, a pass is never later than all the time lost since the start of the run. */
  lemma {:induction false} NoLaterThanLost(run: RunRecord, k: nat)
    requires run.WellPaced() && k < |run.starts| && run.period >= 0
    ensures Lateness(run, k) <= Lost(run.delays, run.starts[k].losses) - Lost(run.delays, run.firstLoss)
  {
    hide Times, SliceReads, Lost;
    if k > 0 {
      NoLaterThanLost(run, k - 1);
      OneMore(k - 1, run.period);
      assert run.TimeLost(k - 1) >= 0;
    } else {
      NoPeriods(run.period);
      NoPeriods(run.ReadsPerPass() + 2);
    }
  }

  /** Delays that do not fit the period put every pass further behind, by at least what they exceed it. */
  lemma {:induction false} FallsBehind(run: RunRecord, m: nat, n: nat, delay: nat)
    requires run.Prompt() && run.Polled() && m + n < |run.starts|
    requires forall i :: run.starts[m].losses <= i < run.starts[m + n].losses ==> delay <= run.delays(i)
    ensures Lateness(run, m + n) >= Lateness(run, m) + Times(n, LossOf(run, delay) - run.period)
  {
    if n > 0 {
      var k := m + n - 1;
      LossesInOrder(run, m, k);
      LossesInOrder(run, k, m + n);
      FallsBehind(run, m, n - 1, delay);
      LossAtLeast(run, k, delay);
      OneMore(n - 1, LossOf(run, delay) - run.period);
      OneMore(k, run.period);
      assert run.Target(k + 1) == run.Target(k) + run.period;
    } else {
      NoPeriods(LossOf(run, delay) - run.period);
    }
  }

  // ---------------------------------------------------------------------------------------------
  // The stop
  // ---------------------------------------------------------------------------------------------

  /** The worker reads the running flag at all exactly when the period is longer than 2 ms. */
  lemma FlagIsReadAtAll(run: RunRecord)
    ensures run.ReadsPerPass() > 0 <==> run.period > 2_000_000
  {
  }

  /** With a period of at most 2 ms the worker never reads the flag and never stops, whatever the flag says. */
  lemma ShortPeriodsNeverStop(run: RunRecord, end: WorkEnd, observable: nat)
    requires run.WellPaced() && run.EndsAs(end, observable)
    requires run.period <= 2_000_000
    ensures end != Stopped && run.position == run.firstRead
  {
  }

  lemma TimesIsIncreasing(a: nat, b: nat, d: nat)
    requires a < b && d > 0
    ensures Times(a, d) + d <= Times(b, d)
  {
    OneMore(a, d);
    ProductGrows(a + 1, b, d);
  }

  /**
   * Once read `j` finds the flag cleared, the run is over; the only pass that can have started
   * after the `j` reads before it is the one that makes the read, so at most one event was begun
   * after them.
   */
  lemma AtMostOneMorePass(run: RunRecord, end: WorkEnd, observable: nat, j: nat, k: nat)
    requires run.WellPaced() && run.EndsAs(end, observable) && run.ReadsPerPass() > 0
    requires run.firstRead <= j < |run.script| && !run.script[j]
    requires k < |run.starts| && run.starts[k].flagReads >= j
    ensures run.starts[k].flagReads == j && k == |run.starts| - 1
    ensures run.position <= j + 1
  {
    hide Times, SliceReads, SleepBetweenReads;
    var n := |run.starts|;
    OneMore(n - 1, run.ReadsPerPass());
    assert run.starts[n - 1].flagReads == run.ReadsBefore(n - 1) <= run.position;
    assert run.starts[k].flagReads == run.ReadsBefore(k);
    if k < n - 1 {
      TimesIsIncreasing(k, n - 1, run.ReadsPerPass());
    }
  }

  /** A worker that reads the flag makes at least one read per pass. */
  lemma PassesBeforeRead(run: RunRecord, j: nat, k: nat)
    requires run.ReadsPerPass() > 0 && run.ReadsBefore(k) <= j
    ensures k <= j - run.firstRead
  {
    hide SliceReads;
    assert k <= Times(k, run.ReadsPerPass());
  }

  /** Every flag read is made by exactly one pass. */
  lemma PassOfRead(run: RunRecord, j: nat) returns (k: nat)
    requires run.ReadsPerPass() > 0 && run.firstRead <= j
    ensures run.ReadsBefore(k) <= j < run.ReadsBefore(k + 1)
  {
    var r := run.ReadsPerPass();
    k := (j - run.firstRead) / r;
    OneMore(k, r);
  }

  /**
   * The worker terminates: if the flag is found cleared by read `j`, made by pass `k`, and if the
   * queue takes the events of the passes up to `k`, then the run ends as stopped, in pass `k` at
   * the latest. `successes` counts the pushes of the script that succeed, `sent` those used.
   */
  lemma WorkerStops(run: RunRecord, end: WorkEnd, observable: nat, j: nat, k: nat, sent: nat, successes: nat)
    requires run.WellPaced() && run.EndsAs(end, observable)
    requires end != NoTimestamp && end != RawQueueNull
    requires run.firstRead <= j < |run.script| && !run.script[j]
    requires run.ReadsBefore(k) <= j < run.ReadsBefore(k + 1)
    requires observable > k
    requires successes > k && (end == Retrying ==> successes == sent < |run.starts|)
    ensures end == Stopped
    ensures |run.starts| <= k + 1 && run.position <= j + 1
  {
    hide Times, SliceReads;
    var n := |run.starts|;
    var r := run.ReadsPerPass();
    if n > k + 1 {
      ProductGrows(k + 1, n - 1, r);
    }
    if end == Unobserved && n <= k {
      ProductGrows(n, k, r);
    } else if end == Unobserved {
      ProductGrows(k + 1, n, r);
    }
  }

  /** The sleep between two flag reads is at most 3 ms, so that is how long a sleeping worker takes to notice. */
  lemma StopIsNoticed(run: RunRecord, i: nat)
    requires run.WellPaced() && run.period > 2_000_000
    requires run.firstRead <= i && i + 1 < run.position
    ensures SleepAfter(run.sleptAt, i) <= 3_000_000
  {
  }

  /**
   * How soon a stopped run ends: with each delay at most `delay`, and the delays of a pass fitting its
   * period, before the next pass would have been due, or later by what one pass can lose.
   */
  lemma EndsBeforeNextPass(run: RunRecord, observable: nat, now: int, losses: nat, slept: nat, delay: nat)
    requires run.WellPaced() && run.EndsAs(Stopped, observable) && run.ClockAtEnd(Stopped, now, losses, slept)
    requires LossOf(run, delay) <= run.period
    requires forall i :: run.firstLoss <= i < losses ==> run.delays(i) <= delay
    ensures slept == run.sleptAt[run.position - 1]
    ensures run.starts[|run.starts| - 1].at <= now <= run.Target(|run.starts|) + LossOf(run, delay)
  {
    hide Times, SliceReads, Lost, SleepBetweenReads, AllRunning;
    var n, r := |run.starts|, run.ReadsPerPass();
    var last := run.starts[n - 1];
    var made := losses - last.losses;
    LatenessIsBounded(run, n - 1, delay);
    LossesInOrder(run, 0, n - 1);
    NoPeriods(r + 2);
    OneMore(n - 1, r);
    OneMore(n - 1, run.period);
    LostAtMost(run.delays, last.losses, losses, delay);
    ProductGrows(made, r + 2, delay);
    LastSliceInPeriod(run.period, made);
  }

  /** The sleeps of a wait that was cut short end within the period. */
  lemma LastSliceInPeriod(period: int, made: nat)
    requires 0 < made <= SliceReads(period, FLAG_CHECK_PERIOD)
    ensures Times(made - 1, FLAG_CHECK_PERIOD) <= period
  {
    MoreReads(period, FLAG_CHECK_PERIOD, made - 1);
  }

  /** A run at 1000 Hz, two passes long, whose flag is cleared from the start and is never read. */
  lemma ClearedFlagUnread() returns (run: RunRecord)
    ensures run.period == 1000 * NANOSECONDS_PER_MICROSECOND && run.script == [false]
    ensures run.WellPaced() && run.EndsAs(Unobserved, 2) && |run.starts| == 2 && run.position == 0
  {
    hide Times, SliceReads, AllRunning;
    var first, second := PassStart(0, 0, 0), PassStart(1_000_000, 2, 0);
    run := RunRecord(0, 1_000_000, 0, 0, _ => 0, [first, second], [false], 0, []);
    FlagIsReadAtAll(run);
    LostAtMost(run.delays, first.losses, second.losses, 0);
    OneMore(0, run.period);
    NoPeriods(run.period);
    OneMore(0, 2);
    NoPeriods(2);
    NothingTimes(0);
    NothingTimes(1);
    NothingTimes(2);
    assert AllRunning(run.script, 0, 0) by { NothingRead(run.script); }
  }

  lemma NothingRead(script: seq<bool>)
    ensures AllRunning(script, 0, 0)
  {
  }
}
