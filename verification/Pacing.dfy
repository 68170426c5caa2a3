/**
 * Sliced sleeping: the shape shared by the generator's wait for the next event and the
 * controller's wait for the next collection. A long sleep is cut into slices so that the running
 * flag is read while waiting; the last stretch is slept in one go.
 *
 * Time is an integer count of clock ticks (nanoseconds of the steady clock). How long work takes
 * and how late a sleep wakes up are arbitrary.
 */
module Pacing {
  import opened Words

  /** The length of `n` equal periods. */
  function Times(n: int, period: int): int {
    n * period
  }

  lemma ProductGrows(a: int, b: int, d: int)
    requires a <= b && d >= 0
    ensures Times(a, d) <= Times(b, d)
  {
  }

  lemma OneMore(a: int, d: int)
    ensures Times(a + 1, d) == Times(a, d) + d
  {
  }

  lemma OneSlice(d: int)
    ensures Times(1, d) == d
  {
  }

  lemma NoPeriods(d: int)
    ensures Times(0, d) == 0
  {
  }

  lemma NothingTimes(n: int)
    ensures Times(n, 0) == 0
  {
  }

  /** The number of slices it takes to cover a period. */
  function SlicesToCover(period: int, slice: int): (q: int)
    requires slice > 0
    ensures Times(q - 1, slice) < period <= Times(q, slice)
  {
    var q := (period + slice - 1) / slice;
    OneMore(q - 1, slice);
    q
  }

  /** How many times an undisturbed wait reads the running flag: max(0, ceil(period / slice) - 2). */
  function SliceReads(period: int, slice: int): nat
    requires slice > 0
  {
    Max(0, SlicesToCover(period, slice) - 2)
  }

  /** While `n + 2` slices do not cover the period, more than `n` reads are made. */
  lemma MoreReads(period: int, slice: int, n: nat)
    requires slice > 0
    ensures n < SliceReads(period, slice) <==> Times(n + 2, slice) < period
  {
  }

  /** The flag is read at all exactly when the wait is longer than two slices. */
  lemma ReadsAtAll(period: int, slice: int)
    requires slice > 0
    ensures SliceReads(period, slice) > 0 <==> period > 2 * slice
  {
    MoreReads(period, slice, 0);
  }

  // ---------------------------------------------------------------------------------------------
  // Time
  // ---------------------------------------------------------------------------------------------

  /** The time lost to the first `n` delays. */
  function Lost(delays: nat -> nat, n: nat): nat {
    if n == 0 then 0 else Lost(delays, n - 1) + delays(n - 1)
  }

  /** Delays add up. */
  lemma {:induction false} LostAtMost(delays: nat -> nat, m: nat, n: nat, delay: nat)
    requires m <= n
    requires forall i :: m <= i < n ==> delays(i) <= delay
    ensures 0 <= Lost(delays, n) - Lost(delays, m) <= Times(n - m, delay)
  {
    if m < n {
      LostAtMost(delays, m, n - 1, delay);
      OneMore(n - 1 - m, delay);
    }
  }

  lemma {:induction false} LostAtLeast(delays: nat -> nat, m: nat, n: nat, delay: nat)
    requires m <= n
    requires forall i :: m <= i < n ==> delay <= delays(i)
    ensures Times(n - m, delay) <= Lost(delays, n) - Lost(delays, m)
  {
    if m < n {
      LostAtLeast(delays, m, n - 1, delay);
      OneMore(n - 1 - m, delay);
    }
  }

  /**
   * The steady clock. Time passes by sleeping, or it is lost to work and to waking up late; how much
   * is lost each time is up to the environment.
   */
  class Clock {
    const start: int
    const delays: nat -> nat
    var now: int
    // How many of the delays have been met.
    var losses: nat
    // All sleep asked for so far, and the most recent request.
    ghost var slept: nat
    ghost var lastSleep: nat

    /** All the time there was is accounted for: it was slept or lost. */
    ghost predicate Valid()
      reads this
    {
      now == start + slept + Lost(delays, losses)
    }

    ghost function Delayed(): nat
      reads this
    {
      Lost(delays, losses)
    }

    constructor (start: int, delays: nat -> nat)
      ensures Valid() && this.start == now == start && this.delays == delays
      ensures slept == lastSleep == losses == 0
    {
      this.start, this.delays := start, delays;
      now, losses, slept, lastSleep := start, 0, 0, 0;
    }

    /** Anything that takes time other than sleeping. */
    method Work()
      requires Valid()
      modifies this
      ensures Valid() && losses == old(losses) + 1
      ensures now == old(now) + delays(old(losses)) && Delayed() == old(Delayed()) + delays(old(losses))
      ensures slept == old(slept) && lastSleep == old(lastSleep)
    {
      now := now + delays(losses);
      losses := losses + 1;
    }

    /** Sleeps until `target`, not at all if that is past, and wakes up late. */
    method SleepUntil(target: int)
      requires Valid()
      modifies this
      ensures Valid() && losses == old(losses) + 1
      ensures lastSleep == Max(0, target - old(now)) && slept == old(slept) + lastSleep
      ensures now == Max(old(now), target) + delays(old(losses))
      ensures Delayed() == old(Delayed()) + delays(old(losses))
    {
      lastSleep := Max(0, target - now);
      slept := slept + lastSleep;
      now := Max(now, target) + delays(losses);
      losses := losses + 1;
    }
  }

  /** The running flag as the worker sees it: a script of what its reads return. */
  class RunningFlag {
    const script: seq<bool>
    var position: nat
    // How much sleep had been asked for at each read.
    ghost var sleptAt: seq<nat>

    ghost predicate Valid()
      reads this
    {
      |sleptAt| == position <= |script|
    }

    constructor (script: seq<bool>)
      ensures Valid() && position == 0 && this.script == script
    {
      this.script := script;
      position, sleptAt := 0, [];
    }

    /** One read, None when the script has ended. */
    method Load(clock: Clock) returns (running: Option<bool>)
      requires Valid()
      modifies this
      ensures Valid() && old(sleptAt) <= sleptAt
      ensures running.None? <==> old(position) == |script|
      ensures running.None? ==> position == old(position) && sleptAt == old(sleptAt)
      ensures running.Some? ==>
                && position == old(position) + 1
                && running.value == script[old(position)]
                && sleptAt == old(sleptAt) + [clock.slept]
    {
      if position == |script| {
        return None;
      }
      sleptAt := sleptAt + [clock.slept];
      position := position + 1;
      running := Some(script[position - 1]);
    }
  }

  /** The sleep asked for between read `i` and the next. */
  function SleepAfter(sleptAt: seq<nat>, i: nat): int
    requires i + 1 < |sleptAt|
  {
    (sleptAt[i + 1] as int) - sleptAt[i]
  }

  /** At most `bound` of sleep lies between consecutive reads from number `from` on. */
  ghost predicate SleepBetweenReads(sleptAt: seq<nat>, from: nat, bound: int) {
    forall i :: from <= i < |sleptAt| - 1 ==> SleepAfter(sleptAt, i) <= bound
  }

  ghost predicate AllRunning(script: seq<bool>, from: nat, to: nat)
    requires to <= |script|
  {
    forall i :: from <= i < to ==> script[i]
  }

  lemma SleepAppend(sleptAt: seq<nat>, slept: nat, from: nat, bound: int)
    requires SleepBetweenReads(sleptAt, from, bound)
    requires from < |sleptAt| ==> slept - sleptAt[|sleptAt| - 1] <= bound
    ensures SleepBetweenReads(sleptAt + [slept], from, bound)
  {
    forall i | from <= i < |sleptAt|
      ensures SleepAfter(sleptAt + [slept], i) <= bound
    {
      if i < |sleptAt| - 1 {
        assert SleepAfter(sleptAt + [slept], i) == SleepAfter(sleptAt, i);
      }
    }
  }

  /** The reads of a wait, added to those made before it. */
  lemma SleepJoin(before: seq<nat>, after: seq<nat>, from: nat, slice: int, bound: int)
    requires before <= after && slice <= bound
    requires SleepBetweenReads(before, from, bound) && SleepBetweenReads(after, |before|, slice)
    requires from < |before| < |after| ==> after[|before|] - before[|before| - 1] <= bound
    ensures SleepBetweenReads(after, from, bound)
  {
    forall i | from <= i < |after| - 1
      ensures SleepAfter(after, i) <= bound
    {
      if i < |before| - 1 {
        assert SleepAfter(after, i) == SleepAfter(before, i);
      }
    }
  }

  datatype WaitEnd =
    | Elapsed      // the whole period was waited for
    | FlagDown     // the flag was found cleared; nothing was slept after that
    | ScriptEnded  // the script of flag reads ended
  {
    /** How many sleeps a wait makes that ends like this after so many flag reads. */
    function Sleeps(flagReads: nat): int {
      match this
      case Elapsed => flagReads + 1
      case FlagDown => flagReads - 1
      case ScriptEnded => flagReads
    }

    /** How far into the period the last of these sleeps lasts. */
    function SleptThrough(flagReads: nat, period: int, slice: int): int {
      match this
      case Elapsed => period
      case FlagDown => Times(flagReads - 1, slice)
      case ScriptEnded => Times(flagReads, slice)
    }
  }

  /** How a wait that began at flag read `first` with `slept0` of sleep can end. */
  ghost predicate WaitOutcome(
    end: WaitEnd, flag: RunningFlag, clock: Clock, first: nat, slept0: nat, period: int, slice: int)
    requires slice > 0
    reads flag, clock
  {
    var n := SliceReads(period, slice);
    && flag.Valid()
    && first <= flag.position <= first + n
    && slept0 <= clock.slept
    && (flag.position > first ==> flag.sleptAt[first] == slept0)
    && match end
       case Elapsed =>
         && flag.position == first + n
         && AllRunning(flag.script, first, flag.position)
         && clock.slept - (if n > 0 then flag.sleptAt[flag.position - 1] else slept0) <= 3 * slice
         && clock.lastSleep <= 2 * slice
       case FlagDown =>
         && first < flag.position
         && AllRunning(flag.script, first, flag.position - 1)
         && !flag.script[flag.position - 1]
         && clock.slept == flag.sleptAt[flag.position - 1]
       case ScriptEnded =>
         && flag.position == |flag.script|
         && flag.position < first + n
         && AllRunning(flag.script, first, flag.position)
  }

  /** Waits from `prev` until `prev + period`, reading the flag once per slice. */
  method SlicedWait(clock: Clock, flag: RunningFlag, prev: int, period: int, slice: int) returns (end: WaitEnd)
    requires flag.Valid() && clock.Valid() && slice > 0
    requires prev <= clock.now
    modifies clock, flag
    ensures WaitOutcome(end, flag, clock, old(flag.position), old(clock.slept), period, slice)
    ensures old(flag.sleptAt) <= flag.sleptAt
    ensures SleepBetweenReads(flag.sleptAt, old(flag.position), slice)
    // The time it took.
    ensures clock.Valid()
    ensures clock.losses == old(clock.losses) + end.Sleeps(flag.position - old(flag.position))
    ensures end == Elapsed ==> clock.now >= prev + period
    ensures var due := prev + end.SleptThrough(flag.position - old(flag.position), period, slice);
            var lost := clock.Delayed() - old(clock.Delayed());
            0 <= lost && old(clock.now) + lost <= clock.now <= Max(old(clock.now), due) + lost
  {
    hide SliceReads, SlicesToCover, Times, Lost;
    assert Times(1, slice) == slice && Times(0, slice) == 0 by { OneSlice(slice); NoPeriods(slice); }
    var next := prev + period;
    var nextCheck := prev + slice;
    ghost var n := 0;
    while next > nextCheck + slice
      invariant flag.Valid() && flag.position == old(flag.position) + n
      invariant nextCheck == prev + Times(n + 1, slice) && nextCheck - slice == prev + Times(n, slice)
      invariant n <= SliceReads(period, slice)
      invariant clock.now >= nextCheck - slice
      invariant AllRunning(flag.script, old(flag.position), flag.position)
      invariant old(flag.sleptAt) <= flag.sleptAt
      invariant SleepBetweenReads(flag.sleptAt, old(flag.position), slice)
      invariant n > 0 ==> flag.sleptAt[old(flag.position)] == old(clock.slept)
      invariant old(clock.slept) <= clock.slept
      invariant clock.slept - (if n > 0 then flag.sleptAt[flag.position - 1] else clock.slept) <= slice
      invariant n == 0 ==> clock.slept == old(clock.slept)
      invariant clock.Valid() && clock.losses == old(clock.losses) + n && clock.Delayed() >= old(clock.Delayed())
      invariant clock.now <= Max(old(clock.now), nextCheck - slice) + (clock.Delayed() - old(clock.Delayed()))
      invariant n > 0 ==> nextCheck <= next
      decreases next - nextCheck
    {
      OneMore(n + 1, slice);
      MoreReads(period, slice, n);
      SleepAppend(flag.sleptAt, clock.slept, old(flag.position), slice);
      var running := flag.Load(clock);
      if running.None? {
        return ScriptEnded;
      }
      n := n + 1;
      if !running.value {
        return FlagDown;
      }
      clock.SleepUntil(nextCheck);
      nextCheck := nextCheck + slice;
    }
    OneMore(n + 1, slice);
    MoreReads(period, slice, n);
    clock.SleepUntil(next);
    end := Elapsed;
  }
}
