/**
 * The monitor thread of the controller (plugins/HSIController.cpp): collects device information,
 * then waits half a second in slices of ten milliseconds. Unlike the generator it counts the wait
 * from the end of the collection, so its schedule drifts; only the distance between collections is kept.
 */
module Controller {
  import opened Words
  import opened Pacing

  /** 500 ms between collections and 10 ms between flag reads, in clock ticks. */
  const GATHER_PERIOD: int := 500_000_000
  const SLICE_PERIOD: int := 10_000_000

  /** Flag reads of one undisturbed cycle: one before the collection and 48 while waiting. */
  const WAIT_READS: nat := 48
  const CYCLE_READS: nat := 49

  datatype GatherEnd =
    | Stopped      // the running flag was found cleared at the head of the loop
    | Unobserved   // the script of flag reads ended

  /** A collection: when it ended, after how many of the clock's delays, and the flag read that admitted it. */
  datatype Collection = Collection(at: int, losses: nat, admittedBy: nat)

  /** Where the clock and the flag script stand when the monitor starts. */
  datatype Start = Start(time: int, losses: nat, firstRead: nat)

  /** The constants give 48 reads in a wait. */
  lemma ReadsInWait()
    ensures SliceReads(GATHER_PERIOD, SLICE_PERIOD) == SliceReads(500_000_000, 10_000_000) == WAIT_READS == 48
  {
  }

  // ---------------------------------------------------------------------------------------------
  // What the flag script makes of a run
  // ---------------------------------------------------------------------------------------------

  /** The first cleared read in a range; its end if there is none. */
  function FirstClear(script: seq<bool>, from: nat, to: nat): (c: nat)
    requires from <= to
    ensures from <= c <= to
    ensures forall i :: from <= i < c && i < |script| ==> script[i]
    ensures c < to ==> c < |script| && !script[c]
    decreases (to as int) - from
  {
    if from == to || (from < |script| && !script[from]) then from else FirstClear(script, from + 1, to)
  }

  /** The read at the head of the loop that follows an admitting read: 49 reads later, or right after a cleared one. */
  function NextHead(script: seq<bool>, head: nat): (next: nat)
    ensures head < next <= head + CYCLE_READS
  {
    var c := FirstClear(script, head + 1, head + CYCLE_READS);
    if c < head + CYCLE_READS then c + 1 else c
  }

  /** The reads that admit a collection, from read `head` on. */
  function Admissions(script: seq<bool>, head: nat): seq<nat>
    decreases if head < |script| then |script| - head else 0
  {
    if head >= |script| || !script[head] then [] else [head] + Admissions(script, NextHead(script, head))
  }

  /** The read at the head of the loop that finds the flag cleared; the length of the script if none does. */
  function StopRead(script: seq<bool>, head: nat): (r: nat)
    ensures r <= |script|
    ensures r < |script| ==> head <= r && !script[r]
    decreases if head < |script| then |script| - head else 0
  {
    if head >= |script| then |script| else if !script[head] then head else StopRead(script, NextHead(script, head))
  }

  /**
   * The sleeps that follow the collection admitted by read `head`: one per set read of the wait and,
   * unless a cleared read or the end of the script cuts it short, the last one.
   */
  function SleepsInCycle(script: seq<bool>, head: nat): int {
    var c := FirstClear(script, head + 1, head + CYCLE_READS);
    if c < head + CYCLE_READS then c - head - 1
    else if head + CYCLE_READS <= |script| then CYCLE_READS
    else |script| - head - 1
  }

  /** The admitting reads of the collections made. */
  function Reads(collections: seq<Collection>): (r: seq<nat>)
    ensures |r| == |collections|
  {
    seq(|collections|, i requires 0 <= i < |collections| => collections[i].admittedBy)
  }

  /** A collection is admitted by a read that found the flag set, and the reads are in order. */
  lemma {:induction false} AdmissionsAreSet(script: seq<bool>, head: nat)
    ensures forall i :: 0 <= i < |Admissions(script, head)| ==>
                          head <= Admissions(script, head)[i] < |script| && script[Admissions(script, head)[i]]
    decreases if head < |script| then |script| - head else 0
  {
    if head < |script| && script[head] {
      AdmissionsAreSet(script, NextHead(script, head));
    }
  }

  /**
   * How the reads at the head of the loop follow one another, read off the script: the next one is 49
   * reads later, or right after the first cleared read in between.
   */
  ghost predicate HeadFollows(script: seq<bool>, head: nat, next: nat) {
    && head + 1 < next <= head + 49
    && (forall i :: head < i < next - 1 && i < |script| ==> script[i])
    && (next < head + 49 ==> next <= |script| && !script[next - 1])
  }

  lemma NextHeadFollows(script: seq<bool>, head: nat, next: nat)
    ensures HeadFollows(script, head, next) <==> next == NextHead(script, head)
  {
    var c := FirstClear(script, head + 1, head + CYCLE_READS);
  }

  /** The monitor finds the flag cleared at the head read that follows read `last`, or the script ends before. */
  ghost predicate EndsAfter(script: seq<bool>, last: nat, stop: nat) {
    exists next: nat :: HeadFollows(script, last, next) && StopsAt(script, next, stop)
  }

  ghost predicate StopsAt(script: seq<bool>, next: nat, stop: nat) {
    if next < |script| then !script[next] && stop == next else stop == |script|
  }

  /**
   * The collections of a run, told without its functions: one for the first head read if that is set,
   * then one for each head read that follows, until one is cleared or beyond the script; there the
   * monitor stops.
   */
  lemma {:induction false} AdmissionsExactly(script: seq<bool>, head: nat)
    ensures var admissions, stop := Admissions(script, head), StopRead(script, head);
            if head < |script| && script[head] then
              && admissions != [] && admissions[0] == head
              && (forall i :: 0 <= i < |admissions| - 1 ==> HeadFollows(script, admissions[i], admissions[i + 1]))
              && EndsAfter(script, admissions[|admissions| - 1], stop)
            else
              admissions == [] && StopsAt(script, head, stop)
    decreases if head < |script| then |script| - head else 0
  {
    hide NextHead, HeadFollows;
    if head < |script| && script[head] {
      var next := NextHead(script, head);
      AdmissionsExactly(script, next);
      NextHeadFollows(script, head, next);
      var admissions, rest := Admissions(script, head), Admissions(script, next);
      forall i | 0 <= i < |rest|
        ensures HeadFollows(script, admissions[i], admissions[i + 1])
      {
        if i > 0 {
          assert admissions[i] == rest[i - 1] && admissions[i + 1] == rest[i - 1 + 1];
        }
      }
    }
  }

  /** An undisturbed wait leads to the read one cycle later. */
  lemma NextHeadAfterWait(script: seq<bool>, head: nat)
    requires forall i :: head < i < head + CYCLE_READS && i < |script| ==> script[i]
    ensures NextHead(script, head) == head + CYCLE_READS
    ensures SleepsInCycle(script, head) == if head + CYCLE_READS <= |script| then CYCLE_READS else |script| - head - 1
  {
  }

  /** A cleared read in the wait leads to the read right after it. */
  lemma NextHeadAfterClear(script: seq<bool>, head: nat, next: nat)
    requires head + 1 < next <= head + CYCLE_READS && next <= |script|
    requires AllRunning(script, head + 1, next - 1) && !script[next - 1]
    ensures NextHead(script, head) == next
    ensures SleepsInCycle(script, head) == next - head - 2
  {
  }

  /** A set read at the head of the loop is the next admission. */
  lemma AdmitNext(made: seq<nat>, all: seq<nat>, script: seq<bool>, head: nat)
    requires made + Admissions(script, head) == all
    requires head < |script| && script[head]
    ensures made + [head] + Admissions(script, NextHead(script, head)) == all
    ensures StopRead(script, NextHead(script, head)) == StopRead(script, head)
  {
  }

  /**
   * One collection after the other: no sooner than the delays between them allow and at most half a
   * second later than that. Unless the flag was down for a moment they are a full cycle apart in flag
   * reads, and half a second and the collection itself apart in time.
   */
  ghost predicate SpacedAt(collections: seq<Collection>, script: seq<bool>, delays: nat -> nat, i: nat)
    requires i + 1 < |collections|
  {
    var earlier, later := collections[i], collections[i + 1];
    var lost := Lost(delays, later.losses) - Lost(delays, earlier.losses);
    && earlier.admittedBy < later.admittedBy <= |script|
    && later.losses == earlier.losses + SleepsInCycle(script, earlier.admittedBy) + 1
    && 0 <= lost && earlier.at + lost <= later.at <= earlier.at + GATHER_PERIOD + lost
    && (script[later.admittedBy - 1] ==>
          && later.admittedBy == earlier.admittedBy + CYCLE_READS
          && earlier.at + GATHER_PERIOD + delays(later.losses - 1) <= later.at)
  }

  ghost predicate Spaced(collections: seq<Collection>, script: seq<bool>, delays: nat -> nat) {
    forall i :: 0 <= i < |collections| - 1 ==> SpacedAt(collections, script, delays, i)
  }

  lemma SpacedAppend(collections: seq<Collection>, script: seq<bool>, delays: nat -> nat, next: Collection)
    requires Spaced(collections, script, delays)
    requires collections != [] ==> SpacedAt([collections[|collections| - 1], next], script, delays, 0)
    ensures Spaced(collections + [next], script, delays)
  {
    hide SleepsInCycle, Lost;
    var after := collections + [next];
    forall i | 0 <= i < |after| - 1
      ensures SpacedAt(after, script, delays, i)
    {
      if i < |collections| - 1 {
        assert SpacedAt(collections, script, delays, i);
      }
    }
  }

  /**
   * What a run of the monitor keeps. The first read admits the first collection, at once, and no time
   * has passed since the last one that is not a sleep of its wait or lost.
   */
  ghost predicate MonitorKeeps(collections: seq<Collection>, flag: RunningFlag, clock: Clock, start: Start)
    reads flag, clock
  {
    && flag.Valid() && clock.Valid() && start.firstRead <= flag.position
    && Spaced(collections, flag.script, clock.delays)
    && SleepBetweenReads(flag.sleptAt, start.firstRead, 3 * SLICE_PERIOD)
    && if collections == [] then
         clock.now == start.time && clock.losses == start.losses
       else
         var last := collections[|collections| - 1];
         var lost := Lost(clock.delays, clock.losses) - Lost(clock.delays, last.losses);
         && collections[0] ==
              Collection(start.time + clock.delays(start.losses), start.losses + 1, start.firstRead)
         && 0 <= lost && last.at + lost <= clock.now <= last.at + GATHER_PERIOD + lost
  }

  /** At the head of the loop, before the flag read that admits the next collection. */
  ghost predicate AtHead(collections: seq<Collection>, flag: RunningFlag, clock: Clock, start: Start)
    reads flag, clock
  {
    && MonitorKeeps(collections, flag, clock, start)
    && Reads(collections) + Admissions(flag.script, flag.position) == Admissions(flag.script, start.firstRead)
    && StopRead(flag.script, flag.position) == StopRead(flag.script, start.firstRead)
    && (collections == [] ==> flag.position == start.firstRead)
    && (collections != [] ==>
          var last := collections[|collections| - 1];
          && start.firstRead < flag.position
          && clock.slept - flag.sleptAt[flag.position - 1] <= 3 * SLICE_PERIOD
          && clock.losses == last.losses + SleepsInCycle(flag.script, last.admittedBy)
          && last.admittedBy < flag.position
          && (flag.script[flag.position - 1] ==>
                flag.position == last.admittedBy + CYCLE_READS && last.at + GATHER_PERIOD <= clock.now))
  }

  /** After a collection and before the wait. */
  ghost predicate Collected(collections: seq<Collection>, flag: RunningFlag, clock: Clock, start: Start)
    reads flag, clock
  {
    && MonitorKeeps(collections, flag, clock, start)
    && collections != [] && start.firstRead < flag.position
    && collections[|collections| - 1] == Collection(clock.now, clock.losses, flag.position - 1)
    && clock.slept == flag.sleptAt[flag.position - 1]
    && var next := NextHead(flag.script, flag.position - 1);
       && Reads(collections) + Admissions(flag.script, next) == Admissions(flag.script, start.firstRead)
       && StopRead(flag.script, next) == StopRead(flag.script, start.firstRead)
  }

  /**
   * A run that has ended: it made exactly the collections its flag script admits, it stopped at the
   * first read at the head of the loop that found the flag cleared, if the script has one, and it has
   * not slept beyond the wait that led there.
   */
  ghost predicate MonitorEnds(
    collections: seq<Collection>, flag: RunningFlag, clock: Clock, start: Start, end: GatherEnd)
    reads flag, clock
  {
    && MonitorKeeps(collections, flag, clock, start)
    && Reads(collections) == Admissions(flag.script, start.firstRead)
    && (collections != [] ==>
          var last := collections[|collections| - 1];
          clock.losses == last.losses + SleepsInCycle(flag.script, last.admittedBy))
    && (end == Stopped ==> flag.position > 0 && clock.slept == flag.sleptAt[flag.position - 1])
    && var stop := StopRead(flag.script, start.firstRead);
       && (end == Stopped <==> stop < |flag.script|)
       && flag.position == if end == Stopped then stop + 1 else |flag.script|
  }

  class HSIController {
    var deviceInfosReceived: nat

    constructor ()
      ensures deviceInfosReceived == 0
    {
      deviceInfosReceived := 0;
    }

    /** The flag read at the head of the loop and the collection it admits. */
    method Collect(clock: Clock, flag: RunningFlag, ghost collections: seq<Collection>, ghost start: Start)
      returns (go: bool, end: GatherEnd, ghost after: seq<Collection>)
      requires AtHead(collections, flag, clock, start)
      modifies this, clock, flag
      ensures go ==> deviceInfosReceived == old(deviceInfosReceived) + 1 && |after| == |collections| + 1
      ensures go ==> Collected(after, flag, clock, start) && flag.position == old(flag.position) + 1
      ensures !go ==> deviceInfosReceived == old(deviceInfosReceived) && after == collections
      ensures !go ==> MonitorEnds(after, flag, clock, start, end)
    {
      hide NextHead, SleepsInCycle, Lost;
      after := collections;
      SleepAppend(flag.sleptAt, clock.slept, start.firstRead, 3 * SLICE_PERIOD);
      ghost var head := flag.position;
      var running := flag.Load(clock);
      if running.None? {
        return false, Unobserved, after;
      }
      if !running.value {
        return false, Stopped, after;
      }
      clock.Work();
      deviceInfosReceived := deviceInfosReceived + 1;
      ghost var next := Collection(clock.now, clock.losses, flag.position - 1);
      SpacedAppend(collections, flag.script, clock.delays, next);
      AdmitNext(Reads(collections), Admissions(flag.script, start.firstRead), flag.script, head);
      after := collections + [next];
      assert Reads(after) == Reads(collections) + [head];
      go, end := true, Unobserved;
    }

    /** The wait after a collection. */
    method WaitForNextCollection(
      clock: Clock, flag: RunningFlag, ghost collections: seq<Collection>, ghost start: Start)
      returns (wait: WaitEnd)
      requires Collected(collections, flag, clock, start)
      modifies clock, flag
      ensures wait != ScriptEnded ==> AtHead(collections, flag, clock, start)
      ensures wait == ScriptEnded ==> MonitorEnds(collections, flag, clock, start, Unobserved)
      ensures old(flag.position) <= flag.position <= |flag.script|
    {
      hide SliceReads, NextHead, SleepsInCycle, Lost;
      ReadsInWait();
      ghost var before, head := flag.sleptAt, flag.position - 1;
      wait := SlicedWait(clock, flag, clock.now, GATHER_PERIOD, SLICE_PERIOD);
      SleepJoin(before, flag.sleptAt, start.firstRead, SLICE_PERIOD, 3 * SLICE_PERIOD);
      if wait == FlagDown {
        NextHeadAfterClear(flag.script, head, flag.position);
      } else {
        NextHeadAfterWait(flag.script, head);
      }
    }

    /** A run of the monitor thread. */
    method GatherMonitorData(clock: Clock, flag: RunningFlag)
      returns (end: GatherEnd, ghost collections: seq<Collection>)
      requires flag.Valid() && clock.Valid()
      modifies this, clock, flag
      ensures deviceInfosReceived == old(deviceInfosReceived) + |collections|
      ensures MonitorEnds(collections, flag, clock, Start(old(clock.now), old(clock.losses), old(flag.position)), end)
    {
      hide AtHead, MonitorKeeps, MonitorEnds, Collected;
      collections := [];
      ghost var start := Start(clock.now, clock.losses, flag.position);
      NothingCollected(collections, clock, flag);
      while true
        invariant AtHead(collections, flag, clock, start)
        invariant deviceInfosReceived == old(deviceInfosReceived) + |collections|
        decreases |flag.script| - flag.position
      {
        var go;
        go, end, collections := Collect(clock, flag, collections, start);
        if !go {
          return;
        }
        var wait := WaitForNextCollection(clock, flag, collections, start);
        if wait.ScriptEnded? {
          end := Unobserved;
          return;
        }
      }
    }

    lemma NothingCollected(none: seq<Collection>, clock: Clock, flag: RunningFlag)
      requires |none| == 0 && flag.Valid() && clock.Valid()
      ensures AtHead(none, flag, clock, Start(clock.now, clock.losses, flag.position))
    {
    }
  }

  // ---------------------------------------------------------------------------------------------
  // What follows for every run
  // ---------------------------------------------------------------------------------------------

  /**
   * The monitor terminates: if the flag reads cleared twice in a row, at `r` and `r + 1`, the run
   * stops and makes no read beyond the second of the two.
   */
  lemma {:induction false} MonitorStops(script: seq<bool>, head: nat, r: nat)
    requires head <= r + 1 < |script| && !script[r] && !script[r + 1]
    ensures StopRead(script, head) <= r + 1
    decreases (r as int) + 1 - head
  {
    if head < r && script[head] {
      var c := FirstClear(script, head + 1, head + CYCLE_READS);
      assert c <= r || head + CYCLE_READS <= r;
      MonitorStops(script, NextHead(script, head), r);
    }
  }

  /**
   * With the flag set up to read `j` and cleared from there on, the collections are admitted by every
   * 49th read before `j`, and there are ceil((j - head) / 49) of them. With `j` the end of the script
   * the flag stays set throughout.
   */
  lemma {:induction false} CyclesInStep(script: seq<bool>, head: nat, j: nat)
    requires head <= j <= |script|
    requires AllRunning(script, head, j) && forall r :: j <= r < |script| ==> !script[r]
    ensures |Admissions(script, head)| == (j - head + 48) / 49
    ensures forall i :: 0 <= i < |Admissions(script, head)| ==> Admissions(script, head)[i] == head + 49 * i
    decreases (j as int) - head
  {
    if head < j {
      if head + CYCLE_READS <= j {
        NextHeadAfterWait(script, head);
        CyclesInStep(script, head + CYCLE_READS, j);
      } else if j < |script| {
        NextHeadAfterClear(script, head, j + 1);
      } else {
        NextHeadAfterWait(script, head);
      }
    }
  }

  /** The delays met up to the i-th collection of an undisturbed run: 50 per cycle. */
  function LossesInStep(start: Start, i: nat): nat {
    start.losses + 1 + (CYCLE_READS + 1) * i
  }

  /**
   * While the flag stays set, collection `i` is made 50 delays per cycle and `i` half seconds after the
   * first, and the time the collections take comes on top: the schedule drifts by `work` per cycle if
   * each takes that long. It drifts by no more than all that was lost.
   */
  lemma {:induction false} CollectionsApart(
    collections: seq<Collection>, script: seq<bool>, delays: nat -> nat, i: nat, work: nat)
    requires Spaced(collections, script, delays) && i < |collections|
    requires forall k :: 0 <= k < |collections| ==> collections[k].admittedBy < |script|
    requires AllRunning(script, collections[0].admittedBy, |script|)
    requires forall k :: 0 < k < |collections| && collections[k].losses > 0 ==>
                           work <= delays(collections[k].losses - 1)
    ensures collections[i].admittedBy == collections[0].admittedBy + CYCLE_READS * i
    ensures collections[i].losses == collections[0].losses + (CYCLE_READS + 1) * i
    ensures var lost := Lost(delays, collections[i].losses) - Lost(delays, collections[0].losses);
            collections[0].at + (GATHER_PERIOD + work) * i <= collections[i].at
            <= collections[0].at + GATHER_PERIOD * i + lost
  {
    hide Lost, SleepsInCycle;
    if i > 0 {
      CollectionsApart(collections, script, delays, i - 1, work);
      assert SpacedAt(collections, script, delays, i - 1);
      NextHeadAfterWait(script, collections[i - 1].admittedBy);
      assert (GATHER_PERIOD + work) * i == (GATHER_PERIOD + work) * (i - 1) + GATHER_PERIOD + work;
    }
  }

  lemma AdmittedInScript(collections: seq<Collection>, script: seq<bool>, head: nat)
    requires Reads(collections) == Admissions(script, head)
    ensures forall k :: 0 <= k < |collections| ==> collections[k].admittedBy < |script|
  {
    AdmissionsAreSet(script, head);
    forall k | 0 <= k < |collections|
      ensures collections[k].admittedBy < |script|
    {
      assert Reads(collections)[k] == collections[k].admittedBy;
    }
  }

  /**
   * The clock of a run whose flag stays set to the end of the script: collection `i` ends no sooner than
   * `i` half seconds after the first, and the first after its own delay; it ends no later than `i` half
   * seconds and the time lost until then after the start.
   */
  lemma MonitorPace(
    collections: seq<Collection>, flag: RunningFlag, clock: Clock, start: Start, end: GatherEnd, i: nat)
    requires MonitorEnds(collections, flag, clock, start, end) && i < |collections|
    requires AllRunning(flag.script, start.firstRead, |flag.script|)
    ensures collections[i].losses == LossesInStep(start, i) <= clock.losses
    ensures var lost := Lost(clock.delays, LossesInStep(start, i)) - Lost(clock.delays, start.losses);
            start.time + 500_000_000 * i + clock.delays(start.losses) <= collections[i].at
            <= start.time + 500_000_000 * i + lost
    ensures start.time + 500_000_000 * (|collections| - 1) <= collections[|collections| - 1].at <= clock.now
  {
    hide Spaced, StopRead, Admissions;
    AdmittedInScript(collections, flag.script, start.firstRead);
    CollectionsApart(collections, flag.script, clock.delays, i, 0);
    CollectionsApart(collections, flag.script, clock.delays, |collections| - 1, 0);
  }

  /** How a run ends if its last head read is number `next`. */
  ghost predicate EndsAtRead(flag: RunningFlag, end: GatherEnd, next: nat)
    reads flag
  {
    if next < |flag.script| then end == Stopped && !flag.script[next] && flag.position == next + 1
    else end == Unobserved && flag.position == |flag.script|
  }

  /**
   * A run, told from its flag script: it collects after the first head read if that is set, then after
   * each head read that follows, and makes no read beyond the one that ends it.
   */
  lemma MonitorRunExactly(
    collections: seq<Collection>, flag: RunningFlag, clock: Clock, start: Start, end: GatherEnd)
    requires MonitorEnds(collections, flag, clock, start, end)
    ensures if start.firstRead < |flag.script| && flag.script[start.firstRead] then
              && collections != [] && collections[0].admittedBy == start.firstRead
              && (forall i :: 0 <= i < |collections| - 1 ==>
                    HeadFollows(flag.script, collections[i].admittedBy, collections[i + 1].admittedBy))
              && exists next: nat ::
                   && HeadFollows(flag.script, collections[|collections| - 1].admittedBy, next)
                   && EndsAtRead(flag, end, next)
            else
              collections == [] && EndsAtRead(flag, end, start.firstRead)
  {
    hide Spaced, Admissions, StopRead, HeadFollows, SleepsInCycle, SleepBetweenReads, Lost;
    AdmissionsExactly(flag.script, start.firstRead);
    var admissions, stop := Admissions(flag.script, start.firstRead), StopRead(flag.script, start.firstRead);
    assert |admissions| == |collections|;
    assert forall i :: 0 <= i < |collections| ==> admissions[i] == collections[i].admittedBy;
    if collections != [] {
      var next :| HeadFollows(flag.script, admissions[|admissions| - 1], next) && StopsAt(flag.script, next, stop);
      assert EndsAtRead(flag, end, next);
    }
  }

  /** However a run goes, at most 30 ms of sleep lie between two of its flag reads. */
  lemma MonitorPolls(
    collections: seq<Collection>, flag: RunningFlag, clock: Clock, start: Start, end: GatherEnd, i: nat)
    requires MonitorEnds(collections, flag, clock, start, end) && start.firstRead <= i && i + 1 < flag.position
    ensures SleepAfter(flag.sleptAt, i) <= 30_000_000
  {
    hide Spaced, StopRead, Admissions, SleepsInCycle, Lost;
  }

  /** Without delays collection `i` of such a run ends exactly `i` half seconds after the start. */
  lemma ExactWithoutDelays(
    collections: seq<Collection>, flag: RunningFlag, clock: Clock, start: Start, end: GatherEnd, i: nat)
    requires MonitorEnds(collections, flag, clock, start, end) && i < |collections|
    requires AllRunning(flag.script, start.firstRead, |flag.script|)
    requires forall n :: start.losses <= n < LossesInStep(start, i) ==> clock.delays(n) == 0
    ensures collections[i].at == start.time + 500_000_000 * i
  {
    hide MonitorEnds, Lost, Times, AllRunning;
    MonitorPace(collections, flag, clock, start, end, i);
    LostAtMost(clock.delays, start.losses, LossesInStep(start, i), 0);
    NothingTimes(LossesInStep(start, i) - start.losses);
  }
}
