/**
 * The commands of the fake generator as a state machine: what configure, start and stop do to the
 * rates, the timestamp estimator, the callback that feeds it and the worker thread, in the order of
 * the source. Storing the rates and the period is one step. Rates are ideal real numbers.
 */
module GeneratorControl {
  import opened Words

  const MICROSECONDS_PER_SECOND: real := 1000000.0

  /** The number of readiness probes a start makes before it gives up: one short one and ten long ones. */
  const PROBES: nat := 11

  /** What the probes of one start would find, in order. */
  type Probes = p: seq<bool> | |p| == PROBES witness seq(PROBES, _ => false)

  /** Estimators are numbered as they are made, so that a callback can refer to one that is gone. */
  datatype Control = Control(
    triggerRate: real, activeTriggerRate: real, eventPeriod: int,
    estimator: Option<nat>, callback: Option<nat>, running: bool, estimatorsMade: nat)

  const INITIAL: Control := Control(1.0, 1.0, 1000000, None, None, false, 0)

  datatype Command = Configure(rate: real) | Start(probes: Probes) | Stop

  /** The event period in microseconds, truncated to an integer. */
  function EventPeriod(rate: real): int
    requires rate > 0.0
  {
    (MICROSECONDS_PER_SECOND / rate).Floor
  }

  /** Between commands: the configured rate is active and positive, and the period is the one that belongs to it. */
  ghost predicate RateInvariant(c: Control) {
    && c.activeTriggerRate == c.triggerRate > 0.0
    && 0 <= c.eventPeriod
    && c.eventPeriod as real * c.triggerRate <= MICROSECONDS_PER_SECOND
    && MICROSECONDS_PER_SECOND < (c.eventPeriod + 1) as real * c.triggerRate
  }

  /** The index of the first successful probe; `PROBES` if there is none. */
  function FirstReady(probes: seq<bool>): (n: nat)
    ensures n <= |probes|
    ensures n < |probes| ==> probes[n]
    ensures forall i :: 0 <= i < n ==> !probes[i]
  {
    if |probes| == 0 || probes[0] then 0 else 1 + FirstReady(probes[1..])
  }

  /** A start succeeds if there is a sender and one of its probes finds it ready. */
  predicate Ready(connected: bool, probes: Probes) {
    connected && FirstReady(probes) < PROBES
  }

  function Rated(c: Control, rate: real): Control
    requires rate > 0.0
  {
    c.(activeTriggerRate := rate, eventPeriod := EventPeriod(rate))
  }

  /** An invalid rate is reported and the old one stays. */
  function Configured(c: Control, rate: real): Control
    requires c.activeTriggerRate > 0.0
  {
    if rate > 0.0 then Rated(c.(triggerRate := rate), rate) else Rated(c, c.activeTriggerRate)
  }

  function NewEstimator(c: Control): Control {
    c.(estimator := Some(c.estimatorsMade), estimatorsMade := c.estimatorsMade + 1)
  }

  /** The states a command goes through, in order; the last is the state it leaves. */
  function Steps(c: Control, command: Command, connected: bool): (steps: seq<Control>)
    requires c.triggerRate > 0.0 && c.activeTriggerRate > 0.0
    ensures |steps| > 0
  {
    match command
    case Configure(rate) => [Configured(c, rate)]
    case Start(probes) =>
      var made := NewEstimator(c);
      var hooked := made.(callback := made.estimator);
      [made, hooked] + if Ready(connected, probes) then [hooked.(running := true)] else []
    case Stop =>
      var joined := c.(running := false);
      var unhooked := joined.(callback := None);
      var released := unhooked.(estimator := None);
      [joined, unhooked, released, Rated(released, released.triggerRate)]
  }

  function After(c: Control, command: Command, connected: bool): Control
    requires c.triggerRate > 0.0 && c.activeTriggerRate > 0.0
  {
    var steps := Steps(c, command, connected);
    steps[|steps| - 1]
  }

  /** Stopping touches the estimator and joins the thread, so there must be a worker to stop. */
  predicate Executable(c: Control, command: Command) {
    command.Stop? ==> c.running
  }

  /** A worker is started exactly by a start that finds a sender ready within its eleven probes. */
  lemma StartNeedsReadySender(c: Control, probes: Probes, connected: bool)
    requires c.triggerRate > 0.0 && c.activeTriggerRate > 0.0
    ensures After(c, Start(probes), connected).running
       <==> c.running || (connected && exists i :: 0 <= i < 11 && probes[i])
  {
  }

  // ---------------------------------------------------------------------------------------------
  // Rates and periods
  // ---------------------------------------------------------------------------------------------

  /** The period is the largest whole number of microseconds that fits the rate. */
  lemma PeriodFitsRate(rate: real, period: int)
    requires rate > 0.0
    ensures period == EventPeriod(rate)
       <==> period as real * rate <= MICROSECONDS_PER_SECOND < (period + 1) as real * rate
    ensures EventPeriod(rate) >= 0
  {
  }

  lemma RatedKeepsInvariant(c: Control)
    requires c.triggerRate > 0.0
    ensures RateInvariant(Rated(c, c.triggerRate))
  {
  }

  lemma CommandKeepsRateInvariant(c: Control, command: Command, connected: bool)
    requires RateInvariant(c)
    ensures RateInvariant(After(c, command, connected))
  {
    match command {
      case Configure(rate) =>
        RatedKeepsInvariant(if rate > 0.0 then c.(triggerRate := rate) else c);
      case Start(_) =>
      case Stop =>
        RatedKeepsInvariant(c.(running := false, callback := None, estimator := None));
    }
  }

  lemma RatesArePositive(c: Control)
    requires RateInvariant(c)
    ensures c.triggerRate == c.activeTriggerRate > 0.0
  {
  }

  /**
   * A positive rate is taken over at once, any other leaves the rates alone, and nothing but the rates
   * and the period changes.
   */
  lemma ConfigureTakesRate(c: Control, rate: real, connected: bool)
    requires RateInvariant(c)
    ensures (if rate > 0.0 then rate else c.triggerRate) > 0.0
    ensures var taken := if rate > 0.0 then rate else c.triggerRate;
            After(c, Configure(rate), connected) ==
              c.(triggerRate := taken, activeTriggerRate := taken, eventPeriod := EventPeriod(taken))
  {
    hide EventPeriod, RateInvariant;
    RatesArePositive(c);
  }

  /** What a start and a stop leave behind: neither touches the rates, and a stop undoes what a start did. */
  lemma StartAndStop(c: Control, probes: Probes, connected: bool)
    requires RateInvariant(c)
    ensures var started := After(c, Start(probes), connected);
            && started == c.(estimator := Some(c.estimatorsMade), callback := Some(c.estimatorsMade),
                             running := started.running, estimatorsMade := c.estimatorsMade + 1)
    ensures var stopped := After(c, Stop, connected);
            stopped == c.(estimator := None, callback := None, running := false)
  {
    CommandKeepsRateInvariant(c, Stop, connected);
    PeriodFitsRate(c.triggerRate, c.eventPeriod);
  }

  /** The rate really produced differs from the configured one by less than one part in the period. */
  lemma RateError(c: Control)
    requires RateInvariant(c) && c.eventPeriod > 0
    ensures c.triggerRate <= MICROSECONDS_PER_SECOND / c.eventPeriod as real
    ensures MICROSECONDS_PER_SECOND / c.eventPeriod as real - c.triggerRate < c.triggerRate / c.eventPeriod as real
  {
  }

  /** The longest wait in which the worker never reads its running flag. */
  const UNPOLLED_PERIOD: int := 2000

  /**
   * A configuration can be stopped exactly when its rate is at most 10^6 / 2001 Hz, a little under
   * 500 Hz: only then is the period longer than two flag-check slices.
   */
  lemma StoppableRates(c: Control)
    requires RateInvariant(c)
    ensures c.eventPeriod > UNPOLLED_PERIOD
       <==> (UNPOLLED_PERIOD + 1) as real * c.triggerRate <= MICROSECONDS_PER_SECOND
  {
  }

  // ---------------------------------------------------------------------------------------------
  // Runs of commands
  // ---------------------------------------------------------------------------------------------

  /** A sequence of commands that can be executed from a state. */
  ghost predicate ExecutableRun(c: Control, commands: seq<Command>, connected: bool)
    requires RateInvariant(c)
    decreases |commands|
  {
    |commands| == 0 ||
    (&& Executable(c, commands[0])
     && (CommandKeepsRateInvariant(c, commands[0], connected);
         ExecutableRun(After(c, commands[0], connected), commands[1..], connected)))
  }

  ghost function Final(c: Control, commands: seq<Command>, connected: bool): (final: Control)
    requires RateInvariant(c)
    ensures RateInvariant(final)
    decreases |commands|
  {
    if |commands| == 0 then c
    else
      CommandKeepsRateInvariant(c, commands[0], connected);
      Final(After(c, commands[0], connected), commands[1..], connected)
  }

  /** A configuration whose rate is accepted. */
  predicate SetsRate(command: Command) {
    command.Configure? && command.rate > 0.0
  }

  /** The rate in force at the end of a run is the one accepted last, whatever was started and stopped since. */
  lemma {:induction false} LastRateCounts(c: Control, commands: seq<Command>, connected: bool, k: nat)
    requires RateInvariant(c) && k < |commands| && SetsRate(commands[k])
    requires forall i :: k < i < |commands| ==> !SetsRate(commands[i])
    ensures Final(c, commands, connected).activeTriggerRate == commands[k].rate
    ensures Final(c, commands, connected).triggerRate == commands[k].rate
    decreases |commands|
  {
    hide Steps, EventPeriod;
    var next := After(c, commands[0], connected);
    CommandKeepsRateInvariant(c, commands[0], connected);
    if k > 0 {
      LastRateCounts(next, commands[1..], connected, k - 1);
    } else {
      ConfigureTakesRate(c, commands[0].rate, connected);
      NoRateCounts(next, commands[1..], connected);
    }
  }

  /** Without an accepted rate the one before the run stays. */
  lemma {:induction false} NoRateCounts(c: Control, commands: seq<Command>, connected: bool)
    requires RateInvariant(c) && forall i :: 0 <= i < |commands| ==> !SetsRate(commands[i])
    ensures Final(c, commands, connected).activeTriggerRate == c.activeTriggerRate
    ensures Final(c, commands, connected).triggerRate == c.triggerRate
    decreases |commands|
  {
    if |commands| > 0 {
      var command := commands[0];
      CommandKeepsRateInvariant(c, command, connected);
      match command {
        case Configure(rate) => ConfigureTakesRate(c, rate, connected);
        case Start(probes) => StartAndStop(c, probes, connected);
        case Stop => StartAndStop(c, seq(PROBES, _ => false), connected);
      }
      hide Steps, EventPeriod;
      NoRateCounts(After(c, command, connected), commands[1..], connected);
    }
  }

  /** All states a run goes through, inside its commands too. */
  ghost function Trace(c: Control, commands: seq<Command>, connected: bool): seq<Control>
    requires RateInvariant(c)
    decreases |commands|
  {
    if |commands| == 0 then []
    else
      CommandKeepsRateInvariant(c, commands[0], connected);
      Steps(c, commands[0], connected) + Trace(After(c, commands[0], connected), commands[1..], connected)
  }

  /**
   * A callback that is installed refers to the estimator that exists; a worker that runs has an
   * estimator, the callback that feeds it and a sender.
   */
  ghost predicate Live(c: Control, connected: bool) {
    && (c.callback.Some? ==> c.estimator == c.callback)
    && (c.running ==> c.callback.Some? && connected)
  }

  ghost predicate AllLive(states: seq<Control>, connected: bool) {
    forall i :: 0 <= i < |states| ==> Live(states[i], connected)
  }

  /** What callers can see for themselves: after a start, even a failed one, the next start or stop is a stop. */
  predicate NoRestart(commands: seq<Command>, started: bool)
    decreases |commands|
  {
    |commands| == 0 ||
    match commands[0]
    case Configure(_) => NoRestart(commands[1..], started)
    case Start(_) => !started && NoRestart(commands[1..], true)
    case Stop => NoRestart(commands[1..], false)
  }

  /** What holds of the estimator numbers between commands, in any run. */
  ghost predicate Numbered(c: Control) {
    && (c.callback.Some? <==> c.estimator.Some?)
    && (c.estimator.Some? ==> c.estimator == c.callback && c.estimator.value < c.estimatorsMade)
  }

  lemma StartIsLiveUnlessHooked(c: Control, probes: Probes, connected: bool)
    requires RateInvariant(c) && Live(c, connected) && Numbered(c)
    ensures AllLive(Steps(c, Start(probes), connected), connected) <==> c.callback.None?
  {
    var steps := Steps(c, Start(probes), connected);
    assert steps[0].callback == c.callback && steps[0].estimator == Some(c.estimatorsMade);
  }

  lemma AllLiveConcat(a: seq<Control>, b: seq<Control>, connected: bool)
    ensures AllLive(a + b, connected) <==> AllLive(a, connected) && AllLive(b, connected)
  {
    if AllLive(a + b, connected) {
      assert forall i :: 0 <= i < |a| ==> a[i] == (a + b)[i];
      assert forall i :: 0 <= i < |b| ==> b[i] == (a + b)[|a| + i];
    }
  }

  /**
   * The lifecycle, over every run of executable commands: the callback never refers to an estimator
   * that is gone, and the worker never runs without estimator, callback and sender, exactly when no start
   * follows a start, failed or not, without a stop between them.
   */
  lemma {:induction false} LiveExactlyWithoutRestart(c: Control, commands: seq<Command>, connected: bool)
    requires RateInvariant(c) && Live(c, connected) && Numbered(c)
    requires ExecutableRun(c, commands, connected)
    ensures AllLive(Trace(c, commands, connected), connected) <==> NoRestart(commands, c.callback.Some?)
    decreases |commands|
  {
    if |commands| > 0 {
      var command := commands[0];
      CommandKeepsRateInvariant(c, command, connected);
      var next := After(c, command, connected);
      LiveExactlyWithoutRestart(next, commands[1..], connected);
      AllLiveConcat(Steps(c, command, connected), Trace(next, commands[1..], connected), connected);
      if command.Start? {
        StartIsLiveUnlessHooked(c, command.probes, connected);
      }
    }
  }

  /** The same from power-on, with the rate invariant that every run keeps. */
  lemma RunsFromPowerOn(commands: seq<Command>, connected: bool)
    requires ExecutableRun(INITIAL, commands, connected)
    ensures RateInvariant(Final(INITIAL, commands, connected))
    ensures AllLive(Trace(INITIAL, commands, connected), connected) <==> NoRestart(commands, false)
    ensures (forall i :: 0 <= i < |commands| ==> !SetsRate(commands[i])) ==>
              Final(INITIAL, commands, connected).activeTriggerRate == 1.0
  {
    if forall i :: 0 <= i < |commands| ==> !SetsRate(commands[i]) {
      NoRateCounts(INITIAL, commands, connected);
    }
    LiveExactlyWithoutRestart(INITIAL, commands, connected);
  }

  // ---------------------------------------------------------------------------------------------
  // Witnesses
  // ---------------------------------------------------------------------------------------------

  /** A trigger rate of 1000 Hz is accepted and gives a period that cannot be stopped. */
  lemma ThousandHertz()
    ensures Configured(INITIAL, 1000.0).eventPeriod == 1000 <= UNPOLLED_PERIOD
  {
    PeriodFitsRate(1000.0, 1000);
  }

  /** Two starts in a row, the sender being ready at once, leave the callback of the first without its estimator. */
  lemma SecondStartDangles() returns (commands: seq<Command>)
    ensures |commands| == 2 && commands[0].Start? && commands[1].Start?
    ensures ExecutableRun(INITIAL, commands, true) && !AllLive(Trace(INITIAL, commands, true), true)
  {
    var probes: Probes := seq(PROBES, _ => true);
    commands := [Start(probes), Start(probes)];
    var second := After(INITIAL, Start(probes), true);
    assert commands[1..] == [Start(probes)] && commands[1..][1..] == [];
    assert ExecutableRun(second, commands[1..], true);
    LiveExactlyWithoutRestart(INITIAL, commands, true);
    assert !NoRestart(commands[1..], true);
  }
}
