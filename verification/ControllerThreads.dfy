/**
 * The controller's two threads (plugins/HSIController.cpp): the command thread and the monitor
 * thread it starts and stops. Each step of either thread is one transition, in any interleaving.
 * Starting a thread spawns it, stopping it clears the running flag and then joins. Any command can come
 * at any time, and any of them can be left by an exception.
 */
module ControllerThreads {
  import Controller

  datatype Monitor =
    | Absent                 // no thread, or a thread that has returned
    | LoopHead               // about to read the running flag
    | Collecting             // reading device information from the hardware
    | Processing             // evaluating what was read
    | Waiting(left: nat)     // in the sliced wait, so many flag reads before its last sleep

  datatype Command =
    | Idle                // between commands, the last of which may have been left by an exception
    | Deciding            // configure has started the monitor and is about to configure the hardware
    | JoiningForReset     // stop requested, waiting for the monitor to return
    | ResettingIo         // inside the io reset
    | Restarting          // io reset done, monitor to be started again
    | ResettingHsi
    | ResettingEndpoint
    | ConfiguringHsi
    | StartingHsi
    | StoppingHsi
    | JoiningForScrap     // stop requested, waiting for the monitor to return

  datatype State = State(command: Command, monitor: Monitor, flag: bool, controlIo: bool)

  ghost predicate Initial(s: State) {
    s.command == Idle && s.monitor == Absent && !s.flag && !s.controlIo
  }

  /** One step of the monitor thread; it exists exactly while the thread has not returned. */
  ghost predicate MonitorStep(s: State, t: State) {
    && t == s.(monitor := t.monitor)
    && match s.monitor
       case Absent => false
       case LoopHead => t.monitor == if s.flag then Collecting else Absent
       case Collecting => t.monitor == Processing
       case Processing => t.monitor == Waiting(Controller.WAIT_READS)
       case Waiting(left) => t.monitor == if left > 0 && s.flag then Waiting(left - 1) else LoopHead
  }

  function Spawn(s: State, next: Command): State {
    s.(command := next, monitor := LoopHead, flag := true)
  }

  function RequestStop(s: State, next: Command): State {
    s.(command := next, flag := false)
  }

  /**
   * One step of the command thread. With `joins` false a stop does not wait for the monitor to return.
   * A step back to Idle is the end of the command, or an exception: for Deciding also a recovered
   * state instead of a configuration, for ConfiguringHsi also an invalid trigger rate.
   */
  ghost predicate CommandStep(s: State, t: State, joins: bool) {
    var left := s.(command := Idle);
    match s.command
    case Idle =>
      || ConfigureStep(s.(controlIo := t.controlIo), t)
      || t == s.(command := StartingHsi)
      || t == s.(command := StoppingHsi)
      || (s.flag && t == RequestStop(s, JoiningForScrap))
    case Deciding =>
      t == left || t == (if s.controlIo then RequestStop(s, JoiningForReset) else s.(command := ResettingHsi))
    case JoiningForReset => (joins ==> s.monitor == Absent) && t == s.(command := ResettingIo)
    case ResettingIo => t == left || t == s.(command := Restarting)
    case Restarting => t == Spawn(s, ResettingHsi)
    case ResettingHsi => t == left || t == s.(command := ResettingEndpoint)
    case ResettingEndpoint => t == left || t == s.(command := ConfiguringHsi)
    case ConfiguringHsi => t == left
    case StartingHsi => t == left
    case StoppingHsi => t == left
    case JoiningForScrap => (joins ==> s.monitor == Absent) && (t == left || t == left.(controlIo := false))
  }

  /**
   * A configure up to the start of the monitor, once it has read whether to control the io. It can be
   * left before that, and is if a monitor is running.
   */
  ghost predicate ConfigureStep(s: State, t: State) {
    t == s || (!s.flag && t == Spawn(s, Deciding))
  }

  ghost predicate Step(s: State, t: State, joins: bool) {
    MonitorStep(s, t) || CommandStep(s, t, joins)
  }

  /** An interleaving of the two threads from power-on. */
  ghost predicate Interleaving(states: seq<State>, joins: bool) {
    && |states| > 0
    && Initial(states[0])
    && forall i :: 0 <= i < |states| - 1 ==> Step(states[i], states[i + 1], joins)
  }

  // ---------------------------------------------------------------------------------------------
  // Exclusion
  // ---------------------------------------------------------------------------------------------

  /** No collection is under way during an io reset, and an io reset happens only when it is asked for. */
  ghost predicate ResetExcludesCollection(s: State) {
    s.command == ResettingIo ==> s.monitor != Collecting && s.monitor == Absent && s.controlIo
  }

  /** The monitor runs during the resets that follow and the configuration. */
  ghost predicate MonitoredConfiguration(s: State) {
    s.command in {ResettingHsi, ResettingEndpoint, ConfiguringHsi} ==> s.flag && s.monitor != Absent
  }

  /** The inductive invariant: where the flag is set, and where the monitor can have returned. */
  ghost predicate Inv(s: State) {
    && ResetExcludesCollection(s) && MonitoredConfiguration(s)
    && (s.flag ==> s.monitor != Absent)
    && (s.command == Deciding ==> s.flag)
    && (s.command in {JoiningForReset, ResettingIo, Restarting, JoiningForScrap} ==> !s.flag)
    && (s.command in {Idle, Restarting, StartingHsi, StoppingHsi} && !s.flag ==> s.monitor == Absent)
    && (s.command in {JoiningForReset, Restarting} ==> s.controlIo)
  }

  lemma StepKeepsInv(s: State, t: State)
    requires Inv(s) && Step(s, t, true)
    ensures Inv(t)
  {
  }

  /** Safety over every interleaving. */
  lemma {:induction false} TwoThreadSafety(states: seq<State>, i: nat)
    requires Interleaving(states, true) && i < |states|
    ensures ResetExcludesCollection(states[i]) && MonitoredConfiguration(states[i])
    ensures Inv(states[i])
  {
    if i > 0 {
      TwoThreadSafety(states, i - 1);
      assert Step(states[i - 1], states[i - 1 + 1], true);
      StepKeepsInv(states[i - 1], states[i]);
    }
  }

  /** A monitor that was started runs until it is stopped, through all that a command can do or fail to do. */
  lemma {:induction false} MonitorUntilStopped(states: seq<State>, i: nat, j: nat)
    requires Interleaving(states, true) && i <= j < |states| && states[i].flag
    requires forall k :: i < k <= j ==> states[k].command !in {JoiningForReset, JoiningForScrap}
    ensures states[j].flag && states[j].monitor != Absent
  {
    TwoThreadSafety(states, j);
    if i < j {
      MonitorUntilStopped(states, i, j - 1);
      TwoThreadSafety(states, j - 1);
      assert Step(states[j - 1], states[j - 1 + 1], true);
    }
  }

  /**
   * What a command leaves behind, thrown out or not. It ends without a monitor exactly if it was a scrap,
   * if it was left inside the io reset, or if there was none before and it started none.
   */
  lemma MonitorAfterCommand(s: State, t: State)
    requires Inv(s) && CommandStep(s, t, true) && t.command == Idle
    ensures t.monitor == Absent
       <==> || s.command in {JoiningForScrap, ResettingIo}
            || (s.command in {Idle, StartingHsi, StoppingHsi} && s.monitor == Absent)
  {
  }

  /** An io reset that throws leaves the device configured for io control and nobody monitoring it. */
  lemma FailedResetLeavesNoMonitor() returns (states: seq<State>)
    ensures Interleaving(states, true) && |states| > 1
    ensures states[|states| - 2].command == ResettingIo
    ensures states[|states| - 1] == State(Idle, Absent, false, true)
  {
    var s0 := State(Idle, Absent, false, false);
    var s1 := State(Deciding, LoopHead, true, true);
    var s2 := State(JoiningForReset, LoopHead, false, true);
    var s3 := State(JoiningForReset, Absent, false, true);
    var s4 := State(ResettingIo, Absent, false, true);
    var s5 := State(Idle, Absent, false, true);
    assert Initial(s0) && CommandStep(s0, s1, true) && CommandStep(s1, s2, true);
    assert MonitorStep(s2, s3) && CommandStep(s3, s4, true) && CommandStep(s4, s5, true);
    hide Initial, MonitorStep, CommandStep;
    assert Step(s0, s1, true) && Step(s1, s2, true) && Step(s2, s3, true) && Step(s3, s4, true) && Step(s4, s5, true);
    states := [s0, s1, s2, s3, s4, s5];
  }

  /** Without the join the exclusion fails: this interleaving collects during an io reset. */
  lemma JoinIsNeeded() returns (states: seq<State>)
    ensures Interleaving(states, false)
    ensures states[|states| - 1].command == ResettingIo && states[|states| - 1].monitor == Collecting
  {
    var s0 := State(Idle, Absent, false, false);
    var s1 := State(Deciding, LoopHead, true, true);
    var s2 := State(Deciding, Collecting, true, true);
    var s3 := State(JoiningForReset, Collecting, false, true);
    var s4 := State(ResettingIo, Collecting, false, true);
    assert Step(s0, s1, false) && Step(s1, s2, false) && Step(s2, s3, false) && Step(s3, s4, false);
    states := [s0, s1, s2, s3, s4];
  }

  // ---------------------------------------------------------------------------------------------
  // A configure in order
  // ---------------------------------------------------------------------------------------------

  /** The command thread came to where it is by a step of its own, and has stayed there since. */
  lemma {:induction false} EnteredFrom(states: seq<State>, i: nat) returns (j: nat)
    requires Interleaving(states, true) && i < |states| && states[i].command != Idle
    ensures j < i && CommandStep(states[j], states[j + 1], true)
    ensures states[j].command != states[i].command
    ensures forall k :: j < k <= i ==>
              states[k].command == states[i].command && states[k].controlIo == states[i].controlIo
  {
    assert i > 0;
    j := i - 1;
    assert Step(states[j], states[j + 1], true);
    if states[j].command == states[i].command {
      j := EnteredFrom(states, j);
    }
  }

  /** The point of a configure before each of its later points. */
  lemma CameFrom(states: seq<State>, i: nat) returns (j: nat)
    requires Interleaving(states, true) && i < |states|
    requires states[i].command in
               {ConfiguringHsi, ResettingEndpoint, ResettingHsi, Restarting, ResettingIo, JoiningForReset}
    ensures j < i && states[j].controlIo == states[i].controlIo
    ensures forall k :: j < k <= i ==> states[k].command == states[i].command
    ensures match states[i].command
            case ConfiguringHsi => states[j].command == ResettingEndpoint
            case ResettingEndpoint => states[j].command == ResettingHsi
            case ResettingHsi =>
              states[j].command == Restarting || (states[j].command == Deciding && !states[j].controlIo)
            case Restarting => states[j].command == ResettingIo
            case ResettingIo => states[j].command == JoiningForReset
            case _ => states[j].command == Deciding && states[j].controlIo
  {
    hide Interleaving;
    j := EnteredFrom(states, i);
  }

  ghost predicate CommandsWithin(states: seq<State>, i: nat, j: nat, commands: set<Command>)
    requires j < |states|
  {
    forall k :: i <= k <= j ==> states[k].command in commands
  }

  /**
   * A configure that gets to the HSI configure has reset the HSI and then the endpoint in the same
   * command, and nothing else since; with io control it has reset the io right before, without it not.
   */
  lemma ConfigureInOrder(states: seq<State>, i: nat) returns (started: nat, io: nat, hsi: nat, endpoint: nat)
    requires Interleaving(states, true) && i < |states| && states[i].command == ConfiguringHsi
    ensures started < hsi < endpoint < i
    ensures states[started].command == Deciding
    ensures states[hsi].command == ResettingHsi && states[endpoint].command == ResettingEndpoint
    ensures CommandsWithin(states, hsi + 1, endpoint, {ResettingEndpoint})
    ensures CommandsWithin(states, endpoint + 1, i, {ConfiguringHsi})
    ensures if states[i].controlIo then
              && started < io < hsi && states[io].command == ResettingIo
              && CommandsWithin(states, started, io, {Deciding, JoiningForReset, ResettingIo})
              && CommandsWithin(states, io, hsi, {ResettingIo, Restarting, ResettingHsi})
            else
              CommandsWithin(states, started, hsi, {Deciding, ResettingHsi})
  {
    hide Interleaving, CommandStep;
    endpoint := CameFrom(states, i);
    hsi := CameFrom(states, endpoint);
    started := CameFrom(states, hsi);
    io := started;
    if states[started].command == Restarting {
      io := CameFrom(states, started);
      var joining := CameFrom(states, io);
      started := CameFrom(states, joining);
    }
  }

  /** All points of a configure are reached, with and without io control, and it ends with a monitor. */
  lemma ConfigureCanComplete(controlIo: bool) returns (states: seq<State>, i: nat)
    ensures Interleaving(states, true) && i + 2 == |states|
    ensures states[i].command == ConfiguringHsi && states[i].controlIo == controlIo
    ensures states[i + 1] == State(Idle, LoopHead, true, controlIo)
  {
    var s0 := State(Idle, Absent, false, false);
    var s1 := State(Deciding, LoopHead, true, controlIo);
    var t1 := State(JoiningForReset, LoopHead, false, true);
    var t2 := State(JoiningForReset, Absent, false, true);
    var t3 := State(ResettingIo, Absent, false, true);
    var t4 := State(Restarting, Absent, false, true);
    var s2 := State(ResettingHsi, LoopHead, true, controlIo);
    var s3 := State(ResettingEndpoint, LoopHead, true, controlIo);
    var s4 := State(ConfiguringHsi, LoopHead, true, controlIo);
    var s5 := State(Idle, LoopHead, true, controlIo);
    assert Initial(s0) && CommandStep(s0, s1, true);
    assert controlIo ==> CommandStep(s1, t1, true) && MonitorStep(t1, t2) && CommandStep(t2, t3, true);
    assert controlIo ==> CommandStep(t3, t4, true) && CommandStep(t4, s2, true);
    assert !controlIo ==> CommandStep(s1, s2, true);
    assert CommandStep(s2, s3, true) && CommandStep(s3, s4, true) && CommandStep(s4, s5, true);
    hide Initial, MonitorStep, CommandStep;
    states := if controlIo then [s0, s1, t1, t2, t3, t4, s2, s3, s4, s5] else [s0, s1, s2, s3, s4, s5];
    i := |states| - 2;
  }

  /** From there the device can be started, stopped and scrapped, which leaves things as at power-on. */
  lemma ScrapUndoesConfigure(s: State) returns (states: seq<State>)
    requires s.command == Idle && s.flag && s.monitor == LoopHead
    ensures |states| > 2 && states[0] == s && Initial(states[|states| - 1])
    ensures forall i :: 0 <= i < |states| - 1 ==> Step(states[i], states[i + 1], true)
    ensures exists i, j :: 0 < i < j < |states| && states[i].command == StartingHsi && states[j].command == StoppingHsi
  {
    var s1, s2 := s.(command := StartingHsi), s.(command := StoppingHsi);
    var t1 := State(JoiningForScrap, LoopHead, false, s.controlIo);
    var t2 := t1.(monitor := Absent);
    var t3 := State(Idle, Absent, false, false);
    assert CommandStep(s, s1, true) && CommandStep(s1, s, true) && CommandStep(s, s2, true) && CommandStep(s2, s, true);
    assert CommandStep(s, t1, true) && MonitorStep(t1, t2) && CommandStep(t2, t3, true);
    hide MonitorStep, CommandStep;
    states := [s, s1, s, s2, s, t1, t2, t3];
    assert states[1].command == StartingHsi && states[3].command == StoppingHsi;
  }

  // ---------------------------------------------------------------------------------------------
  // A cycle of the monitor
  // ---------------------------------------------------------------------------------------------

  /** How many steps the monitor made between two states. */
  function MonitorMoves(states: seq<State>, i: nat, j: nat): nat
    requires i <= j < |states|
  {
    if i == j then 0
    else MonitorMoves(states, i, j - 1) + if states[j - 1].monitor != states[j].monitor then 1 else 0
  }

  /** How many steps into its cycle the monitor is, counted from the collection. */
  function Phase(monitor: Monitor): int {
    match monitor
    case Collecting => 0
    case Processing => 1
    case Waiting(left) => 50 - left
    case LoopHead => 51
    case Absent => -1
  }

  lemma StepAt(states: seq<State>, i: nat)
    requires Interleaving(states, true) && i + 1 < |states|
    ensures Step(states[i], states[i + 1], true) && Inv(states[i])
  {
    hide Step, Inv, Initial;
    TwoThreadSafety(states, i);
  }

  lemma OneMove(s: State, t: State)
    requires Inv(s) && Step(s, t, true) && s.flag && t.flag && s.monitor != LoopHead
    ensures Phase(t.monitor) == Phase(s.monitor) + if s.monitor != t.monitor then 1 else 0
  {
  }

  /**
   * While the flag stays set, 51 steps lead from a collection to the head of the loop: one to process
   * what was collected, 49 into and through the wait, one out of it.
   */
  lemma {:induction false} MonitorCycle(states: seq<State>, i: nat, j: nat)
    requires Interleaving(states, true) && i <= j < |states| && states[i].monitor == Collecting
    requires forall k :: i <= k <= j ==> states[k].flag
    requires forall k :: i < k < j ==> states[k].monitor != LoopHead
    ensures MonitorMoves(states, i, j) == Phase(states[j].monitor) >= 0
    ensures states[j].monitor == LoopHead ==> MonitorMoves(states, i, j) == 51
  {
    hide Step, Inv, Interleaving;
    if i < j {
      MonitorCycle(states, i, j - 1);
      StepAt(states, j - 1);
      OneMove(states[j - 1], states[j]);
    }
  }

  // ---------------------------------------------------------------------------------------------
  // The join ends
  // ---------------------------------------------------------------------------------------------

  /** How many steps a monitor that finds its flag cleared can still make. */
  function StepsToReturn(monitor: Monitor): nat {
    match monitor
    case Absent => 0
    case LoopHead => 1
    case Waiting(_) => 2
    case Processing => 3
    case Collecting => 4
  }

  /** While a stop is waited for, the monitor can move until it has returned, and every move brings it nearer. */
  lemma JoinEnds(s: State)
    requires !s.flag && s.monitor != Absent
    ensures exists t :: MonitorStep(s, t)
    ensures forall t :: MonitorStep(s, t) ==> !t.flag && StepsToReturn(t.monitor) < StepsToReturn(s.monitor)
  {
    var next := match s.monitor
      case LoopHead => Absent
      case Collecting => Processing
      case Processing => Waiting(Controller.WAIT_READS)
      case Waiting(_) => LoopHead
      case Absent => Absent;
    assert MonitorStep(s, s.(monitor := next));
  }
}
