/**
 * The fake generator (plugins/FakeHSIEventGeneratorModule.cpp): its commands, and the worker that
 * draws signal maps on an absolute schedule and sends an event for each map that meets the mask.
 */
module FakeGenerator {
  import opened Words
  import opened HSITypes
  import opened EventSending
  import opened SignalMaps
  import opened Pacing
  import opened GeneratorRuns
  import C = GeneratorControl
  import G = GeneratorEvents

  class FakeHSIEventGenerator {
    const sender: HSIEventSender
    // m_raw_hsi_data_sender != nullptr
    const rawConnected: bool

    // Commands and configuration
    var triggerRate: real
    var activeTriggerRate: real
    var eventPeriod: int
    var timestampOffset: int64
    var hsiDeviceId: uint32
    var signalEmulationMode: uint32
    var enabledSignals: bv32
    var runNumber: uint32
    var estimator: Option<nat>
    var callback: Option<nat>
    var running: bool
    var estimatorsMade: nat

    // Worker
    var generatedCounter: uint64
    var lastGeneratedTimestamp: uint64

    // Every state the commands went through.
    ghost var history: seq<C.Control>

    ghost function Control(): C.Control
      reads this`triggerRate, this`activeTriggerRate, this`eventPeriod, this`estimator, this`callback,
            this`running, this`estimatorsMade
    {
      C.Control(triggerRate, activeTriggerRate, eventPeriod, estimator, callback, running, estimatorsMade)
    }

    ghost predicate Valid()
      reads this`triggerRate, this`activeTriggerRate, this`eventPeriod, this`estimator, this`callback,
            this`running, this`estimatorsMade, sender
    {
      sender.Valid() && C.RateInvariant(Control())
    }

    constructor (sender: HSIEventSender, rawConnected: bool)
      requires sender.Valid()
      ensures Valid() && Control() == C.INITIAL && history == []
      ensures this.sender == sender && this.rawConnected == rawConnected
    {
      this.sender, this.rawConnected := sender, rawConnected;
      triggerRate, activeTriggerRate, eventPeriod := 1.0, 1.0, 1000000;
      timestampOffset, hsiDeviceId, signalEmulationMode, enabledSignals := 0, 0, 0, 0;
      runNumber, estimator, callback, running, estimatorsMade := 0, None, None, false, 0;
      generatedCounter, lastGeneratedTimestamp := 0, 0;
      history := [];
    }

    // -------------------------------------------------------------------------------------------
    // Commands
    // -------------------------------------------------------------------------------------------

    method DoConfigure(rate: real, offset: int64, deviceId: uint32, mode: uint32, enabled: bv32)
      requires Valid()
      modifies this`triggerRate, this`activeTriggerRate, this`eventPeriod, this`history,
               this`timestampOffset, this`hsiDeviceId, this`signalEmulationMode, this`enabledSignals
      ensures Valid()
      ensures var steps := C.Steps(old(Control()), C.Configure(rate), sender.connected);
              history == old(history) + steps && Control() == steps[|steps| - 1]
      ensures triggerRate == activeTriggerRate == if rate > 0.0 then rate else old(activeTriggerRate)
      ensures timestampOffset == offset && hsiDeviceId == deviceId
      ensures signalEmulationMode == mode && enabledSignals == enabled
    {
      hide C.EventPeriod, C.RateInvariant, HSIEventSender.Valid;
      C.RatesArePositive(Control());
      C.CommandKeepsRateInvariant(Control(), C.Configure(rate), sender.connected);
      if rate > 0.0 {
        triggerRate := rate;
        activeTriggerRate := triggerRate;
      }
      eventPeriod := C.EventPeriod(activeTriggerRate);
      timestampOffset := offset;
      hsiDeviceId := deviceId;
      signalEmulationMode := mode;
      enabledSignals := enabled;
      history := history + [Control()];
    }

    /** The wait for the sender: one short probe, then up to ten long ones. */
    method WaitUntilReady(probes: C.Probes) returns (ready: bool, probesMade: nat)
      ensures ready == C.Ready(sender.connected, probes)
      ensures probesMade == if ready then C.FirstReady(probes) + 1 else 11
    {
      ready := sender.ReadyToSend(probes[0]);
      probesMade := 1;
      while !ready && probesMade < C.PROBES
        invariant 1 <= probesMade <= C.PROBES
        invariant ready <==> sender.connected && probes[probesMade - 1]
        invariant forall i :: 0 <= i < probesMade - 1 ==> !(sender.connected && probes[i])
      {
        ready := sender.ReadyToSend(probes[probesMade]);
        probesMade := probesMade + 1;
      }
    }

    /** `ok` is false when the start throws because the sender did not become ready in time. */
    method DoStart(run: uint32, probes: C.Probes) returns (ok: bool, probesMade: nat)
      requires Valid()
      modifies this`estimator, this`estimatorsMade, this`callback, this`running, this`runNumber, this`history
      ensures Valid()
      ensures var steps := C.Steps(old(Control()), C.Start(probes), sender.connected);
              history == old(history) + steps && Control() == steps[|steps| - 1]
      ensures ok == C.Ready(sender.connected, probes)
      ensures probesMade == if ok then C.FirstReady(probes) + 1 else 11
      ensures runNumber == run
    {
      hide C.EventPeriod, C.FirstReady, C.RateInvariant, HSIEventSender.Valid;
      C.RatesArePositive(Control());
      C.CommandKeepsRateInvariant(Control(), C.Start(probes), sender.connected);
      estimator := Some(estimatorsMade);
      estimatorsMade := estimatorsMade + 1;
      history := history + [Control()];
      callback := estimator;
      history := history + [Control()];
      runNumber := run;
      ok, probesMade := WaitUntilReady(probes);
      if ok {
        running := true;
        history := history + [Control()];
      }
    }

    method DoStop()
      requires Valid() && C.Executable(Control(), C.Stop)
      modifies this`running, this`callback, this`estimator, this`activeTriggerRate, this`eventPeriod, this`history
      ensures Valid()
      ensures var steps := C.Steps(old(Control()), C.Stop, sender.connected);
              history == old(history) + steps && Control() == steps[|steps| - 1]
    {
      hide C.EventPeriod, C.RateInvariant, HSIEventSender.Valid;
      C.RatesArePositive(Control());
      C.CommandKeepsRateInvariant(Control(), C.Stop, sender.connected);
      running := false;
      history := history + [Control()];
      callback := None;
      history := history + [Control()];
      estimator := None;
      history := history + [Control()];
      activeTriggerRate := triggerRate;
      eventPeriod := C.EventPeriod(activeTriggerRate);
      history := history + [Control()];
    }

    // -------------------------------------------------------------------------------------------
    // Worker
    // -------------------------------------------------------------------------------------------

    ghost function Settings(): G.Settings
      reads this`estimator, this`enabledSignals, this`timestampOffset, this`hsiDeviceId, this`runNumber
    {
      G.Settings(estimator.Some?, enabledSignals, timestampOffset, hsiDeviceId, runNumber)
    }

    /** Between events: an event has been sent for every pass that emits one, and the counters say so. */
    ghost predicate UpToDate(passes: seq<G.Pass>)
      reads this`estimator, this`enabledSignals, this`timestampOffset, this`hsiDeviceId, this`runNumber,
            this`generatedCounter, this`lastGeneratedTimestamp, sender
    {
      var triggered := G.Triggered(passes, Settings());
      && sender.ledger.events == G.EventsOf(triggered, Settings())
      && sender.ledger.offered == G.FramesOf(triggered, Settings())
      && generatedCounter == sender.sentCounter
      && lastGeneratedTimestamp == sender.lastSentTimestamp
      && Settled(sender.attempts, sender.from, sender.tried)
      && (rawConnected || |triggered| == 0)
    }

    /** Where the run stands when its observation ends after the given passes were begun. */
    ghost predicate Reached(passes: seq<G.Pass>, end: WorkEnd)
      reads this`estimator, this`enabledSignals, this`timestampOffset, this`hsiDeviceId, this`runNumber,
            this`generatedCounter, this`lastGeneratedTimestamp, sender
    {
      var triggered, m := G.Triggered(passes, Settings()), |sender.ledger.events|;
      match end
      case NoTimestamp => |passes| == 0
      case Stopped => UpToDate(passes)
      case Unobserved => UpToDate(passes)
      case Retrying =>
        && |triggered| == m + 1
        && sender.ledger.events == G.EventsOf(triggered[..m], Settings())
        && sender.ledger.offered == G.FramesOf(triggered[..m], Settings())
        && generatedCounter == Next(sender.sentCounter)
        && lastGeneratedTimestamp == G.Timestamp(triggered[m], Settings())
        && sender.tried == |sender.attempts|
      case RawQueueNull =>
        && !rawConnected
        && |triggered| == m == 1
        && sender.ledger.events == G.EventsOf(triggered, Settings())
        && |sender.ledger.offered| == 0
        && Settled(sender.attempts, sender.from, sender.tried)
        && generatedCounter == sender.sentCounter
        && lastGeneratedTimestamp == sender.lastSentTimestamp
    }

    /** Packs the raw frame of an event and offers it. */
    method OfferFrame(ts: uint64, signals: bv32, triggerMap: bv32) returns (ok: bool)
      requires sender.Valid()
      modifies sender
      ensures sender.Valid()
      ensures ok == rawConnected && sender.tried == old(sender.tried)
      ensures sender.sentCounter == old(sender.sentCounter)
      ensures sender.lastSentTimestamp == old(sender.lastSentTimestamp)
      ensures sender.from == old(sender.from) && sender.rawFrom == old(sender.rawFrom)
      ensures ok ==> sender.ledger == old(sender.ledger).Offered(
                       Frame(FRAME_HEADER, LowWord(ts), HighWord(ts), WordOf(signals), 0,
                             WordOf(triggerMap), Wrap32(generatedCounter)),
                       sender.rawAccepts(old(sender.rawTried)))
      ensures !ok ==> sender.ledger == old(sender.ledger)
    {
      hide WordOf, LowWord, HighWord, Wrap32, Tally, FollowsScripts;
      var hsiStruct := new uint32[7] [
        FRAME_HEADER, LowWord(ts), HighWord(ts), WordOf(signals), 0, WordOf(triggerMap), Wrap32(generatedCounter)];
      assert FrameFromWords(hsiStruct[..]) ==
             Frame(FRAME_HEADER, LowWord(ts), HighWord(ts), WordOf(signals), 0,
                   WordOf(triggerMap), Wrap32(generatedCounter));
      ok := sender.SendRawHsiData(hsiStruct, rawConnected);
    }

    /** Sends the event of a pass that emits one, and its raw frame. */
    method EmitEvent(pass: G.Pass, triggerMap: bv32, ghost before: seq<G.Pass>) returns (end: WorkEnd)
      requires sender.Valid() && sender.connected && UpToDate(before)
      requires triggerMap == G.TriggerMap(pass, Settings()) && G.Emits(pass, Settings())
      modifies this`generatedCounter, this`lastGeneratedTimestamp, sender
      ensures sender.Valid() && sender.from == old(sender.from) && sender.rawFrom == old(sender.rawFrom)
      ensures end == Stopped || end == Retrying || end == RawQueueNull
      ensures Reached(before + [pass], end)
    {
      hide WordOf, LowWord, HighWord, Wrap32, Tally, ApplyOffset, FollowsScripts, Settled, Next, HSIEventSender.Valid;
      hide G.Triggered, G.EventsOf, G.FramesOf, G.TriggerMap, G.Emits;
      ghost var settings := Settings();
      G.OneMoreTriggered(before, pass, settings);
      sender.CountsEvents();
      TallyNext(|sender.ledger.events|);

      var ts := ApplyOffset(pass.estimate, timestampOffset);
      generatedCounter := Next(generatedCounter);
      lastGeneratedTimestamp := ts;
      var event := HSIEvent(hsiDeviceId, WordOf(triggerMap), ts, generatedCounter, runNumber);
      assert event == G.EventOf(pass, settings, |G.Triggered(before, settings)| + 1);
      var sent := sender.SendHsiEvent(event);
      if !sent {
        return Retrying;
      }
      var ok := OfferFrame(ts, pass.signals, triggerMap);
      end := if ok then Stopped else RawQueueNull;
    }

    /** The first half of a pass: mask the signal map and send an event if anything is left. */
    method EmitPass(pass: G.Pass, ghost before: seq<G.Pass>) returns (end: WorkEnd)
      requires sender.Valid() && sender.connected && Reached(before, Stopped)
      modifies this`generatedCounter, this`lastGeneratedTimestamp, sender
      ensures sender.Valid() && sender.from == old(sender.from) && sender.rawFrom == old(sender.rawFrom)
      ensures end == Stopped || end == Retrying || end == RawQueueNull
      ensures Reached(before + [pass], end)
    {
      hide G.Triggered, G.EventsOf, G.FramesOf, FollowsScripts;
      var triggerMap := pass.signals & enabledSignals;
      if triggerMap != 0 && estimator.Some? {
        end := EmitEvent(pass, triggerMap, before);
      } else {
        G.TriggeredAppend(before, pass, Settings());
        end := Stopped;
      }
    }

    lemma StopsUpToDate(passes: seq<G.Pass>)
      requires Reached(passes, Stopped)
      ensures Reached(passes, Unobserved)
    {
    }

    lemma PositiveRate()
      requires C.RateInvariant(Control())
      ensures activeTriggerRate > 0.0
    {
    }

    /**
     * One pass of the worker loop, due at `prev`. When `go` holds the next pass is due one period
     * later; otherwise `end` says how the observation of the run ends.
     */
    method RunPass(clock: Clock, flag: RunningFlag, engine: RandomEngine, prev: int, estimate: uint64,
                   ghost before: seq<G.Pass>, ghost run: RunRecord, ghost observable: nat)
      returns (go: bool, end: WorkEnd, pass: G.Pass, ghost after: RunRecord)
      requires sender.Valid() && C.RateInvariant(Control()) && sender.connected && Reached(before, Stopped)
      requires BetweenPasses(run, prev, clock, flag) && run.period == NANOSECONDS_PER_MICROSECOND * eventPeriod
      requires observable > |run.starts|
      modifies this`generatedCounter, this`lastGeneratedTimestamp, sender, clock, flag, engine
      ensures sender.Valid() && sender.from == old(sender.from) && sender.rawFrom == old(sender.rawFrom)
      ensures pass.estimate == estimate
      ensures MapInMode(signalEmulationMode, pass.signals, engine.poisson, old(engine.poissonDraws),
                        engine.uniform, old(engine.uniformDraws))
      ensures engine.poissonDraws == old(engine.poissonDraws) + PoissonDraws(signalEmulationMode, 1)
      ensures engine.uniformDraws == old(engine.uniformDraws) + UniformDraws(signalEmulationMode, 1)
      ensures Reached(before + [pass], if go then Stopped else end)
      ensures !go ==> end != NoTimestamp
      ensures |after.starts| == |run.starts| + 1
      ensures after == run.(starts := after.starts, position := flag.position, sleptAt := flag.sleptAt)
      ensures go ==> BetweenPasses(after, prev + run.period, clock, flag)
      ensures !go ==> after.WellPaced() && after.EndsAs(end, observable)
      ensures !go ==> clock.Valid() && after.ClockAtEnd(end, clock.now, clock.losses, clock.slept)
    {
      hide *;
      BeginPass(run, prev, clock, flag);
      after := Begin(run, clock, flag);
      WorkInPass(clock, flag, prev, after);
      var signals := GenerateSignalMap(signalEmulationMode, engine);
      pass := G.Pass(signals, estimate);
      go := false;
      end := EmitPass(pass, before);
      if end != Stopped {
        CutInPass(after, prev, clock, flag, end, observable);
        return;
      }
      assert activeTriggerRate > 0.0 by { PositiveRate(); }
      // The wait for the configured period; with a rate that is not positive there would be none.
      if activeTriggerRate > 0.0 {
        var wait: WaitEnd;
        wait, after := WaitForNextPass(clock, flag, prev, after, NANOSECONDS_PER_MICROSECOND * eventPeriod, observable);
        match wait {
          case Elapsed => go := true;
          case FlagDown => end := Stopped;
          case ScriptEnded =>
            end := Unobserved;
            StopsUpToDate(before + [pass]);
        }
      } else {
        assert false;
      }
    }

    /** The reset block at the start of a run, when no pass has begun. */
    method StartRun(ghost none: seq<G.Pass>)
      requires sender.Valid() && |none| == 0
      modifies this`generatedCounter, this`lastGeneratedTimestamp, sender
      ensures sender.Valid() && Reached(none, Stopped)
      ensures sender.from == old(sender.tried) && sender.rawFrom == old(sender.rawTried)
    {
      hide Tally, FollowsScripts, G.EventsOf, G.FramesOf, G.Triggered;
      generatedCounter := 0;
      lastGeneratedTimestamp := 0;
      sender.ResetCounters();
      G.NothingTriggered(none, Settings());
    }

    /** The maps of a run, as the engine draws them one after the other from the given draws on. */
    ghost predicate Drawn(passes: seq<G.Pass>, engine: RandomEngine, poissonDraws: nat, uniformDraws: nat)
      reads this`signalEmulationMode
    {
      forall k :: 0 <= k < |passes| ==>
        MapInMode(signalEmulationMode, passes[k].signals,
                  engine.poisson, poissonDraws + PoissonDraws(signalEmulationMode, k),
                  engine.uniform, uniformDraws + UniformDraws(signalEmulationMode, k))
    }

    /** The generation loop; `startTime` is when the schedule starts. */
    method Generate(clock: Clock, flag: RunningFlag, engine: RandomEngine, startTime: int, estimates: seq<uint64>,
                    ghost none: seq<G.Pass>, ghost start: RunRecord)
      returns (end: WorkEnd, ghost passes: seq<G.Pass>, ghost run: RunRecord)
      requires sender.Valid() && C.RateInvariant(Control()) && sender.connected
      requires Reached(none, Stopped) && |none| == |start.starts| == 0
      requires Drawn(none, engine, engine.poissonDraws, engine.uniformDraws)
      requires BetweenPasses(start, startTime, clock, flag) && start.period == NANOSECONDS_PER_MICROSECOND * eventPeriod
      modifies this`generatedCounter, this`lastGeneratedTimestamp, sender, clock, flag, engine
      ensures sender.Valid() && sender.from == old(sender.from) && sender.rawFrom == old(sender.rawFrom)
      ensures end != NoTimestamp
      ensures run == start.(starts := run.starts, position := flag.position, sleptAt := flag.sleptAt)
      ensures run.WellPaced() && run.EndsAs(end, |estimates|)
      ensures clock.Valid() && run.ClockAtEnd(end, clock.now, clock.losses, clock.slept)
      ensures |passes| == |run.starts| <= |estimates|
      ensures forall k :: 0 <= k < |passes| ==> passes[k].estimate == estimates[k]
      ensures Drawn(passes, engine, old(engine.poissonDraws), old(engine.uniformDraws))
      ensures engine.poissonDraws == old(engine.poissonDraws) + PoissonDraws(signalEmulationMode, |passes|)
      ensures engine.uniformDraws == old(engine.uniformDraws) + UniformDraws(signalEmulationMode, |passes|)
      ensures Reached(passes, end)
    {
      hide *;
      passes, run := none, start;
      var prev := startTime;
      var k := 0;
      NoMaps(signalEmulationMode);
      RecordInSync(run, prev, clock, flag);
      while k < |estimates|
        invariant 0 <= k == |passes| == |run.starts| <= |estimates|
        invariant sender.Valid() && Reached(passes, Stopped)
        invariant sender.from == old(sender.from) && sender.rawFrom == old(sender.rawFrom)
        invariant run == start.(starts := run.starts, position := flag.position, sleptAt := flag.sleptAt)
        invariant BetweenPasses(run, prev, clock, flag)
        invariant forall i :: 0 <= i < k ==> passes[i].estimate == estimates[i]
        invariant Drawn(passes, engine, old(engine.poissonDraws), old(engine.uniformDraws))
        invariant engine.poissonDraws == old(engine.poissonDraws) + PoissonDraws(signalEmulationMode, k)
        invariant engine.uniformDraws == old(engine.uniformDraws) + UniformDraws(signalEmulationMode, k)
      {
        OneMoreMap(signalEmulationMode, k);
        DrawnAppend(passes, engine, old(engine.poissonDraws), old(engine.uniformDraws));
        var go, ended, pass;
        ghost var after;
        go, ended, pass, after := RunPass(clock, flag, engine, prev, estimates[k], passes, run, |estimates|);
        passes, run := passes + [pass], after;
        k := k + 1;
        if !go {
          end := ended;
          return;
        }
        prev := prev + NANOSECONDS_PER_MICROSECOND * eventPeriod;
      }
      RecordEnds(run, prev, clock, flag);
      StopsUpToDate(passes);
      end := Unobserved;
    }

    /**
     * A run of the worker. `timestampValid` says whether the wait for a first timestamp ends with
     * an estimate; `estimates` holds what the estimator would say in each pass, one per pass observed.
     */
    method DoHsiWork(
      clock: Clock, flag: RunningFlag, engine: RandomEngine, timestampValid: bool, estimates: seq<uint64>)
      returns (end: WorkEnd, ghost passes: seq<G.Pass>, ghost run: RunRecord)
      requires Valid() && sender.connected && flag.Valid() && clock.Valid()
      modifies this`generatedCounter, this`lastGeneratedTimestamp, sender, clock, flag, engine
      ensures Valid()
      // Without a timestamp nothing is touched.
      ensures end == NoTimestamp <==> estimator.Some? && !timestampValid
      ensures end == NoTimestamp ==>
                && sender.ledger == old(sender.ledger) && sender.tried == old(sender.tried)
                && generatedCounter == old(generatedCounter) && lastGeneratedTimestamp == old(lastGeneratedTimestamp)
      // Timing.
      ensures run.startTime == old(clock.now) + clock.delays(old(clock.losses))
      ensures run.delays == clock.delays && run.firstLoss == old(clock.losses) + 1
      ensures run.period == 1000 * eventPeriod
      ensures run.firstRead == old(flag.position) && run.script == flag.script
      ensures run.position == flag.position && run.sleptAt == flag.sleptAt
      ensures run.WellPaced() && run.EndsAs(end, |estimates|)
      ensures clock.Valid() && run.ClockAtEnd(end, clock.now, clock.losses, clock.slept)
      // What was drawn, estimated and sent.
      ensures |passes| == |run.starts| <= |estimates|
      ensures forall k :: 0 <= k < |passes| ==> passes[k].estimate == estimates[k]
      ensures Drawn(passes, engine, old(engine.poissonDraws), old(engine.uniformDraws))
      ensures engine.poissonDraws == old(engine.poissonDraws) + PoissonDraws(signalEmulationMode, |passes|)
      ensures engine.uniformDraws == old(engine.uniformDraws) + UniformDraws(signalEmulationMode, |passes|)
      ensures end != NoTimestamp ==>
                Reached(passes, end) && sender.from == old(sender.tried) && sender.rawFrom == old(sender.rawTried)
    {
      hide C.RateInvariant, Reached, UpToDate, FollowsScripts, MapInMode, Times, SliceReads, Lost;
      clock.Work();
      run := RunRecord(clock.now, NANOSECONDS_PER_MICROSECOND * eventPeriod, flag.position, clock.losses, clock.delays,
                       [], flag.script, flag.position, flag.sleptAt);
      passes := [];
      RecordStarts(run, clock, flag);
      if estimator.Some? && !timestampValid {
        end := NoTimestamp;
        return;
      }
      StartRun(passes);
      end, passes, run := Generate(clock, flag, engine, clock.now, estimates, passes, run);
    }

    lemma DrawnAppend(passes: seq<G.Pass>, engine: RandomEngine, poissonDraws: nat, uniformDraws: nat)
      requires Drawn(passes, engine, poissonDraws, uniformDraws)
      ensures forall pass: G.Pass ::
                MapInMode(signalEmulationMode, pass.signals,
                          engine.poisson, poissonDraws + PoissonDraws(signalEmulationMode, |passes|),
                          engine.uniform, uniformDraws + UniformDraws(signalEmulationMode, |passes|))
                ==> Drawn(passes + [pass], engine, poissonDraws, uniformDraws)
    {
    }

    // -------------------------------------------------------------------------------------------
    // What a run keeps, at whatever moment it is observed
    // -------------------------------------------------------------------------------------------

    /**
     * What a run has put on its queues, from the configuration and the passes. It sends an event for
     * exactly those passes that have an enabled signal active, in order, and the j-th event and the
     * j-th frame offered report the j-th of them; the one that is still retried has not been sent.
     */
    lemma MessagesOfRun(passes: seq<G.Pass>, end: WorkEnd) returns (positions: seq<nat>)
      requires sender.Valid() && end != NoTimestamp && Reached(passes, end)
      ensures forall i, j :: 0 <= i < j < |positions| ==> positions[i] < positions[j]
      ensures forall k :: 0 <= k < |passes| ==>
                (k in positions <==> estimator.Some? && Meet(passes[k].signals, enabledSignals))
      ensures |sender.ledger.events| == if end == Retrying then |positions| - 1 else |positions|
      ensures |sender.ledger.offered| == if end == RawQueueNull then 0 else |sender.ledger.events|
      ensures var settings := G.Settings(estimator.Some?, enabledSignals, timestampOffset, hsiDeviceId, runNumber);
              forall j :: 0 <= j < |sender.ledger.events| ==>
                && positions[j] < |passes|
                && G.Reports(sender.ledger.events[j], passes[positions[j]], settings, j + 1)
      ensures forall j :: 0 <= j < |sender.ledger.offered| ==>
                && positions[j] < |passes|
                && G.Accompanies(sender.ledger.offered[j], sender.ledger.events[j], passes[positions[j]], j + 1)
      ensures sender.sentCounter == |sender.ledger.events| % 0x1_0000_0000_0000_0000
      ensures var m := |sender.ledger.events|;
              && sender.lastSentTimestamp == (if m == 0 then 0 else sender.ledger.events[m - 1].timestamp)
              && (end != Retrying ==> lastGeneratedTimestamp == sender.lastSentTimestamp)
              && (end == Retrying ==>
                    && positions[m] < |passes|
                    && (lastGeneratedTimestamp - passes[positions[m]].estimate - timestampOffset)
                         % 0x1_0000_0000_0000_0000 == 0)
    {
      hide G.Triggered, G.Reports, G.Accompanies, G.EventOf, G.FrameOf, Meet, Tally, FollowsScripts, Settled;
      positions := G.MessagesOfPasses(passes, Settings());
      sender.CountsEvents();
      TallyIsModulo(|sender.ledger.events|);
      if end == Retrying {
        RetriedTimestamp(passes, positions);
      }
    }

    /** The timestamp of the event that is being retried. */
    lemma RetriedTimestamp(passes: seq<G.Pass>, positions: seq<nat>)
      requires Reached(passes, Retrying)
      requires var triggered := G.Triggered(passes, Settings());
               && |positions| == |triggered|
               && forall j :: 0 <= j < |positions| ==> positions[j] < |passes| && triggered[j] == passes[positions[j]]
      ensures var p := positions[|positions| - 1];
              (lastGeneratedTimestamp - passes[p].estimate - timestampOffset) % 0x1_0000_0000_0000_0000 == 0
    {
      hide G.Triggered, G.EventsOf, G.FramesOf, ApplyOffset, Tally;
      G.OffsetIsCongruent(passes[positions[|positions| - 1]].estimate, timestampOffset);
    }

    /** The maps of a run, from the mode and the draws: all signals, one draw each, or one draw for all. */
    lemma MapsOfRun(passes: seq<G.Pass>, engine: RandomEngine, poissonDraws: nat, uniformDraws: nat, k: nat)
      requires Drawn(passes, engine, poissonDraws, uniformDraws) && k < |passes|
      ensures signalEmulationMode == 0 ==> passes[k].signals == 0xffff_ffff
      ensures signalEmulationMode == 1 ==>
                forall i :: 0 <= i < 32 ==>
                  (IsSet(passes[k].signals, i) <==> engine.poisson(poissonDraws + 32 * k + i) != 0)
      ensures signalEmulationMode == 2 ==> passes[k].signals == engine.uniform(uniformDraws + k)
      ensures signalEmulationMode > 2 ==> passes[k].signals == 0
    {
      hide IsSet;
      assert signalEmulationMode == 1 ==>
          forall i :: 0 <= i < 32 ==>
            (IsSet(passes[k].signals, i) <==> Fires(engine.poisson, poissonDraws + 32 * k, i));
    }

    /** The generated counter is at most one ahead of the sent counter, and only inside the retry loop. */
    lemma GeneratedLedger(passes: seq<G.Pass>, end: WorkEnd)
      requires sender.Valid() && end != NoTimestamp && Reached(passes, end)
      ensures generatedCounter == if end == Retrying then Next(sender.sentCounter) else sender.sentCounter
      ensures generatedCounter == Tally(|G.Triggered(passes, Settings())|)
      ensures end != Retrying ==> lastGeneratedTimestamp == sender.lastSentTimestamp
    {
    }

    /**
     * The delivery ledger against the scripts of the two queues. The events sent are the pushes that
     * succeeded since the start of the run, frames delivered and dropped make up the events sent, and
     * the failures counted are exactly the failed pushes of both kinds.
     */
    lemma DeliveryLedger(passes: seq<G.Pass>, end: WorkEnd)
      requires sender.Valid() && end != NoTimestamp && Reached(passes, end)
      ensures sender.from <= sender.tried <= |sender.attempts|
      ensures |sender.ledger.events| == Pushes(sender.attempts, sender.from, sender.tried, true)
      ensures end != RawQueueNull ==> |sender.ledger.frames| + sender.ledger.dropped == |sender.ledger.events|
      ensures |sender.ledger.frames| == Offers(sender.rawAccepts, sender.rawFrom, |sender.ledger.offered|, true)
      ensures sender.ledger.timeouts == Pushes(sender.attempts, sender.from, sender.tried, false)
      ensures sender.ledger.dropped == Offers(sender.rawAccepts, sender.rawFrom, |sender.ledger.offered|, false)
      ensures sender.ledger.failures == sender.ledger.timeouts + sender.ledger.dropped
      ensures sender.failedToSendCounter == Tally(sender.ledger.failures)
      ensures end != Retrying ==> Settled(sender.attempts, sender.from, sender.tried)
    {
      hide G.Triggered, Tally, Pushes, Offers, Settled;
    }

    /**
     * With two queues that take everything a run delivers the event and the frame of every triggered
     * pass and reports no failure.
     */
    lemma NothingIsLost(passes: seq<G.Pass>, end: WorkEnd)
      requires sender.Valid() && (end == Stopped || end == Unobserved) && Reached(passes, end)
      requires forall i :: sender.from <= i < |sender.attempts| ==> sender.attempts[i]
      requires forall i :: i >= sender.rawFrom ==> sender.rawAccepts(i)
      ensures sender.ledger.events == G.EventsOf(G.Triggered(passes, Settings()), Settings())
      ensures sender.ledger.frames == G.FramesOf(G.Triggered(passes, Settings()), Settings())
      ensures sender.ledger.timeouts == sender.ledger.dropped == sender.ledger.failures == 0
      ensures sender.failedToSendCounter == 0
    {
      hide G.Triggered, G.EventsOf, G.FramesOf, Tally, Settled;
      sender.FailsExactly();
    }

    /**
     * What the events of a run need of the queue: a run that is still retrying has used up every
     * success of the script.
     */
    lemma RetryingUsedAllSuccesses(passes: seq<G.Pass>)
      requires sender.Valid() && Reached(passes, Retrying)
      ensures sender.from <= |sender.attempts|
      ensures Pushes(sender.attempts, sender.from, |sender.attempts|, true) == |sender.ledger.events| < |passes|
    {
      hide Tally, Pushes, Offers, Settled, G.EventsOf, G.FramesOf;
    }

    /**
     * The worker terminates. If flag read `j`, which pass `k` makes, finds the flag cleared, if the
     * script shows more than `k` passes, and if the queue takes more than `k` events, then the run
     * ends as stopped, in pass `k` at the latest.
     */
    lemma StopIsReached(end: WorkEnd, passes: seq<G.Pass>, run: RunRecord, observable: nat, j: nat, k: nat)
      requires sender.Valid() && rawConnected && sender.from <= |sender.attempts|
      requires end != NoTimestamp && Reached(passes, end) && |passes| == |run.starts|
      requires run.WellPaced() && run.EndsAs(end, observable)
      requires run.firstRead <= j < |run.script| && !run.script[j]
      requires run.ReadsBefore(k) <= j < run.ReadsBefore(k + 1)
      requires observable > k && Pushes(sender.attempts, sender.from, |sender.attempts|, true) > k
      ensures end == Stopped
      ensures |run.starts| <= k + 1 && run.position <= j + 1
    {
      hide *;
      var successes := Pushes(sender.attempts, sender.from, |sender.attempts|, true);
      assert end != RawQueueNull by { RawSenderIsThere(passes, end); }
      if end == Retrying {
        RetryingUsedAllSuccesses(passes);
      }
      WorkerStops(run, end, observable, j, k, |sender.ledger.events|, successes);
    }

    lemma RawSenderIsThere(passes: seq<G.Pass>, end: WorkEnd)
      requires rawConnected && Reached(passes, end)
      ensures end != RawQueueNull
    {
    }

    /**
     * A run can be stopped exactly at rates up to 10^6 / 2001 Hz. Given that flag read `j` finds the
     * flag cleared, and that the script shows more passes, and the queue takes more events, than
     * there are reads before it, the run ends stopped if and only if the rate is that low.
     */
    lemma StoppedByFlagAtLowRates(end: WorkEnd, passes: seq<G.Pass>, run: RunRecord, observable: nat, j: nat)
      requires sender.Valid() && C.RateInvariant(Control()) && rawConnected && sender.from <= |sender.attempts|
      requires end != NoTimestamp && Reached(passes, end) && |passes| == |run.starts|
      requires run.period == 1000 * eventPeriod
      requires run.WellPaced() && run.EndsAs(end, observable)
      requires run.firstRead <= j < |run.script| && !run.script[j]
      requires observable > j - run.firstRead
      requires Pushes(sender.attempts, sender.from, |sender.attempts|, true) > j - run.firstRead
      ensures end == Stopped <==> 2001.0 * triggerRate <= 1000000.0
    {
      hide Reached, Pushes, SliceReads, FollowsScripts, Tally;
      C.StoppableRates(Control());
      FlagIsReadAtAll(run);
      if run.ReadsPerPass() > 0 {
        var k := PassOfRead(run, j);
        PassesBeforeRead(run, j, k);
        StopIsReached(end, passes, run, observable, j, k);
      } else {
        ShortPeriodsNeverStop(run, end, observable);
      }
    }
  }
}
