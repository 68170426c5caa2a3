/**
 * What a run of the fake generator should deliver, as a function of the signal maps it drew and
 * the timestamps it estimated, one of each per pass.
 */
module GeneratorEvents {
  import opened Words
  import opened Subsequences
  import opened HSITypes
  import opened SignalMaps

  datatype Pass = Pass(signals: bv32, estimate: uint64)

  /** What the events of a run are made with; `live` says that there is a timestamp estimator. */
  datatype Settings = Settings(live: bool, enabled: bv32, offset: int64, deviceId: uint32, runNumber: uint32)

  function TriggerMap(pass: Pass, settings: Settings): bv32 {
    pass.signals & settings.enabled
  }

  /** A pass emits an event exactly when an enabled signal is active. */
  predicate Emits(pass: Pass, settings: Settings) {
    TriggerMap(pass, settings) != 0 && settings.live
  }

  function Timestamp(pass: Pass, settings: Settings): uint64 {
    ApplyOffset(pass.estimate, settings.offset)
  }

  function Marks(passes: seq<Pass>, settings: Settings): (marks: seq<bool>)
    ensures |marks| == |passes|
  {
    seq(|passes|, i requires 0 <= i < |passes| => Emits(passes[i], settings))
  }

  function Triggered(passes: seq<Pass>, settings: Settings): seq<Pass> {
    Kept(passes, Marks(passes, settings))
  }

  /** The event of the `count`-th triggered pass. */
  function EventOf(pass: Pass, settings: Settings, count: nat): HSIEvent {
    HSIEvent(settings.deviceId, WordOf(TriggerMap(pass, settings)), Timestamp(pass, settings),
             Tally(count), settings.runNumber)
  }

  function FrameOf(pass: Pass, settings: Settings, count: nat): Frame {
    var ts := Timestamp(pass, settings);
    Frame(FRAME_HEADER, LowWord(ts), HighWord(ts), WordOf(pass.signals), 0,
          WordOf(TriggerMap(pass, settings)), Wrap32(Tally(count)))
  }

  function EventsOf(triggered: seq<Pass>, settings: Settings): (events: seq<HSIEvent>)
    ensures |events| == |triggered|
  {
    seq(|triggered|, i requires 0 <= i < |triggered| => EventOf(triggered[i], settings, i + 1))
  }

  function FramesOf(triggered: seq<Pass>, settings: Settings): (frames: seq<Frame>)
    ensures |frames| == |triggered|
  {
    seq(|triggered|, i requires 0 <= i < |triggered| => FrameOf(triggered[i], settings, i + 1))
  }

  // ---------------------------------------------------------------------------------------------
  // One pass more
  // ---------------------------------------------------------------------------------------------

  lemma TriggeredAppend(passes: seq<Pass>, pass: Pass, settings: Settings)
    ensures Triggered(passes + [pass], settings)
         == if Emits(pass, settings) then Triggered(passes, settings) + [pass] else Triggered(passes, settings)
  {
    assert Marks(passes + [pass], settings) == Marks(passes, settings) + [Emits(pass, settings)];
    KeptAppend(passes, Marks(passes, settings), pass, Emits(pass, settings));
  }

  lemma MapAppend(triggered: seq<Pass>, pass: Pass, settings: Settings)
    ensures EventsOf(triggered + [pass], settings)
         == EventsOf(triggered, settings) + [EventOf(pass, settings, |triggered| + 1)]
    ensures FramesOf(triggered + [pass], settings)
         == FramesOf(triggered, settings) + [FrameOf(pass, settings, |triggered| + 1)]
  {
  }

  /** One more triggered pass: what it adds to the two streams, and what it leaves as it was. */
  lemma OneMoreTriggered(passes: seq<Pass>, pass: Pass, settings: Settings)
    requires Emits(pass, settings)
    ensures var before, after := Triggered(passes, settings), Triggered(passes + [pass], settings);
            && after == before + [pass]
            && EventsOf(after, settings) == EventsOf(before, settings) + [EventOf(pass, settings, |before| + 1)]
            && FramesOf(after, settings) == FramesOf(before, settings) + [FrameOf(pass, settings, |before| + 1)]
            && after[..|before|] == before
  {
    hide Triggered, EventsOf, FramesOf, Emits;
    TriggeredAppend(passes, pass, settings);
    MapAppend(Triggered(passes, settings), pass, settings);
  }

  lemma NothingTriggered(none: seq<Pass>, settings: Settings)
    requires |none| == 0
    ensures |Triggered(none, settings)| == 0
  {
  }

  // ---------------------------------------------------------------------------------------------
  // Passes against messages
  // ---------------------------------------------------------------------------------------------

  /** The `count`-th event of a run, told from its pass signal by signal. */
  ghost predicate Reports(event: HSIEvent, pass: Pass, settings: Settings, count: nat) {
    && event.header == settings.deviceId && event.runNumber == settings.runNumber
    && event.sequenceCounter == count % 0x1_0000_0000_0000_0000
    && (event.timestamp - pass.estimate - settings.offset) % 0x1_0000_0000_0000_0000 == 0
    && (forall i :: 0 <= i < 32 ==>
          (IsSet(event.signalMap as bv32, i) <==> IsSet(pass.signals, i) && IsSet(settings.enabled, i)))
  }

  /** The frame sent after it, word by word. */
  ghost predicate Accompanies(frame: Frame, event: HSIEvent, pass: Pass, count: nat) {
    && frame.timestampLow + 0x1_0000_0000 * frame.timestampHigh == event.timestamp
    && frame.Words() == [0x41, frame.timestampLow, frame.timestampHigh, pass.signals as int, 0,
                         event.signalMap, count % 0x1_0000_0000]
  }

  /** The trigger map of a pass holds exactly the signals that are active and enabled. */
  lemma TriggerBits(pass: Pass, settings: Settings, i: nat)
    requires i < 32
    ensures IsSet(TriggerMap(pass, settings), i) <==> IsSet(pass.signals, i) && IsSet(settings.enabled, i)
  {
    MaskedAt(pass.signals, settings.enabled, i);
  }

  lemma TriggersExactly(pass: Pass, settings: Settings)
    ensures TriggerMap(pass, settings) != 0 <==> Meet(pass.signals, settings.enabled)
  {
    hide Meet;
    MeetExactly(pass.signals, settings.enabled);
  }

  /** A pass emits an event exactly when the generator is live and some active signal is enabled. */
  lemma EmitsExactly(pass: Pass, settings: Settings)
    ensures Emits(pass, settings) <==> settings.live && Meet(pass.signals, settings.enabled)
  {
    hide Meet, TriggerMap;
    TriggersExactly(pass, settings);
  }

  lemma WordsAreMaps(bits: bv32)
    ensures WordOf(bits) as bv32 == bits && WordOf(bits) == bits as int
  {
  }

  lemma CountsInWords(count: nat)
    ensures Tally(count) == count % 0x1_0000_0000_0000_0000 && Wrap32(Tally(count)) == count % 0x1_0000_0000
  {
    TallyIsModulo(count);
  }

  lemma OffsetIsCongruent(estimate: uint64, offset: int64)
    ensures (ApplyOffset(estimate, offset) - estimate - offset) % 0x1_0000_0000_0000_0000 == 0
  {
  }

  lemma ReportsPass(pass: Pass, settings: Settings, count: nat)
    ensures Reports(EventOf(pass, settings, count), pass, settings, count)
    ensures Accompanies(FrameOf(pass, settings, count), EventOf(pass, settings, count), pass, count)
  {
    hide IsSet, WordOf, TriggerMap, ApplyOffset, Tally, Wrap32;
    CountsInWords(count);
    OffsetIsCongruent(pass.estimate, settings.offset);
    WordsAreMaps(pass.signals);
    WordsAreMaps(TriggerMap(pass, settings));
    forall i: nat | 0 <= i < 32
      ensures IsSet(TriggerMap(pass, settings), i) <==> IsSet(pass.signals, i) && IsSet(settings.enabled, i)
    {
      TriggerBits(pass, settings, i);
    }
  }

  /** The triggered passes are those with an enabled signal active. */
  lemma TriggeredPositions(passes: seq<Pass>, settings: Settings) returns (positions: seq<nat>)
    ensures |positions| == |Triggered(passes, settings)|
    ensures forall i, j :: 0 <= i < j < |positions| ==> positions[i] < positions[j]
    ensures forall k :: 0 <= k < |passes| ==>
              (k in positions <==> settings.live && Meet(passes[k].signals, settings.enabled))
    ensures forall j :: 0 <= j < |positions| ==>
              positions[j] < |passes| && Triggered(passes, settings)[j] == passes[positions[j]]
  {
    hide Emits, Meet, Kept;
    positions := MarkedPositions(Marks(passes, settings));
    KeptReadsMarkedPositions(passes, Marks(passes, settings));
    forall k | 0 <= k < |passes|
      ensures Emits(passes[k], settings) <==> settings.live && Meet(passes[k].signals, settings.enabled)
    {
      EmitsExactly(passes[k], settings);
    }
  }

  /**
   * From passes to messages: a live generator sends an event for exactly those passes that have an
   * enabled signal active, in order, and the j-th event and frame report the j-th of them.
   */
  lemma MessagesOfPasses(passes: seq<Pass>, settings: Settings) returns (positions: seq<nat>)
    ensures var events := EventsOf(Triggered(passes, settings), settings);
            var frames := FramesOf(Triggered(passes, settings), settings);
            && |positions| == |events| == |frames|
            && (forall i, j :: 0 <= i < j < |positions| ==> positions[i] < positions[j])
            && (forall k :: 0 <= k < |passes| ==>
                  (k in positions <==> settings.live && Meet(passes[k].signals, settings.enabled)))
            && (forall j :: 0 <= j < |positions| ==>
                  && positions[j] < |passes|
                  && Triggered(passes, settings)[j] == passes[positions[j]]
                  && Reports(events[j], passes[positions[j]], settings, j + 1)
                  && Accompanies(frames[j], events[j], passes[positions[j]], j + 1))
  {
    hide Triggered, Meet, Reports, Accompanies, EventOf, FrameOf;
    var triggered := Triggered(passes, settings);
    positions := TriggeredPositions(passes, settings);
    forall j | 0 <= j < |positions|
      ensures Reports(EventOf(triggered[j], settings, j + 1), triggered[j], settings, j + 1)
      ensures Accompanies(FrameOf(triggered[j], settings, j + 1), EventOf(triggered[j], settings, j + 1),
                          triggered[j], j + 1)
    {
      ReportsPass(triggered[j], settings, j + 1);
    }
  }

  // ---------------------------------------------------------------------------------------------
  // What the consumers may rely on
  // ---------------------------------------------------------------------------------------------

  /**
   * The delivered events are those of the passes whose map meets the enabled mask, in order, one
   * each, numbered 1, 2, 3, ... without a gap.
   */
  lemma DeliveredAreTheTriggered(passes: seq<Pass>, settings: Settings)
    ensures var positions := MarkedPositions(Marks(passes, settings));
            var events := EventsOf(Triggered(passes, settings), settings);
            && |events| == |positions|
            && (forall j :: 0 <= j < |events| ==>
                  && positions[j] < |passes|
                  && events[j] == EventOf(passes[positions[j]], settings, j + 1)
                  && events[j].sequenceCounter == Tally(j + 1))
            && (forall i :: 0 <= i < |passes| ==> (i in positions <==> Emits(passes[i], settings)))
            && (forall i, j :: 0 <= i < j < |positions| ==> positions[i] < positions[j])
  {
    hide Emits, WordOf, Timestamp, TriggerMap;
    KeptReadsMarkedPositions(passes, Marks(passes, settings));
  }

  /** Below 2^64 events the numbers are the true ones. */
  lemma NumbersAreExact(triggered: seq<Pass>, settings: Settings, j: nat)
    requires j < |triggered| < TWO_64
    ensures EventsOf(triggered, settings)[j].sequenceCounter == j + 1
    ensures FramesOf(triggered, settings)[j].sequence == Wrap32(j + 1)
  {
    TallyIsModulo(j + 1);
  }

  /**
   * A frame agrees with its event, and the readout's way of joining timestamp words gives back the
   * shifted estimate.
   */
  lemma FrameDescribesEvent(pass: Pass, settings: Settings, count: nat)
    ensures Describes(FrameOf(pass, settings, count), EventOf(pass, settings, count))
    ensures FrameOf(pass, settings, count).Timestamp() == ApplyOffset(pass.estimate, settings.offset)
  {
  }

  /** The frames pushed follow a subsequence of the events sent and agree with them pair by pair. */
  lemma FramesFollowEvents(triggered: seq<Pass>, taken: seq<bool>, settings: Settings)
    requires |taken| == |triggered|
    ensures var frames, events := Kept(FramesOf(triggered, settings), taken), EventsOf(triggered, settings);
            var positions := MarkedPositions(taken);
            && |frames| == |positions|
            && (forall j :: 0 <= j < |frames| ==> positions[j] < |events| && Describes(frames[j], events[positions[j]]))
            && (forall i, j :: 0 <= i < j < |positions| ==> positions[i] < positions[j])
  {
    var frames, events := FramesOf(triggered, settings), EventsOf(triggered, settings);
    KeptReadsMarkedPositions(frames, taken);
    forall i | 0 <= i < |frames|
      ensures Describes(frames[i], events[i])
    {
      FrameDescribesEvent(triggered[i], settings, i + 1);
    }
  }

  /** The maps can be read back from the words of a frame. */
  lemma MapsInFrame(pass: Pass, settings: Settings, count: nat)
    ensures BitsOf(FrameOf(pass, settings, count).inputLow) == pass.signals
    ensures BitsOf(FrameOf(pass, settings, count).trigger) == TriggerMap(pass, settings)
    ensures Emits(pass, settings) ==> FrameOf(pass, settings, count).trigger != 0
  {
  }

  /** The trigger word of a frame is a non-empty set of enabled signals, all of them active in the raw map beside it. */
  lemma TriggerIsMaskedMap(pass: Pass, settings: Settings, count: nat)
    requires Emits(pass, settings)
    ensures var frame := FrameOf(pass, settings, count);
            && frame.trigger != 0
            && Subset(BitsOf(frame.trigger), BitsOf(frame.inputLow))
            && Subset(BitsOf(frame.trigger), settings.enabled)
  {
    hide WordOf, BitsOf, Subset, FrameOf;
    MapsInFrame(pass, settings, count);
    Masking(pass.signals, settings.enabled);
  }

  /**
   * With estimates that never step back, the frames are sorted for the consumer, whichever of them
   * are dropped, exactly when the offset carries all of them over the end of the 64-bit range or none.
   */
  lemma FramesSortedDespiteDrops(triggered: seq<Pass>, settings: Settings)
    requires forall i, j :: 0 <= i < j < |triggered| ==> triggered[i].estimate <= triggered[j].estimate
    ensures (forall i, j :: 0 <= i < j < |triggered| ==>
               Carry(triggered[i].estimate, settings.offset) == Carry(triggered[j].estimate, settings.offset))
       <==> (forall taken: seq<bool> | |taken| == |triggered| ::
               FramesSorted(Kept(FramesOf(triggered, settings), taken)))
  {
    hide WordOf, ApplyOffset, Carry, Kept, LowWord, HighWord, JoinWords, Tally, Wrap32;
    var frames := FramesOf(triggered, settings);
    SortedDespiteDrops(frames);
    forall i, j | 0 <= i < j < |triggered|
      ensures frames[j].Before(frames[i])
         <==> Carry(triggered[i].estimate, settings.offset) != Carry(triggered[j].estimate, settings.offset)
    {
      FrameDescribesEvent(triggered[i], settings, i + 1);
      FrameDescribesEvent(triggered[j], settings, j + 1);
      OffsetKeepsOrder(triggered[i].estimate, triggered[j].estimate, settings.offset);
    }
  }

  /**
   * The last two 64-bit estimates and an offset of one tick: the second frame wraps to 0 and sorts
   * before the first.
   */
  lemma OffsetUnsortsFrames()
    ensures var settings := Settings(true, ALL_SIGNALS, 1, 0, 0);
            var passes := [Pass(ALL_SIGNALS, TWO_64 - 2), Pass(ALL_SIGNALS, TWO_64 - 1)];
            Emits(passes[0], settings) && Emits(passes[1], settings) && !FramesSorted(FramesOf(passes, settings))
  {
    var settings := Settings(true, ALL_SIGNALS, 1, 0, 0);
    var passes := [Pass(ALL_SIGNALS, TWO_64 - 2), Pass(ALL_SIGNALS, TWO_64 - 1)];
    FrameDescribesEvent(passes[0], settings, 1);
    FrameDescribesEvent(passes[1], settings, 2);
    assert FramesOf(passes, settings)[1].Before(FramesOf(passes, settings)[0]);
  }
}
