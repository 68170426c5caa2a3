/**
 * What the filter-map of a readout run promises its consumers: which events it delivers, that the
 * cutting of the word stream into buffers does not matter, that frames match events and stay
 * sorted, and that a frame still holds the words it was made of.
 */
module ReadoutProperties {
  import opened Words
  import opened Subsequences
  import opened HSITypes
  import opened ReadoutEvents

  // ---------------------------------------------------------------------------------------------
  // Which events are delivered
  // ---------------------------------------------------------------------------------------------

  /** Each accepted event once, in the order read, and none invented. */
  lemma DeliveredAreTheAccepted(all: seq<RawEvent>, run: uint32)
    ensures var positions, events := MarkedPositions(Marks(all)), EventsOf(Accepted(all), run);
            && |events| == |positions|
            && (forall j :: 0 <= j < |events| ==> positions[j] < |all| && events[j] == EventOf(all[positions[j]], run))
            && (forall i :: 0 <= i < |all| ==> (i in positions <==> all[i].Verdict().Accept?))
            && (forall i, j :: 0 <= i < j < |positions| ==> positions[i] < positions[j])
  {
    KeptReadsMarkedPositions(all, Marks(all));
  }

  // ---------------------------------------------------------------------------------------------
  // Independence of the buffering
  // ---------------------------------------------------------------------------------------------

  /** The words of the buffers that hold whole events, joined. */
  function WordStream(passes: seq<Pass>): (words: seq<uint32>)
    ensures |words| % WORDS_PER_EVENT == 0
  {
    if |passes| == 0 then [] else WordStream(passes[..|passes| - 1]) + PassWords(passes[|passes| - 1])
  }

  function PassWords(pass: Pass): (words: seq<uint32>)
    ensures |words| % WORDS_PER_EVENT == 0
  {
    if pass.Buffer? && WholeEvents(pass.words) then pass.words else []
  }

  /** Every buffer whose length is a multiple of five contributes all its words, and nothing else does. */
  lemma {:induction false} WordStreamConcat(p: seq<Pass>, q: seq<Pass>)
    ensures WordStream(p + q) == WordStream(p) + WordStream(q)
  {
    hide PassWords;
    if |q| == 0 {
      assert p + q == p;
    } else {
      var n := |q| - 1;
      WordStreamConcat(p, q[..n]);
      assert (p + q)[..|p + q| - 1] == p + q[..n] && (p + q)[|p + q| - 1] == q[n];
    }
  }

  lemma OnePass(pass: Pass)
    ensures WordStream([pass]) == if pass.Buffer? && exists n: nat :: |pass.words| == 5 * n then pass.words else []
    ensures Occupancies([pass]) == if pass.Buffer? then [pass.occupancy] else []
  {
    if pass.Buffer? && WholeEvents(pass.words) {
      assert |pass.words| == 5 * (|pass.words| / 5);
    }
  }

  /** All events of a word stream: one per five words. */
  function StreamEvents(words: seq<uint32>, emulation: bool): (events: seq<RawEvent>)
    ensures |events| == |words| / WORDS_PER_EVENT
  {
    seq(|words| / WORDS_PER_EVENT,
        i requires 0 <= i < |words| / WORDS_PER_EVENT => Overwrite(EventAt(words, i), emulation))
  }

  ghost predicate ConstantMode(passes: seq<Pass>, emulation: bool) {
    forall i :: 0 <= i < |passes| && passes[i].Buffer? ==> passes[i].emulation == emulation
  }

  /** The number of events of a buffer of whole events fits the 32 bits the worker counts it with. */
  predicate Countable(pass: Pass) {
    pass.Buffer? && WholeEvents(pass.words) ==> |pass.words| / WORDS_PER_EVENT < TWO_32
  }

  ghost predicate AllCountable(passes: seq<Pass>) {
    forall i :: 0 <= i < |passes| ==> Countable(passes[i])
  }

  lemma StreamEventsConcat(a: seq<uint32>, b: seq<uint32>, emulation: bool)
    requires WholeEvents(a) && WholeEvents(b)
    ensures StreamEvents(a + b, emulation) == StreamEvents(a, emulation) + StreamEvents(b, emulation)
  {
  }

  lemma PassIsItsStream(pass: Pass, emulation: bool)
    requires pass.Buffer? ==> pass.emulation == emulation
    ensures if pass.Buffer? && WholeEvents(pass.words) then
              && |PassEvents(pass)| <= |pass.words| / WORDS_PER_EVENT
              && (Countable(pass) ==> PassEvents(pass) == StreamEvents(pass.words, emulation))
              && (!Countable(pass) ==> |PassEvents(pass)| < |pass.words| / WORDS_PER_EVENT)
            else PassEvents(pass) == []
  {
  }

  /**
   * In a constant emulation mode the events read are those of the joined word stream, however it
   * was cut into buffers and whatever empty, malformed or failed reads came between, exactly when
   * no buffer holds 2^32 events or more; a larger one would lose events.
   */
  lemma {:induction false} StreamDeterminesEvents(passes: seq<Pass>, emulation: bool)
    requires ConstantMode(passes, emulation)
    ensures |AllEvents(passes)| <= |WordStream(passes)| / WORDS_PER_EVENT
    ensures AllEvents(passes) == StreamEvents(WordStream(passes), emulation) <==> AllCountable(passes)
  {
    hide StreamEvents, BufferEvents, PassEvents, EventAt;
    if |passes| > 0 {
      var init, last := passes[..|passes| - 1], passes[|passes| - 1];
      StreamDeterminesEvents(init, emulation);
      assert AllCountable(passes) <==> AllCountable(init) && Countable(last);
      if last.Buffer? && WholeEvents(last.words) {
        StreamEventsConcat(WordStream(init), last.words, emulation);
      } else {
        assert WordStream(passes) == WordStream(init);
      }
      PassIsItsStream(last, emulation);
      ShorterPrefix(AllEvents(init), PassEvents(last), WordStream(init), passes, emulation);
    }
  }

  /** A prefix that lost events cannot be made up for by what follows. */
  lemma ShorterPrefix(read: seq<RawEvent>, more: seq<RawEvent>, words: seq<uint32>, passes: seq<Pass>, emulation: bool)
    requires |passes| > 0 && AllEvents(passes) == read + more
    requires |read| <= |words| / WORDS_PER_EVENT
    requires |more| <= |WordStream(passes)| / WORDS_PER_EVENT - |words| / WORDS_PER_EVENT
    requires |StreamEvents(words, emulation)| <= |WordStream(passes)| / WORDS_PER_EVENT
    requires StreamEvents(WordStream(passes), emulation)[..|StreamEvents(words, emulation)|]
          == StreamEvents(words, emulation)
    ensures AllEvents(passes) == StreamEvents(WordStream(passes), emulation) ==> read == StreamEvents(words, emulation)
  {
  }

  /**
   * A buffer of exactly 2^32 events is counted as empty, and nothing of it is read. The firmware's own
   * word count has 16 bits, so such a buffer is a matter of the code alone.
   */
  lemma HugeBufferIsLost(words: seq<uint32>, emulation: bool)
    requires |words| == WORDS_PER_EVENT * TWO_32
    ensures WholeEvents(words) && BufferEvents(words, emulation) == []
  {
  }

  /** Two ways of cutting one word stream deliver the same events and the same frames. */
  lemma ChunkingIndependence(p: seq<Pass>, q: seq<Pass>, emulation: bool, run: uint32)
    requires ConstantMode(p, emulation) && ConstantMode(q, emulation)
    requires AllCountable(p) && AllCountable(q)
    requires WordStream(p) == WordStream(q)
    ensures AllEvents(p) == AllEvents(q)
    ensures EventsOf(Accepted(AllEvents(p)), run) == EventsOf(Accepted(AllEvents(q)), run)
    ensures FramesOf(Accepted(AllEvents(p))) == FramesOf(Accepted(AllEvents(q)))
  {
    StreamDeterminesEvents(p, emulation);
    StreamDeterminesEvents(q, emulation);
  }

  // ---------------------------------------------------------------------------------------------
  // Frames against events
  // ---------------------------------------------------------------------------------------------

  /** The frames pushed follow a subsequence of the events sent and agree with them pair by pair. */
  lemma FramesFollowEvents(accepted: seq<RawEvent>, taken: seq<bool>, run: uint32)
    requires |taken| == |accepted|
    ensures var frames, events := Kept(FramesOf(accepted), taken), EventsOf(accepted, run);
            var positions := MarkedPositions(taken);
            && |frames| == |positions|
            && (forall j :: 0 <= j < |frames| ==> positions[j] < |events| && Describes(frames[j], events[positions[j]]))
            && (forall i, j :: 0 <= i < j < |positions| ==> positions[i] < positions[j])
  {
    KeptReadsMarkedPositions(FramesOf(accepted), taken);
  }

  ghost predicate InTimeOrder(events: seq<RawEvent>) {
    forall i, j :: 0 <= i < j < |events| ==> events[i].Timestamp() <= events[j].Timestamp()
  }

  /**
   * The frames are sorted for the consumer, whichever of them are dropped, exactly when the accepted
   * timestamps are.
   */
  lemma FramesSortedDespiteDrops(accepted: seq<RawEvent>)
    ensures InTimeOrder(accepted)
       <==> (forall taken: seq<bool> | |taken| == |accepted| :: FramesSorted(Kept(FramesOf(accepted), taken)))
  {
    var frames := FramesOf(accepted);
    SortedDespiteDrops(frames);
    assert forall i :: 0 <= i < |frames| ==> frames[i].Timestamp() == accepted[i].Timestamp();
    assert FramesSorted(frames) <==> InTimeOrder(accepted);
  }

  // ---------------------------------------------------------------------------------------------
  // Words against frames
  // ---------------------------------------------------------------------------------------------

  /** Reading the five words back from a frame. */
  function RecoverWords(frame: Frame): RawEvent
    requires frame.sequence < TWO_16
  {
    RawEvent(HSI_HEADER * TWO_16 + frame.sequence, frame.timestampLow, frame.timestampHigh,
             frame.inputLow, frame.trigger)
  }

  /** Packing loses nothing exactly of the events that pass the header check. */
  lemma PackingRoundTrip(raw: RawEvent)
    ensures RecoverWords(FrameOf(raw)) == raw <==> !raw.Verdict().BadHeader?
  {
  }

  /** In emulation mode all is recoverable but the trigger word, which always reads bit 7. */
  lemma PackingInEmulation(raw: RawEvent)
    requires !raw.Verdict().BadHeader?
    ensures RecoverWords(FrameOf(Overwrite(raw, true))) == raw.(trigger := EMULATED_TRIGGER)
  {
  }

  /** Two accepted events are packed into the same frame exactly when they are the same up to an overwritten trigger. */
  lemma PackingIsInjective(a: RawEvent, b: RawEvent, emulation: bool)
    requires a.Verdict().Accept? && b.Verdict().Accept?
    ensures FrameOf(Overwrite(a, emulation)) == FrameOf(Overwrite(b, emulation))
       <==> a == (if emulation then b.(trigger := a.trigger) else b)
  {
  }

  // ---------------------------------------------------------------------------------------------
  // Words against messages
  // ---------------------------------------------------------------------------------------------

  /**
   * The i-th five words of a stream are worth sending: device 0xaa00 in the header and a timestamp that
   * is not zero.
   */
  predicate Deliverable(words: seq<uint32>, i: nat)
    requires 5 * i + 5 <= |words|
  {
    words[5 * i] / 0x1_0000 == 0xaa00 && !(words[5 * i + 1] == 0 && words[5 * i + 2] == 0)
  }

  /** The timestamp in the i-th five words. */
  function TimestampAt(words: seq<uint32>, i: nat): int
    requires 5 * i + 5 <= |words|
  {
    words[5 * i + 1] as int + words[5 * i + 2] as int * 0x1_0000_0000
  }

  /** An event, told from the i-th five words. */
  ghost predicate Reports(event: HSIEvent, words: seq<uint32>, i: nat, emulation: bool, run: uint32)
    requires 5 * i + 5 <= |words|
  {
    && event.header == 0xaa00 && event.runNumber == run
    && event.sequenceCounter == words[5 * i] % 0x1_0000
    && event.timestamp == TimestampAt(words, i)
    && event.signalMap == if emulation then 0x80 else words[5 * i + 4]
  }

  /** The frame sent after it, word by word. */
  ghost predicate Accompanies(frame: Frame, event: HSIEvent, words: seq<uint32>, i: nat)
    requires 5 * i + 5 <= |words|
  {
    frame.Words() == [0x41, words[5 * i + 1], words[5 * i + 2], words[5 * i + 3], 0,
                      event.signalMap, words[5 * i] % 0x1_0000]
  }

  lemma HeaderSplits(raw: RawEvent, device: int, counter: int)
    requires raw.header == device * 0x1_0000 + counter && 0 <= counter < 0x1_0000
    ensures raw.DeviceId() == device && raw.Sequence() == counter
    ensures raw.Verdict().BadHeader? <==> device != 0xaa00
  {
  }

  /** The two halves of a header word. */
  lemma HeaderHalves(device: bv16, counter: bv16, raw: RawEvent)
    requires raw.header == (((device as bv32) << 16) | (counter as bv32)) as int
    ensures raw.DeviceId() == device as int && raw.Sequence() == counter as int
    ensures raw.Verdict().BadHeader? <==> device != 0xaa00
  {
    HalvesOfWord(device, counter);
    HeaderSplits(raw, device as int, counter as int);
  }

  /** A single buffer: five words are one event, none is skipped, and the words keep their places. */
  lemma EventsOfBuffer(words: seq<uint32>, emulation: bool, i: nat)
    requires |words| % 5 == 0 && |words| / 5 < 0x1_0000_0000 && 5 * i + 5 <= |words|
    ensures |BufferEvents(words, emulation)| == |words| / 5
    ensures var event := BufferEvents(words, emulation)[i];
            && event.header == words[5 * i]
            && event.tsLow == words[5 * i + 1] && event.tsHigh == words[5 * i + 2]
            && event.data == words[5 * i + 3]
            && event.trigger == if emulation then 0x80 else words[5 * i + 4]
  {
  }

  lemma StreamEventReports(words: seq<uint32>, i: nat, emulation: bool, run: uint32)
    requires 5 * i + 5 <= |words|
    ensures var raw := StreamEvents(words, emulation)[i];
            && (raw.Verdict().Accept? <==> Deliverable(words, i))
            && (raw.Verdict().Accept? ==>
                  && Reports(EventOf(raw, run), words, i, emulation, run)
                  && Accompanies(FrameOf(raw), EventOf(raw, run), words, i))
            && (raw.Verdict().BadHeader? <==> words[5 * i] / 0x1_0000 != 0xaa00)
  {
  }

  /**
   * From words to messages: an event is sent for exactly those five words of the joined stream that are
   * worth it, in order, and the j-th event and frame report the j-th of them.
   */
  lemma MessagesOfStream(passes: seq<Pass>, emulation: bool, run: uint32) returns (positions: seq<nat>)
    requires ConstantMode(passes, emulation) && AllCountable(passes)
    ensures var words, accepted := WordStream(passes), Accepted(AllEvents(passes));
            && |AllEvents(passes)| == |words| / 5
            && |positions| == |accepted|
            && (forall i, j :: 0 <= i < j < |positions| ==> positions[i] < positions[j])
            && (forall i :: 0 <= i < |words| / 5 ==> (i in positions <==> Deliverable(words, i)))
            && (forall j :: 0 <= j < |positions| ==>
                  && 5 * positions[j] + 5 <= |words|
                  && Reports(EventsOf(accepted, run)[j], words, positions[j], emulation, run)
                  && Accompanies(FramesOf(accepted)[j], EventsOf(accepted, run)[j], words, positions[j]))
  {
    hide StreamEvents, Reports, Accompanies, Deliverable, EventOf, FrameOf;
    StreamDeterminesEvents(passes, emulation);
    var words, all := WordStream(passes), AllEvents(passes);
    assert all == StreamEvents(words, emulation);
    positions := MarkedPositions(Marks(all));
    KeptReadsMarkedPositions(all, Marks(all));
    forall i | 0 <= i < |words| / 5
      ensures var raw := all[i];
              && (raw.Verdict().Accept? <==> Deliverable(words, i))
              && (raw.Verdict().Accept? ==>
                    && Reports(EventOf(raw, run), words, i, emulation, run)
                    && Accompanies(FrameOf(raw), EventOf(raw, run), words, i))
    {
      StreamEventReports(words, i, emulation, run);
    }
  }

  lemma TimestampsOfStream(passes: seq<Pass>, emulation: bool, run: uint32, positions: seq<nat>)
    requires var accepted := Accepted(AllEvents(passes));
             && |positions| == |accepted|
             && (forall j :: 0 <= j < |positions| ==>
                   && 5 * positions[j] + 5 <= |WordStream(passes)|
                   && Reports(EventsOf(accepted, run)[j], WordStream(passes), positions[j], emulation, run))
    ensures var accepted := Accepted(AllEvents(passes));
            forall j :: 0 <= j < |positions| ==>
              && EventsOf(accepted, run)[j].timestamp == accepted[j].Timestamp()
              && accepted[j].Timestamp() == TimestampAt(WordStream(passes), positions[j])
  {
    hide Accepted, AllEvents, WordStream, TimestampAt;
    var accepted := Accepted(AllEvents(passes));
    forall j | 0 <= j < |positions|
      ensures EventsOf(accepted, run)[j].timestamp == accepted[j].Timestamp()
           == TimestampAt(WordStream(passes), positions[j])
    {
      assert EventsOf(accepted, run)[j] == EventOf(accepted[j], run);
    }
  }
}
