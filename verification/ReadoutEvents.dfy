/**
 * What a readout run should deliver, as a filter-map over the words read from the firmware
 * buffer. Nothing here knows about queues, retries or counters.
 */
module ReadoutEvents {
  import opened Words
  import opened Subsequences
  import opened HSITypes

  const WORDS_PER_EVENT: nat := 5
  const HSI_HEADER: uint32 := 0xaa00

  /** The signal map that replaces the firmware's while the hardware is in emulation mode: bit 7 only. */
  const EMULATED_TRIGGER: uint32 := 0x80

  lemma EmulatedTriggerIsBitSeven()
    ensures EMULATED_TRIGGER == ((1 as bv32) << 7) as int
  {
  }

  datatype Verdict = Accept | BadHeader | ZeroTimestamp

  /** Five consecutive words of the buffer. */
  datatype RawEvent = RawEvent(header: uint32, tsLow: uint32, tsHigh: uint32, data: uint32, trigger: uint32) {
    function Timestamp(): uint64 {
      JoinWords(tsLow, tsHigh)
    }

    /** Bits 31-16 of the header. */
    function DeviceId(): uint32 {
      header / TWO_16
    }

    /** Bits 15-0 of the header. */
    function Sequence(): uint32 {
      header % TWO_16
    }

    function Verdict(): Verdict {
      if DeviceId() != HSI_HEADER then BadHeader
      else if Timestamp() == 0 then ZeroTimestamp
      else Accept
    }
  }

  /** What one pass of the worker meets after it has found the running flag set. */
  datatype Pass =
    | NetworkTimeout   // the buffer read times out; the pass is skipped
    | HardwareFault    // any other exception of a hardware call; it leaves the worker
    | Buffer(emulation: bool, occupancy: uint16, words: seq<uint32>)

  function EventAt(words: seq<uint32>, i: nat): RawEvent
    requires WORDS_PER_EVENT * i + WORDS_PER_EVENT <= |words|
  {
    var start := WORDS_PER_EVENT * i;
    RawEvent(words[start], words[start + 1], words[start + 2], words[start + 3], words[start + 4])
  }

  predicate WholeEvents(words: seq<uint32>) {
    |words| % WORDS_PER_EVENT == 0
  }

  /** The number of events the worker sees in a buffer of whole events: a 32-bit quotient. */
  function EventCount(words: seq<uint32>): (n: nat)
    ensures WORDS_PER_EVENT * n <= |words|
  {
    Wrap32(|words| / WORDS_PER_EVENT)
  }

  function Overwrite(event: RawEvent, emulation: bool): RawEvent {
    if emulation then event.(trigger := EMULATED_TRIGGER) else event
  }

  /** The events of one buffer; none if its length is not a multiple of five. */
  function BufferEvents(words: seq<uint32>, emulation: bool): (events: seq<RawEvent>)
  {
    if !WholeEvents(words) then []
    else seq(EventCount(words), i requires 0 <= i < EventCount(words) => Overwrite(EventAt(words, i), emulation))
  }

  function PassEvents(pass: Pass): seq<RawEvent> {
    if pass.Buffer? then BufferEvents(pass.words, pass.emulation) else []
  }

  /** Every event read in the passes, accepted or not. */
  function AllEvents(passes: seq<Pass>): seq<RawEvent> {
    if |passes| == 0 then [] else AllEvents(passes[..|passes| - 1]) + PassEvents(passes[|passes| - 1])
  }

  function Occupancies(passes: seq<Pass>): seq<uint16> {
    if |passes| == 0 then [] else Occupancies(passes[..|passes| - 1]) + PassOccupancy(passes[|passes| - 1])
  }

  /** Every buffer read without an exception adds one count to the history. */
  function PassOccupancy(pass: Pass): seq<uint16> {
    if pass.Buffer? then [pass.occupancy] else []
  }

  function Marks(events: seq<RawEvent>): (marks: seq<bool>)
    ensures |marks| == |events|
  {
    seq(|events|, i requires 0 <= i < |events| => events[i].Verdict().Accept?)
  }

  /** The events that pass the header and timestamp checks, in order. */
  function Accepted(events: seq<RawEvent>): seq<RawEvent> {
    Kept(events, Marks(events))
  }

  function Count(events: seq<RawEvent>, verdict: Verdict): nat {
    if |events| == 0 then 0
    else Count(events[..|events| - 1], verdict) + if events[|events| - 1].Verdict() == verdict then 1 else 0
  }

  function EventOf(raw: RawEvent, run: uint32): HSIEvent {
    HSIEvent(raw.DeviceId(), raw.trigger, raw.Timestamp(), raw.Sequence(), run)
  }

  function FrameOf(raw: RawEvent): Frame {
    Frame(FRAME_HEADER, raw.tsLow, raw.tsHigh, raw.data, 0, raw.trigger, raw.Sequence())
  }

  function EventsOf(raws: seq<RawEvent>, run: uint32): (events: seq<HSIEvent>)
    ensures |events| == |raws|
  {
    seq(|raws|, i requires 0 <= i < |raws| => EventOf(raws[i], run))
  }

  function FramesOf(raws: seq<RawEvent>): (frames: seq<Frame>)
    ensures |frames| == |raws|
  {
    seq(|raws|, i requires 0 <= i < |raws| => FrameOf(raws[i]))
  }

  // ---------------------------------------------------------------------------------------------
  // Composition
  // ---------------------------------------------------------------------------------------------

  lemma AcceptedConcat(a: seq<RawEvent>, b: seq<RawEvent>)
    ensures Accepted(a + b) == Accepted(a) + Accepted(b)
  {
    assert Marks(a + b) == Marks(a) + Marks(b);
    KeptConcat(a, Marks(a), b, Marks(b));
  }

  lemma AcceptedOne(event: RawEvent)
    ensures Accepted([event]) == if event.Verdict().Accept? then [event] else []
  {
  }

  lemma AcceptedAppend(a: seq<RawEvent>, event: RawEvent)
    ensures Accepted(a + [event]) == if event.Verdict().Accept? then Accepted(a) + [event] else Accepted(a)
  {
    AcceptedConcat(a, [event]);
    AcceptedOne(event);
  }

  lemma MapAppend(a: seq<RawEvent>, event: RawEvent, run: uint32)
    ensures EventsOf(a + [event], run) == EventsOf(a, run) + [EventOf(event, run)]
    ensures FramesOf(a + [event]) == FramesOf(a) + [FrameOf(event)]
  {
  }

  lemma CountAppend(a: seq<RawEvent>, event: RawEvent, verdict: Verdict)
    ensures Count(a + [event], verdict) == Count(a, verdict) + if event.Verdict() == verdict then 1 else 0
  {
  }

  /** One more accepted event: what it adds to the two streams, and what it leaves as it was. */
  lemma AcceptedOneMore(seen: seq<RawEvent>, raw: RawEvent, run: uint32)
    requires raw.Verdict().Accept?
    ensures Accepted(seen + [raw]) == Accepted(seen) + [raw]
    ensures EventsOf(Accepted(seen + [raw]), run) == EventsOf(Accepted(seen), run) + [EventOf(raw, run)]
    ensures FramesOf(Accepted(seen + [raw])) == FramesOf(Accepted(seen)) + [FrameOf(raw)]
    ensures Accepted(seen + [raw])[..|Accepted(seen)|] == Accepted(seen)
    ensures Count(seen + [raw], BadHeader) == Count(seen, BadHeader)
    ensures Count(seen + [raw], ZeroTimestamp) == Count(seen, ZeroTimestamp)
  {
    hide Accepted, Kept, Marks;
    AcceptedAppend(seen, raw);
    MapAppend(Accepted(seen), raw, run);
    CountAppend(seen, raw, BadHeader);
    CountAppend(seen, raw, ZeroTimestamp);
  }

  /** One more rejected event changes one count and neither stream. */
  lemma RejectedOneMore(seen: seq<RawEvent>, raw: RawEvent)
    requires !raw.Verdict().Accept?
    ensures Accepted(seen + [raw]) == Accepted(seen)
    ensures Count(seen + [raw], raw.Verdict()) == Count(seen, raw.Verdict()) + 1
    ensures forall verdict :: verdict != raw.Verdict() ==> Count(seen + [raw], verdict) == Count(seen, verdict)
  {
    hide Accepted, Kept, Marks;
    AcceptedAppend(seen, raw);
    forall verdict
      ensures Count(seen + [raw], verdict) == Count(seen, verdict) + if verdict == raw.Verdict() then 1 else 0
    {
      CountAppend(seen, raw, verdict);
    }
  }

  /** Whatever passes come together, what they read comes together. */
  lemma {:induction false} AllEventsConcat(p: seq<Pass>, q: seq<Pass>)
    ensures AllEvents(p + q) == AllEvents(p) + AllEvents(q)
  {
    hide PassEvents;
    if |q| == 0 {
      assert p + q == p;
    } else {
      var n := |q| - 1;
      AllEventsConcat(p, q[..n]);
      assert (p + q)[..|p + q| - 1] == p + q[..n] && (p + q)[|p + q| - 1] == q[n];
    }
  }

  lemma {:induction false} OccupanciesConcat(p: seq<Pass>, q: seq<Pass>)
    ensures Occupancies(p + q) == Occupancies(p) + Occupancies(q)
  {
    hide PassOccupancy;
    if |q| == 0 {
      assert p + q == p;
    } else {
      var n := |q| - 1;
      OccupanciesConcat(p, q[..n]);
      assert (p + q)[..|p + q| - 1] == p + q[..n] && (p + q)[|p + q| - 1] == q[n];
    }
  }

  lemma NothingAccepted(none: seq<RawEvent>)
    requires |none| == 0
    ensures Accepted(none) == []
    ensures forall verdict :: Count(none, verdict) == 0
  {
  }

  lemma AllEventsEmpty()
    ensures AllEvents([]) == [] && Occupancies([]) == []
  {
  }

  lemma AllEventsAppend(passes: seq<Pass>, pass: Pass)
    ensures AllEvents(passes + [pass]) == AllEvents(passes) + PassEvents(pass)
    ensures Occupancies(passes + [pass]) == Occupancies(passes) + if pass.Buffer? then [pass.occupancy] else []
  {
  }

  /** What is accepted of the first passes is no more than what is accepted of all. */
  lemma {:induction false} AcceptedOfPrefix(passes: seq<Pass>, n: nat)
    requires n <= |passes|
    ensures |Accepted(AllEvents(passes[..n]))| <= |Accepted(AllEvents(passes))|
  {
    hide Accepted, PassEvents;
    if n < |passes| {
      var init := passes[..|passes| - 1];
      AcceptedOfPrefix(init, n);
      AcceptedConcat(AllEvents(init), PassEvents(passes[|passes| - 1]));
      assert init[..n] == passes[..n];
    } else {
      assert passes[..n] == passes;
    }
  }

  /** Every event gets exactly one verdict, and the accepted ones are those that survive the filter. */
  lemma {:induction false} VerdictsPartition(events: seq<RawEvent>)
    ensures |Accepted(events)| == Count(events, Accept)
    ensures |events| == Count(events, Accept) + Count(events, BadHeader) + Count(events, ZeroTimestamp)
  {
    if |events| > 0 {
      var init := events[..|events| - 1];
      VerdictsPartition(init);
      AcceptedAppend(init, events[|events| - 1]);
      assert init + [events[|events| - 1]] == events;
    }
  }
}
