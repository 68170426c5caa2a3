/**
 * The readout worker (plugins/HSIReadout.cpp): reads words from the firmware buffer, cuts them
 * into events, rejects bad ones and sends the rest twice, as HSIEvents and as raw frames.
 */
module Readout {
  import opened Words
  import opened Subsequences
  import opened HSITypes
  import opened EventSending
  import opened ReadoutEvents
  import opened ReadoutProperties
  import opened BufferHistory

  /** How the observation of a run ends. */
  datatype RunEnd =
    | Stopped          // the running flag was found cleared
    | HardwareFailed   // a hardware exception left the worker
    | Retrying         // the script of push attempts ended inside the retry loop
    | RawQueueNull     // there is no raw sender; its exception left the worker

  class HSIReadout {
    const sender: HSIEventSender
    // m_raw_hsi_data_sender != nullptr
    const rawConnected: bool
    var runNumber: uint32
    var readoutCounter: uint64
    var lastReadoutTimestamp: uint64
    var bufferCounts: seq<uint16>

    // Every count ever pushed on bufferCounts, in this run and before it.
    ghost var history: seq<uint16>
    // Rejections reported since the last reset.
    ghost var badHeaders: nat
    ghost var zeroTimestamps: nat

    ghost predicate Valid()
      reads this, sender
    {
      sender.Valid() && bufferCounts == Window(history)
    }

    constructor (sender: HSIEventSender, rawConnected: bool)
      requires sender.Valid()
      ensures Valid() && this.sender == sender && this.rawConnected == rawConnected && history == []
    {
      this.sender, this.rawConnected := sender, rawConnected;
      runNumber, readoutCounter, lastReadoutTimestamp := 0, 0, 0;
      bufferCounts, history := [], [];
      badHeaders, zeroTimestamps := 0, 0;
    }

    method UpdateBufferCounts(newCount: uint16)
      requires Valid()
      modifies this`bufferCounts, this`history
      ensures Valid()
      ensures history == old(history) + [newCount]
    {
      history := history + [newCount];
      if |bufferCounts| > GUARD {
        bufferCounts := bufferCounts[1..];
      }
      bufferCounts := bufferCounts + [newCount];
    }

    /** The mean of exactly the counts in the window, 0 if there is none. */
    method ReadAverageBufferCounts() returns (average: real)
      requires Valid()
      ensures history == [] ==> average == 0.0
      ensures history != [] ==> average == Mean(Window(history))
    {
      hide Window;
      var totalCounts := 0.0;
      var numberOfCounts := |bufferCounts|;
      if numberOfCounts == 0 {
        return 0.0;
      }
      var i := 0;
      while i < numberOfCounts
        invariant 0 <= i <= numberOfCounts
        invariant totalCounts == Sum(bufferCounts[..i]) as real
        invariant totalCounts < EXACT_IN_DOUBLE as real
      {
        assert bufferCounts[..i + 1][..i] == bufferCounts[..i];
        PartialSumsAreExact(history, i + 1);
        totalCounts := totalCounts + bufferCounts[i] as real;
        i := i + 1;
      }
      assert bufferCounts[..numberOfCounts] == bufferCounts;
      average := totalCounts / numberOfCounts as real;
    }

    /** Between events: all that was accepted from `all` has been sent, and the counters say so. */
    ghost predicate UpToDate(all: seq<RawEvent>)
      reads this`runNumber, this`lastReadoutTimestamp, this`badHeaders, this`zeroTimestamps, sender
    {
      && sender.ledger.events == EventsOf(Accepted(all), runNumber)
      && sender.ledger.offered == FramesOf(Accepted(all))
      && lastReadoutTimestamp == sender.lastSentTimestamp
      && badHeaders == Count(all, BadHeader)
      && zeroTimestamps == Count(all, ZeroTimestamp)
      && Settled(sender.attempts, sender.from, sender.tried)
      && (rawConnected || Accepted(all) == [])
    }

    /** Where the run stands when its observation ends after the events `all` were read. */
    ghost predicate Reached(all: seq<RawEvent>, end: RunEnd)
      reads this`runNumber, this`lastReadoutTimestamp, this`badHeaders, this`zeroTimestamps, sender
    {
      var accepted, m := Accepted(all), |sender.ledger.events|;
      match end
      case Stopped => UpToDate(all)
      case HardwareFailed => UpToDate(all)
      case Retrying =>
        && m < |accepted|
        && sender.ledger.events == EventsOf(accepted[..m], runNumber)
        && sender.ledger.offered == FramesOf(accepted[..m])
        && lastReadoutTimestamp == accepted[m].Timestamp()
        && sender.tried == |sender.attempts|
      case RawQueueNull =>
        && !rawConnected
        && m == 1 <= |accepted|
        && sender.ledger.events == EventsOf(accepted[..m], runNumber)
        && sender.ledger.offered == []
        && Settled(sender.attempts, sender.from, sender.tried)
        && lastReadoutTimestamp == accepted[0].Timestamp()
    }

    /** Packs the raw frame of an event and offers it. */
    method OfferFrame(raw: RawEvent) returns (ok: bool)
      requires sender.Valid()
      modifies sender
      ensures sender.Valid()
      ensures ok == rawConnected && sender.tried == old(sender.tried)
      ensures sender.lastSentTimestamp == old(sender.lastSentTimestamp)
      ensures sender.from == old(sender.from) && sender.rawFrom == old(sender.rawFrom)
      ensures ok ==> sender.ledger == old(sender.ledger).Offered(FrameOf(raw), sender.rawAccepts(old(sender.rawTried)))
      ensures !ok ==> sender.ledger == old(sender.ledger)
    {
      var hsiStruct := new uint32[7] [
        FRAME_HEADER, raw.tsLow, raw.tsHigh, raw.data, 0, raw.trigger, raw.header % TWO_16];
      assert FrameFromWords(hsiStruct[..]) == FrameOf(raw);
      ok := sender.SendRawHsiData(hsiStruct, rawConnected);
    }

    /** Sends one accepted event and its raw frame; `end` is Stopped when the worker can go on. */
    method EmitEvent(raw: RawEvent, ghost seen: seq<RawEvent>) returns (end: RunEnd)
      requires Valid() && sender.connected && UpToDate(seen)
      requires raw.Verdict().Accept?
      modifies this`lastReadoutTimestamp, sender
      ensures Valid() && sender.from == old(sender.from) && sender.rawFrom == old(sender.rawFrom)
      ensures end != HardwareFailed
      ensures Reached(seen + [raw], end)
    {
      hide Accepted, Kept, Marks, EventsOf, FramesOf, Count, Tally, Window, FollowsScripts;
      AcceptedOneMore(seen, raw, runNumber);
      assert Accepted(seen + [raw])[..|Accepted(seen)| + 1] == Accepted(seen + [raw]);

      var ts := JoinWords(raw.tsLow, raw.tsHigh);
      var event := HSIEvent(raw.header / TWO_16, raw.trigger, ts, raw.header % TWO_16, runNumber);
      lastReadoutTimestamp := ts;
      var sent := sender.SendHsiEvent(event);
      if !sent {
        return Retrying;
      }
      var ok := OfferFrame(raw);
      end := if ok then Stopped else RawQueueNull;
    }

    /** Handles one event of a buffer; `end` is Stopped when the worker can go on to the next. */
    method ProcessEvent(words: seq<uint32>, i: nat, emulation: bool, ghost seen: seq<RawEvent>)
      returns (end: RunEnd)
      requires WORDS_PER_EVENT * i + WORDS_PER_EVENT <= |words|
      requires Valid() && sender.connected && UpToDate(seen)
      modifies this`lastReadoutTimestamp, this`badHeaders, this`zeroTimestamps, sender
      ensures Valid() && sender.from == old(sender.from) && sender.rawFrom == old(sender.rawFrom)
      ensures end != HardwareFailed
      ensures Reached(seen + [Overwrite(EventAt(words, i), emulation)], end)
    {
      hide Accepted, Kept, Marks, EventsOf, FramesOf, Count, Tally, Window, FollowsScripts;
      var eventStart := i * WORDS_PER_EVENT;
      var rawEvent := new uint32[5](j requires 0 <= j < 5 => words[eventStart + j]);
      var raw := RawEvent(rawEvent[0], rawEvent[1], rawEvent[2], rawEvent[3], rawEvent[4]);
      ghost var overwritten := Overwrite(raw, emulation);
      if !overwritten.Verdict().Accept? {
        RejectedOneMore(seen, overwritten);
      }
      if raw.header / TWO_16 != HSI_HEADER {
        badHeaders := badHeaders + 1;
        return Stopped;
      }
      if JoinWords(raw.tsLow, raw.tsHigh) == 0 {
        zeroTimestamps := zeroTimestamps + 1;
        return Stopped;
      }
      if emulation {
        raw := raw.(trigger := EMULATED_TRIGGER);
      }
      end := EmitEvent(raw, seen);
    }

    /** A run that was cut short stands where it stands, whatever more the buffer held. */
    lemma ReachedExtends(all: seq<RawEvent>, more: seq<RawEvent>, end: RunEnd)
      requires end == Retrying || end == RawQueueNull
      requires Reached(all, end)
      ensures Reached(all + more, end)
    {
      AcceptedConcat(all, more);
      var m := |sender.ledger.events|;
      assert (Accepted(all) + Accepted(more))[..m] == Accepted(all)[..m];
    }

    /** Handles the whole events of one buffer; `before` is what was read in earlier passes. */
    method ProcessBuffer(words: seq<uint32>, emulation: bool, ghost before: seq<RawEvent>) returns (end: RunEnd)
      requires WholeEvents(words)
      requires Valid() && sender.connected && Reached(before, Stopped)
      modifies this`lastReadoutTimestamp, this`badHeaders, this`zeroTimestamps, sender
      ensures Valid() && sender.from == old(sender.from) && sender.rawFrom == old(sender.rawFrom)
      ensures end != HardwareFailed
      ensures Reached(before + BufferEvents(words, emulation), end)
    {
      hide Accepted, Kept, Marks, EventsOf, FramesOf, Count, Tally, Window, LastTimestamp, EventAt;
      hide FollowsScripts, Settled;
      var nHsiEvents := EventCount(words);
      ghost var all := before + BufferEvents(words, emulation);
      assert all[..|before|] == before;
      for i := 0 to nHsiEvents
        invariant Valid() && Reached(all[..|before| + i], Stopped)
        invariant sender.from == old(sender.from) && sender.rawFrom == old(sender.rawFrom)
      {
        ghost var seen := all[..|before| + i];
        assert all[|before| + i] == Overwrite(EventAt(words, i), emulation);
        assert all[..|before| + i + 1] == seen + [Overwrite(EventAt(words, i), emulation)];
        end := ProcessEvent(words, i, emulation, seen);
        if end != Stopped {
          ReachedExtends(all[..|before| + i + 1], all[|before| + i + 1..], end);
          assert all[..|before| + i + 1] + all[|before| + i + 1..] == all;
          return;
        }
      }
      assert all[..|before| + nHsiEvents] == all;
      end := Stopped;
    }

    /** One pass of the worker loop, after the running flag was found set. */
    method RunPass(pass: Pass, ghost before: seq<RawEvent>) returns (end: RunEnd)
      requires Valid() && sender.connected && Reached(before, Stopped)
      modifies this`bufferCounts, this`history, this`lastReadoutTimestamp, this`readoutCounter,
               this`badHeaders, this`zeroTimestamps, sender
      ensures Valid() && sender.from == old(sender.from) && sender.rawFrom == old(sender.rawFrom)
      ensures Reached(before + PassEvents(pass), end)
      ensures end == HardwareFailed <==> pass == HardwareFault
      ensures readoutCounter == Wrap64(old(readoutCounter) + |PassEvents(pass)|)
      ensures history == old(history) + if pass.Buffer? then [pass.occupancy] else []
    {
      hide Accepted, Kept, Marks, EventsOf, FramesOf, Count, Tally, Window, LastTimestamp, EventAt;
      hide FollowsScripts, Settled;
      assert pass.Buffer? || before + PassEvents(pass) == before;
      match pass {
        case NetworkTimeout =>
          end := Stopped;
        case HardwareFault =>
          end := HardwareFailed;
        case Buffer(emulation, occupancy, words) =>
          UpdateBufferCounts(occupancy);
          if WholeEvents(words) && |words| > 0 {
            readoutCounter := Wrap64(readoutCounter + EventCount(words));
            end := ProcessBuffer(words, emulation, before);
          } else {
            assert before + PassEvents(pass) == before;
            end := Stopped;
          }
      }
    }

    /** The reset block at the start of a run, when no event has been read. */
    method StartRun(ghost none: seq<RawEvent>)
      requires Valid() && |none| == 0
      modifies this`lastReadoutTimestamp, this`readoutCounter, this`badHeaders, this`zeroTimestamps, sender
      ensures Valid() && readoutCounter == Tally(0)
      ensures Reached(none, Stopped)
      ensures sender.from == old(sender.tried) && sender.rawFrom == old(sender.rawTried)
    {
      hide Accepted, Kept, EventsOf, FramesOf, Count, LastTimestamp, FollowsScripts;
      readoutCounter := 0;
      lastReadoutTimestamp := 0;
      sender.ResetCounters();
      badHeaders, zeroTimestamps := 0, 0;
      NothingAccepted(none);
    }

    /**
     * A run: the running flag is found set once per element of `passes`, then cleared. `begun` is
     * the number of passes the run got to.
     */
    method DoHsiWork(passes: seq<Pass>) returns (end: RunEnd, ghost begun: nat)
      requires Valid() && sender.connected
      modifies this, sender
      ensures Valid() && runNumber == old(runNumber)
      ensures sender.from == old(sender.tried) && sender.rawFrom == old(sender.rawTried)
      ensures begun <= |passes|
      ensures history == old(history) + Occupancies(passes[..begun])
      ensures readoutCounter == Tally(|AllEvents(passes[..begun])|)
      ensures Reached(AllEvents(passes[..begun]), end)
      ensures end == Stopped ==> begun == |passes|
      ensures end == HardwareFailed ==> 0 < begun && passes[begun - 1] == HardwareFault
      ensures forall i :: 0 <= i < (if end == HardwareFailed then begun - 1 else begun) ==> passes[i] != HardwareFault
    {
      hide *;
      AllEventsEmpty();
      assert passes[..0] == [];
      StartRun(AllEvents(passes[..0]));
      var i := 0;
      while i < |passes|
        invariant 0 <= i <= |passes|
        invariant Valid() && runNumber == old(runNumber)
        invariant sender.from == old(sender.tried) && sender.rawFrom == old(sender.rawTried)
        invariant Reached(AllEvents(passes[..i]), Stopped)
        invariant readoutCounter == Tally(|AllEvents(passes[..i])|)
        invariant history == old(history) + Occupancies(passes[..i])
        invariant forall j :: 0 <= j < i ==> passes[j] != HardwareFault
      {
        ghost var before := AllEvents(passes[..i]);
        assert passes[..i + 1] == passes[..i] + [passes[i]];
        AllEventsAppend(passes[..i], passes[i]);
        TallyAdd(|before|, |PassEvents(passes[i])|);
        end := RunPass(passes[i], before);
        i := i + 1;
        if end != Stopped {
          begun := i;
          return;
        }
      }
      begun := i;
      end := Stopped;
    }

    /**
     * What a run has put on its queues, from the words of its buffers. It sends an event for exactly
     * those five words that are worth it, in order, and the j-th event and the j-th frame offered report
     * the j-th of them, as far as the run got.
     */
    lemma MessagesOfRun(passes: seq<Pass>, emulation: bool, end: RunEnd) returns (positions: seq<nat>)
      requires Valid() && Reached(AllEvents(passes), end) && readoutCounter == Tally(|AllEvents(passes)|)
      requires ConstantMode(passes, emulation) && AllCountable(passes)
      ensures readoutCounter == (|WordStream(passes)| / 5) % 0x1_0000_0000_0000_0000
      ensures forall i, j :: 0 <= i < j < |positions| ==> positions[i] < positions[j]
      ensures var words := WordStream(passes);
              && (forall i :: 0 <= i < |words| / 5 ==> (i in positions <==> Deliverable(words, i)))
              && (forall j :: 0 <= j < |positions| ==> 5 * positions[j] + 5 <= |words|)
      ensures |sender.ledger.events| <= |positions|
      ensures end == Stopped || end == HardwareFailed ==> |sender.ledger.events| == |positions|
      ensures end == RawQueueNull ==> |sender.ledger.events| == 1
      ensures |sender.ledger.offered| == if end == RawQueueNull then 0 else |sender.ledger.events|
      ensures forall j :: 0 <= j < |sender.ledger.events| ==>
                Reports(sender.ledger.events[j], WordStream(passes), positions[j], emulation, runNumber)
      ensures forall j :: 0 <= j < |sender.ledger.offered| ==>
                Accompanies(sender.ledger.offered[j], sender.ledger.events[j], WordStream(passes), positions[j])
      ensures sender.sentCounter == |sender.ledger.events| % 0x1_0000_0000_0000_0000
      ensures var m := |sender.ledger.events|;
              && sender.lastSentTimestamp == (if m == 0 then 0 else sender.ledger.events[m - 1].timestamp)
              && (end != Retrying ==> lastReadoutTimestamp == sender.lastSentTimestamp)
              && (end == Retrying ==>
                    && m < |positions|
                    && lastReadoutTimestamp == TimestampAt(WordStream(passes), positions[m]))
    {
      hide Accepted, AllEvents, WordStream, Count, Reports, Accompanies, Deliverable, EventOf, FrameOf;
      hide ConstantMode, AllCountable, Window, FollowsScripts, Settled, Tally;
      positions := MessagesOfStream(passes, emulation, runNumber);
      TimestampsOfStream(passes, emulation, runNumber, positions);
      TallyIsModulo(|AllEvents(passes)|);
      sender.CountsEvents();
      TallyIsModulo(|sender.ledger.events|);
    }

    /**
     * The readout ledger, at whatever moment a run is observed: no more events sent than read, and
     * between events every event read was either sent or rejected for one reported reason.
     */
    lemma ReadoutLedger(all: seq<RawEvent>, end: RunEnd)
      requires Valid() && Reached(all, end) && readoutCounter == Tally(|all|)
      ensures |sender.ledger.events| <= |all|
      ensures |all| < TWO_64 ==> sender.sentCounter <= readoutCounter
      ensures end == Stopped || end == HardwareFailed ==>
                && |all| == |sender.ledger.events| + badHeaders + zeroTimestamps
                && (|all| < TWO_64 ==> readoutCounter == sender.sentCounter + badHeaders + zeroTimestamps)
    {
      hide Accepted, Kept, Count, LastTimestamp, Tally, Wrap64, Window, Marks, FramesOf;
      VerdictsPartition(all);
      TallyIsModulo(|all|);
      TallyIsModulo(|sender.ledger.events|);
      if end == Stopped || end == HardwareFailed {
        assert |sender.ledger.events| == |Accepted(all)|;
        assert |all| == |sender.ledger.events| + badHeaders + zeroTimestamps;
      }
    }

    /**
     * The delivery ledger against the scripts of the two queues. The events sent are the pushes that
     * succeeded since the start of the run, frames delivered and dropped make up the events sent, and
     * the failures counted are exactly the failed pushes of both kinds.
     */
    lemma DeliveryLedger(all: seq<RawEvent>, end: RunEnd)
      requires Valid() && Reached(all, end)
      ensures sender.from <= sender.tried <= |sender.attempts|
      ensures |sender.ledger.events| == Pushes(sender.attempts, sender.from, sender.tried, true)
      ensures end != RawQueueNull ==> |sender.ledger.frames| + sender.ledger.dropped == |sender.ledger.events|
      ensures |sender.ledger.frames| == Offers(sender.rawAccepts, sender.rawFrom, |sender.ledger.offered|, true)
      ensures sender.ledger.timeouts == Pushes(sender.attempts, sender.from, sender.tried, false)
      ensures sender.ledger.dropped == Offers(sender.rawAccepts, sender.rawFrom, |sender.ledger.offered|, false)
      ensures sender.ledger.failures == sender.ledger.timeouts + sender.ledger.dropped
      ensures sender.failedToSendCounter == Tally(sender.ledger.failures)
      ensures end != Retrying ==> Settled(sender.attempts, sender.from, sender.tried)
      ensures end == Stopped ==> lastReadoutTimestamp == sender.lastSentTimestamp
    {
      hide Accepted, Kept, Tally, Window, LastTimestamp, Pushes, Offers, Settled;
    }

    /**
     * When a run completes. With a raw sender and without a hardware fault a run ends by its stop
     * flag, all its accepted events sent, exactly if the queue takes at least that many pushes.
     */
    lemma CompletesExactly(passes: seq<Pass>, begun: nat, end: RunEnd)
      requires Valid() && rawConnected && sender.from <= |sender.attempts|
      requires begun <= |passes| && Reached(AllEvents(passes[..begun]), end)
      requires end == Stopped ==> begun == |passes|
      requires end != HardwareFailed
      ensures end == Stopped
         <==> Pushes(sender.attempts, sender.from, |sender.attempts|, true) >= |Accepted(AllEvents(passes))|
    {
      hide *;
      DeliveryLedger(AllEvents(passes[..begun]), end);
      PushesAddUp(sender.attempts, sender.from, sender.tried, |sender.attempts|, true);
      HowFar(AllEvents(passes[..begun]), end);
      AcceptedOfPrefix(passes, begun);
      assert passes[..|passes|] == passes;
    }

    /**
     * With two queues that take everything a completed run delivers every accepted event and frame and
     * reports no failure.
     */
    lemma NothingIsLost(all: seq<RawEvent>, end: RunEnd)
      requires Valid() && Reached(all, end) && end == Stopped
      requires forall i :: sender.from <= i < |sender.attempts| ==> sender.attempts[i]
      requires forall i :: i >= sender.rawFrom ==> sender.rawAccepts(i)
      ensures sender.ledger.events == EventsOf(Accepted(all), runNumber)
      ensures sender.ledger.frames == FramesOf(Accepted(all))
      ensures sender.ledger.timeouts == sender.ledger.dropped == sender.ledger.failures == 0
      ensures sender.failedToSendCounter == 0
    {
      hide Accepted, Kept, Tally, Window, LastTimestamp, Settled, Count, FramesOf, EventsOf;
      sender.FailsExactly();
    }

    /** How many of the accepted events a run has sent when it ends. */
    lemma HowFar(all: seq<RawEvent>, end: RunEnd)
      requires rawConnected && Reached(all, end)
      ensures end == Stopped ==> |sender.ledger.events| == |Accepted(all)|
      ensures end == Retrying ==> |sender.ledger.events| < |Accepted(all)| && sender.tried == |sender.attempts|
      ensures end != RawQueueNull
    {
      hide Accepted, FramesOf;
    }
  }

  /**
   * Two completed runs that read one word stream, however it was cut into buffers, send the same
   * events and end with the same counters and timestamps.
   */
  lemma CompletedRunsAgree(r: HSIReadout, s: HSIReadout, p: seq<Pass>, q: seq<Pass>, emulation: bool)
    requires r.Valid() && s.Valid() && r.runNumber == s.runNumber
    requires ConstantMode(p, emulation) && ConstantMode(q, emulation) && AllCountable(p) && AllCountable(q)
    requires WordStream(p) == WordStream(q)
    requires r.Reached(AllEvents(p), Stopped) && r.readoutCounter == Tally(|AllEvents(p)|)
    requires s.Reached(AllEvents(q), Stopped) && s.readoutCounter == Tally(|AllEvents(q)|)
    ensures r.sender.ledger.events == s.sender.ledger.events && r.sender.ledger.offered == s.sender.ledger.offered
    ensures r.readoutCounter == s.readoutCounter && r.sender.sentCounter == s.sender.sentCounter
    ensures r.lastReadoutTimestamp == s.lastReadoutTimestamp
    ensures r.sender.lastSentTimestamp == s.sender.lastSentTimestamp
    ensures r.badHeaders == s.badHeaders && r.zeroTimestamps == s.zeroTimestamps
  {
    hide Accepted, EventsOf, FramesOf, AllEvents, WordStream, Tally, FollowsScripts, Window, Count;
    ChunkingIndependence(p, q, emulation, r.runNumber);
  }
}
