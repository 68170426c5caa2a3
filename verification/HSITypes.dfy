/**
 * The two messages of the event path: the HSIEvent sent to the trigger and the raw frame
 * (HSI_FRAME_STRUCT) sent to the data link handler.
 */
module HSITypes {
  import opened Words
  import opened Subsequences

  datatype HSIEvent = HSIEvent(
    header: uint32, signalMap: uint32, timestamp: uint64, sequenceCounter: uint64, runNumber: uint32)

  const WORDS_PER_FRAME: nat := 7

  /** DAQHeader word of every frame: bit 6 is detector id 1, bit 0 is frame version 1. */
  const FRAME_HEADER: uint32 := 0x41

  lemma FrameHeaderBits()
    ensures FRAME_HEADER == (((1 as bv32) << 6) | 1) as int
  {
  }

  datatype Frame = Frame(
    header: uint32, timestampLow: uint32, timestampHigh: uint32,
    inputLow: uint32, inputHigh: uint32, trigger: uint32, sequence: uint32)
  {
    function Timestamp(): uint64 {
      JoinWords(timestampLow, timestampHigh)
    }

    /** `set_timestamp`: overwrites the two timestamp words. */
    function WithTimestamp(timestamp: uint64): (f: Frame)
      ensures f.Timestamp() == timestamp
      ensures f.(timestampLow := timestampLow, timestampHigh := timestampHigh) == this
    {
      this.(timestampLow := LowWord(timestamp), timestampHigh := HighWord(timestamp))
    }

    /** The words of the frame in the order they lie in memory. */
    function Words(): (words: seq<uint32>)
      ensures |words| == WORDS_PER_FRAME
    {
      [header, timestampLow, timestampHigh, inputLow, inputHigh, trigger, sequence]
    }

    /** `operator<`: frames are compared by their timestamp alone. */
    predicate Before(other: Frame) {
      Timestamp() < other.Timestamp()
    }
  }

  /** The byte copy of seven packed words into a frame. */
  function FrameFromWords(words: seq<uint32>): Frame
    requires |words| == WORDS_PER_FRAME
  {
    Frame(words[0], words[1], words[2], words[3], words[4], words[5], words[6])
  }

  /** The copy keeps every word in its place, and a frame has nothing but its words. */
  lemma FrameIsItsWords(frame: Frame, words: seq<uint32>)
    requires |words| == WORDS_PER_FRAME
    ensures FrameFromWords(words).Words() == words && FrameFromWords(frame.Words()) == frame
  {
  }

  /** What a consumer may rely on to match a frame with the event it was sent after. */
  ghost predicate Describes(frame: Frame, event: HSIEvent) {
    && frame.header == FRAME_HEADER
    && frame.inputHigh == 0
    && frame.Timestamp() == event.timestamp
    && frame.trigger == event.signalMap
    && frame.sequence == Wrap32(event.sequenceCounter)
  }

  /** The timestamp of the last of the events, 0 before there is one. */
  function LastTimestamp(events: seq<HSIEvent>): uint64 {
    if |events| == 0 then 0 else events[|events| - 1].timestamp
  }

  /** The order the binary-search consumer needs: no frame is `<` an earlier one. */
  ghost predicate FramesSorted(frames: seq<Frame>) {
    forall i, j :: 0 <= i < j < |frames| ==> !frames[j].Before(frames[i])
  }

  /** Frames stay sorted whatever subset of them is dropped, and only a sorted stream has that property. */
  lemma SortedDespiteDrops(frames: seq<Frame>)
    ensures FramesSorted(frames)
       <==> (forall taken: seq<bool> | |taken| == |frames| :: FramesSorted(Kept(frames, taken)))
  {
    if FramesSorted(frames) {
      forall taken: seq<bool> | |taken| == |frames|
        ensures FramesSorted(Kept(frames, taken))
      {
        KeptReadsMarkedPositions(frames, taken);
      }
    } else {
      var all := seq(|frames|, _ => true);
      KeptAll(frames, all);
      assert !FramesSorted(Kept(frames, all));
    }
  }
}
