/**
 * The sender shared by both workers (src/HSIEventSender.cpp). An HSIEvent is retried until the
 * queue takes it; a raw frame is offered once and dropped on timeout.
 *
 * The queues are the environment. What the attempts to push an HSIEvent will meet is a finite
 * script: a run is observed for as long as the script lasts, so a statement for all scripts is a
 * statement about every moment of every run, including the runs in which the queue never recovers.
 */
module EventSending {
  import opened Words
  import opened Subsequences
  import opened HSITypes

  /** The first attempt from number `from` on that succeeds; the length of the script if none does. */
  function FirstSuccess(attempts: seq<bool>, from: nat): (k: nat)
    requires from <= |attempts|
    ensures from <= k <= |attempts|
    ensures forall i :: from <= i < k ==> !attempts[i]
    ensures k < |attempts| ==> attempts[k]
    decreases |attempts| - from
  {
    if from == |attempts| || attempts[from] then from else FirstSuccess(attempts, from + 1)
  }

  /** How many of the attempts from number `from` up to `to` succeed, or how many fail. */
  function Pushes(attempts: seq<bool>, from: nat, to: nat, accepted: bool): nat
    requires from <= to <= |attempts|
  {
    if from == to then 0
    else Pushes(attempts, from, to - 1, accepted) + if attempts[to - 1] == accepted then 1 else 0
  }

  /** How many of `n` raw pushes from number `from` on succeed, or how many fail. */
  function Offers(rawAccepts: nat -> bool, from: nat, n: nat, accepted: bool): nat {
    if n == 0 then 0
    else Offers(rawAccepts, from, n - 1, accepted) + if rawAccepts(from + n - 1) == accepted then 1 else 0
  }

  lemma {:induction false} PushesAddUp(attempts: seq<bool>, from: nat, mid: nat, to: nat, accepted: bool)
    requires from <= mid <= to <= |attempts|
    ensures Pushes(attempts, from, to, accepted)
         == Pushes(attempts, from, mid, accepted) + Pushes(attempts, mid, to, accepted)
  {
    if mid < to {
      PushesAddUp(attempts, from, mid, to - 1, accepted);
    }
  }

  /** No push fails, or none succeeds, exactly if that is what each single one does. */
  lemma {:induction false} NoSuchPush(attempts: seq<bool>, from: nat, to: nat, accepted: bool)
    requires from <= to <= |attempts|
    ensures Pushes(attempts, from, to, accepted) == 0 <==> forall i :: from <= i < to ==> attempts[i] != accepted
  {
    if from < to {
      NoSuchPush(attempts, from, to - 1, accepted);
    }
  }

  lemma {:induction false} NoSuchOffer(rawAccepts: nat -> bool, from: nat, n: nat, accepted: bool)
    ensures Offers(rawAccepts, from, n, accepted) == 0
       <==> forall i :: from <= i < from + n ==> rawAccepts(i) != accepted
  {
    if n > 0 {
      NoSuchOffer(rawAccepts, from, n - 1, accepted);
    }
  }

  /** What a run has put on the two queues and what it has lost, since the counters were reset. */
  datatype Ledger = Ledger(
    events: seq<HSIEvent>,  // pushed on the HSIEvent queue
    timeouts: nat,          // HSIEvent pushes that timed out
    offered: seq<Frame>,    // raw frames offered
    taken: seq<bool>,       // which of them the queue took
    frames: seq<Frame>,     // raw frames pushed
    dropped: nat,           // raw frames lost
    failures: nat)          // error reports of both kinds
  {
    function TimedOut(times: nat): Ledger {
      this.(timeouts := timeouts + times, failures := failures + times)
    }

    function Sent(event: HSIEvent): Ledger {
      this.(events := events + [event])
    }

    function Offered(frame: Frame, accepted: bool): Ledger {
      this.(offered := offered + [frame], taken := taken + [accepted],
            frames := if accepted then frames + [frame] else frames,
            dropped := if accepted then dropped else dropped + 1,
            failures := if accepted then failures else failures + 1)
    }

    /** Every offered frame is either on the queue, in order, or counted as dropped; every failure has one cause. */
    ghost predicate Balanced() {
      && failures == timeouts + dropped
      && |taken| == |offered| == |frames| + dropped
      && frames == Kept(offered, taken)
    }

    ghost predicate Empty() {
      |events| == timeouts == |offered| == dropped == 0
    }

    lemma OfferingKeepsBalance(frame: Frame, accepted: bool)
      requires Balanced()
      ensures Offered(frame, accepted).Balanced()
    {
    }
  }

  /** The ledger at the start of a run. */
  lemma EmptyLedger() returns (ledger: Ledger)
    ensures ledger.Empty() && ledger.Balanced()
  {
    ledger := Ledger([], 0, [], [], [], 0, 0);
  }

  /**
   * The ledger is what the queues did: since the start of the run its events are the pushes that
   * succeeded, its timeouts those that failed, and its frames are taken or dropped as the raw queue says.
   */
  ghost predicate FollowsScripts(
    ledger: Ledger, attempts: seq<bool>, from: nat, tried: nat, rawAccepts: nat -> bool, rawFrom: nat, rawTried: nat)
  {
    && from <= tried <= |attempts|
    && |ledger.events| == Pushes(attempts, from, tried, true)
    && ledger.timeouts == Pushes(attempts, from, tried, false)
    && rawTried == rawFrom + |ledger.taken|
    && |ledger.frames| == Offers(rawAccepts, rawFrom, |ledger.taken|, true)
    && ledger.dropped == Offers(rawAccepts, rawFrom, |ledger.taken|, false)
    && forall i :: 0 <= i < |ledger.taken| ==> ledger.taken[i] == rawAccepts(rawFrom + i)
  }

  lemma EmptyLedgerFollows(ledger: Ledger, attempts: seq<bool>, from: nat, rawAccepts: nat -> bool, rawFrom: nat)
    requires ledger.Empty() && ledger.Balanced() && from <= |attempts|
    ensures FollowsScripts(ledger, attempts, from, from, rawAccepts, rawFrom, rawFrom)
  {
  }

  lemma PushFollows(
    ledger: Ledger, attempts: seq<bool>, from: nat, tried: nat, rawAccepts: nat -> bool, rawFrom: nat, rawTried: nat,
    event: HSIEvent)
    requires FollowsScripts(ledger, attempts, from, tried, rawAccepts, rawFrom, rawTried) && tried < |attempts|
    ensures FollowsScripts(if attempts[tried] then ledger.Sent(event) else ledger.TimedOut(1),
                           attempts, from, tried + 1, rawAccepts, rawFrom, rawTried)
  {
  }

  lemma OfferFollows(
    ledger: Ledger, attempts: seq<bool>, from: nat, tried: nat, rawAccepts: nat -> bool, rawFrom: nat, rawTried: nat,
    frame: Frame)
    requires FollowsScripts(ledger, attempts, from, tried, rawAccepts, rawFrom, rawTried)
    ensures FollowsScripts(ledger.Offered(frame, rawAccepts(rawTried)),
                           attempts, from, tried, rawAccepts, rawFrom, rawTried + 1)
  {
  }

  /** The last push made, if any, succeeded: nothing was tried after the last event was sent. */
  ghost predicate Settled(attempts: seq<bool>, from: nat, tried: nat) {
    from < tried <= |attempts| ==> attempts[tried - 1]
  }

  class HSIEventSender {
    // m_hsievent_sender != nullptr
    const connected: bool
    var sentCounter: uint64
    var failedToSendCounter: uint64
    var lastSentTimestamp: uint64

    // The environment: whether the n-th HSIEvent push and the n-th raw push succeed.
    const attempts: seq<bool>
    var tried: nat
    const rawAccepts: nat -> bool
    var rawTried: nat

    ghost var ledger: Ledger
    // Where in the two scripts the run began.
    ghost var from: nat
    ghost var rawFrom: nat

    ghost predicate Valid()
      reads this
    {
      && tried <= |attempts|
      && FollowsScripts(ledger, attempts, from, tried, rawAccepts, rawFrom, rawTried)
      && sentCounter == Tally(|ledger.events|)
      && failedToSendCounter == Tally(ledger.failures)
      && lastSentTimestamp == LastTimestamp(ledger.events)
      && ledger.Balanced()
    }

    /**
     * A run reports no failure exactly if none of its pushes met a timeout on either queue; then every
     * frame offered was delivered.
     */
    lemma FailsExactly()
      requires Valid()
      ensures ledger.failures == 0
         <==> && (forall i :: from <= i < tried ==> attempts[i])
              && (forall i :: rawFrom <= i < rawTried ==> rawAccepts(i))
      ensures ledger.failures == 0 ==>
                failedToSendCounter == 0 && ledger.timeouts == ledger.dropped == 0 && ledger.frames == ledger.offered
    {
      hide Pushes, Offers, LastTimestamp, Kept;
      NoSuchPush(attempts, from, tried, false);
      NoSuchOffer(rawAccepts, rawFrom, |ledger.taken|, false);
      if ledger.failures == 0 {
        KeptAll(ledger.offered, ledger.taken);
      }
    }

    /** The frames on the raw queue are those offered that the queue took, in order. */
    lemma FramesTaken() returns (positions: seq<nat>)
      requires Valid()
      ensures |positions| == |ledger.frames|
      ensures forall i, j :: 0 <= i < j < |positions| ==> positions[i] < positions[j]
      ensures forall k :: 0 <= k < |ledger.offered| ==> (k in positions <==> rawAccepts(rawFrom + k))
      ensures forall j :: 0 <= j < |positions| ==>
                positions[j] < |ledger.offered| && ledger.frames[j] == ledger.offered[positions[j]]
    {
      hide Pushes, Offers, LastTimestamp, Tally, Kept;
      positions := MarkedPositions(ledger.taken);
      KeptReadsMarkedPositions(ledger.offered, ledger.taken);
    }

    lemma CountsEvents()
      requires Valid()
      ensures sentCounter == Tally(|ledger.events|) && tried <= |attempts|
    {
    }

    constructor (connected: bool, attempts: seq<bool>, rawAccepts: nat -> bool)
      ensures Valid() && ledger.Empty() && tried == rawTried == from == rawFrom == 0
      ensures this.connected == connected && this.attempts == attempts && this.rawAccepts == rawAccepts
    {
      this.connected := connected;
      this.attempts := attempts;
      this.rawAccepts := rawAccepts;
      tried, rawTried, from, rawFrom := 0, 0, 0, 0;
      sentCounter, failedToSendCounter, lastSentTimestamp := 0, 0, 0;
      new;
      hide FollowsScripts;
      ledger := EmptyLedger();
      EmptyLedgerFollows(ledger, attempts, from, rawAccepts, rawFrom);
    }

    /** The part of the reset at the start of a run that concerns the sender. */
    method ResetCounters()
      requires Valid()
      modifies this
      ensures Valid() && ledger.Empty()
      ensures from == tried == old(tried) && rawFrom == rawTried == old(rawTried)
      ensures sentCounter == failedToSendCounter == lastSentTimestamp == 0
    {
      hide FollowsScripts;
      sentCounter := 0;
      failedToSendCounter := 0;
      lastSentTimestamp := 0;
      ledger := EmptyLedger();
      from, rawFrom := tried, rawTried;
      EmptyLedgerFollows(ledger, attempts, from, rawAccepts, rawFrom);
    }

    /** One probe of the connection; `answer` is what `is_ready_for_sending` would return. */
    method ReadyToSend(answer: bool) returns (ready: bool)
      ensures ready <==> connected && answer
    {
      if !connected {
        return false;
      }
      return answer;
    }

    /** One iteration of the retry loop: the push and, on timeout, the error report. */
    method TryToSend(event: HSIEvent) returns (accepted: bool)
      requires Valid() && connected && tried < |attempts|
      modifies this
      ensures Valid()
      ensures accepted == attempts[old(tried)]
      ensures tried == old(tried) + 1 && rawTried == old(rawTried)
      ensures from == old(from) && rawFrom == old(rawFrom)
      ensures ledger == if accepted then old(ledger).Sent(event) else old(ledger).TimedOut(1)
      ensures sentCounter == if accepted then Next(old(sentCounter)) else old(sentCounter)
      ensures lastSentTimestamp == if accepted then event.timestamp else old(lastSentTimestamp)
    {
      hide FollowsScripts;
      PushFollows(ledger, attempts, from, tried, rawAccepts, rawFrom, rawTried, event);
      accepted := attempts[tried];
      tried := tried + 1;
      if accepted {
        sentCounter := Next(sentCounter);
        lastSentTimestamp := event.timestamp;
        ledger := ledger.Sent(event);
      } else {
        failedToSendCounter := Next(failedToSendCounter);
        ledger := ledger.TimedOut(1);
      }
    }

    /**
     * Pushes the event until the queue takes it. `sent` is false only if the script of attempts
     * ends while the loop is still retrying; then nothing was delivered.
     */
    method SendHsiEvent(event: HSIEvent) returns (sent: bool)
      requires Valid() && connected
      modifies this
      ensures Valid()
      ensures var k := FirstSuccess(attempts, old(tried));
              var retried := old(ledger).TimedOut(k - old(tried));
              && ledger == (if sent then retried.Sent(event) else retried)
              && sent == (k < |attempts|)
              && tried == (if sent then k + 1 else k)
      ensures rawTried == old(rawTried) && from == old(from) && rawFrom == old(rawFrom)
      ensures sentCounter == if sent then Next(old(sentCounter)) else old(sentCounter)
      ensures lastSentTimestamp == if sent then event.timestamp else old(lastSentTimestamp)
      ensures tried <= |attempts| && (sent ==> Settled(attempts, from, tried))
    {
      hide FollowsScripts;
      sent := false;
      while !sent && tried < |attempts|
        invariant Valid() && rawTried == old(rawTried) && from == old(from) && rawFrom == old(rawFrom)
        invariant sentCounter == if sent then Next(old(sentCounter)) else old(sentCounter)
        invariant lastSentTimestamp == if sent then event.timestamp else old(lastSentTimestamp)
        invariant old(tried) <= tried && (sent ==> old(tried) < tried && attempts[tried - 1])
        invariant FirstSuccess(attempts, old(tried)) == if sent then tried - 1 else FirstSuccess(attempts, tried)
        invariant !sent ==> ledger == old(ledger).TimedOut(tried - old(tried))
        invariant sent ==> ledger == old(ledger).TimedOut(tried - 1 - old(tried)).Sent(event)
        decreases |attempts| - tried
      {
        sent := TryToSend(event);
      }
    }

    /**
     * Offers one raw frame, once. Without a raw sender the exception leaves the worker: `ok` is
     * false and nothing changed.
     */
    method SendRawHsiData(rawData: array<uint32>, hasSender: bool) returns (ok: bool)
      requires Valid() && rawData.Length == WORDS_PER_FRAME
      modifies this
      ensures Valid()
      ensures ok == hasSender && tried == old(tried)
      ensures sentCounter == old(sentCounter) && lastSentTimestamp == old(lastSentTimestamp)
      ensures from == old(from) && rawFrom == old(rawFrom)
      ensures ok ==> rawTried == old(rawTried) + 1
      ensures ok ==> ledger == old(ledger).Offered(FrameFromWords(rawData[..]), rawAccepts(old(rawTried)))
      ensures !ok ==> ledger == old(ledger) && rawTried == old(rawTried)
    {
      hide FollowsScripts;
      var payload := FrameFromWords(rawData[..]);
      if !hasSender {
        return false;
      }
      var accepted := rawAccepts(rawTried);
      OfferFollows(ledger, attempts, from, tried, rawAccepts, rawFrom, rawTried, payload);
      rawTried := rawTried + 1;
      ledger.OfferingKeepsBalance(payload, accepted);
      ledger := ledger.Offered(payload, accepted);
      if !accepted {
        failedToSendCounter := Next(failedToSendCounter);
      }
      return true;
    }
  }
}
