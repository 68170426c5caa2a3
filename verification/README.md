# A verified model of the HSI event path

This project models the part of DUNE's hsilibs that turns hardware (or fake) signals into messages:
the readout worker, the fake event generator with its commands, the sender both share, their paced
waits, and the monitor thread of the controller. It proves what these loops keep over whole runs.

## How a run is modelled

The code is driven by an environment it cannot predict: buffer reads, queue timeouts, the clock, the
running flag, timestamp estimates, random draws. Each of these is an arbitrary sequence.

- Flag reads, buffer reads, passes of the generator and HSIEvent pushes are finite scripts. When a
  script ends, the observation of the run ends there, and the method returns saying where the run
  stands (`Retrying`, `Unobserved`, ...). As every interaction with the environment can be the last
  one of its script, a contract over all scripts holds at every moment of every run, also of a run in
  which a queue never recovers.
- Raw pushes, random draws and delays are arbitrary infinite sequences, as they never keep a loop from ending.
- Time is an integer count of nanoseconds. Work takes any time, and a sleep wakes up any time after it should: the
  environment gives one delay for each. All time that passes is sleep or delay (`Pacing.Clock.Valid`), and the record
  of a run says how many of the delays had been met at each of its points, so that how late a run is follows from the delays.
- Counters are 64-bit and wrap (`Words.Tally`); the ghost `Ledger` holds what really happened.

`HSIEventSender` is a base class in the source; here a worker owns one.

| file | models |
|---|---|
| Words.dfy, Subsequences.dfy, RealArithmetic.dfy, BitVectors.dfy | machine integers, counters, timestamp words, the clock-tick offset; picking by a mask; products of reals; single bits |
| HSITypes.dfy | HSIEvent, the raw frame and its order |
| HSIEventSender.dfy | the sender and its delivery ledger |
| ReadoutEvents.dfy, ReadoutProperties.dfy | the filter-map a readout run should compute, and its laws |
| BufferHistory.dfy | the bounded history of buffer occupancies |
| HSIReadout.dfy | the readout worker |
| Pacing.dfy | sliced sleeping, for generator and controller |
| SignalMaps.dfy, GeneratorEvents.dfy | emulated signal maps; what a generator run should send |
| GeneratorRuns.dfy | the timing record of a generator run and its laws |
| GeneratorControl.dfy | configure, start and stop as a state machine |
| FakeHSIEventGenerator.dfy | the generator's commands and worker |
| HSIController.dfy, ControllerThreads.dfy | the monitor loop; its interleaving with the command thread |

The contracts of the workers say what they reach in terms of functions of what was read and drawn
(ReadoutEvents.dfy, GeneratorEvents.dfy). What those functions mean is then proved without them, by position, word,
bit and number: `MessagesOfRun` of either worker ties the events and frames on the queues to the words of the buffers, or
to the signals and estimates of the passes and the configured fields, and `MonitorRunExactly`, `ConfigureInOrder`,
`LastRateCounts` and `WindowMoves` do the same for the monitor, the two threads, the rate and the history.

## What the proofs found

- With an event period of at most 2 ms the generation loop never reads the running flag, so once it has begun it never
  stops (`GeneratorRuns.ShortPeriodsNeverStop`; `ThousandHertz` and `ClearedFlagUnread` give a configuration and a run).
  Given a cleared flag and a queue that takes enough, a run ends stopped exactly at trigger rates up to 10^6 / 2001 Hz
  (`StoppedByFlagAtLowRates`). The wait for a first timestamp, before the loop, is handed the flag too and can
  end the worker at any rate.
- A second start without a stop in between, even after a start that threw, leaves the time-sync callback with an
  estimator that is gone until the new callback is installed; without such a start that never happens
  (`GeneratorControl.LiveExactlyWithoutRestart`, an if-and-only-if; `SecondStartDangles` gives the commands).
- Without delays the generator keeps its schedule to the tick, and no pass is later than the delays of one pass as long as
  these fit a period (`LatenessIsBounded`); beyond that it falls further behind with every pass (`FallsBehind`). The
  monitor counts from the end of a collection instead, so its schedule drifts by the collections (`CollectionsApart`).
- An io reset that throws leaves the monitor stopped (`ControllerThreads.FailedResetLeavesNoMonitor`); apart from a scrap
  no command stops it, however it is left (`MonitorAfterCommand`).
- The occupancy history keeps 1001 counts, not the 1000 its guard suggests.
- The number of events in a buffer is computed in 32 bits; a buffer of 2^32 events or more would lose events
  (`HugeBufferIsLost`). The firmware reports its word count in 16 bits (plugins/HSIReadout.cpp:150-152), so this is a limit
  of the code and not of the device. The cutting of the word stream into buffers is irrelevant exactly when there is no
  such buffer (`ReadoutProperties.StreamDeterminesEvents`).
- A timestamp offset that carries some estimates of a run over the end of the 64-bit range and not others breaks the order
  of the frames (`OffsetUnsortsFrames`), and nothing else does when estimates never step back
  (`GeneratorEvents.FramesSortedDespiteDrops`).
- A readout run with a raw sender and without a hardware fault completes exactly when the HSIEvent queue takes as many
  pushes as there are accepted events (`CompletesExactly`); until then it retries.
- The comment on the frame size speaks of 24 bytes (include/hsilibs/Types.hpp:29-32); the code says 28, seven words, and
  the model follows the code.

## Model

| member | source | states |
|---|---|---|
| Words.TallyIsModulo | include/hsilibs/HSIEventSender.hpp:70-72 | a 64-bit counter shows the true count modulo 2^64, and the true count itself below 2^64 |
| Words.TallyAdd | plugins/HSIReadout.cpp:171 | adding a batch to a wrapping counter in one step is counting its events one by one |
| Words.JoinIsBitwiseOr | plugins/HSIReadout.cpp:186 | the arithmetic join of two timestamp words is the source's OR of the low word and the shifted high word, for all words |
| Words.SplitJoin | plugins/FakeHSIEventGeneratorModule.cpp:277-278 | splitting a timestamp into words and joining them are inverse to each other, in both directions |
| Words.OffsetIsBijective | plugins/FakeHSIEventGeneratorModule.cpp:262-264 | every 64-bit timestamp is the image of exactly one estimate under the signed offset |
| Words.OffsetKeepsOrder | plugins/FakeHSIEventGeneratorModule.cpp:262-264 | the offset keeps two estimates in order if and only if both wrap alike |
| Subsequences.KeptReadsMarkedPositions | plugins/HSIReadout.cpp:193-202 | picking by a mask takes each marked element once, in order, and invents none |
| HSITypes.Frame.WithTimestamp | include/hsilibs/Types.hpp:48-56 | setting a timestamp is what getting it returns, and touches no other word |
| HSITypes.FrameIsItsWords | src/HSIEventSender.cpp:93-94 | the copy into a frame keeps each of the seven words in its place, and the frame is nothing but them |
| HSITypes.SortedDespiteDrops | include/hsilibs/Types.hpp:43-46 | frames are sorted under `<` if and only if they stay so whatever subset of them is dropped |
| EventSending.FirstSuccess | src/HSIEventSender.cpp:72-85 | the retry loop ends at the first attempt that succeeds, all before it having failed |
| EventSending.PushFollows | src/HSIEventSender.cpp:73-84 | a ledger that agrees with the push script still does after one more attempt: sent events are the successes, timeouts the failures |
| EventSending.OfferFollows | src/HSIEventSender.cpp:103-114 | a ledger that agrees with the raw script still does after one more offer: frames delivered and dropped are what the script says |
| EventSending.PushesAddUp | src/HSIEventSender.cpp:72-85 | the successes of two stretches of the script add up to those of the whole |
| EventSending.Ledger.OfferingKeepsBalance | src/HSIEventSender.cpp:103-114 | a raw frame that is offered ends up delivered, in order, or counted as dropped and as a failure |
| EventSending.HSIEventSender.ResetCounters | plugins/HSIReadout.cpp:125-129 | the counters and the ledger of a new run are empty, and the run starts where the two scripts stand |
| EventSending.HSIEventSender.ReadyToSend | src/HSIEventSender.cpp:55-62 | a probe succeeds if and only if there is a sender and it is ready |
| EventSending.HSIEventSender.TryToSend | src/HSIEventSender.cpp:73-84 | one attempt either delivers the event and updates both sender fields, or counts one failure and changes nothing else, as the script says |
| EventSending.HSIEventSender.SendHsiEvent | src/HSIEventSender.cpp:64-88 | the event is delivered exactly once, after as many counted timeouts as there are failures before the first success, or not at all while still retrying; nothing else is lost or duplicated |
| EventSending.HSIEventSender.SendRawHsiData | src/HSIEventSender.cpp:90-115 | the frame is offered once and dropped on timeout; without a raw sender nothing changes and the exception is reported |
| EventSending.HSIEventSender.FailsExactly | src/HSIEventSender.cpp:71-114 | a run reports no failure if and only if no push of either kind met a timeout, and then every frame offered was delivered |
| EventSending.HSIEventSender.FramesTaken | src/HSIEventSender.cpp:103-114 | the frames on the raw queue are, in order, exactly those offered whose push the script lets succeed |
| ReadoutEvents.EmulatedTriggerIsBitSeven | plugins/HSIReadout.cpp:216-220 | the trigger of the emulation mode is bit 7 alone |
| HSITypes.FrameHeaderBits | plugins/HSIReadout.cpp:230 | the frame header has bit 6 and bit 0 set, for detector 1 and version 1 |
| ReadoutEvents.AcceptedOneMore | plugins/HSIReadout.cpp:222-249 | an accepted event adds exactly its own HSIEvent and frame to the end of the two streams and changes no rejection count |
| ReadoutEvents.RejectedOneMore | plugins/HSIReadout.cpp:193-202 | a rejected event adds to exactly one rejection count and to neither stream |
| ReadoutEvents.VerdictsPartition | plugins/HSIReadout.cpp:193-202 | events read = accepted + bad headers + zero timestamps, and the accepted ones are those the filter keeps |
| ReadoutEvents.AllEventsConcat | plugins/HSIReadout.cpp:135-177 | the events of passes that come together come together, whatever mode each pass is in |
| ReadoutEvents.OccupanciesConcat | plugins/HSIReadout.cpp:147-153 | so do the counts that go into the history |
| ReadoutProperties.DeliveredAreTheAccepted | plugins/HSIReadout.cpp:172-226 | the delivered stream is each event that passes both checks once, in the order read, and nothing else |
| ReadoutProperties.StreamEventsConcat | plugins/HSIReadout.cpp:163-183 | cutting into events commutes with joining word streams at five-word boundaries |
| ReadoutProperties.StreamDeterminesEvents | plugins/HSIReadout.cpp:135-177 | in a constant emulation mode the events read depend on the joined words of the whole-event buffers alone, if and only if no buffer holds 2^32 events; otherwise fewer are read |
| ReadoutProperties.ChunkingIndependence | plugins/HSIReadout.cpp:147-263 | two ways of cutting one word stream, with empty, malformed and failed reads between, give the same events and frames |
| ReadoutProperties.HugeBufferIsLost | plugins/HSIReadout.cpp:165-172 | a buffer of 2^32 events passes the length check and nothing of it is read |
| ReadoutProperties.WordStreamConcat | plugins/HSIReadout.cpp:163-172 | the joined words of passes that come together come together |
| ReadoutProperties.OnePass | plugins/HSIReadout.cpp:147-165 | a buffer of 5n words contributes all of them, for every n, any other read none; a read without exception adds one occupancy |
| ReadoutProperties.EventsOfBuffer | plugins/HSIReadout.cpp:165-183 | a buffer of 5n words is n events, and header, timestamp words, data and trigger of the i-th are words 5i to 5i + 4, or 0x80 for the trigger in emulation mode |
| ReadoutProperties.HeaderHalves | plugins/HSIReadout.cpp:188-196 | device and counter are the upper and lower half of the header word, and a header is bad if and only if the upper half is not 0xaa00 |
| ReadoutProperties.MessagesOfStream | plugins/HSIReadout.cpp:172-249 | in a constant emulation mode, with buffers below 2^32 events, an event is sent for exactly those five words of the joined stream whose header and timestamp words pass the checks, in order, and every field of it and every word of its frame is told from them by position |
| ReadoutProperties.FramesFollowEvents | plugins/HSIReadout.cpp:222-249 | the frames pushed follow a subsequence of the events sent and agree with them in timestamp, trigger and sequence, whatever is dropped |
| ReadoutProperties.FramesSortedDespiteDrops | plugins/HSIDataHandlerModule.cpp:55-59 | the frame stream is sorted for the binary search under every pattern of drops if and only if the accepted timestamps do not step back |
| ReadoutProperties.PackingRoundTrip | plugins/HSIReadout.cpp:179-236 | the five words can be read back from the seven-word frame if and only if the header check passes |
| ReadoutProperties.PackingInEmulation | plugins/HSIReadout.cpp:216-236 | in emulation mode all words but the trigger can be read back, and the trigger reads bit 7 |
| ReadoutProperties.PackingIsInjective | plugins/HSIReadout.cpp:216-236 | two accepted events share a frame if and only if they are equal, up to the trigger in emulation mode |
| BufferHistory.Window | plugins/HSIReadout.cpp:271-278 | the window is the last min(n, 1001) of the n counts of a history |
| BufferHistory.SumWithin | plugins/HSIReadout.cpp:291-295 | a sum of n counts lies between n times any bounds on the counts |
| BufferHistory.PartialSumsAreExact | plugins/HSIReadout.cpp:292-294 | no partial sum of the averaging loop reaches 2^53, so the loop is exact in a double |
| BufferHistory.MeanWithin | plugins/HSIReadout.cpp:295 | the mean lies between any bounds on the counts, so between their minimum and maximum |
| BufferHistory.SumConcat | plugins/HSIReadout.cpp:291-294 | sums add up wherever the counts are cut |
| BufferHistory.MeanWeighsAlike | plugins/HSIReadout.cpp:291-295 | changing any one of n counts by d changes n times the mean by exactly d |
| BufferHistory.WindowMoves | plugins/HSIReadout.cpp:271-278 | a push adds the new count to the sum of the window and, from the 1002nd push on, takes away the one of 1001 pushes before |
| Readout.HSIReadout.UpdateBufferCounts | plugins/HSIReadout.cpp:271-278 | after any history of pushes, over all runs, the deque is the window of that history |
| Readout.HSIReadout.ReadAverageBufferCounts | plugins/HSIReadout.cpp:280-299 | the average is the exact mean of the window, and 0 if nothing was ever pushed |
| Readout.HSIReadout.EmitEvent | plugins/HSIReadout.cpp:222-249 | one accepted event is sent before its frame is offered; the run then stands one event further with nothing tried beyond it, or is still retrying it at the end of the script, or ends for want of a raw sender; the ledger keeps agreeing with both scripts |
| Readout.HSIReadout.ProcessEvent | plugins/HSIReadout.cpp:174-250 | the header check comes before the timestamp check, a rejection sends nothing, and emulation overwrites the trigger of what is sent |
| Readout.HSIReadout.ProcessBuffer | plugins/HSIReadout.cpp:172-250 | the loop over one buffer refines the filter-map of its events |
| Readout.HSIReadout.RunPass | plugins/HSIReadout.cpp:135-263 | one pass refines the filter-map of what it read; timeouts, empty and malformed buffers contribute no event |
| Readout.HSIReadout.DoHsiWork | plugins/HSIReadout.cpp:119-269 | for every script of reads and queue outcomes the run delivers the filter-map of the passes it got to, or the prefix it had reached, with timeouts, drops and used pushes as the two queue scripts say since the start of the run, and with exact counters, last timestamps and history |
| Readout.HSIReadout.MessagesOfRun | plugins/HSIReadout.cpp:119-269 | in such a mode, wherever a run ends, its events and frames are those of the worthy five-word groups of its stream, in order, as far as it got, each told from its words; so are the readout counter, the sent counter and both last timestamps |
| Readout.HSIReadout.ReachedExtends | plugins/HSIReadout.cpp:172-250 | what a run had delivered when it was cut short is a prefix of the full result, whatever else the buffer held |
| Readout.HSIReadout.ReadoutLedger | plugins/HSIReadout.cpp:124-126 | at every moment no more is sent than read, and between events read = sent + bad headers + zero timestamps |
| Readout.HSIReadout.DeliveryLedger | src/HSIEventSender.cpp:71-85 | events sent = pushes of the script that succeeded since the run began; between events frames delivered + dropped = events sent, each as the raw script says; failures counted = failed pushes of both kinds |
| Readout.HSIReadout.CompletesExactly | plugins/HSIReadout.cpp:135-263 | with a raw sender and no hardware fault a run ends by its stop flag, all accepted events sent, if and only if the queue takes at least that many pushes |
| Readout.HSIReadout.NothingIsLost | plugins/HSIReadout.cpp:222-249 | with queues that take everything a completed run delivers every accepted event and frame, with failure counter 0 |
| Readout.CompletedRunsAgree | plugins/HSIReadout.cpp:147-263 | two completed runs over one word stream, cut differently, send the same events and end with the same readout and sent counters, rejection counts and last timestamps |
| Pacing.SlicesToCover | plugins/FakeHSIEventGeneratorModule.cpp:293-299 | the number of slices is the ceiling of period over slice |
| Pacing.MoreReads | plugins/FakeHSIEventGeneratorModule.cpp:299-307 | the loop condition holds for another read exactly while fewer than max(0, ceil(P/S) - 2) reads were made, for all periods and slices |
| Pacing.ReadsAtAll | plugins/FakeHSIEventGeneratorModule.cpp:299-307 | the flag is read at all if and only if the period is longer than two slices |
| Pacing.SlicedWait | plugins/FakeHSIEventGeneratorModule.cpp:293-310 | an undisturbed wait makes exactly max(0, ceil(P/S) - 2) flag reads, ends no earlier than due and no later than due or begun, plus the time lost in it, sleeps at most S between reads, 2S last and 3S after the last read; a cleared flag ends it with no further sleep; the number of sleeps is exact |
| Pacing.Clock.SleepUntil | plugins/FakeHSIEventGeneratorModule.cpp:306-311 | a sleep ends at its target or at once if that is past, plus one delay of the environment, and the time slept is accounted for |
| SignalMaps.SetSignal | plugins/FakeHSIEventGeneratorModule.cpp:214-216 | OR-ing `1 << i` into a map switches on bit i and no other, for all maps and bits |
| SignalMaps.Masking | plugins/FakeHSIEventGeneratorModule.cpp:254-255 | the masked map is the largest map that is both within the raw map and within the enabled signals |
| SignalMaps.MaskedAt | plugins/FakeHSIEventGeneratorModule.cpp:255 | bit by bit, a masked map holds the signals that are both active and enabled |
| SignalMaps.MeetExactly | plugins/FakeHSIEventGeneratorModule.cpp:255-260 | a masked map is not zero if and only if some active signal is enabled |
| SignalMaps.SignalsInOrder | plugins/FakeHSIEventGeneratorModule.cpp:216 | signal 0 is the lowest bit, and shifting a map right by one moves signal i + 1 to i |
| SignalMaps.GenerateSignalMap | plugins/FakeHSIEventGeneratorModule.cpp:203-226 | mode 1 takes exactly 32 draws and sets bit i if and only if draw i is not zero; mode 2 takes one; the others none |
| GeneratorEvents.OneMoreTriggered | plugins/FakeHSIEventGeneratorModule.cpp:260-288 | a triggered pass adds exactly its event and frame, with the next number, to the two streams |
| GeneratorEvents.DeliveredAreTheTriggered | plugins/FakeHSIEventGeneratorModule.cpp:254-272 | events correspond one-to-one and in order to the passes whose map meets the mask, numbered 1, 2, 3, ... without gaps |
| GeneratorEvents.TriggerBits | plugins/FakeHSIEventGeneratorModule.cpp:255 | the trigger map of a pass holds signal i if and only if it is active and enabled |
| GeneratorEvents.EmitsExactly | plugins/FakeHSIEventGeneratorModule.cpp:255-260 | a pass sends an event if and only if there is an estimator and some active signal is enabled |
| GeneratorEvents.MessagesOfPasses | plugins/FakeHSIEventGeneratorModule.cpp:254-282 | events are sent for exactly those passes, in order, and every field of the j-th event and every word of its frame is told from the j-th of them, signal by signal |
| GeneratorEvents.NumbersAreExact | plugins/FakeHSIEventGeneratorModule.cpp:266-282 | below 2^64 events the numbers are the true ones and frame word 6 is that number modulo 2^32 |
| GeneratorEvents.FrameDescribesEvent | plugins/FakeHSIEventGeneratorModule.cpp:270-282 | a frame agrees with its event, and the readout's join of its timestamp words is the shifted estimate |
| GeneratorEvents.FramesFollowEvents | plugins/FakeHSIEventGeneratorModule.cpp:270-288 | the frames pushed follow a subsequence of the events sent and agree with them pair by pair |
| GeneratorEvents.MapsInFrame | plugins/FakeHSIEventGeneratorModule.cpp:279-281 | raw and masked map can be read back bit by bit from frame words 3 and 5 |
| GeneratorEvents.TriggerIsMaskedMap | plugins/FakeHSIEventGeneratorModule.cpp:254-281 | the trigger of a sent frame is not empty and is within the enabled signals and within the raw map beside it |
| GeneratorEvents.FramesSortedDespiteDrops | plugins/FakeHSIEventGeneratorModule.cpp:262-281 | with estimates that do not step back, frames are sorted under every pattern of drops if and only if the offset wraps all estimates alike |
| GeneratorEvents.OffsetUnsortsFrames | plugins/FakeHSIEventGeneratorModule.cpp:262-281 | two increasing estimates and an offset of one tick whose frames are out of order |
| GeneratorRuns.BeginPass | plugins/FakeHSIEventGeneratorModule.cpp:251-254 | a pass begins no earlier than its target and before its own flag reads, and the timing record stays well paced |
| GeneratorRuns.WaitForNextPass | plugins/FakeHSIEventGeneratorModule.cpp:291-312 | the next pass is due exactly one period after this one whatever was lost meanwhile, or the record says how the run ended |
| GeneratorRuns.RateBound | plugins/FakeHSIEventGeneratorModule.cpp:249-312 | at most floor((T - t0) / P) + 1 passes have started by any time T, however sends are delayed |
| GeneratorRuns.StallsAreCaughtUp | plugins/FakeHSIEventGeneratorModule.cpp:293-312 | while passes lose at most d <= P each, lateness shrinks by P - d per pass until it is at most d, and no pass is early |
| GeneratorRuns.CatchesUpUnderDelays | plugins/FakeHSIEventGeneratorModule.cpp:293-312 | the same in terms of the delays of the environment: with each delay at most d and L = (flag reads per pass + 2) * d at most P, lateness shrinks by P - L per pass until it is at most L |
| GeneratorRuns.LatenessIsBounded | plugins/FakeHSIEventGeneratorModule.cpp:293-312 | under such delays every pass of a run starts between its target and L after it |
| GeneratorRuns.ExactWithoutDelays | plugins/FakeHSIEventGeneratorModule.cpp:293-312 | without delays every pass starts exactly at start + k * period |
| GeneratorRuns.NoLaterThanLost | plugins/FakeHSIEventGeneratorModule.cpp:293-312 | whatever the delays, a pass is at most as late as the sum of all delays since the start |
| GeneratorRuns.FallsBehind | plugins/FakeHSIEventGeneratorModule.cpp:293-312 | with each delay at least d every pass is at least L - P later than the one before |
| GeneratorRuns.FlagIsReadAtAll | plugins/FakeHSIEventGeneratorModule.cpp:296-300 | the worker reads its flag if and only if the period is longer than 2 ms |
| GeneratorRuns.ShortPeriodsNeverStop | plugins/FakeHSIEventGeneratorModule.cpp:299-310 | with a period of at most 2 ms no run reads the flag in its loop or ends stopped |
| GeneratorRuns.ClearedFlagUnread | plugins/FakeHSIEventGeneratorModule.cpp:299-310 | a run of two passes at 1000 Hz whose flag is cleared from the start and never read |
| GeneratorRuns.AtMostOneMorePass | plugins/FakeHSIEventGeneratorModule.cpp:251-310 | once the flag is cleared for good, at most one pass, so at most one event, begins after the reads already made |
| GeneratorRuns.PassOfRead | plugins/FakeHSIEventGeneratorModule.cpp:299-307 | every flag read falls into one pass |
| GeneratorRuns.WorkerStops | plugins/FakeHSIEventGeneratorModule.cpp:251-318 | a run whose flag is found cleared in pass k, and whose queue takes more than k events, ends stopped in pass k at the latest |
| GeneratorRuns.StopIsNoticed | plugins/FakeHSIEventGeneratorModule.cpp:299-310 | with a period above 2 ms, at most 3 ms of sleep lies between any two consecutive flag reads of a run, across passes too |
| GeneratorRuns.EndsBeforeNextPass | plugins/FakeHSIEventGeneratorModule.cpp:299-318 | a stopped run ends before its next pass would have been due, or later by at most what the delays of one pass can lose, and does not sleep after its last read |
| GeneratorControl.FirstReady | plugins/FakeHSIEventGeneratorModule.cpp:153-162 | the probing ends at the first probe that finds the sender ready |
| GeneratorControl.StartNeedsReadySender | plugins/FakeHSIEventGeneratorModule.cpp:153-170 | a start spawns a worker if and only if there is a sender and one of eleven probes finds it ready |
| GeneratorControl.PeriodFitsRate | plugins/FakeHSIEventGeneratorModule.cpp:108-109 | the period is the only whole number P with P * rate <= 10^6 < (P + 1) * rate |
| GeneratorControl.ConfigureTakesRate | plugins/FakeHSIEventGeneratorModule.cpp:101-109 | in every state a positive rate becomes the configured and the active one, any other leaves both, the period is that of the rate in force, and nothing else changes |
| GeneratorControl.StartAndStop | plugins/FakeHSIEventGeneratorModule.cpp:126-194 | a start makes a new estimator and hooks it, a stop removes callback, estimator and worker, and neither changes rate or period |
| GeneratorControl.LastRateCounts | plugins/FakeHSIEventGeneratorModule.cpp:101-109 | at the end of any run of commands the rate in force is the positive one configured last |
| GeneratorControl.NoRateCounts | plugins/FakeHSIEventGeneratorModule.cpp:101-109 | without a positive rate configured it is the one before the run |
| GeneratorControl.CommandKeepsRateInvariant | plugins/FakeHSIEventGeneratorModule.cpp:101-111 | every configure, valid or rejected, start and stop keeps: active rate = configured rate > 0, with its period |
| GeneratorControl.RateError | plugins/FakeHSIEventGeneratorModule.cpp:108-109 | the rate produced exceeds the configured one by less than rate / P |
| GeneratorControl.StoppableRates | plugins/FakeHSIEventGeneratorModule.cpp:292-299 | the period is above 2000 us if and only if 2001 * rate <= 10^6 |
| GeneratorControl.ThousandHertz | plugins/FakeHSIEventGeneratorModule.cpp:101-109 | a rate of 1000 Hz is accepted and gives a period of 1000 us |
| GeneratorControl.StartIsLiveUnlessHooked | plugins/FakeHSIEventGeneratorModule.cpp:132-138 | inside a start the callback always refers to the existing estimator if and only if none was installed before |
| GeneratorControl.LiveExactlyWithoutRestart | plugins/FakeHSIEventGeneratorModule.cpp:126-194 | over every executable run of commands, in every intermediate state: callback live, and worker with estimator, callback and sender, if and only if no start follows a start without a stop between |
| GeneratorControl.RunsFromPowerOn | plugins/FakeHSIEventGeneratorModule.cpp:33-49 | both results from the state the constructor leaves |
| GeneratorControl.SecondStartDangles | plugins/FakeHSIEventGeneratorModule.cpp:132-138 | two starts in a row from the constructor's state pass through a state whose callback has no estimator |
| FakeGenerator.FakeHSIEventGenerator.DoConfigure | plugins/FakeHSIEventGeneratorModule.cpp:96-124 | an invalid rate keeps the old one, all other settings are taken over, and the rate invariant is kept |
| FakeGenerator.FakeHSIEventGenerator.WaitUntilReady | plugins/FakeHSIEventGeneratorModule.cpp:153-168 | succeeds if and only if one of at most eleven probes does, and stops at the first that does |
| FakeGenerator.FakeHSIEventGenerator.DoStart | plugins/FakeHSIEventGeneratorModule.cpp:126-173 | estimator, callback, probes and worker thread in this order, state by state; it throws exactly if all eleven probes fail |
| FakeGenerator.FakeHSIEventGenerator.DoStop | plugins/FakeHSIEventGeneratorModule.cpp:175-194 | join, callback removal, estimator release and rate update in this order, state by state |
| FakeGenerator.FakeHSIEventGenerator.EmitEvent | plugins/FakeHSIEventGeneratorModule.cpp:260-288 | the event of a pass carries the shifted estimate, the masked map and the next number; it is sent once, then its frame is offered, and the ledger keeps agreeing with both queue scripts |
| FakeGenerator.FakeHSIEventGenerator.EmitPass | plugins/FakeHSIEventGeneratorModule.cpp:253-289 | a pass sends an event if and only if its map meets the mask and there is an estimator |
| FakeGenerator.FakeHSIEventGenerator.RunPass | plugins/FakeHSIEventGeneratorModule.cpp:251-317 | one pass keeps schedule, ledger and draws; the branch for a rate that is not positive is unreachable |
| FakeGenerator.FakeHSIEventGenerator.DoHsiWork | plugins/FakeHSIEventGeneratorModule.cpp:228-325 | for every script the run draws its maps in order and nothing more, starts its first pass at once and no pass early, each as late as the delays it met allow, polls the flag as due, stops the clock where the record ends, and delivers the events of its triggered passes, or all but the one still retried, with timeouts, drops and used pushes as the queue scripts say; without a timestamp nothing changes |
| FakeGenerator.FakeHSIEventGenerator.MessagesOfRun | plugins/FakeHSIEventGeneratorModule.cpp:228-325 | wherever a run ends, its events and frames are those of the passes with an enabled signal active, in order, as far as it got, with the configured device, run number, mask and offset; so are the sent counter and both last timestamps |
| FakeGenerator.FakeHSIEventGenerator.MapsOfRun | plugins/FakeHSIEventGeneratorModule.cpp:203-226 | the map of pass k is all signals in mode 0, draws 32k to 32k + 31 bit by bit in mode 1, draw k in mode 2, and empty in any other |
| FakeGenerator.FakeHSIEventGenerator.GeneratedLedger | plugins/FakeHSIEventGeneratorModule.cpp:266-272 | at every moment generated - sent is 0, or 1 inside the retry loop, and between events last sent = last generated |
| FakeGenerator.FakeHSIEventGenerator.DeliveryLedger | src/HSIEventSender.cpp:71-85 | events sent = pushes of the script that succeeded since the run began; between events frames delivered + dropped = events sent, each as the raw script says; failures counted = failed pushes of both kinds |
| FakeGenerator.FakeHSIEventGenerator.NothingIsLost | plugins/FakeHSIEventGeneratorModule.cpp:260-288 | with queues that take everything a run delivers the event and frame of every triggered pass, with failure counter 0 |
| FakeGenerator.FakeHSIEventGenerator.RetryingUsedAllSuccesses | src/HSIEventSender.cpp:72-85 | a run found retrying has used up every successful push of the script, fewer than it has begun passes |
| FakeGenerator.FakeHSIEventGenerator.StopIsReached | plugins/FakeHSIEventGeneratorModule.cpp:251-318 | termination of the worker across pass, slice and retry loops: enough successful pushes and a cleared flag read make it stop |
| FakeGenerator.FakeHSIEventGenerator.StoppedByFlagAtLowRates | plugins/FakeHSIEventGeneratorModule.cpp:251-318 | given a cleared flag read, a raw sender, and more passes and successful pushes than reads before it, a run ends stopped if and only if 2001 * rate <= 10^6 |
| Controller.ReadsInWait | plugins/HSIController.cpp:347-363 | 500 ms in slices of 10 ms make 48 flag reads |
| Controller.AdmissionsAreSet | plugins/HSIController.cpp:331-345 | the reads that admit collections found the flag set |
| Controller.NextHeadFollows | plugins/HSIController.cpp:347-366 | the next read at the head of the loop is 49 reads on, or right after the first cleared read in between |
| Controller.AdmissionsExactly | plugins/HSIController.cpp:331-366 | the admitting reads are the first head read, if set, and each head read that follows, until one is cleared |
| Controller.HSIController.Collect | plugins/HSIController.cpp:331-345 | a read at the head of the loop leads to a collection if it finds the flag set, and ends the run if it finds it cleared |
| Controller.HSIController.WaitForNextCollection | plugins/HSIController.cpp:347-366 | an undisturbed wait makes 48 reads and takes at least 500 ms, with at most 30 ms of sleep between any two reads |
| Controller.HSIController.GatherMonitorData | plugins/HSIController.cpp:328-368 | for every flag script the run makes exactly the collections the script admits, one per set read at the head of the loop, the first at once, and stops at the first cleared one; collections are 500 ms apart on the clock while the flag is set and at most 500 ms and the delays between them apart in any case; it sleeps at most 30 ms between reads and not at all after the last |
| Controller.MonitorRunExactly | plugins/HSIController.cpp:328-368 | the same of a run, told from its flag script: what admits each collection, which read ends the run, and that there is none after it |
| Controller.MonitorPolls | plugins/HSIController.cpp:347-366 | at most 30 ms of sleep lie between any two flag reads of a run |
| Controller.MonitorStops | plugins/HSIController.cpp:331-367 | two cleared flag reads in a row stop the monitor at the second of them at the latest |
| Controller.CyclesInStep | plugins/HSIController.cpp:347-366 | with the flag set up to read j and cleared after it, the collections are exactly those admitted by every 49th read, ceil(j / 49) in number |
| Controller.CollectionsApart | plugins/HSIController.cpp:347-366 | while the flag is set, collection i comes at least i * (500 ms + w) after the first if each collection takes at least w, so the schedule drifts, and at most i * 500 ms and the delays met between them after it |
| Controller.MonitorPace | plugins/HSIController.cpp:347-366 | the same on the clock of a run: collection i ends between i * 500 ms after the start and that plus the time lost, and n collections take the monitor at least (n - 1) * 500 ms |
| Controller.ExactWithoutDelays | plugins/HSIController.cpp:347-366 | without delays collection i ends exactly i * 500 ms after the start |
| ControllerThreads.StepKeepsInv | plugins/HSIController.cpp:83-128 | every step of either thread keeps the invariant on flag, monitor and command |
| ControllerThreads.TwoThreadSafety | plugins/HSIController.cpp:116-128 | in every interleaving no collection overlaps an io reset, and the monitor runs during the HSI and endpoint resets and the HSI configure |
| ControllerThreads.ConfigureInOrder | plugins/HSIController.cpp:116-128 | in every interleaving the HSI configure is reached only after the HSI reset and then the endpoint reset of the same command, and only after an io reset before them if and only if io control is on |
| ControllerThreads.ConfigureCanComplete | plugins/HSIController.cpp:116-128 | with and without io control an interleaving from power-on reaches the HSI configure and ends with the monitor running |
| ControllerThreads.ScrapUndoesConfigure | plugins/HSIController.cpp:90-114 | from there the device can be started, stopped and scrapped, back to the state of power-on |
| ControllerThreads.MonitorCycle | plugins/HSIController.cpp:331-366 | in every interleaving, while the flag stays set, the monitor makes 51 steps from a collection to the head of its loop: processing, 49 positions of the wait, and out of it |
| ControllerThreads.MonitorUntilStopped | plugins/HSIController.cpp:65-128 | in every interleaving a monitor that was started runs until a stop is requested, whatever commands come and whichever of them throw |
| ControllerThreads.MonitorAfterCommand | plugins/HSIController.cpp:65-128 | a command ends without a monitor if and only if it was a scrap, was left inside the io reset, or found none and started none |
| ControllerThreads.FailedResetLeavesNoMonitor | plugins/HSIController.cpp:116-128 | an interleaving whose io reset throws and leaves no monitor behind |
| ControllerThreads.JoinIsNeeded | plugins/HSIController.cpp:121-123 | if a stop did not join, an interleaving would collect during an io reset |
| ControllerThreads.JoinEnds | plugins/HSIController.cpp:331-367 | after a stop request the monitor can always move and returns within four steps |

## Left out

- uHAL, firmware nodes and `read_data_buffer`: foreign hardware calls; only their results are inputs. Any exception other than the UDP timeout ends a run as `HardwareFailed`.
- IOManager, ERS, logging, JSON and OKS configuration: plumbing; only success or timeout of a push, readiness and the configured values are kept. A push that throws anything else is not modelled.
- dfmessages::HSIEvent, detdataformats::HSIFrame, TimestampEstimator and WorkerThread are not part of this model: an event keeps its fields at the width they are given, a frame is its seven words in the order they are packed, the estimator returns any 64-bit value, and starting and stopping a thread spawn and join it. In ControllerThreads a thread refuses to be started while it runs and stopped while it does not; other failures of a start or a join are not modelled.
- HSIEventSender constructor and init: plain wiring of connections; whether a sender exists is an input.
- The time-sync receiver: installing a callback replaces the one before it, and removing it always succeeds.
- What a dangling callback does: a restart without a stop is shown to be the only way to leave one, not what happens after it.
- The order in which one command of the generator stores rate, active rate and period: it is one step.
- Reconfiguring the generator while its worker runs: the worker sees one configuration per run.
- The sleep between readout passes: the readout worker promises nothing about time.
- FakeGenerator.FakeHSIEventGenerator.DoConfigure: rates are ideal real numbers, so the rounding of float and double and a period beyond 64 bits are not modelled.
- Readout.HSIReadout.ReadAverageBufferCounts: the sum is exact in a double as proved, but the rounding of the final division is not modelled.
- Random distributions: draws are arbitrary values and nothing statistical is proved.
- The byte copy of the seven packed words into the frame payload is modelled as taking the words over one by one.
- The mutex of the occupancy history: its two operations are atomic in the model.
- HSIDataHandlerModule, HSIFrameProcessor and the data-handling models behind them: thin wrappers over code outside the repository; only the order their binary search needs is used.
- TimingController, the individual hardware commands and process_device_info: mostly one call and a counter.
- HSIReadout configure, start, stop and scrap: they set one value or pass a call on.
