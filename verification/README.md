# OMGP control-plane stack: a Dafny model

OMGP connects a host to up to fifteen backplanes over one half-duplex trunk. Its control plane is four stateful layers
over a few codecs, and this project models all of them:

- **Health** (`Health*.dfy`): the node lifecycle, the declare rule, the alternating-rate probes, the reference pass over
  every enrolled node, the two clear rules and the write-off of lost probes.
- **Master and Responder** (`Master*.dfy`, `Responder*.dfy`, `Wire.dfy`): the stop-and-wait request, retry and replay
  protocol with its microsecond arithmetic. `LinkSystem.dfy` composes the two over a lossy, delaying FIFO channel,
  `LinkTime.dfy` says when the acts of such a run can happen, and `LinkWindow.dfy` shows the sequence-number window exact.
- **CoreEngine** (`Core*.dfy`, `Ring.dfy`, `Delivery.dfy`): the superframe scheduler, the node-id allocator, the
  reference-counted descriptor cache that is also the reassembly buffer, and the delivery of callbacks.
- **Codecs** (`Crc16.dfy`, `GoldenVectors.dfy`, `Frame*.dfy`, `Deframer.dfy`, `ReferenceLink.dfy`, `Utf8.dfy`,
  `Bitmap.dfy`, `Descriptor*.dfy`, `Text*.dfy`, `Canonical*.dfy`): framing and its CRC, descriptors and UTF-8, and the
  canonical text of descriptors.

Each stateful entity is a class over fields and arrays whose methods update them in place. Its `Value()` is a plain
datatype, and every method states its whole new value as a function of the old one. The protocol results are lemmas
about those functions, over every state, every call and every run, so they hold of the classes as well. Engines keep a
history (bytes read, attempts, notices, requests issued) that no decision reads; the whole-run statements are about it.
The laws in `*Laws.dfy`, `HealthNotices.dfy`, `HealthRotation.dfy`, `MasterAnswers.dfy`, `CoreProgress.dfy` and
`CoreDiscovery.dfy` among others say what must happen, in states, frames, calls and numbers, without the functions they
are about.

The clock, the wire and the handler are parameters: `now` is an argument, `ByteWire` is a queue of bytes with their start
instants, and the handler is an arbitrary function of its call number and the request. Bytes become readable at their
start bit and time does not run backwards (`Timely`, `AllTimely`); nothing else is assumed of other stations.

Protocol constants are those of `protocol/omgp-protocol.yaml`.

## Where a property needs care

- An answer belongs to its own transaction only inside the window of 16 sequence numbers. `LinkWindow.WindowIsExact`
  proves the window exact: with it open when a transaction is begun, every answer is its own; with it closed,
  `StaleContinuation` gives a run that is not, from any such state. `LinkStale.StaleAnswer` is one such run from the start.
  Every act of these runs is at an instant both stations allow (`LinkTime.Allowed`): time does not run backwards, attempts
  wait out their deferral and time out at their deadline, responses keep the turnaround, and only one frame is on the wire.
- One application of a slot map need not be a fixed point: a vacated id can serve an earlier slot that was short.
  `CoreSettling.OnceIsNotFixed` is such a run, and `OnceIsFixedExactly` says for which tables and maps it is one; two
  applications always are.
- A decoded frame need not be what encoding its fields gives: two control bits are ignored on receipt.
  `ReferenceLink.ReservedBitsLost` gives three such buffers for every frame, and `DecodedIsEncoded` says exactly when it is.
- The data model document for the link layer (`specs/002-trunk-link-layer/data-model.md`, section 7) words the fallback
  clear as needing a failed last pass outcome, and enrols the recorded answerer. The code clears on any last pass outcome
  that is not a reference-rate answer from a non-answerer, and enrols every address that answered at the fallback rate.
  The model follows the code: `HealthClears.SuccessClearsAtFallback` is a run that shows both, `FailureClearsIff` says
  exactly when code and document agree on the outcome, and `FallbackClearEnrols` who is enrolled.
- A response is accepted however long it takes once its opening FLAG has been read in time. A poll at or past the
  deadline that has read no byte of it times the attempt out, whatever is on its way: `MasterAnswers.Bring` says so much
  of the polls and no more, and `MasterAnswers.SilenceEnds` is the other side.
- In the latency bound, n is the longer of a transaction's first and retry encodings: the retry bit can change which
  bytes need escaping, as `FrameRetry.RetryCanBeLonger` shows.

## Model

| member | source | states |
|---|---|---|
| HealthRuns.FaultExactlyWhenAllFail | link/health.cpp:85-746 | After any sequence of calls a fault stands if and only if some address has left UNENROLLED and none is ENROLLED, deferred answers, both clears and write-offs included |
| HealthRuns.RunKeeps | link/health.cpp:85-841 | Every reachable tracker satisfies the whole invariant: table, fault flag, log, rates and the reference pass's books |
| HealthRuns.LogReconstructs | link/health.cpp:290-746 | Replaying the notice log alone gives back every address's state and the fault flag, with no alert outstanding |
| HealthRuns.ReplayableIsLifecycle | link/health.cpp:290-746 | In any log a listener can replay, an address's notices are a prefix of ENROLLED (SUSPECT [OFFLINE] RECOVERED)* ending in the state replayed |
| HealthRuns.ReplayableBusNotices | link/health.cpp:593-746 | Bus notices alternate: as many recoveries as faults but for one while a fault stands, and one alert per fault |
| HealthRuns.NoticesOfARun | link/health.cpp:593-746 | Over every run each address lives one lifecycle, and the bus_faults counter is the number of faults, of alerts, and of recoveries plus the one standing |
| HealthRuns.EpisodeEnds | link/health.cpp:85-288 | A fault ends on a call if and only if it is a reference-rate answer from a non-answerer or the call that accounts for the last pass probe; the rate pinned is the reference rate in the first case and the fallback rate in the second |
| HealthPass.PassHandsOutInOrder | link/health.cpp:427-487 | At every point of every run a running pass has handed out exactly the enrolled addresses behind its cursor, each once, ascending, and what it still owes is those ahead plus the one in flight |
| HealthPass.HandOutKeepsPlace | link/health.cpp:427-487 | The next pass probe goes, at the reference rate, to the least enrolled address not yet handed out |
| HealthPass.FallbackOnlyAfterFullPass | link/health.cpp:489-505 | A clear at the fallback rate happens only when every enrolled address has been handed out, the last one is being accounted for, and its outcome is no reference-rate answer |
| HealthPass.RoundSpendsOne | link/health.cpp:427-505 | A probe and its outcome, or its window running out, takes exactly one from what the pass owes, never below zero, or ends the episode |
| HealthPass.EpisodeEndsWithinThePass | link/health.cpp:427-505 | From k probes owed, k such rounds end the fault whatever their outcomes |
| HealthPass.CallSpends | link/health.cpp:427-505 | Any call that leaves the fault standing takes from the pass one probe if it accounts for the one in flight and nothing otherwise, and some are still owed |
| HealthPass.EpisodeEndsOnceAccounted | link/health.cpp:427-505 | From k probes owed, whatever ticks, stray outcomes, polls, rate selections and repeated requests come in between, the fault has ended by the time k pass probes have been accounted for |
| HealthPass.RateBitsAreTrue | link/health.cpp:549-591 | For every address owed an outcome, the stored rate bit is the rate its last probe or poll was issued at, across declares, clears and rate selections; without polls during a fault a probe handed back carries that same rate |
| HealthClears.FailureClearsIff | link/health.cpp:252-287 | The last pass outcome clears at the fallback rate exactly when it is a failure, if and only if a success there would come from an address that neither answered nor is read at the fallback rate |
| HealthClears.FallbackClearEnrols | link/health.cpp:689-746 | A clear at the fallback rate, by an outcome or by a write-off, enrols every address that answered there |
| HealthClears.SuccessClearsAtFallback | link/health.cpp:252-287 | A run, in order of time and with every outcome reported of an address owed one, in which a successful last pass outcome clears at the fallback rate and enrols an address other than the recorded answerer |
| HealthLaws.SentIsRecorded | link/health.cpp:549-746 | After any calls the rate, live and across-clear bits and the issue instants say of every address what was last sent to it, at what rate, whether its outcome is still owed and whether a clear has overtaken it, told from the calls |
| HealthNotices.FailuresAreInARow | link/health.cpp:290-328 | After any calls an ENROLLED address has as many failures as it has had failed outcomes since its last success, counted in the calls |
| HealthNotices.NoticesAreDue | link/health.cpp:290-353 | Each call sends an address exactly the notices due to it: SUSPECT on the third failure in a row of an ENROLLED one, OFFLINE when a SUSPECT one has been so for the stated time, ENROLLED and RECOVERED on a success or at a clear that counts its answer; told from the calls and the state before |
| HealthRotation.ProbesTheWaiting | link/health.cpp:504-537 | Outside a pass the address returned is UNENROLLED, OFFLINE, or SUSPECT while a fault stands, and the host if and only if there is none |
| HealthRotation.ProbeComesNearer | link/health.cpp:504-537 | A probe request outside a pass returns such an address itself or brings the rotation strictly nearer to it |
| HealthRotation.RotationIsFair | link/health.cpp:504-537 | Whatever calls come in between, an address that waits at each of fifteen probe requests outside a pass is handed out by one of them |
| HealthRotation.HuntsTakeTurns | link/health.cpp:504-537 | After any calls: the first probe of an episode outside a pass goes at the fallback rate and the next at the reference rate, in turns counted in the calls; outside a fault at the rate in use |
| HealthPolls.PollsAreDue | link/health.cpp:364-414 | After any calls an address is due for a poll if and only if no fault stands and it is ENROLLED, or SUSPECT and last polled at least ten polling intervals ago |
| HealthRates.RatesFollowCalls | link/health.cpp:539-841 | Every call: a selection of a trunk rate sets both rates and counts one change if either was another; any other call counts one change exactly if the rate on the wire has moved, and moves the rate in use only by ending a fault; a request leaves its probe's rate on the wire |
| LinkSystem.HandledAtMostOnce | link/responder.cpp:82-162 | Over any losses and delays of a FIFO channel, the handler runs at most once per transaction begun, in order, each time on that transaction's own request |
| LinkSystem.AnswerIsCongruent | link/master.cpp:505-543 | An accepted answer is the handler's result for a transaction with the same number mod 16, and it is the transaction's own if and only if that one is fewer than 16 behind |
| LinkSystem.AnswersAreOwn | link/master.cpp:505-543 | If fewer than 16 transactions to the node separate each begin from the last one handled and from every frame in flight, every answer is the handler's result for that very transaction |
| LinkWindow.WindowIsExact | link/master.cpp:505-543 | After any run inside the window and with nothing open, the window is open if and only if every continuation the stations' clocks and deadlines allow, with one more transaction to the node begun now, leaves every answer its own; while it is open this holds of continuations at any instants at all |
| LinkWindow.StaleContinuation | link/responder.cpp:100-157 | From any such run that leaves the window closed, for any handler, any two stations and any later instant, a continuation that begins one transaction, keeps to both stations' clocks and deadlines, and ends with an answer that is another's |
| LinkStale.StaleAnswer | link/responder.cpp:100-157 | A run from the start, every act of it at an instant the stations allow, in which the window is exceeded by one: transaction 16 is answered from the replay buffer with what transaction 0 left there |
| MasterRuns.BooksBalance | link/master.cpp:159-589 | Per address, transactions plus retries are answers, timeouts, CRC failures and the attempt awaited; overall, intact and CRC-failed frames are answers, charges to addresses and bus discards |
| MasterRuns.ConcludedInOrder | link/master.cpp:328-632 | Every accepted transaction has exactly one outcome, in order, but for an open last one, and an answer is a response to it with its number |
| MasterRuns.SequenceNumbers | link/master.cpp:67-157 | The k-th transaction to a node uses k mod 16 on each of at most three attempts, of which only the first has the retry bit clear |
| MasterTiming.MasterIsCourteous | link/master.cpp:235-326 | Over every run, no attempt starts inside a frame that began within T_gap of the deferred instant, a full T_gap is left after one that began by it, and attempts never overlap |
| MasterTiming.NotInside | link/master.cpp:235-326 | An attempt does not start between the first start bit and the end of a contiguous foreign frame of at most the longest wire length that began by the deferred instant plus T_gap |
| MasterTiming.GapAfter | link/master.cpp:235-326 | After such a frame that began by the deferred instant the attempt leaves the whole T_gap |
| MasterTiming.CapTransmits | link/master.cpp:235-326 | Whatever is on the wire, a poll at or after the cap transmits |
| MasterLatency.BoundedLatency | link/master.hpp:185-204 | With polls at most P apart, whatever other stations send, every accepted begin ends within (1 + retries)(2 max_frame + 2 T_gap + byte + n byte + T_resp + 2P), n being the longer of the transaction's two stuffed encodings |
| FrameRetry.RetryCanBeLonger | link/master.cpp:159-201 | A request whose retry is one byte longer on the wire than its first attempt: the retry bit changes the CRC and with it the escapes |
| MasterLatency.PollReports | link/master.cpp:591-632 | A poll reports an outcome exactly when it concludes the open transaction, once and with that transaction's outcome |
| MasterAnswers.ResponseIsAnswer | link/master.cpp:405-632 | After any run that awaits a response: the right response, back to back, its first start bit inside the window and nothing else on the wire, makes the next conclusion its answer with exactly its fields, with no further attempt, whatever the polls as long as none finds the window run out before the first byte or a byte more than a byte time late |
| MasterAnswers.ResponseIsWaitedFor | link/master.cpp:591-632 | Until its closing FLAG is read such a response ends nothing and nothing is sent, however far past the deadline the polls are |
| MasterAnswers.CorruptResponseEnds | link/master.cpp:405-476 | Such a frame whose CRC alone is wrong ends the attempt at its last stop bit, charged once as a CRC failure: retried after T_gap, or the transaction failed after the last retry |
| MasterAnswers.SilenceEnds | link/master.cpp:591-632 | With nothing on the wire the attempt is as it was at every poll before the deadline, and ends as a timeout at the first poll at or past it |
| MasterLaws.FrameIsBooked | link/master.cpp:405-589 | A completed frame is the answer, or charged to the address awaited, or to the bus when none is; a CRC failure is the attempt's in whose window the frame began, otherwise the bus's; nothing else is booked |
| MasterLaws.QuietWireIsUsed | link/master.cpp:235-326 | After any calls a pending attempt goes out at the first poll from its deferred instant on that finds the wire empty and every byte before it ended T_gap ago |
| ResponderRuns.EveryFrameAccounted | link/responder.cpp:324-434 | Frames delivered and discarded are transactions, replays, discards and requests still held; a replay calls no handler |
| ResponderRuns.ArrivalOrder | link/responder.cpp:164-217 | The frames that arrived are those a batch decoding of the bytes gives. All of those heard with no response pending, and of those heard while one was exactly the requests from another trunk station to this node that came while fewer than two frames due were still to be served, are served in that order or still held; nothing else is |
| ResponderRuns.HeardIsBatch | link/responder.cpp:324-434 | Byte-by-byte reception hears exactly the frames of the batch decoding |
| ResponderRuns.RepliesAreTimely | link/responder.cpp:233-322 | No two transmissions overlap; each starts in [end + T_turn_min, end + T_turn_max] or is counted late, and a late one first looked for the wire after the window and went out after T_gap of silence or at the cap counted from there |
| ResponderRuns.DueInWindowIsSent | link/responder.cpp:233-322 | A response due inside its window is the first thing the next poll sends, ahead of every byte read |
| ResponderRuns.LateResponseIsSent | link/responder.cpp:233-322 | A late response goes out no later than the first poll past the longest frame plus T_gap from when it first looked, whatever is on the wire |
| ResponderLaws.RulingsAreDue | link/responder.cpp:59-162 | In every run each frame put to the node is refused if and only if it is no request from another trunk station to it, replayed if and only if it is a retry with the number and sender last answered, and otherwise answered if and only if the handler's bytes fit |
| ResponderLaws.RepliesAreOwed | link/responder.cpp:82-322 | The replies on the wire are exactly those owed, one for each frame answered or replayed, to that frame and with the bytes the handler gave, in order, but for one still scheduled; none starts before the node's turnaround is over |
| ResponderLaws.LateOnQuietWireIsSent | link/responder.cpp:233-322 | After any run a late response goes out at the first poll that finds the wire empty and every byte before it ended T_gap ago |
| CoreRuns.TablesAlwaysSound | core/core_engine.cpp:100-134 | In every reachable state, over arbitrary answers, the cache is coherent and ids and slots are in bijection |
| CoreRuns.TranscriptIsOrdered | core/core_engine.cpp:100-220 | Per superframe: status polls in strictly ascending backplane order, then demand, then at most one probe; nothing but probes while a fault stands |
| CoreRuns.FaultInEveryState | core/core_engine.cpp:100-134 | The engine drives its tracker so that a fault stands exactly when all that ever enrolled are failing |
| CoreFairness.BoundedBypass | core/core_engine.cpp:344-391 | While a node stays in use and neither reading its descriptor nor Discovered, as many IDENTIFYs as there are ids cannot go out without one to it |
| CoreFairness.ScanIsFair | core/core_engine.cpp:344-391 | Each IDENTIFY the scan issues is to such a node itself or strictly shortens its cyclic distance from the cursor, and with such a node ahead the scan never comes back with nothing |
| CoreProgress.DemandAsks | core/core_engine.cpp:222-391 | With no fault, no chunk queued, no descriptor being read and no demand issued yet, any node in use and not Discovered makes the demand phase issue an IDENTIFY |
| CoreProgress.EveryNodeIsAsked | core/core_engine.cpp:100-391 | While that holds whenever a plan is made, a node that stays in use and not Discovered has been asked for its identity by the time one more superframe has begun than there are ids |
| CoreDemand.DemandIsNeverIdle | core/core_engine.cpp:222-446 | With no fault, a superframe that has asked for nothing yet asks for something as long as some node has an identity to give or a chunk that has not failed in this superframe |
| CoreRoom.WorkIsAskedFor | core/core_engine.cpp:222-473 | In every reachable state: no chunk past the longest descriptor ever stands in the way of that |
| CoreDemand.RetryTakesTurns | core/core_engine.cpp:393-427 | The retry pass resumes such a stalled read, or another one and thereby comes strictly nearer to it |
| CoreDemand.ResumeAsks | core/core_engine.cpp:429-473 | A resumed read asks its own node for the bytes after those the cache holds |
| CoreDemand.PassesTakeTurns | core/core_engine.cpp:304-342 | With both a stalled read due and an identity to ask for, the stalled read comes first in odd superframes and the identity in even ones |
| CoreDemand.QueueComesFirst | core/core_engine.cpp:222-278 | The chunk held back, or else the oldest queued, is asked for before any other demand, at its own offset |
| CorePlan.LowestDueIsPolled | core/core_engine.cpp:155-200 | The lowest address not yet passed that is announced and due is polled, by slot map in odd superframes, and the demand phase begins exactly when there is none |
| CorePlan.FrameEndsWithProbe | core/core_engine.cpp:155-220 | A superframe that has not had its probe comes to an end only if the tracker has nobody to probe; its one probe is the tracker's choice at the tracker's rate |
| CorePlan.OutcomeIsApplied | core/core_engine.cpp:629-728 | Every outcome is charged once to its address and measured for its backplane and node; a slot map, identity or chunk reaches the slot or node it was asked of, a failed chunk is queued again with its node put aside |
| CorePlan.CallIsPlan | core/core_engine.cpp:100-153 | One call applies its outcome; with nothing outstanding it opens a superframe if none is open, the tracker aged once and everything of the last one reset, and issues the next request or closes the superframe |
| CoreBudget.BudgetIsWhatIsLeft | core/core_engine.cpp:100-153 | Over any calls the budget is a polling interval less all the time measured since the superframe began, never below nothing |
| CoreBudget.DemandFits | core/core_engine.cpp:475-492 | Every demand but a superframe's first goes out only if its node's last duration, or the longest transaction possible, is still left |
| CoreSlots.ReconcileKeepsBijection | core/core_engine.cpp:1058-1182 | Any slot map, over-claimed, short or with the pool exhausted, keeps slots and in-use nodes in bijection |
| CoreSlots.OtherBackplanesUntouched | core/core_engine.cpp:1058-1182 | A slot map changes no other backplane's record and none of its nodes |
| CoreSlots.ChangedIsIrrelevant | core/core_engine.cpp:1058-1182 | The changed bitmap of a response decides nothing |
| CoreSlots.SecondApplicationIsFixed | core/core_engine.cpp:1058-1182 | After one response is applied twice, a third application changes neither node, cache nor slot tables |
| CoreSlots.OnceIsFixedIff | core/core_engine.cpp:1058-1182 | For any tables at all, one application is the fixed point if and only if it left no occupied slot without an id while an id is free |
| CoreSettling.OnceIsFixedExactly | core/core_engine.cpp:1058-1182 | Told from the tables and the map before they meet: one application is the fixed point if and only if, in slot order, free ids and ids given back against ids asked for never fall short or are at their lowest at the end |
| CoreSettling.OnceFollowsBalance | core/core_engine.cpp:1058-1182 | What one application leaves, ids free and whether any slot is short, is what that balance says |
| CoreSettling.OnceIsNotFixed | core/core_engine.cpp:1058-1182 | Two maps from the start after which applying the second again changes the tables: an earlier slot is short while a later one gives its id back |
| CoreReconcile.MapIsFollowed | core/core_engine.cpp:1058-1182 | Slot by slot: an empty slot has no id, an occupied one that had an id keeps it and its whole node record, and a new one holds a blank node or none; the queue gains one notice for each module gone and each shortage not yet reported, in slot order, the overflow dropped and counted |
| CoreReconcile.LowestIdFirst | core/core_engine.cpp:1058-1182 | A newcomer gets the lowest id free at its turn, and none only if every id is taken then |
| CoreReconcile.PackedReads | core/core_engine.cpp:37-45 | Reading a slot's bit of a bitmap packed eight slots to the byte, lowest first, gives the flag packed for it, and nothing past the end |
| CoreCache.ClaimEvictsNobody | core/core_engine.cpp:952-999 | A claim takes no entry that a node points at and none that a node is still reading |
| CoreCache.IdentityKeeps | core/core_engine.cpp:730-806 | An IDENTIFY answer keeps the cache coherent: one entry per key, exact reference counts, a descriptor exactly for Discovered nodes, complete and with the advertised CRC |
| CoreCache.ChunkKeeps | core/core_engine.cpp:808-939 | Any chunk answer, short, misplaced, overlong or with a wrong CRC, keeps the cache coherent |
| CoreCache.ReconcileKeepsCoherence | core/core_engine.cpp:1058-1182 | Freeing and assigning ids keeps reference counts and descriptors coherent |
| CoreDiscovery.IdentityDecides | core/core_engine.cpp:730-806 | An identity makes its node Discovered if the whole descriptor is cached or empty, a reader if some of it is or there is room, and otherwise leaves it to be asked again; the first chunk is asked for exactly when it is the first reader |
| CoreDiscovery.FreeEntryFirst | core/core_engine.cpp:952-986 | While some entry is free an identity takes nothing from the cache: every entry in use keeps its key and bytes |
| CoreDiscovery.ChunkDecides | core/core_engine.cpp:808-939 | A chunk extends the blob only at its end; the whole and right blob makes every node reading that key Discovered with it, one too long, wrong or stuck frees the entry and sends its node back to IDENTIFY, anything else asks on from where it stands; no other node or entry changes |
| CoreDiscovery.NoChunkDecides | core/core_engine.cpp:808-939 | An answer without a chunk changes no bytes and puts its node aside; a refusal is asked again at the same place |
| CoreDiscovery.ServedIsDiscovered | core/core_engine.cpp:730-939 | A node that finds room and answers every chunk it is asked for at the place it is asked for, in pieces of any sizes, becomes Discovered with exactly its own bytes |
| CoreNews.ChunkTells | core/core_engine.cpp:1011-1045 | A chunk queues one notice for each node it makes Discovered, first time or again, lowest id first, and no other |
| CoreNews.IdentityTells | core/core_engine.cpp:1011-1045 | So does an identity |
| Delivery.DrainIsFair | core/core_engine.cpp:494-586 | Neither queue falls more than one delivery behind the other while it still has something that was pending |
| Delivery.DrainInOrder | core/core_engine.cpp:494-586 | Each queue is delivered in its own order, nothing lost or repeated |
| Delivery.DrainCounts | core/core_engine.cpp:494-586 | As many deliveries as the budget and what was pending at entry allow, no kind beyond what was pending |
| Delivery.DrainReleases | core/core_engine.cpp:494-586 | Exactly the delivered results' request ids return to the pool |
| FrameStream.FeedingIsBatchDecoding | link/frame.cpp:58-170 | For every byte stream, feeding byte by byte gives the same frames and the same discards for the same reasons, in order, as splitting at FLAGs, unstuffing and checking |
| FrameStream.EncodedIsDelivered | link/frame.cpp:13-170 | From any state, any list of valid frames with shared or repeated FLAGs between them is delivered in full, in order |
| FrameStream.EncodeIsDelivered | link/frame.cpp:13-170 | From any state one encoded frame is delivered with its own fields, and is no longer than the longest wire frame |
| FrameStream.StuffRoundTrip | tools/refimpl/omgp_link.py:54-85 | Stuffed bytes hold no FLAG and unstuff to what was stuffed |
| ReferenceLink.UnstuffThenStuff | tools/refimpl/omgp_link.py:54-85 | There is one way to stuff: a clean segment is the stuffing of what it unstuffs to |
| ReferenceLink.OneEventEach | link/frame.cpp:103-155 | A FLAG-delimited segment is worth exactly one frame or one discard, an empty one nothing |
| ReferenceLink.EncodeDecode | tools/refimpl/omgp_link.py:92-240 | Decoding an encoded frame gives its fields back |
| ReferenceLink.DecodedIsEncoded | tools/refimpl/omgp_link.py:92-240 | A decoded buffer is the encoding of its fields, byte for byte, if and only if the control byte's reserved bits are clear |
| ReferenceLink.ReservedBitsLost | tools/refimpl/omgp_link.py:92-240 | Every frame has three others, with reserved bits set and the CRC to match, that decode to its fields and are not its encoding |
| Frame.CheckUnstuffed | link/frame.cpp:103-155 | The receiver's check of a sent body reads back the sender's fields |
| FrameLaws.FramedFate | link/frame.cpp:60-170 | Whatever bytes are stuffed between two FLAGs, from whatever state: nothing, too long past 70, a length that does not match, a CRC that does not, the reserved address, or a frame with these fields |
| FrameLaws.BadEscapeFate | link/frame.cpp:82-155 | An escape followed by neither escaped byte, or by the closing FLAG, makes the frame one bad-escape discard |
| GoldenVectors.PingRequest | tests/vectors/frame_ping_req.json:2 | The published request frame is what the encoder writes |
| GoldenVectors.PingResponse | tests/vectors/frame_response.json:2 | So is the published response |
| GoldenVectors.LastRetry | tests/vectors/frame_retry.json:2 | So is the published retry with the highest number |
| GoldenVectors.CheckValue | link/crc16.hpp:7-15 | The CRC of the nine digits is the published check value 0x29B1 |
| Frame.AlteredIsNotDelivered | link/crc16.hpp:7-15 | Altering one byte or two adjacent bytes of a good frame's header or payload, length unchanged, is always a discard |
| Crc16.BurstDetected | link/crc16.hpp:7-15 | Messages of one length that differ only within two adjacent bytes have different CRCs, at any length |
| Crc16.CrcInjectiveInState | link/crc16.hpp:7-15 | For any message the CRC is injective in its starting state |
| Crc16.ShiftBijective | link/crc16.hpp:7-15 | One shift of the register can be undone |
| DescriptorRules.ValidIff | l3/l3_descriptor.cpp:171-250 | A blob is valid if and only if it fits, is cut nowhere, every known record is in order, no two clash, and every required type is there |
| DescriptorRules.AdmittedIffDeclared | l3/l3_descriptor.cpp:65-144 | Checking record by record with bitmaps accepts a list exactly when it satisfies the rules stated without any order of checking |
| DescriptorRules.ReportsFirstRefusal | l3/l3_descriptor.cpp:171-250 | Any other refusal names the status, type and offset of the first record that the ones before it do not admit |
| DescriptorRules.WriterAgrees | l3/l3_descriptor.cpp:388-424 | Whatever was attempted, the writer's blob parses to exactly the accepted records and validates as Ok or MissingRequired, according to completeness |
| DescriptorRules.ValidIsRebuilt | l3/l3_descriptor.cpp:388-424 | Appending a valid blob's records to a fresh writer of enough room succeeds throughout and rebuilds the blob byte for byte |
| DescriptorLaws.ValidIffProper | l3/l3_descriptor.cpp:54-250 | In plain values: a blob is valid if and only if it is at most 2048 bytes and the bytes of a list of records each with its type's length, text and ranges, no type twice but the four that may be, no channel or parameter key twice, and the ten required types present |
| DescriptorLaws.FaultIs | l3/l3_descriptor.cpp:54-144 | What each value of each type earns, type by type: length, then text length, then UTF-8, then ranges, as numbers |
| DescriptorLaws.RefusalNamesCause | l3/l3_descriptor.cpp:171-232 | A refusal for a record's own sake names the first record that cannot follow those before it, where it starts, and whether its type, its value or its key is at fault |
| DescriptorLaws.ReportTells | l3/l3_descriptor.cpp:171-250 | Otherwise the report counts unknown records, channels and parameters, and names where a cut blob is cut or the lowest required type missing |
| DescriptorLaws.WriterDecides | l3/l3_descriptor.cpp:388-424 | After any attempts the writer takes a record if and only if it may follow those taken and fits in what is left of the capacity and of 2048 bytes, and otherwise says which |
| Descriptor.ParseOfBlob | l3/l3_descriptor.cpp:148-167 | The cursor yields exactly the records a blob was written from |
| Descriptor.BlobOfParse | l3/l3_descriptor.cpp:148-167 | Any bytes are the records the cursor yields followed by what it could not read |
| Utf8.ValidIffEncodesScalars | l3/l3_utf8.hpp:13-78 | Accepted if and only if the bytes encode some sequence of Unicode scalar values (section 3 of RFC 3629) |
| Utf8.CodePointRoundTrip | l3/l3_utf8.hpp:13-78 | Encoding the code point of a well-formed sequence gives that sequence: there are no overlong forms |
| CanonicalRoundTrip.TextRoundTrip | tools/canonical.cpp:1071-1119 | For every blob the validator accepts, its printed text encodes back to exactly that blob |
| CanonicalRoundTrip.CanonicalForm | tools/canonical.cpp:1071-1119 | Whatever text is accepted, its blob has a printed text, and that text encodes to the same blob |
| CanonicalRoundTrip.SplitRoundTrip | tools/canonical.cpp:824-859 | A printed descriptor is split at exactly the bars between records, whatever bars its strings hold |
| CanonicalRecords.RecordRoundTrip | tools/canonical.cpp:752-1008 | A printed record of any type, known or unknown, is tokenised and read back as itself |
| CanonicalRecords.NameIsKind | tools/canonical.cpp:752-1008 | Each printed record name selects the type it was printed for |
| CanonicalForms.PrintsAs | tools/canonical.cpp:748-822 | Every record of every type prints as its name and its values behind their keys, in the stated order and notation, whatever the values |
| CanonicalForms.TextIs | tools/canonical.cpp:1071-1087 | A descriptor prints as its records so, a bar between blanks between each and the next |
| CanonicalReads.ReadsExactly | tools/canonical.cpp:913-1008 | A name and its fields are a record if and only if the name is known, the keys are exactly its keys and every value is of the key's sort and size; and then the record with those numbers cut to width, low byte first |
| CanonicalTexts.KeyValuesIff | tools/canonical.cpp:861-900 | Tokens give a map if and only if each has an equals sign and no key comes twice; the map then holds what stands before and behind the first equals sign of each |
| CanonicalTexts.EncodesIff | tools/canonical.cpp:1089-1119 | A text encodes if and only if its quotes are closed, every piece is such a record, and the records are a proper descriptor of at most 2048 bytes; it encodes to their bytes |
| CanonicalTokens.TokensRoundTrip | tools/canonical.cpp:861-900 | A printed name and fields come apart into that name and those keys and values, spaces in quoted values kept |
| CanonicalTokens.QuoteIsWhole | tools/canonical.cpp:824-900 | No byte inside a quoted string can end it or split it, for either tokeniser |
| CanonicalTokens.NamedRoundTrip | tools/canonical.cpp:48-120 | A code printed by name, or in hexadecimal when it has none, is looked up or parsed back to itself |
| Text.QuoteRoundTrip | tools/canonical.cpp:1012-1060 | Any bytes, quotes, backslashes and non-ASCII included, survive quoting and unquoting |
| Text.HexRoundTrip | tools/canonical.cpp:472-506 | Any bytes survive printing in hex and parsing |
| TextLaws.HexIff | tools/canonical.cpp:483-506 | A text is bytes if and only if, blanks anywhere aside, it is an even number of hexadecimal digits of either case, two to the byte, the higher first |
| Text.DecRoundTrip | tools/canonical.cpp:65-115 | Every unsigned number survives decimal printing and parsing |
| Text.Hex2RoundTrip | tools/canonical.cpp:28-115 | Every byte survives printing as 0xHH and parsing |
| Text.Hex4RoundTrip | tools/canonical.cpp:33-115 | Every 16-bit number survives printing as 0xHHHH and parsing |
| HealthTracker.HealthTracker.ApplyResult | link/health.cpp:290-328 | One address takes the transition the node table gives, with its notice; every other field is unchanged |
| HealthTracker.HealthTracker.OnResult | link/health.cpp:85-288 | The whole new state for an outcome: read at its own probe's rate, deferred or applied, the pass advanced, the episode cleared or declared |
| HealthTracker.HealthTracker.Tick | link/health.cpp:330-353 | Every SUSPECT whose time has run out ages, then the declare rule is evaluated |
| HealthTracker.HealthTracker.PollDue | link/health.cpp:364-381 | Whether a status poll is due, on exactly the states, fault flag and interval the tracker holds |
| HealthTracker.HealthTracker.MarkPolled | link/health.cpp:383-414 | The poll is stamped and its rate recorded like a probe's |
| HealthTracker.HealthTracker.PassProbe | link/health.cpp:427-487 | The next reference-pass probe, or the one in flight handed back unchanged |
| HealthTracker.HealthTracker.WriteOff | link/health.cpp:489-502 | A pass probe past its window is written off, the last one clearing the fault |
| HealthTracker.HealthTracker.NextProbe | link/health.cpp:489-537 | Write-off, then the pass, else the rotation at the alternating rate |
| HealthTracker.HealthTracker.NoteWireRate | link/health.cpp:539-547 | Rate changes are counted once per actual change |
| HealthTracker.HealthTracker.NoteProbe | link/health.cpp:549-591 | The address's rate bit, live bit and issue instant, and no other address's |
| HealthTracker.HealthTracker.EvaluateDeclare | link/health.cpp:593-687 | A fault is declared, with its alert, when all that enrolled are failing, and only per-episode state is reset |
| HealthTracker.HealthTracker.CountFailing | link/health.cpp:593-640 | The tally of addresses that have left UNENROLLED, and whether every one of them is failing |
| HealthTracker.HealthTracker.ClearFault | link/health.cpp:689-746 | The episode ends at the given rate, deferred answers applied at the fallback rate first |
| HealthTracker.HealthTracker.SetBitRate | link/health.cpp:756-841 | A selection of a trunk rate moves both rates and counts at most one change; any other rate is refused |
| MasterEngine.Master.Begin | link/master.cpp:67-157 | Refused without effect when busy, too long or out of range; otherwise a new transaction with the next number, pending or on the wire |
| MasterEngine.Master.DoTransmit | link/master.cpp:159-201 | One attempt on the wire, counted, its window opened at its last bit |
| MasterEngine.Master.FrameArriving | link/master.cpp:207-233 | Whether a frame is still arriving: open, at byte cadence, younger than the longest frame |
| MasterEngine.Master.FirePending | link/master.cpp:235-326 | The pending attempt goes out once the wire has been silent for T_gap, or at the cap |
| MasterEngine.Master.EndAttempt | link/master.cpp:328-403 | A failed attempt is charged, then retried from the last activity or concluded after the last retry |
| MasterEngine.Master.DrainWire | link/master.cpp:405-589 | Every due byte in order: answers accepted only from the awaited node, number and window, the rest charged |
| MasterEngine.Master.Poll | link/master.cpp:591-632 | The whole new state of one poll and its outcome |
| ResponderEngine.Responder.OnRequest | link/responder.cpp:82-162 | A replay is answered from the buffer, a new request by the handler within capacity, anything else discarded |
| ResponderEngine.Responder.HoldOrDiscard | link/responder.cpp:164-217 | A request heard while one is scheduled is held in arrival order, or discarded when it is not for this node or the ring is full |
| ResponderEngine.Responder.WireIsOurs | link/responder.cpp:233-322 | A late response may go after T_gap of silence or at the cap |
| ResponderEngine.Responder.TransmitIfDue | link/responder.cpp:233-322 | What is sent, when, and how it is counted |
| ResponderEngine.Responder.DrainStep | link/responder.cpp:324-434 | One turn of the drain loop, which strictly decreases bytes due and then requests held |
| ResponderEngine.Responder.Poll | link/responder.cpp:324-434 | The whole new state of one poll |
| Deframer.Deframer.Feed | link/frame.cpp:157-170 | One byte: the new state, the counters and the frame it completes |
| Deframer.Deframer.OnFlag | link/frame.cpp:103-155 | A FLAG closes the frame: delivered, or one discard with its reason, or nothing if empty |
| Deframer.Deframer.OnEscapedByte | link/frame.cpp:82-101 | An escape pair gives FLAG or ESC, anything else one discard |
| Deframer.Deframer.AppendByte | link/frame.cpp:70-80 | A byte kept, or the frame given up as too long |
| Deframer.Deframer.Reset | link/frame.cpp:60-64 | Hunting with an empty buffer |
| Frame.EncodeFrame | link/frame.cpp:13-56 | Which status each frame and buffer earns, exactly; on success the buffer's front is the frame's wire image |
| Frame.StuffInto | link/frame.cpp:13-56 | The loop writes the stuffing of the body and touches nothing past it |
| Crc16.Crc16CcittFalse | link/crc16.hpp:7-15 | The two loops compute the CRC of the bytes |
| ReferenceLink.StuffBytes | tools/refimpl/omgp_link.py:54-63 | The loop builds the stuffing of the buffer |
| ReferenceLink.UnstuffBytes | tools/refimpl/omgp_link.py:66-85 | The unstuffed bytes, or nothing when an escape is cut short or invalid |
| ReferenceLink.FeedBytes | tools/refimpl/omgp_link.py:132-138 | The frames a buffer completes in order, the counters moved by every event |
| ReferenceLink.DecodeFrame | tools/refimpl/omgp_link.py:214-240 | Exactly one clean frame with FLAGs at both ends and nowhere else is decoded, all else refused |
| Ring.Ring.Push | core/core_types.hpp:434-443 | A full ring refuses and is unchanged; otherwise the item is last |
| Ring.Ring.Pop | core/core_types.hpp:445-454 | The oldest item, and the rest in order; an empty ring gives nothing |
| Utf8.Utf8Valid | l3/l3_utf8.hpp:13-78 | The scanning loop accepts exactly the well-formed strings |
| DescriptorCodec.RecordCursor.Next | l3/l3_descriptor.cpp:148-167 | The next record of the parse, or the end, or Truncated with the cursor at the end |
| DescriptorCodec.ValidateDescriptor | l3/l3_descriptor.cpp:171-250 | The walk over the bytes gives the report the record-level rules give |
| Bitmap.Test | l3/l3_descriptor.cpp:40-42 | Whether a byte is in the set that eight words of bits stand for |
| Bitmap.Set | l3/l3_descriptor.cpp:43-45 | One byte joins that set, no other byte joins or leaves |
| DescriptorCodec.FindInfo | l3/l3_descriptor.cpp:25-30 | The scan of the record table finds the row of a type, or none |
| DescriptorCodec.NoteRecord | l3/l3_descriptor.cpp:190-232 | The duplicate tests and bitmap updates in place give the status the rules give and, when the record is admitted, the sets and counts they give |
| DescriptorCodec.DescriptorWriter.Admissible | l3/l3_descriptor.cpp:393-409 | The tests before anything is marked give the status the rules give |
| DescriptorCodec.DescriptorWriter.Mark | l3/l3_descriptor.cpp:410-424 | An admitted record leaves the bitmaps standing for the sets the rules give |
| DescriptorCodec.FindMissing | l3/l3_descriptor.cpp:171-250 | The first required type not seen, in table order |
| DescriptorCodec.DescriptorWriter.Append | l3/l3_descriptor.cpp:388-424 | An accepted record is added byte for byte; a refused one leaves blob and bitmaps as they were |
| DescriptorCodec.DescriptorWriter.PutRecord | l3/l3_descriptor.cpp:388-424 | Type, length and value behind what was there, nothing else in the buffer changed |
| DescriptorCodec.DescriptorWriter.Finish | l3/l3_descriptor.cpp:535-537 | The validator's report on what was written |
| CanonicalCodec.HexOf | tools/canonical.cpp:472-481 | The loop prints two digits a byte |
| CanonicalCodec.HexBytes | tools/canonical.cpp:483-506 | The loop's pairs of digits, blanks skipped, a lone or foreign digit refused |
| CanonicalCodec.QuoteStr | tools/canonical.cpp:1012-1031 | The loop's quoted form |
| CanonicalCodec.UnquoteStr | tools/canonical.cpp:1033-1060 | The loop's bytes, or a refusal at the first bad escape |
| CanonicalCodec.SplitText | tools/canonical.cpp:824-859 | The two flags and the loop split at the bars outside quotes, trim and drop blanks, and refuse an open quote |
| CanonicalCodec.TokensOf | tools/canonical.cpp:861-900 | Name and key-value map, a missing equals sign or repeated key refused |
| CanonicalCodec.RenderText | tools/canonical.cpp:1071-1087 | The cursor loop prints the validated blob's records in order, or its status |
| CanonicalCodec.EncodeText | tools/canonical.cpp:1089-1119 | The record loop and the final validation give the blob, or the first refusal |
| Delivery.Outbox.DrainCallbacks | core/core_engine.cpp:494-586 | The loop delivers what the alternating drain gives and leaves the rest queued |
| CoreTables.CoreTables.Enqueue | core/core_engine.cpp:1184-1192 | A notice is queued, or counted as dropped when the ring is full |
| CoreTables.CoreTables.Find | core/core_engine.cpp:941-950 | The first entry in use with this key |
| CoreTables.CoreTables.HasReader | core/core_engine.cpp:988-999 | Whether some in-use node is still reading an entry of this key |
| CoreTables.CoreTables.Claimable | core/core_engine.cpp:952-986 | A never-used entry if there is one, else one neither pointed at nor read |
| CoreTables.CoreTables.MarkDiscovered | core/core_engine.cpp:1025-1045 | Descriptor, reference count and the node's notice in one step |
| CoreTables.CoreTables.Attach | core/core_engine.cpp:1011-1023 | Every node waiting on a completed entry becomes Discovered, no other |
| CoreTables.CoreTables.Release | core/core_engine.cpp:1047-1056 | The node's reference is given back |
| CoreTables.CoreTables.OnIdentity | core/core_engine.cpp:730-806 | The whole new tables for an identity: shared, claimed with its first chunk queued, empty, or too large |
| CoreTables.CoreTables.OnChunk | core/core_engine.cpp:808-939 | The whole new tables for a chunk: kept and continued, completed, or abandoned |
| CoreTables.CoreTables.Assign | core/core_engine.cpp:1058-1182 | The lowest free id, or one report of the shortage |
| CoreTables.CoreTables.Vacate | core/core_engine.cpp:1058-1182 | The id freed, its descriptor released, the removal reported |
| CoreTables.CoreTables.Reconcile | core/core_engine.cpp:1058-1182 | Every slot of the clamped count brought in line and every slot past it vacated |
| CoreEngine.CoreEngine.RunSuperframe | core/core_engine.cpp:100-134 | One call: at most one event applied, then at most one request issued |
| CoreEngine.CoreEngine.OpenSuperframe | core/core_engine.cpp:136-153 | A new superframe with its cursors, flags and budget reset |
| CoreEngine.CoreEngine.IssueNext | core/core_engine.cpp:155-220 | Polls, then demand, then the probe, at most one request |
| CoreEngine.CoreEngine.IssueDemand | core/core_engine.cpp:222-342 | Queued chunks, then interrupted reads, then the two rotating passes, and nothing in a fault |
| CoreEngine.CoreEngine.ServeRing | core/core_engine.cpp:222-342 | Stale and stalled items are dropped, the first live one is asked for if the budget admits it |
| CoreEngine.CoreEngine.ScanIdentify | core/core_engine.cpp:344-391 | The rotating scan's next eligible node is asked, and the cursor moves just past it |
| CoreEngine.CoreEngine.RetryStalled | core/core_engine.cpp:393-427 | The first stalled read due again, from its own rotating start |
| CoreEngine.CoreEngine.ResumeRead | core/core_engine.cpp:429-446 | A read continues from what is held, or the node starts over when its entry is gone |
| CoreEngine.CoreEngine.Admits | core/core_engine.cpp:475-492 | The first demand item always fits; later ones by measured or worst-case time |
| CoreEngine.CoreEngine.Complete | core/core_engine.cpp:629-701 | An outcome is charged to budget, health and durations, then applied by kind, or its chunk put back |

## Left out

- Counters, the superframe number and time are unbounded; 32-bit and 64-bit wrap-around is not modelled.
- Bitmaps of addresses and of reported slots are sets; their bit layout is not modelled. The descriptor bitmaps and the slot map's own are modelled bit by bit.
- Changes of bit rate while a frame is on the wire or an attempt is deferred (Master::set_bit_rate): the code's own timing guarantees are stated for a constant rate.
- Master::reset_stats, and calls into an engine from its own listener or callback.
- The header and payload codecs (l3_header.cpp, l3_payload.cpp): the core engine takes decoded answers as arbitrary values within the decoders' ranges.
- CoreEngine's parameter operations, event queue, liveness, demotion and channel-switch fields: declared, but not driven by the scheduler yet. Its callbacks are a log of deliveries.
- The three identity numbers a cache entry keeps beside its key play no part in any decision and are not modelled.
- The composition of Master and Responder is at the level of frames: corruption is loss, there is one host, and the handler honours the capacity it is given. The byte-level engines are proved against the same functions.
- LinkSystem.AnswersAreOwn: needs the caller to stay inside the 16-number window, because outside it the property is false of the code, as LinkWindow.WindowIsExact proves.
- The canonical text of frames, messages and status lines; only the text of descriptors is modelled. Characters are Dafny's; quoting a character above 255 is read modulo 256.
- strtoul is a small grammar: decimal digits, or 0x and hexadecimal digits, no more than 32 bits. The two name tables are written out and hold no range markers.
- Aliasing of caller buffers: decoded strings are copies, where the code keeps pointers into the blob.
- Deframer statistics reset, the ESP32 smoke programs, the helper's I/O loop, fuzzing and test plumbing, code generation and repository tooling.
