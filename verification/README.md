# Pion, modelled and verified in Dafny

Pion is a WebRTC stack written in Go. This project models the parts of it whose correctness depends on whole runs, on
interleavings or on every input, and proves what they keep. `dafny verify dfyconfig.toml` checks everything.

The models follow the code, branch by branch, with its integer widths and error paths. Code that changes things in place is
a class or a method with a loop, and each such method is proved against a function of the old state. What the code promises
is then proved about those functions: for every input, and for every run of a state machine whose steps are what one call,
one task of the agent's loop, or one goroutine between two points of contention does. The classes carry the invariants of
those runs: what every step keeps is required and ensured by the methods that are steps.

| files | what they model |
|---|---|
| `Wire`, `Fragmentation`, `Reassembly`, `ReassemblyBound` | DTLS handshake messages cut into fragments, and the receiver's fragment buffer with its size limit (sections 4.2.2 to 4.2.4 of RFC 6347) |
| `Delivery`, `Completeness`, `MixedSizes`, `StaleFragments`, `JammedBuffer` | both ends over a network that loses, reorders and repeats records: what comes out, when it does, and when it cannot |
| `HandshakeCache`, `Transcript` | the handshake cache at both ends, and the transcripts pulled from it |
| `Flights`, `FlightRuns`, `PulledMessages`, `Numbering`, `PredictedTranscript`, `Handshaker` | the handshake state machine: flights and what their parsers pull, retransmission, message numbers, and bytes hashed before they are sent |
| `FlightShapes`, `TwoEnds`, `JoinedTranscript`, `HandshakeAgreement`, `ResumedHandshake`, `LateHello` | a client's and a server's machine over that network: what one end signs or hashes is what the other merges to check it |
| `IceAgent`, `IceAgentRuns`, `IceChecklist`, `IceBestPair`, `IceAgentObject`, `PairPriority` | the ICE agent: checklist, nomination, selection, connection state and priorities (RFC 8445, RFC 5245) |
| `MuxedQueue`, `MuxedConn`, `UdpMux` | the UDP mux: its address index, and the packet queue of a muxed connection under concurrency |
| `Nack`, `NackPacking` | generic NACK packing (section 6.2.1 of RFC 4585) |
| `BitFields`, `StatusChunks`, `TransportCC`, `TransportCCRoundTrip`, `StatusCount` | transport-wide congestion control feedback (section 3.1 of draft-holmer-rmcat-transport-wide-cc-extensions-01) |
| `Rtp`, `RtpRoundTrip` | RTP packets with header extensions (section 5.1 of RFC 3550, sections 4.2 and 4.3 of RFC 8285) |
| `AckTimer` | the delayed-acknowledgement timer and its late callbacks |
| `AbsSendTime` | the abs-send-time extension and its error bound |
| `Bits`, `BitLemmas`, `Buffers` | fixed-width integers, bits and byte buffers |

Where a property one would expect does not hold of the code, the code is modelled as it is, a lemma gives an input or a run
that shows it, and the property is proved with the exact condition under which it does hold:

- A feedback packet that ends right after its last status chunk is refused (`TransportCCRoundTrip.RoundTrip`,
  `TransportCCRoundTrip.RefusedPacket`).
- The number of packets that the status chunks account for is kept in 16 bits: from a status count of 65523 on it can wrap,
  and the code then reads on past the status count (`StatusCount.DecodedStopsAtCountIff`, `StatusCount.CountIsSafeIff`,
  `StatusCount.WrappingPacket`).
- An RTP packet that ends right after its last one-byte or two-byte extension is refused (`RtpRoundTrip.RoundTrip`,
  `RtpRoundTrip.RefusedPacket`).
- With two readers on one muxed connection a wakeup can get lost; with at most one it cannot (`MuxedQueue.NeverStuckIff`).
- A request from an address of the other family puts a pair on the checklist that is not in the product of candidates
  (`IceChecklist.ChecklistIsTheProductIff`).
- Pairs made before a controlling agent is started carry the controlled role (`IceBestPair.PairsCarryTheRoleIff`), and a
  search over pairs of wrong roles can miss the standard's best pair (`IceBestPair.BestIsStandardIff`,
  `IceBestPair.EarlyPairsMisorder`).
- A read into a buffer shorter than the packet loses the packet, so the next one comes out of place; with buffers of 8192
  bytes that never happens, and with any smaller size it can (`MuxedQueue.PacketsComeOutInOrder`,
  `MuxedQueue.ShortReadSkips`, `MuxedQueue.NeverSkipsIff`).
- A closed connection of the UDP mux is removed by its user fragment, which can take out an open connection: one that has
  replaced it, or the one of the other address family (`UdpMuxes.UDPMux.AfterClose`, `UdpMuxes.LateClose`,
  `UdpMuxes.OtherFamily`).
- A late callback of the acknowledgement timer can notify while a newer interval runs, at 257 outstanding callbacks and not
  below (`AckTimers.NotifiesWhen`, `AckTimers.StaleNotifyAt257`).
- Fragments of two sizes can leave the receiver with every byte of a message and no way to pop it
  (`MixedSizes.AssemblesIff`, `MixedSizes.PopsIff`, `MixedSizes.StuckRun`).
- A server that resumes a session on a repeated first ClientHello, after it has asked for a second one, hashes the first
  for its Finished and the client the second; they always agree exactly when no HelloVerifyRequest was sent
  (`ResumedHandshake.ResumptionAgreesIff`, `LateHello.AlwaysAgreeIff`, `LateHello.ResumptionDisagrees`).
- Retransmissions of a message that was popped stay in the fragment buffer for good. Once they leave no room, nothing that
  long gets in any more, of whatever kind and under whatever record number, and exactly then (`JammedBuffer.JammedIff`,
  `JammedBuffer.RetransmissionsFillTheBuffer`, `JammedBuffer.RetransmissionsJamTheBuffer`).
- A feedback packet read into one that was used before is appended to its chunks and deltas
  (`TransportCCRoundTrip.RoundTripInto`).
- An RTP header read into one that was used before keeps the old extension profile when it has no extension
  (`RtpRoundTrip.RoundTripInto`).

Time, randomness, the network and cryptography are inputs: an event of a run, or a parameter of a step. Candidates of the
ICE agent are UDP candidates; messages reach the agent only on local candidates it still holds, because closing a candidate
waits for its receive loop; and there is no user binding-request handler. Holders of the packet pool that other connections
take and return appear in the queue model as steps of their own.

## Model

| member | source | states |
|---|---|---|
| Wire.HeaderRoundTrip | dtls/pkg/protocol/handshake/header.go:30-55 | a handshake header reads back from its 12 bytes, whatever follows them |
| Wire.RecordRoundTrip | dtls/pkg/protocol/recordlayer/header.go:34-81 | a handshake record's epoch and body are recovered from its bytes |
| Fragmentation.SplitBytes | dtls/util.go:30-43 | the loop yields the pieces of the given size, the last one shorter, in order |
| Fragmentation.FragmentHandshake | dtls/conn.go:686-725 | the loop with a running offset yields the fragments as specified, one empty fragment for an empty message |
| Fragmentation.FragmentsAreTheCuts | dtls/conn.go:686-725 | the fragments are genuine slices of the message, and there is exactly one kind of cut at each multiple of the mtu below the length |
| Reassembly.FragmentBuffer.Size | dtls/fragment_buffer.go:33-42 | the sum of the fragment bodies held |
| Reassembly.FragmentBuffer.Push | dtls/fragment_buffer.go:47-89 | the buffer, the error and the retransmit flag after any bytes at all, in terms of the buffer before |
| Reassembly.FragmentBuffer.AppendMessage | dtls/fragment_buffer.go:97-119 | following fragments from an offset either completes the message or leaves the collected content useless, as specified |
| Reassembly.FragmentBuffer.Pop | dtls/fragment_buffer.go:91-140 | pops the whole current message and advances, or changes nothing |
| Reassembly.FragmentBuffer.PopAll | dtls/conn.go:962-971 | the pop loop ends, with nothing left to pop |
| Reassembly.FragmentBuffer.HandleRecord | dtls/conn.go:953-974 | one record in: discarded on error, else pushed and everything poppable popped |
| Reassembly.PopShrinks | dtls/fragment_buffer.go:91-140 | a successful pop removes the current message from the buffer and a failed one leaves the buffer as it was |
| ReassemblyBound.BufferedBytesStayBelowLimit | dtls/fragment_buffer.go:12-54 | after any sequence of pushes and pops of any bytes, fewer than 2000000 bytes are buffered |
| Delivery.PushHonest | dtls/fragment_buffer.go:47-89 | a genuine record is taken if and only if it and what is buffered stay below 2000000 bytes, and then exactly its fragment is added, under its own number |
| Delivery.PoppedIsPrefixOfSent | dtls/fragment_buffer.go:47-140 | in every run with loss, reordering, duplication and any mtu per transmission, the popped messages are a prefix of those sent, byte for byte, with offset 0 and fragment length equal to the length |
| Completeness.AssembleWhenCovered | dtls/fragment_buffer.go:97-123 | all fragments of one mtu are enough, beside slices of other sizes that reach the end of the message |
| Completeness.AssembleExactlyWhenCovered | dtls/fragment_buffer.go:97-123 | with one mtu, a message can be put together from an offset exactly when a fragment for every later cut is held |
| Completeness.PoppedExactlyWhenAccepted | dtls/conn.go:953-974 | with one mtu, in every run, the first k messages have been popped exactly when every fragment of each has been accepted, in any order and with repetitions |
| MixedSizes.AssemblesIff | dtls/fragment_buffer.go:97-123 | for any set of mtus, every list of fragments cut with them that holds all of one mtu assembles, if and only if there is one mtu or the message fits into the smaller of any two |
| MixedSizes.PopsIff | dtls/conn.go:953-974 | in every run with these mtus and messages up to a length, a message is popped once all its fragments of one mtu are accepted, if and only if of any two mtus the smaller takes every message whole or is too large for slices of both to fit into the buffer |
| MixedSizes.StuckRun | dtls/fragment_buffer.go:97-123 | for any two mtus below that size, a run that accepts every fragment of the larger, each in a record with a number of its own, and pops nothing |
| StaleFragments.StaleFragmentsStay | dtls/fragment_buffer.go:91-140 | in every run, what is held under a number that was popped is never given up |
| JammedBuffer.StaleShut | dtls/fragment_buffer.go:47-54 | once stale fragments leave no room for a record of some length, in every continuation every record of that length or more, handshake or not, is an overflow |
| JammedBuffer.JammedIff | dtls/fragment_buffer.go:47-140 | in every run: no continuation with fresh record numbers accepts a fragment with anything in it, if and only if what is left in the buffer once the empty messages that are next have come leaves no room for one; and then the same holds of every record of that length |
| JammedBuffer.JammedAtRestIff | dtls/fragment_buffer.go:47-140 | when everything sent has been popped, the same for fragments of any length, with the buffer as it stands |
| JammedBuffer.RetransmissionsFillTheBuffer | dtls/fragment_buffer.go:62-140 | for any message that fits into a datagram as one record, a run with fresh record numbers, popping it and receiving it again, after which no record that long is accepted any more |
| JammedBuffer.RetransmissionsJamTheBuffer | dtls/conn.go:953-974 | for a message of 7782 bytes such a run after which no fragment at all with anything in it is accepted |
| HandshakeCaches.BestIsHighestMatch | dtls/handshake_cache.go:53-72 | a pull finds nothing exactly when nothing matches, and otherwise a match of highest number |
| HandshakeCaches.HandshakeCache.Push | dtls/handshake_cache.go:37-48 | appends the item, with the data as given |
| HandshakeCaches.HandshakeCache.Pull | dtls/handshake_cache.go:53-72 | the nested loops give the best match of each rule, in the order of the rules |
| HandshakeCaches.HandshakeCache.PullAndMerge | dtls/handshake_cache.go:139-149 | the concatenated data of the best matches |
| HandshakeCaches.HandshakeCache.ChooseByType | dtls/handshake_cache.go:83-105 | the loop leaves, per type, the best match of the rule that governs the type |
| HandshakeCaches.HandshakeCache.FullPullMap | dtls/handshake_cache.go:77-136 | succeeds exactly when every required rule has a match that parses and the matches are numbered gap-free from the start, and then yields those matches |
| HandshakeCaches.DistinctTypesGovernThemselves | dtls/handshake_cache.go:77-105 | with rules of distinct types every rule gets its own highest-numbered match |
| HandshakeCaches.OutOfPlaceFails | dtls/handshake_cache.go:107-134 | one match out of its place in the numbering makes the whole pull fail |
| Transcript.TranscriptsAgree | dtls/conn.go:471-494 | in every run of both ends, once the messages the rules ask for have arrived, both caches merge to the same bytes, however often flights were written again |
| Transcript.TranscriptsAgreeAtRest | dtls/conn.go:962-971 | in particular for any rules, once each end has popped all that the other sent |
| FlightRuns.ParseDecides | dtls/flighthandler.go:24-47 | whatever its pulls find, a parser stays, fails, or names a flight that may follow its own; only the client's take over a cookie; and flight 4 follows 0 or 2 only on an echoed cookie |
| PulledMessages.ParserSaw | dtls/flight3handler.go:136-154 | a parser names flight 5 only with a ServerHelloDone in the cache, flights 5b and 6 only with the other end's Finished, and its own flight again only with that Finished |
| PulledMessages.FinishesOnlyWithTheOther | dtls/flight5handler.go:27-37 | over every run no end finishes without the other's Finished, and no client is in flight 5 without a ServerHelloDone |
| FlightRuns.FlightsStayOnSide | dtls/handshaker.go:183-362 | over every run the client is in flights 1, 3, 5, 5b and the server in 0, 2, 4, 4b, 6, and neither ever waits in 5b or 6 |
| FlightRuns.FlightsOnlyAdvance | dtls/handshaker.go:277-348 | between any two moments of a run flights do not go backward, and they are frozen once the handshake has finished |
| FlightRuns.CookieGate | dtls/flight2handler.go:16-52 | flight 2's parser names flight 4 only for a ClientHello that echoes the server's cookie |
| FlightRuns.ServerProceedsOnlyOnEchoedCookie | dtls/flight0handler.go:113-149 | without skipping verification, in every run a server in flight 4 or 6 holds a ClientHello that echoes its cookie |
| Numbering.NumbersAreGapFreeAndUnique | dtls/handshaker.go:243-255 | over every run of either end, flight 2's reset to 0 included, the numbers used are 0 to n-1 and each carries one message |
| PredictedTranscript.MergeAhead | dtls/flight5handler.go:171-186 | the prediction loop yields the bytes that numbering from the send sequence will give |
| PredictedTranscript.Flight5Generate | dtls/flight5handler.go:75-303 | what is signed and what is hashed is the pulled transcript followed by the flight's own messages with the numbers they are about to get |
| PredictedTranscript.PredictedIsActual | dtls/flight5handler.go:171-247 | pulling first and appending the predicted bytes equals pulling after those messages are cached |
| PredictedTranscript.FlightFiveHashesWhatItSends | dtls/flight5handler.go:171-247 | in every run, what flight 5 hashes ahead is what the cache merges to once the flight has been numbered and written |
| PredictedTranscript.FlightFourBHashesWhatItSends | dtls/flight4bhandler.go:110-126 | likewise for the ServerHello of flight 4b |
| FlightShapes.StepShape | dtls/handshaker.go:216-262 | against a peer whose HelloVerifyRequest is its first message, every step of either machine keeps the order of what is numbered: hellos first, at most seven messages, Finished last, and after a ServerHelloDone only a Finished |
| TwoEnds.RunKeeps3 | dtls/conn.go:471-494 | in every run of a client and a server over the network, each machine is in a state that it reaches alone and keeps that order, the links carry what was numbered and written, and each cache holds exactly what its end wrote and what it popped |
| JoinedTranscript.ServerMergesTheSame | dtls/handshake_cache.go:139-149 | what the server merges by any rules is what the client's earlier cache and its next messages merge to, if those rules ask for nothing else and it has arrived |
| JoinedTranscript.ClientMergesTheSame | dtls/handshake_cache.go:139-149 | likewise for the client's merge and the server's earlier cache |
| HandshakeAgreement.SignedIsWhatTheServerChecks | dtls/flight4handler.go:58-72 | in every run of both ends, whatever was lost, repeated or reordered: the bytes the client signs for its CertificateVerify, numbers predicted, are those the server merges to check it once it has pulled that message |
| HandshakeAgreement.HashedIsWhatTheServerHas | dtls/flight6handler.go:57-72 | in every such run: once the server is in flight 6, it merges up to the client's Finished the bytes the client hashed for it, and for its own Finished those bytes and the client's Finished |
| HandshakeAgreement.ClientChecksWhatTheServerHashed | dtls/flight5handler.go:39-57 | in every such run: what the server hashes in flight 6 is what the client merges at any later moment to check it, and the Finished that the client has is the one generated from it |
| ResumedHandshake.ResumptionAgreesIff | dtls/flight3handler.go:204-217 | in every run of both ends with an abbreviated handshake: the client merges what the server hashed for its Finished in flight 4b, if and only if the client has sent no ClientHello beyond those the server had then |
| ResumedHandshake.ResumptionAgreesWithoutRequest | dtls/flight4bhandler.go:112-126 | which is always so when the server has not sent a HelloVerifyRequest |
| ResumedHandshake.AnswerAgrees | dtls/flight4bhandler.go:38-51 | in every such run: what the client hashes for its Finished in flight 5b is what the server merges to check it |
| LateHello.ResumptionDisagrees | dtls/flight2handler.go:23-30 | a run over the network, for any two ClientHellos, in which the server resumes after a HelloVerifyRequest and the two ends do not agree |
| LateHello.AlwaysAgreeIff | dtls/flight2handler.go:23-30 | over all runs, both ends always agree on what the server's Finished covers if and only if no HelloVerifyRequest was sent |
| Handshaker.HandshakeFsm.Prepare | dtls/handshaker.go:216-262 | generating and numbering a flight keeps the invariant of the runs (flights by side, the cookie gate, one message per number); the numbers used so far are gap-free and each carries one message |
| Handshaker.HandshakeFsm.NumberFlight | dtls/handshaker.go:243-255 | the numbering loop gives consecutive numbers to the handshake messages, in order, and skips the rest |
| Handshaker.HandshakeFsm.Send | dtls/handshaker.go:264-275 | the loop caches the flight, the invariant is kept, and the machine waits or the handshake has finished |
| Handshaker.HandshakeFsm.CacheReceived | dtls/conn.go:962-971 | a message put into the shared cache keeps the invariant |
| Handshaker.HandshakeFsm.Wait | dtls/handshaker.go:277-348 | after a parsed read the invariant holds, the flight has not gone back and is frozen if the handshake had finished, and a server that verifies hellos is past flight 2 only with its cookie echoed |
| Handshaker.HandshakeFsm.ReadAgain | dtls/handshaker.go:350-362 | the same flight with the same numbered messages is sent again, except by a client that has finished, and the invariant is kept |
| Handshaker.HandshakeFsm.Timeout | dtls/handshaker.go:326-341 | the same flight is sent again if and only if it is not the HelloVerifyRequest of flight 2, and the invariant is kept |
| IceAgentRuns.SelectionFollowsState | ice/agent.go:446-507 | in every reachable state a selected pair exists exactly when the state is Connected or Disconnected, and it is then in the checklist, succeeded and nominated |
| IceAgentRuns.RunFrom | ice/selection.go:132-326 | every step of a run keeps the agreement of selection and connection state |
| IceAgentRuns.StepGrows | ice/agent.go:485-507 | unless it empties the checklist, a step keeps every pair in its place, and no pair leaves the succeeded state |
| IceAgentRuns.SelectionOnlyImproves | ice/selection.go:164-304 | over every stretch without failure or restart a controlling agent's selected pair stays, and the priority of a controlled agent's that minds priorities never decreases |
| IceChecklist.AddRemoteExact | ice/agent.go:748-783 | a new remote candidate, at any time, keeps the checklist the exact product |
| IceChecklist.AddLocalExact | ice/agent.go:785-820 | so does a new local candidate |
| IceChecklist.ChecklistIsTheProductIff | ice/agent.go:1069-1170 | throughout a run the checklist holds exactly one pair for each local and remote candidate of one family and no other, if and only if no request from the other family is handled |
| IceChecklist.ChecklistIsTheProduct | ice/agent.go:543-558 | the same for every run of a new agent |
| IceChecklist.CrossFamilyAddsAPair | ice/selection.go:97-106 | a handled request from the other family always leaves a pair of two families on the checklist |
| IceChecklist.CrossFamilyRun | ice/agent.go:1120-1160 | a run in which that happens |
| IceBestPair.BestIsFirstMaximum | ice/agent.go:509-541 | the searches return the first among the qualifying pairs of highest priority, and none exactly when none qualifies |
| IceBestPair.OrdersAgreeIff | ice/candidatepair.go:79-121 | for candidate priorities below 2^31 and whatever roles two pairs carry, the code compares them as section 5.7.2 of RFC 5245 does for the agent's role, if and only if they do not have the same two unequal priorities with roles that differ, or both wrong and the priorities crossed |
| IceBestPair.BestIsStandardIff | ice/agent.go:509-541 | on every checklist made of a set of such pairs the searches return the first of the standard's best pairs, if and only if no two qualifying pairs of the set clash so |
| IceBestPair.BeatenExactlyByCrossed | ice/agent.go:509-541 | on any one checklist the standard puts another qualifying pair above the one returned exactly when that pair has its priorities crossed and the higher on the agent's side |
| IceBestPair.StepRoles | ice/agent.go:543-548 | every pair keeps carrying the agent's role, except exactly when a controlling agent is started with pairs on its checklist |
| IceBestPair.PairsCarryTheRoleIff | ice/agent.go:330-367 | every pair carries the agent's role throughout a run if and only if a controlling agent is not started with pairs on its checklist |
| IceBestPair.SearchesFindTheBest | ice/agent.go:509-541 | the same for every run of a new agent, and in such a run every search returns the standard's best pair |
| IceBestPair.RoleMatters | ice/candidatepair.go:84-121 | the role a pair carries changes its priority exactly when it is the wrong one and the candidates' priorities differ |
| IceBestPair.EarlyPairsMisorder | ice/selection.go:51-72 | a run of a controlling agent, started with two pairs listed, that ends in a search and a nomination of the pair the standard puts second |
| IceAgentObjects.IceAgent.PingAllCandidates | ice/agent.go:485-507 | the loop gives each pair its turn in order and sends a request for exactly the pairs that are due |
| IceAgentObjects.IceAgent.GetBestAvailableCandidatePair | ice/agent.go:509-524 | the search over pairs that have not failed |
| IceAgentObjects.IceAgent.GetBestValidCandidatePair | ice/agent.go:526-541 | the search over pairs that have succeeded |
| IceAgentObjects.IceAgent.FindPair | ice/agent.go:550-558 | the first pair of the two candidates, or none when there is none |
| IceAgentObjects.IceAgent.AddRemoteCandidate | ice/agent.go:748-783 | the agreement of selection and state, what the checklist has gained, and its being the exact product are kept; a known candidate changes nothing, a new one is paired with every local candidate of its family |
| IceAgentObjects.IceAgent.AddCandidate | ice/agent.go:785-820 | likewise for a local candidate |
| IceAgentObjects.IceAgent.Contact | ice/agent.go:369-444 | a connectivity check keeps the agreement and the exact product; it fails the agent and empties it, or no pair leaves the succeeded state and the selection only improves |
| IceAgentObjects.IceAgent.HandleInboundBindingSuccess | ice/agent.go:1054-1066 | the pending request of that id, and the list without it |
| IceAgentObjects.IceAgent.HandleInboundRequest | ice/agent.go:1069-1170 | a request keeps the agreement and what there is, never fails the agent, and keeps the exact product unless it came from the other family |
| IceAgentObjects.IceAgent.HandleInboundSuccess | ice/agent.go:1069-1170 | a response keeps the agreement, the exact product and the length of the checklist, and the selection only improves |
| IceAgentObjects.IceAgent.StartConnectivityChecks | ice/agent.go:330-367 | an agent starts exactly once and is started then; the agreement and the exact product are kept |
| IceAgentObjects.IceAgent.Restart | ice/agent.go:1246-1300 | whatever the agent was doing, it keeps the agreement with an empty checklist, which is the exact product, and is new only if it was |
| PairPriority.NeverWraps | ice/candidatepair.go:84-121 | for any uint32 priorities the pair priority stays below 2^64 |
| PairPriority.OrdersAsStandard | ice/candidatepair.go:79-121 | for candidate priorities up to 2^31-1 any two pairs compare exactly as by the formula in section 5.7.2 of RFC 5245 |
| PairPriority.BoundIsSharp | ice/candidatepair.go:118-121 | with a priority of 2^31 the code can see a tie where the standard does not |
| PairPriority.ComputedPriorityBelow | ice/candidate_base.go:373-408 | with the default TCP offset a computed priority stays below 2^31 for every type and component, and is the plain sum for components 1 to 256 |
| MuxedQueue.HoldersAreNeverShared | ice/udp_muxed_conn.go:53-93 | over every interleaving of any number of writers, readers and Close, no buffer holder is in two of pool, queue, writers and readers, or with two writers or two readers |
| MuxedQueue.PacketsComeOutInOrder | ice/udp_muxed_conn.go:53-93 | packets are taken in write order and none is skipped before Close; each is returned or lost to a short buffer at most once, and returned with its own bytes; a single reader gets them in increasing order, and one in its own place if and only if no read before it was short |
| MuxedQueue.NothingSkippedIff | ice/udp_muxed_conn.go:67-77 | a single reader has been returned every packet it took, in order, but for as many as there were short reads |
| MuxedQueue.ShortReadSkips | ice/udp_muxed_conn.go:65-70 | for any buffer size shorter than a packet, a run in which the first packet returned is the second written |
| MuxedQueue.NeverSkipsIff | ice/udp_muxed_conn.go:65-70 | in every run with buffers of at least some size a single reader is returned every packet it takes, in order, if and only if that size is at least 8192 |
| MuxedQueue.NoLostWakeup | ice/udp_muxed_conn.go:76-92 | with at most one reader, a reader blocked on a non-empty queue always has a token waiting or a writer about to send one |
| MuxedQueue.LostWakeup | ice/udp_muxed_conn.go:240-249 | with two or more readers, a run after which one stays blocked in front of a packet |
| MuxedQueue.NeverStuckIff | ice/udp_muxed_conn.go:76-92 | a blocked reader is always woken if and only if there is at most one |
| MuxedConns.UdpMuxedConn.Link | ice/udp_muxed_conn.go:229-236 | the links stay those of a list, with the holder at its end |
| MuxedConns.UdpMuxedConn.Unlink | ice/udp_muxed_conn.go:56-64 | the links stay those of a list, without its first holder |
| MuxedConns.UdpMuxedConn.WritePacket | ice/udp_muxed_conn.go:210-252 | one packet more at the end, or nothing changed for a closed connection or too small a holder; queued and free holders stay apart |
| MuxedConns.UdpMuxedConn.TryRead | ice/udp_muxed_conn.go:53-93 | the first packet, or an error if the buffer is short, and the rest of the queue; from an empty queue, end or wait |
| MuxedConns.UdpMuxedConn.Close | ice/udp_muxed_conn.go:137-157 | every queued holder is back in the pool and the queue is empty |
| UdpMuxes.UDPMux.GetConn | ice/udp_mux.go:148-182 | the connection of the fragment and family, made on first use and only then, none once closed; the index still agrees with the connections |
| UdpMuxes.UDPMux.WriteTo | ice/udp_muxed_conn.go:95-115 | a first write lists the address and takes it over in the index, from exactly the connection that had it |
| UdpMuxes.UDPMux.AddAddress | ice/udp_muxed_conn.go:175-182 | lists the address and takes it over in the index, from exactly the connection that had it |
| UdpMuxes.UDPMux.RegisterConnForAddress | ice/udp_mux.go:255-270 | the address is indexed to the connection and off the list of the one before; nothing once the mux is closed |
| UdpMuxes.UDPMux.RemoveConnByUfrag | ice/udp_mux.go:185-214 | takes out exactly the index entries of the removed connections |
| UdpMuxes.UDPMux.AfterClose | ice/udp_mux.go:170-173 | what follows the close of a connection takes out exactly the connections with its fragment, so an open one stays if and only if everything of that name is closed |
| UdpMuxes.LateClose | ice/udp_mux.go:170-173 | a run in which a late close takes out the open connection that replaced the closed one, and its address |
| UdpMuxes.OtherFamily | ice/udp_mux.go:185-197 | a run in which closing the connection of one family takes out the open one of the other |
| UdpMuxes.UDPMux.Close | ice/udp_mux.go:227-249 | closes every connection in the tables and empties the tables |
| UdpMuxes.UDPMux.Destination | ice/udp_mux.go:313-353 | a connection in the tables gets every packet from an address it lists |
| UdpMuxes.MuxedConn.RemoveAddress | ice/udp_muxed_conn.go:184-196 | the list without any occurrence of the address, in order |
| UdpMuxes.MuxedConn.ContainsAddress | ice/udp_muxed_conn.go:198-208 | whether the address is listed |
| Nack.NackPairsFromSequenceNumbers | rtcp/transport_layer_nack.go:41-62 | the loop yields the packed pairs |
| Nack.Range | rtcp/transport_layer_nack.go:66-82 | the callback sees the pair's packets in order, up to and including the one at which it says stop |
| Nack.PacketList | rtcp/transport_layer_nack.go:85-94 | all packets of the pair, in order |
| NackPacking.PackedNamesExactlyTheInputs | rtcp/transport_layer_nack.go:41-62 | for any list at all, the pairs name exactly the packets in it |
| NackPacking.PackedReadsBack | rtcp/transport_layer_nack.go:41-94 | for numbers strictly increasing modulo 2^16, the concatenated packet lists are the input |
| NackPacking.PackedIsOptimal | rtcp/transport_layer_nack.go:41-62 | if they also span less than 65520, no list of pairs that covers them is shorter |
| NackPacking.SpanBoundIsSharp | rtcp/transport_layer_nack.go:41-62 | at a span of 65520 a shorter covering list exists |
| BitFields.GetNBitsFromByte | rtcp/util.go:33-38 | for any uint16 arguments, the named bits of the byte, and 0 when they do not fit into it |
| BitFields.SetNBitsOfUint16 | rtcp/util.go:16-25 | for any uint16 arguments, an error exactly when index and size sum to more than 16 in a uint16, and otherwise which bits of the result come from which argument |
| BitFields.AppendNBitsToUint32 | rtcp/util.go:28-30 | which bits of the result come from which argument, and 0 for more than 32 bits |
| StatusChunks.MarshalRunLength | rtcp/transport_layer_cc.go:116-140 | the two bytes of a run-length chunk |
| StatusChunks.MarshalStatusVector | rtcp/transport_layer_cc.go:185-214 | the two bytes of a status vector, an error when its symbols do not fit |
| StatusChunks.UnmarshalRunLength | rtcp/transport_layer_cc.go:143-160 | the run-length chunk that any two bytes spell, and an error for any other number of them |
| StatusChunks.UnmarshalStatusVector | rtcp/transport_layer_cc.go:217-249 | likewise the status vector, symbol by symbol, behind the symbols of a chunk that was used before |
| StatusChunks.ChunkRoundTrip | rtcp/transport_layer_cc.go:116-249 | every chunk the format can carry comes back from its two bytes |
| StatusChunks.DecodedIsWellFormed | rtcp/transport_layer_cc.go:143-249 | any two bytes decode to such a chunk |
| TransportCC.PacketLen | rtcp/transport_layer_cc.go:364-376 | the length in uint16 arithmetic |
| TransportCC.MarshalSize | rtcp/transport_layer_cc.go:384-392 | rounded up to whole words, in uint16 arithmetic |
| TransportCC.Marshal | rtcp/transport_layer_cc.go:416-457 | the bytes, the error or the panic for any packet at all |
| TransportCC.Unmarshal | rtcp/transport_layer_cc.go:462-572 | the packet or the error for any bytes at all, read into any packet; it terminates with every index in range |
| TransportCCRoundTrip.RoundTripInto | rtcp/transport_layer_cc.go:544-548 | a well-formed packet that is not refused comes back as itself from being read into one that was used before, if and only if that one has no chunks and no deltas |
| TransportCCRoundTrip.RoundTrip | rtcp/transport_layer_cc.go:416-572 | a well-formed packet is written in as many bytes as computed, and reads back as itself if and only if a byte follows its last chunk, otherwise it is refused as too short |
| TransportCCRoundTrip.RefusedPacket | rtcp/transport_layer_cc.go:496-499 | a well-formed packet that is refused |
| TransportCCRoundTrip.DecodedIsConsistent | rtcp/transport_layer_cc.go:462-572 | whatever bytes are read, the chunks and deltas that come out are ones the format can carry, and the deltas are those the chunks announce |
| StatusCount.DecodedStopsAtCountIff | rtcp/transport_layer_cc.go:496-545 | whatever bytes are read, the last chunk read is the first to reach the status count if and only if the number of packets accounted for does not wrap |
| StatusCount.CountIsSafeIff | rtcp/transport_layer_cc.go:496-545 | whatever bytes are read with a status count, that number does not wrap, if and only if the count is at most 65522 |
| StatusCount.WrappingPacket | rtcp/transport_layer_cc.go:515-545 | for every larger count, a packet that is read to its last chunk although the chunks before it have a status for every packet |
| Rtp.MarshalSize | rtp/packet.go:347-374 | the size of the header, a panic for a raw profile without an extension |
| Rtp.HeaderBytesSize | rtp/packet.go:249-374 | the header takes exactly as many bytes as computed |
| Rtp.HeaderMarshalTo | rtp/packet.go:249-344 | the header's bytes are written at the start of the buffer and nothing behind them changes; the length, the error or the panic for any header |
| Rtp.MarshalTo | rtp/packet.go:492-514 | for any packet and any buffer: the error or the panic, or as many bytes as computed, of which header and payload are written, and of the padding the last byte, and nothing else in the buffer changes |
| Rtp.Marshal | rtp/packet.go:480-489 | the packet's bytes, the error or the panic |
| Rtp.UnmarshalHeader | rtp/packet.go:88-208 | the header or the error for any bytes, read into any header; it terminates with every index in range |
| Rtp.UnmarshalElements | rtp/packet.go:158-198 | the loop over one-byte and two-byte elements, padding and the reserved id included |
| Rtp.Unmarshal | rtp/packet.go:211-234 | the packet or the error for any bytes, read into any packet |
| RtpRoundTrip.RoundTrip | rtp/packet.go:88-519 | a well-formed packet is written in as many bytes as computed, and reads back as itself if and only if a byte follows its last one-byte or two-byte extension, otherwise it is refused |
| RtpRoundTrip.RoundTripOverAnyBuffer | rtp/packet.go:492-514 | the same for a packet written over a buffer with any contents |
| RtpRoundTrip.RoundTripInto | rtp/packet.go:140-148 | one that is not refused comes back as itself from being read into a packet that was used before, if and only if it has an extension or that packet's profile is its own |
| RtpRoundTrip.RefusedPacket | rtp/packet.go:191-193 | a well-formed packet that is refused |
| RtpRoundTrip.EmptyOneByteElementIsLost | rtp/packet.go:307 | a one-byte extension without payload is written with the reserved id, and reading stops there |
| AckTimers.AckTimer.Start | sctp/ack_timer.go:57-71 | every start so far is running or was ended once, this one included; within 256 outstanding callbacks `pending` counts them, and a running timer has one to come |
| AckTimers.AckTimer.Stop | sctp/ack_timer.go:75-85 | ends the running interval exactly once and keeps both invariants; within the limit `pending` is then the number of late callbacks |
| AckTimers.AckTimer.Close | sctp/ack_timer.go:89-97 | likewise, and for good |
| AckTimers.AckTimer.Fire | sctp/ack_timer.go:40-41 | the runtime timer going off keeps both invariants |
| AckTimers.AckTimer.Timeout | sctp/ack_timer.go:47-54 | a notification ends the interval that runs, both invariants are kept, and within the limit the last callback outstanding notifies and no other |
| AckTimers.EveryStartEndsOnce | sctp/ack_timer.go:47-97 | in every run each start is running still or was ended exactly once, by a stop, a close or a notification, and none is notified twice |
| AckTimers.PendingCountsOutstanding | sctp/ack_timer.go:47-97 | with at most 256 outstanding, `pending` is their number modulo 256, and a running timer always has a callback to come |
| AckTimers.NoUnderflow | sctp/ack_timer.go:47-97 | with fewer than 256 outstanding no decrement goes below zero |
| AckTimers.NotifiesWhen | sctp/ack_timer.go:47-54 | a callback notifies exactly when the timer is running and it is the last one outstanding, or one of 257 |
| AckTimers.OnlyTheLastNotifies | sctp/ack_timer.go:47-54 | with at most 256 outstanding no callback of an earlier interval notifies while a newer one runs |
| AckTimers.StaleNotifyAt257 | sctp/ack_timer.go:47-71 | a run to 257 outstanding, after which one does |
| AckTimers.DrainsToOneNotification | sctp/ack_timer.go:47-54 | left alone, a running timer notifies exactly once, for its own interval, in whatever order expiry and callbacks come |
| AbsSendTime.EstimateNtpIff | rtp/abssendtimeextension.go:41-50 | the estimate is the rounded send time if and only if the packet arrives within one cycle of it |
| AbsSendTime.RoundedBack | rtp/abssendtimeextension.go:59-82 | a rounded time converts back to at most 3815 ns before the original and never after it |
| AbsSendTime.EstimateRecoversSendTime | rtp/abssendtimeextension.go:41-82 | for times from 1970 to 2036, both together |
| AbsSendTime.WireKeepsEstimate | rtp/abssendtimeextension.go:21-37 | the three bytes on the wire give the same estimate |

## Left out

- Cryptography, certificates, cipher suites, PRF and signature checks: signing and hashing are functions passed in, and whether they accept is an input of the parsers.
- Extension negotiation inside the flight handlers, and the bodies of handshake messages other than the cookie: flat branching; the models keep the next flight, the cookie and the numbers.
- FlightRuns.ParseDecides: beyond what the pulls find and the cookies, whether a parser fails, whether a ServerHello resumes a session and whether there is a pre-shared key are inputs, because the rest is negotiation and cryptography; a record that waits for its cipher counts as received when it is read; resuming a state machine from a saved state is not modelled.
- Message hooks are taken to return a message of the same type.
- Connection-ID wrapping of records, the replay detector (the runs given as examples use a new record number for every record), packing several records into one datagram and unpacking them, and the ContentLen field of a record.
- Retransmission backoff: a timer may expire at any time.
- Sockets, gathering, mDNS, TCP candidates and their muxes, TURN and STUN encoding, real clocks: I/O plumbing.
- ICE: user binding-request handlers, statistics, notifications, Close, and role conflicts, whose messages are dropped before they reach a selector.
- UDP mux: calls are taken one at a time; the goroutine that removes a closed connection is a later call.
- MuxedConns.UdpMuxedConn.WritePacket: one connection and its pool; holders that other connections hold are covered by the interleaving model, not by the class.
- Rtp.UnmarshalHeader: gives the error only; what the source leaves in a header when it fails is not modelled, because callers drop it.
- TransportCC.Unmarshal: gives the error only; what the source leaves in a packet when it fails is not modelled. The deltas of a packet are values, not shared objects, and the `Type` field of a chunk is given by its constructor.
- Other RTCP packets, the NACK packet around the pairs, compound packets: easy members, or driven by reflection.
- RTP: `SetExtension`, `GetExtension`, `DelExtension`, `Clone`, the raw-buffer form of extensions and the payload formats.
