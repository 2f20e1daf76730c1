# YunLink verification

A Dafny model of YunLink v2, a point-to-point messaging runtime, with proofs of what it is for.
`dafny verify dfyconfig.toml` checks the whole project.

The model follows the program's own parts.

- **Frames.** An envelope is printed to a length-prefixed frame with a 32-bit FNV-1a trailer
  (section 2 of draft-eastlake-fnv). `WireCodec` has the printer and parser, `WireCodecLoops` the
  program's loops, `WireLayout` every byte at its place, `Fnv` the hash as modular arithmetic,
  `Corruption` what one changed byte does.
- **Queues, writer, reader.** `SendQueue` is the byte budget shared by four queues, `QueueRuns`
  every interleaving of enqueues and takes, `RuntimeConnections` the object that holds the queues.
  `SocketWriter` writes a frame to a socket that accepts any prefix of what it is offered, and
  `FrameWriter` is the send loop. `Receive`, `Framing` and `ReceiveBuffers` cut the byte stream back
  into frames and recover from overflow; `DamagedFrames` says what a damaged frame costs.
  `Room` says how much room a frame needs there. `Pipeline`, `EndToEnd`, `AnyRoom` and `LatestValues`
  put both ends together, and `SendLoopRuns` ties the send loop to them.
- **Sessions and authority.** `Sessions` and `Authority` are one message as a step on the session
  and lease tables, `RuntimeSteps` a runtime as a state machine with a clock, `RuntimeObjects` the
  tables updated in place. `SessionSafety`, `LeaseSafety`, `ShortenedLease` and
  `DeliveryGate` speak of whole runs, `Handshake` of two endpoints over channels of which one opens,
  `Crossing` of two that both open, by the counts of `CrossingCounts`, and `SessionTraces` of one end
  and any order of messages.
- **Payloads.** `SessionCodec`, `Discovery` with its packet reader and writer, the configuration
  messages on the combinators of `Codecs` with their reader and writer in `PayloadIo`, two core
  messages, and the metric-key check of the telemetry profile. `PayloadLayouts`, `CoreLayouts` and
  `DiscoveryLayout` give the bytes of each, field by field.

Each imperative method (a class that updates its fields, or a loop) is proved equal to a function,
and the results are proved of that function. The connection and the runtime keep a ghost history
and an invariant which says that their fields are where that history leads, so a result about every
run holds of them.

Where the code departs from what one might expect of it, the code is modelled and the exact
condition is proved:

- A changed byte inside the payload-length field of a frame can pass (`Corruption.PayloadLengthByte`).
- A frame that leaves the receive buffer too little room can close the connection, or be dropped if
  it is lossy; `Room.EveryFrameArrivesExactly` and `Room.ReliableFramesArriveExactly` say when.
- A session can become Active although no secret was ever sent
  (`SessionSafety.ActiveWithoutSecret`); `SessionSafety.FirstActivation` says when the secret was
  checked.
- A Renew by the holder may shorten its own lease (`LeaseSafety.RenewCanShorten`, with a whole run in
  `ShortenedLease.RenewShortens`), so the latest grant counts; `LeaseSafety.ClaimGrantedExactly` says
  when a claim without preemption is granted.
- Two ends that open a session with the same id at once may not both end Active though both are
  honest and share the secret: `Crossing.HonestEndsFail` has a whole run for each of the three
  outcomes. `Crossing.CrossingExactly` says when it happens, by how many of its own four messages
  an end had sent when it handled the other's Profiles and Ready, and `Crossing.SendFirstSuffices`
  is the guard: both end Active when each sends all four before it handles anything.
- The discovery printer accepts format numbers that the reader refuses
  (`Discovery.UnknownFormatPrinted`); `Discovery.ReplyRoundTrip` says what is read back.
- Field bounds that are not finite, and enumerators without a name, are written and then refused
  (`ConfigurationMessages.DescribeResponseRoundTrip`, `ConfigurationMessages.PatchResponseRoundTrip`).

## Model

| member | source | states |
|---|---|---|
| ByteLayout.AppendLe | src/core/wire_v2_codec.cpp:17-32 | the shifting loop appends exactly the little-endian bytes of the number |
| ByteLayout.ReadLe | src/core/wire_v2_codec.cpp:38-56 | the loop that ORs shifted bytes gives the number those bytes are |
| Fnv.ComputeFold | src/core/wire_v2_codec.cpp:80-87 | the hash loop folds the bytes in one at a time, in the width of the machine word |
| Fnv.PrimesInvertible | src/core/wire_v2_codec.cpp:80-87 | both FNV primes are invertible in their word size, the 32-bit one with inverse 0x359C449B |
| Fnv.StepInjective | src/core/wire_v2_codec.cpp:80-87 | one hash step loses neither the running hash nor the byte |
| Fnv.FoldSubstitution | src/core/wire_v2_codec.cpp:80-87 | replacing exactly one byte, anywhere in any data, changes the hash |
| WireCodecLoops.EncodeEnvelope | src/core/wire_v2_codec.cpp:89-176 | the checks, the auto-fill and the appending loops print what the specification prints |
| WireCodecLoops.DecodeFrame | src/core/wire_v2_codec.cpp:178-314 | the cursor walk accepts or rejects with the specified code and consumed length, reading within bounds |
| WireCodecLoops.ReadTargets | src/core/wire_v2_codec.cpp:251-266 | the loop over the targets reads them all within the header or fails |
| WireCodec.RoundTrip | src/core/wire_v2_codec.cpp:89-314 | a printed frame followed by any bytes decodes, consumes exactly the frame, and differs from the input only in auto-filled fields and checksum |
| WireCodec.EncodeAccepts | src/core/wire_v2_codec.cpp:89-176 | with auto-fill, printing refuses exactly the envelopes that fail the field checks, and the frame length cannot overflow |
| WireCodec.Canonical | src/core/wire_v2_codec.cpp:178-314 | printing a decoded envelope reproduces the consumed bytes if and only if the four reserved bytes were zero |
| WireCodec.AcceptsExactlyPrinted | src/core/wire_v2_codec.cpp:178-314 | with the reserved bytes zero, decode accepts exactly the data that begin with a frame encode prints |
| WireLayout.LittleEndian | src/core/wire_v2_codec.cpp:38-56 | fields of two, four and eight bytes, byte by byte |
| WireLayout.FrameLayout | src/core/wire_v2_codec.cpp:133-175 | every field of a printed frame stands at its byte offset, in little-endian order, with the numbers of its enumerators |
| WireLayout.TargetsLayout | src/core/wire_v2_codec.cpp:164-167 | each target is its two-byte length and its uid, in the order of the list |
| WireLayout.TimesKept | src/core/wire_v2_codec.cpp:118-127 | a creation time or message id of the caller arrives as given; zero is filled in, from the clock and from the creation time |
| WireLayout.PrintsExactly | src/core/wire_v2_codec.cpp:89-132 | a frame is printed if and only if the envelope meets the stated numeric limits, and its length |
| WireLayout.KnownHashes | src/core/wire_v2_codec.cpp:80-87 | the published FNV-1a hashes of nothing and of one zero byte, in both widths |
| Corruption.HeaderLengthDetermined | src/core/wire_v2_codec.cpp:216-279 | the same header bytes cannot fill two different header lengths exactly |
| Corruption.OneByteRejected | src/core/wire_v2_codec.cpp:178-304 | any one-byte change of a whole frame outside the payload-length field is rejected |
| Corruption.OneByteOfEncodedRejected | src/core/wire_v2_codec.cpp:89-304 | the same for a frame just printed |
| Corruption.PayloadLengthByte | src/core/wire_v2_codec.cpp:194-304 | inside that field the change passes if and only if the frame got shorter and the bytes now taken for the trailer are its checksum |
| Corruption.PayloadLengthCorruptionCanPass | src/core/wire_v2_codec.cpp:194-304 | such frames exist: a concrete family in which one changed byte is accepted |
| DamagedFrames.DamageReport | src/core/wire_v2_codec.cpp:178-304 | the error and consumed length that one changed byte leads to, by where the byte stands |
| DamagedFrames.FrontReport | src/core/wire_v2_codec.cpp:178-216 | the error of data that are too short, without the magic, of another version, with impossible lengths or unfinished; all else is judged at the announced length |
| DamagedFrames.ChecksumComesLast | src/core/wire_v2_codec.cpp:216-304 | a refused whole frame has a checksum error exactly when it is accepted with the right checksum; all other errors are decode errors |
| DamagedFrames.DamagedStream | src/runtime/v2/io/runtime_receive.cpp:11-57 | in any cut of a stream of frames that announce themselves, the good ones arrive and the damaged ones are reported, each in its place |
| DamagedFrames.DamageCostsOneFrame | src/runtime/v2/io/runtime_receive.cpp:44-49 | one byte changed from byte 14 on costs only its own frame, in any cut of the stream |
| DamagedFrames.PopExactly | src/runtime/v2/io/runtime_receive.cpp:11-57 | what a pop does with any buffer, from the first place of the magic on |
| DamagedFrames.BadLengthResyncs | src/runtime/v2/io/runtime_receive.cpp:34-39 | after a bad length the scan goes on behind one byte, and the next frame is reported |
| DamagedFrames.RecoverExactly | src/runtime/v2/runtime_network.cpp:64-94 | one step of overflow recovery on any buffer: a reliable header ends it, a lossy frame goes, anything else goes up to the next magic |
| SendQueue.ExactAdmission | src/runtime/v2/runtime_network.cpp:205-240 | a frame is accepted exactly when it fits under its limit with the reliable frames that stay; a refusal after the size check leaves both lossy queues empty and both reliable ones alone |
| SendQueue.AppendExactly | src/runtime/v2/runtime_network.cpp:184-240 | a frame that supersedes nothing is accepted exactly within three quarters of the maximum, all of it for control frames; it then stands last in its queue and as few lossy frames as possible are gone |
| SendQueue.ReplaceExactly | src/runtime/v2/runtime_network.cpp:217-232 | a superseding frame is accepted exactly when it fits without the bytes of the frame whose place it takes |
| SendQueue.RefusedExactly | src/runtime/v2/runtime_network.cpp:184-240 | what a refusal leaves of the four queues |
| SendQueue.ReserveForControl | src/runtime/v2/runtime_network.cpp:195-203 | control traffic that fits in a quarter of the budget is never refused |
| SendQueue.LeastEviction | src/runtime/v2/runtime_network.cpp:172-193 | eviction removes the shortest sufficient prefix, Bulk first and BestEffort only once Bulk is gone |
| SendQueue.EnqueueSound | src/runtime/v2/runtime_network.cpp:205-240 | every enqueue keeps the budget, the reserve, the classes of the queues and one frame per key |
| SendQueue.TakeSound | src/runtime/v2/runtime_network.cpp:242-255 | every take keeps them, removes exactly the bytes of the frame it returns, and fails only at zero bytes |
| SendQueue.StrictPriority | src/runtime/v2/runtime_network.cpp:242-255 | a take returns the oldest frame of its class, with no earlier class queued, and leaves every other queue alone |
| SendQueue.CoalescingKeepsPosition | src/runtime/v2/runtime_network.cpp:217-232 | a frame that supersedes a queued one takes its place and moves nothing else |
| QueueRuns.EveryRun | src/runtime/v2/runtime_network.cpp:205-255 | on every run: ordered frames taken and queued are those accepted; lossy ones split into taken, evicted and queued in order; per key the newest accepted frame is queued or was taken last |
| QueueRuns.StoppedAcceptsNothing | src/runtime/v2/runtime_network.cpp:205-216 | after a stop no continuation accepts a frame |
| RuntimeConnections.RuntimeConnection.DropOldest | src/runtime/v2/runtime_network.cpp:172-180 | removes the front frame of one queue and its bytes from the counter, or reports an empty queue |
| RuntimeConnections.RuntimeConnection.MakeRoom | src/runtime/v2/runtime_network.cpp:184-193 | the loop evicts exactly what the specification evicts and says whether the rest fits |
| RuntimeConnections.RuntimeConnection.FindQueued | src/runtime/v2/runtime_network.cpp:217-220 | finds the first queued frame with the key, or says there is none |
| RuntimeConnections.RuntimeConnection.Enqueue | src/runtime/v2/runtime_network.cpp:205-240 | the queues and the counter end as one submit step of the recorded run |
| RuntimeConnections.RuntimeConnection.TakeNextFrame | src/runtime/v2/runtime_network.cpp:242-255 | returns the oldest frame of the highest nonempty class, as one take step of the recorded run |
| RuntimeConnections.RuntimeConnection.Accounting | src/runtime/v2/runtime_internal.hpp:34-37 | whatever happened, the counter is the sum of the queued frames, within the maximum, zero exactly when all queues are empty, and leaves the reserve |
| SocketWriter.WriteFrameChunks | src/runtime/v2/runtime_network.cpp:96-137 | exactly the reported prefix went out, once and in order, and the status is decided by the exchanges with the socket: a fault, too many retries in a row, a stopped socket, or complete; it terminates by bytes and retries left |
| FrameWriter.SendFrame | src/runtime/v2/runtime_network.cpp:269-310 | the fate of a frame is decided by the exchanges about it: sent, dropped if congested before the first byte of a lossy frame, or broken |
| FrameWriter.SendLoop | src/runtime/v2/runtime_network.cpp:257-311 | each taken frame meets the fate its exchanges decide, a running loop looks for a frame every time, and nothing follows a broken frame, with other threads sending and stopping meanwhile |
| FrameWriter.FrameBoundaries | src/runtime/v2/runtime_network.cpp:257-311 | the wire holds whole frames in take order, one whose last byte went out together with an error included, and at most one proper prefix after them |
| EndToEnd.WireBoundaries | src/runtime/v2/runtime_network.cpp:257-311 | the same at every point of every run; mid-write the rest is a prefix of the frame in hand |
| EndToEnd.BrokenIsFinal | src/runtime/v2/runtime_network.cpp:301-309 | once a frame was broken off, no continuation writes, takes or accepts anything |
| Receive.PopLeavesSuffix | src/runtime/v2/io/runtime_receive.cpp:11-57 | whatever a pop does, the buffer becomes a suffix of itself |
| Receive.PopFrame | src/runtime/v2/io/runtime_receive.cpp:11-57 | a pop that returns something shrinks the buffer, so draining ends; `DamagedFrames.PopExactly` says what it returns |
| Receive.Recover | src/runtime/v2/runtime_network.cpp:64-94 | overflow recovery ends and succeeds only with a buffer within the limit |
| Receive.RecoverLeavesSuffix | src/runtime/v2/runtime_network.cpp:64-94 | recovery leaves a suffix of the buffer |
| ReceiveBuffers.ReceiveBuffer.PopFrame | src/runtime/v2/io/runtime_receive.cpp:11-57 | the scan, the erasures and the decode do what one specified pop does |
| ReceiveBuffers.ReceiveBuffer.RecoverOverflow | src/runtime/v2/runtime_network.cpp:64-94 | the erasing loop is the specified recovery |
| ReceiveBuffers.ReceiveBuffer.ReceiveLoop | src/runtime/v2/io/runtime_receive.cpp:60-131 | the nested loops report and keep what feeding the chunks one by one reports and keeps |
| Framing.PopWhole | src/runtime/v2/io/runtime_receive.cpp:11-57 | a whole frame at the front is popped as its envelope, whatever follows |
| Framing.PopPartial | src/runtime/v2/io/runtime_receive.cpp:24-45 | an unfinished frame stays where it is |
| Framing.PopAfterNoise | src/runtime/v2/io/runtime_receive.cpp:12-23 | noise without the magic in front of a frame is skipped and the frame is popped |
| Framing.ChunkIndependence | src/runtime/v2/io/runtime_receive.cpp:90-131 | however the bytes of a stream of frames are cut into chunks of at most 8192, the receiver reports the frames that arrived, keeps the unfinished tail and never overflows |
| Room.FrameNearLimitCloses | src/runtime/v2/io/runtime_receive.cpp:92-113 | from a fresh receiver, single bytes bring a large reliable frame to its last byte but one, and any full chunk after that closes the connection |
| Room.EveryFrameArrivesExactly | src/runtime/v2/io/runtime_receive.cpp:90-131 | for any whole frames within the limit: every cut into chunks is received undisturbed if and only if each frame fits together with what one chunk can bring beyond it |
| Room.ReliableFramesArriveExactly | src/runtime/v2/io/runtime_receive.cpp:90-131 | every cut leaves the connection open if and only if each reliable frame so fits, and then all reliable frames are reported in order |
| Room.UniformRoom | src/runtime/v2/io/runtime_receive.cpp:92-113 | with enough to come, a reliable frame never closes the connection if and only if it leaves room for a chunk less a byte |
| Room.LossyWithoutRoom | src/runtime/v2/runtime_network.cpp:64-94 | a lossy frame without that room can be dropped, alone or with lossy frames behind it, while everything around them is reported, unless a reliable frame behind them closes the connection |
| Room.RoomInNumbers | src/runtime/v2/io/runtime_receive.cpp:60-113 | room and cuts in numbers: chunks of at most 8192 bytes, and room for 8191 of them |
| Framing.BufferBounded | src/runtime/v2/io/runtime_receive.cpp:90-131 | whatever bytes arrive, the buffer of an open connection is within the limit after every turn |
| Framing.RecoverAligned | src/runtime/v2/runtime_network.cpp:64-94 | on a frame-aligned buffer, recovery removes only leading lossy frames, as few as it can, and gives up exactly at a reliable frame while over the limit |
| EndToEnd.ReceiverReports | src/runtime/v2/io/runtime_receive.cpp:60-131 | on any run the receiver has reported exactly the frames read to the end, in stream order, with no rejection and no overflow |
| EndToEnd.FramesEndToEnd | src/runtime/v2/runtime_network.cpp:205-311 | where every frame leaves room for a chunk, ordered frames received are a prefix of those accepted; BestEffort, Bulk and the frames of each key are subsequences |
| EndToEnd.EnvelopesEndToEnd | src/runtime/v2/runtime_network.cpp:205-311 | the same for the envelopes reported against the envelopes given to send, as auto-filled |
| EndToEnd.EverythingArrives | src/runtime/v2/runtime_network.cpp:257-311 | with an empty ordered queue, an idle unbroken writer and all bytes delivered, every ordered envelope accepted by send was reported |
| AnyRoom.EnvelopesAnyRoom | src/runtime/v2/io/runtime_receive.cpp:60-131 | the prefix and subsequence results without any room, overflow and closing included, for frames the receiver takes at all |
| AnyRoom.EnvelopesAlways | src/runtime/v2/runtime.cpp:235-241 | with a receive limit no smaller than the queue limit they hold of every run whatsoever |
| LatestValues.LatestEndToEnd | src/runtime/v2/runtime_api.cpp:46-71 | with frames the receiver takes at all, overflow or not, and for any key function of the envelopes, the ReliableLatest envelopes received of a key are a subsequence of those accepted of it |
| LatestValues.LatestAlways | src/runtime/v2/runtime.cpp:235-241 | with a receive limit no smaller than the queue limit that holds of every run whatsoever |
| SendLoopRuns.SendLoopIsRun | src/runtime/v2/runtime_network.cpp:257-311 | what the loop method establishes of a connection is what some run of small steps does: same queues, same fates, same bytes on the wire |
| SendLoopRuns.SendLoopOnNew | src/runtime/v2/runtime_network.cpp:257-311 | the loop on a new connection, with whatever other threads send meanwhile, did what some run of small steps does |
| SessionCodec.TextRoundTrip | src/runtime/v2/runtime_common.cpp:67-82 | a text is read back if and only if its length fits the prefix |
| SessionCodec.TextCanonical | src/runtime/v2/runtime_common.cpp:76-82 | an accepted payload is the printed form of its text |
| SessionCodec.ProfileListRoundTrip | src/runtime/v2/runtime_common.cpp:84-129 | a profile list is read back if and only if it is printable and no major version is zero |
| SessionCodec.ProfileListCanonical | src/runtime/v2/runtime_common.cpp:102-129 | an accepted list payload is the printed form of the list |
| PayloadLayouts.TextPayload | src/runtime/v2/runtime_common.cpp:67-74 | the bytes of a Hello or Authenticate payload |
| PayloadLayouts.ProfileListPayload | src/runtime/v2/runtime_common.cpp:84-100 | when a profile list is printed, and its bytes |
| SessionCodec.EncodeProfiles | src/runtime/v2/runtime_common.cpp:84-100 | the appending loop prints the list, or nothing at the first profile that cannot be printed |
| SessionCodec.DecodeProfiles | src/runtime/v2/runtime_common.cpp:102-129 | the cursor loop reads the list or fails as specified |
| Sessions.MessageRules | src/runtime/v2/session.cpp:244-315 | what one message can do: the pinned uid stays, a mismatching source only invalidates, Invalid is left exactly by the correct secret, Active is entered exactly from Negotiated by Ready |
| Sessions.MessageExactly | src/runtime/v2/session.cpp:244-315 | the entry and the reply after any message, with the payloads of Hello and Authenticate as they are printed |
| Sessions.NegotiateMeans | src/runtime/v2/session.cpp:14-29 | negotiation yields, for each id, exactly the offer for the remote profile of that id |
| Sessions.AgreedAdmits | src/runtime/v2/session.cpp:14-29 | an agreed profile admits exactly the versions both sides admit; none is agreed exactly on different ids or majors or on conflicting schemas |
| Sessions.NegotiationSymmetric | src/runtime/v2/session.cpp:14-29 | two endpoints with unique ids negotiate the same map from each other's lists |
| Sessions.RejectedExactly | src/runtime/v2/session.cpp:279-297 | the rejected ids are those of the remote profiles without an offer, in their order |
| Sessions.LastOfferCounts | src/runtime/v2/session.cpp:279-297 | of remote profiles with one id the last one with an offer counts |
| Sessions.FindFirst | src/runtime/v2/session.cpp:284-287 | the first local profile with the id is the one compared |
| RuntimeObjects.NegotiateLists | src/runtime/v2/session.cpp:279-298 | the loop over the remote profiles computes the negotiated map and the rejected list |
| RuntimeObjects.Runtime.OpenSession | src/runtime/v2/session.cpp:69-82 | takes the next session id and starts the entry over, even one that is there |
| RuntimeObjects.Runtime.OnSessionMessage | src/runtime/v2/session.cpp:244-315 | the branches leave the entry and the reply the specification gives |
| RuntimeObjects.Runtime.HandleEnvelope | src/runtime/v2/session.cpp:160-338 | one received envelope is one step of the recorded run, with its outcome |
| RuntimeObjects.Runtime.HandleAuthority | src/runtime/v2/authority.cpp:49-116 | the lease table and the reply end as ruled, the expired entry erased first |
| RuntimeObjects.Runtime.SetEntities | src/runtime/v2/runtime_api.cpp:24-44 | refused as a whole for an invalid uid; otherwise exactly the leases on missing entities go |
| RuntimeObjects.Runtime.RevokeAuthority | src/runtime/v2/authority.cpp:152-169 | exactly the leases of that peer and session on the named entities go |
| RuntimeObjects.Runtime.DropPeerState | src/runtime/v2/session.cpp:340-373 | exactly the sessions and leases of the lost peer go |
| RuntimeObjects.Runtime.Stop | src/runtime/v2/runtime.cpp:166-187 | clears both tables as one step of the recorded run |
| RuntimeObjects.Runtime.HasAuthority | src/runtime/v2/authority.cpp:171-181 | answers exactly whether the recorded events entitle the peer and session |
| SessionSafety.EveryKeyAgrees | src/runtime/v2/session.cpp:244-252 | on every run each entry is stored under its own peer and session id |
| Sessions.EntryMet | src/runtime/v2/session.cpp:250-252 | the entry a message meets names its own peer and session, and is the stored one or a new one |
| SessionSafety.SessionMessageStep | src/runtime/v2/session.cpp:160-337 | what any session message does to the table and shows; operations 5 and 6 touch nothing |
| SessionSafety.EntryRules | src/runtime/v2/session.cpp:244-315 | the message rules at every point of every run, for every event |
| SessionSafety.PinnedForGood | src/runtime/v2/session.cpp:253-260 | a pinned uid is the same at any later point until the entry is started over |
| SessionSafety.NegotiatedIsLast | src/runtime/v2/session.cpp:275-303 | the stored profiles are always negotiation applied to the last well-formed list of the session |
| SessionSafety.DeliveredThroughSession | src/runtime/v2/session.cpp:185-241 | a delivered envelope came through an active session, from its pinned uid, addressed here, with a type that the last list supports |
| SessionSafety.InvalidUntilProved | src/runtime/v2/session.cpp:269-274 | an invalid session stays invalid until the correct secret arrives |
| SessionSafety.ActiveWithoutSecret | src/runtime/v2/session.cpp:299-308 | a profile list and Ready alone make a session Active and marked authenticated |
| SessionSafety.FlagMeans | src/runtime/v2/session.cpp:269-308 | what the authenticated flag says on every run: the secret arrived, or the session was already made Active |
| SessionSafety.FirstActivation | src/runtime/v2/session.cpp:304-308 | at the first activation the secret was checked if and only if the flag was set before Ready |
| Authority.RequestRoundTrip | src/core/core_messages_v2.cpp:31-37 | an authority request is read back if and only if its scope fits the prefix |
| Authority.RequestCanonical | src/core/core_messages_v2.cpp:166-172 | an accepted request payload is the printed form of the request |
| LeaseSafety.RequestEffect | src/runtime/v2/authority.cpp:49-116 | what a request can do to the lease of one key: a grant, the owner's release, or at most the erasure of an expired lease |
| Authority.VerdictMeans | src/runtime/v2/authority.cpp:49-116 | each verdict in terms of who has authority now: who may claim, renew and release, why a request is refused, and that a grant lasts at most an hour |
| Authority.RequestLayout | src/core/core_messages_v2.cpp:31-37 | the bytes of an authority request |
| Authority.RequestExactly | src/runtime/v2/authority.cpp:49-116 | for any request the status told and the whole lease table afterwards, with the grant's expiry |
| LeaseSafety.AuthorityExactly | src/runtime/v2/authority.cpp:171-181 | a peer and session have authority if and only if a Claim or Renew granted it, its expiry is ahead and nothing since ended it |
| LeaseSafety.DeliveredActionHolds | src/runtime/v2/authority.cpp:118-150 | a Goal or Cancel reaches the subscribers only from a sender entitled at that moment |
| LeaseSafety.EntitledActionPasses | src/runtime/v2/authority.cpp:118-150 | an entitled sender's action is stopped only by the session or profile check |
| LeaseSafety.NoForeignGrant | src/runtime/v2/authority.cpp:72-113 | while one is entitled no other is granted the key without preempting, and the attempt changes no lease |
| LeaseSafety.ClaimGrantedExactly | src/runtime/v2/authority.cpp:99-112 | an admitted claim that does not preempt is granted if and only if nobody but the requester is entitled to the key |
| LeaseSafety.HolderRequestExactly | src/runtime/v2/authority.cpp:79-98 | an admitted Renew or Release succeeds if and only if the requester is entitled |
| LeaseSafety.RenewCanShorten | src/runtime/v2/authority.cpp:89-112 | in any run, after a Renew that expires earlier than the standing grant, a foreign claim succeeds before the old expiry |
| ShortenedLease.RenewShortens | src/runtime/v2/authority.cpp:89-112 | a complete run from the start in which that happens, whatever the configuration |
| LeaseSafety.OneHolder | src/runtime/v2/authority.cpp:72-113 | at most one peer and session are entitled to a key at a time |
| DeliveryGate.DeliveredExactly | src/runtime/v2/session.cpp:185-241 | an envelope reaches the subscribers if and only if it is neither a session message nor a request, and session, target, negotiated type and, for operations 1 and 3 of the Action family, a standing grant all admit it |
| DeliveryGate.BlockedExactly | src/runtime/v2/session.cpp:185-241 | why an envelope is not delivered, in the order of the checks, and that it then changes nothing |
| DeliveryGate.RequestAnswered | src/runtime/v2/authority.cpp:49-116 | an addressed and supported authority request is ruled on and answered, never delivered |
| DeliveryGate.NoLeaseNoAction | src/runtime/v2/authority.cpp:118-150 | a peer without any lease gets neither a Goal nor a Cancel delivered |
| Handshake.MessageSurvives | src/runtime/v2/session.cpp:35-65 | a session message arrives through the frame codec with its meaning, correlation and message id |
| Handshake.SessionMessageExactly | src/runtime/v2/session.cpp:35-65 | a session message arrives with every field as sent: core type and name, broadcast, reliable, five seconds to live |
| Handshake.EveryWorld | src/runtime/v2/session.cpp:69-104 | in every interleaving three counts determine both entries and both channels |
| Handshake.HandshakeEnds | src/runtime/v2/session.cpp:316-337 | every effective step is progress, and there are at most ten; replies are never answered |
| Handshake.NotQuietMoves | src/runtime/v2/session.cpp:316-337 | a run that is not quiet has a step that makes progress |
| Handshake.BothActive | src/runtime/v2/session.cpp:244-337 | with one secret a quiet run has both ends Active, pinned to each other, with equal negotiated maps |
| Handshake.NeitherActive | src/runtime/v2/session.cpp:269-274 | with different secrets neither end is Active at any point of any run |
| Handshake.GatesAgree | src/runtime/v2/runtime_api.cpp:46-54 | at any point a type the opener's sending gate admits passes the other end's profile check |
| SessionTraces.ActiveExactly | src/runtime/v2/session.cpp:261-308 | after honest messages in any order a session is Active if and only if, since the last Authenticate, the first of Profiles and Ready is Profiles and the last is Ready |
| CrossingCounts.CountsDecide | src/runtime/v2/session.cpp:244-337 | for two crossing opens that have settled, four counts give the state of each end |
| Crossing.EveryRun | src/runtime/v2/session.cpp:69-104 | in every interleaving of two opens of one id, with the replies between, the counts determine both states and both channels |
| Crossing.CrossingSettles | src/runtime/v2/session.cpp:316-337 | a move does nothing or is progress, there are at most 22 of those, and an unsettled run has one |
| Crossing.CrossingExactly | src/runtime/v2/session.cpp:244-337 | how far each end was with its own opening when it handled the other's Profiles and Ready decides both states: both Active, pinned and agreed, if and only if neither fell behind |
| Crossing.SendFirstSuffices | src/runtime/v2/session.cpp:69-104 | both end Active in every interleaving in which each end sends its whole opening before it handles anything |
| Crossing.CountsHappen | src/runtime/v2/session.cpp:69-104 | for every pair of counts of one end, in order, a whole settled run with them, the other end having sent all |
| Crossing.HonestEndsFail | src/runtime/v2/session.cpp:244-337 | three whole runs of honest ends with one secret, ending Invalid and Negotiated, Active and Negotiated, Active and Invalid |
| DiscoveryPackets.AuthTag | src/discovery/discovery_v2.cpp:21-30 | the two loops hash the secret and then the packet |
| DiscoveryPackets.EncodeQueryPacket | src/discovery/discovery_v2.cpp:218-232 | the writer's steps print the specified packet |
| DiscoveryPackets.DecodeQueryPacket | src/discovery/discovery_v2.cpp:234-257 | the reader's steps accept or refuse as specified |
| DiscoveryPackets.EncodeReplyPacket | src/discovery/discovery_v2.cpp:259-309 | the writer's loops print the specified packet, and an oversized text or packet gives nothing |
| DiscoveryPackets.DecodeReplyPacket | src/discovery/discovery_v2.cpp:311-395 | the reader's loops accept or refuse as specified |
| DiscoveryPackets.Reader.Attributes | src/discovery/discovery_v2.cpp:149-165 | emplacing entries while reading them gives the map of all of them, or fails |
| Discovery.OneByteBreaksTag | src/discovery/discovery_v2.cpp:176-186 | changing any single byte, tag included, breaks authentication |
| Discovery.QueryRoundTrip | src/discovery/discovery_v2.cpp:218-257 | a query is read back if and only if nonce, window and format are allowed |
| Discovery.QueryCanonical | src/discovery/discovery_v2.cpp:234-257 | an accepted query packet is the printed form of its query |
| DiscoveryLayout.QueryLayout | src/discovery/discovery_v2.cpp:218-232 | when a query packet is printed, and its bytes with the tag over secret and body |
| Discovery.CorruptQueryRejected | src/discovery/discovery_v2.cpp:234-257 | no one-byte change of an accepted query is accepted |
| Discovery.ReplyRoundTrip | src/discovery/discovery_v2.cpp:259-395 | a printed reply decodes, for its nonce alone, to what its format carries of the advertisement, exactly for formats 2, 3 and 4 |
| Discovery.UnknownFormatPrinted | src/discovery/discovery_v2.cpp:259-309 | for a query of any format an endpoint that offers nothing prints a reply, which no nonce reads outside formats 2, 3 and 4 |
| Discovery.AcceptedReplyValid | src/discovery/discovery_v2.cpp:311-395 | an accepted reply holds a valid advertisement with only what a format carries |
| DiscoveryLayout.ReplyLayout | src/discovery/discovery_v2.cpp:259-309 | when a reply packet is printed, in numbers, and all of its bytes |
| DiscoveryLayout.ReplyCanonical | src/discovery/discovery_v2.cpp:311-395 | an accepted reply of format 2 or 3 is byte for byte the printed one, and any accepted one is within the limits |
| Discovery.CorruptReplyRejected | src/discovery/discovery_v2.cpp:311-395 | no one-byte change of an accepted reply is accepted, for any nonce |
| StringMaps.LessMeans | src/discovery/discovery_v2.cpp:63-79 | the order of keys: a proper prefix first, and otherwise the first byte that differs decides |
| StringMaps.EmplaceInOrder | src/discovery/discovery_v2.cpp:63-79 | entries read in the order they were written rebuild the map |
| StringMaps.EmplaceRefuses | src/core/core_messages_v2_internal.hpp:159-173 | an entry is refused exactly when its key is there |
| StringMaps.AnyOrder | src/core/core_messages_v2_internal.hpp:159-173 | the same entries give the same map in any order |
| Codecs.BuildParse | src/core/binary_codec_io.hpp:127-144 | a payload that was built parses to its value, or is refused by the reader's own checks |
| Codecs.ParseBuild | src/core/binary_codec_io.hpp:127-144 | a payload that parses to a writable value is the one built from it |
| Readers.RowsInOrder | src/core/configuration_service/codec_io.hpp:15-25 | a list is printed as its elements in their order |
| Codecs.VectorLaws | src/core/configuration_service/codec_io.hpp:15-43 | a bounded list obeys both laws when its elements do |
| Codecs.OptionalLaws | src/core/configuration_service/codec_io.hpp:206-209 | a value behind a flag obeys both laws when the value does |
| Configuration.ValueLaws | src/core/configuration_service/codec_io.hpp:92-162 | tagged values are read back exactly if written, and written as they were read |
| Configuration.SchemaLaws | src/core/configuration_service/codec_io.hpp:190-246 | the same for field schemas with their optional default |
| PayloadLayouts.KnownDoubles | src/core/configuration_service/codec_io.hpp:92-127 | the largest doubles are finite, the infinities and a NaN are not |
| Configuration.SnapshotLaws | src/core/configuration_service/codec_io.hpp:257-273 | the same for snapshots |
| ConfigurationMessages.PatchRequestRoundTrip | src/core/configuration_service/codec.cpp:101-118 | a patch request survives if and only if it is within the limits at every depth; otherwise the payload is empty |
| ConfigurationMessages.PatchResponseRoundTrip | src/core/configuration_service/codec.cpp:120-144 | a patch response survives if and only if it is within the limits and its enumerators are named, with or without the candidate snapshot |
| ConfigurationMessages.PatchResponseCanonical | src/core/configuration_service/codec.cpp:133-144 | a payload that decodes to a response within the limits is the one it encodes to |
| ConfigurationMessages.SchemaLimits | src/core/configuration_service/codec_io.hpp:190-246 | what the writer and what only the reader checks of a schema, spelled out |
| ConfigurationMessages.DescribeResponseRoundTrip | src/core/configuration_service/codec.cpp:57-72 | a describe response survives if and only if limits, enumerators and finite bounds all hold |
| ConfigurationMessages.DescribeRequestRoundTrip | src/core/configuration_service/codec.cpp:35-55 | a describe request survives if and only if both texts fit |
| ConfigurationMessages.DescribeRequestPayloads | src/core/configuration_service/codec.cpp:46-55 | exactly which payloads decode to a request: one with a locale, two without |
| PayloadLayouts.PatchRequestLayout | src/core/configuration_service/codec.cpp:101-109 | the bytes of a patch request, or none |
| PayloadLayouts.PatchResponseLayout | src/core/configuration_service/codec.cpp:120-131 | the bytes of a patch response, or none |
| PayloadLayouts.DescribeResponseLayout | src/core/configuration_service/codec.cpp:57-63 | the bytes of a describe response, or none |
| PayloadLayouts.DescribeRequestLayout | src/core/configuration_service/codec.cpp:35-44 | the bytes of a describe request, with a locale only if there is one |
| PayloadLayouts.ReaderLimits | src/core/configuration_service/codec_io.hpp:15-43 | the reader takes texts of any length the prefix holds, and lists of up to 256 and no more |
| PayloadIo.BufferWriter.WriteValue | src/core/configuration_service/codec_io.hpp:92-127 | the value's bytes follow and the flag stays up exactly if it fits |
| PayloadIo.EncodePatchResponse | src/core/configuration_service/codec.cpp:120-131 | the writer's steps build the payload, empty once any limit at any depth was broken |
| PayloadIo.BufferReader.ReadValue | src/core/configuration_service/codec_io.hpp:129-162 | reads the tagged value at the cursor or fails as specified |
| PayloadIo.DecodePatchResponse | src/core/configuration_service/codec.cpp:133-144 | the reader's steps parse the payload as specified |
| CoreMessages.DirectoryRoundTrip | src/core/core_messages_v2.cpp:5-12 | a directory survives if and only if every count fits, every uid is valid and every availability is named |
| CoreMessages.LogListRoundTrip | src/core/core_messages_v2.cpp:109-115 | a log list survives if and only if it fits and its uids are valid |
| CoreLayouts.DirectoryLayout | src/core/core_messages_v2.cpp:5-12 | the bytes of an entity directory, or none |
| CoreLayouts.LogListLayout | src/core/core_messages_v2.cpp:109-115 | the bytes of a log list, or none |
| MetricKey.SplitJoins | profiles/org.yunlink.telemetry/v1/summary_validation.cpp:23-31 | the parts are what stands between the dots |
| MetricKey.WellFormedMeans | profiles/org.yunlink.telemetry/v1/summary_validation.cpp:18-47 | the well-formed keys, in numbers |
| MetricKey.ScanMeans | profiles/org.yunlink.telemetry/v1/summary_validation.cpp:18-47 | from any point of the key, the automaton's verdict is the split form's on what is left |
| MetricKey.ValidMetricKey | profiles/org.yunlink.telemetry/v1/summary_validation.cpp:18-47 | the one-pass loop accepts exactly the keys the split form accepts |

## Left out

- Sockets, threads, timers and accept or connect: the bytes a write accepts, the chunk a read
  returns, the clock and the interleaving of other threads are arbitrary; a locked region is one step.
- One received envelope is one atomic step with one clock value; the program takes several locks
  for it and reads the clock before the lease lock. A steady clock that overflows 64 bits is not
  modelled, nor a session or message counter that wraps to a value in use.
- Lossy lanes: LaneBind, LaneReady and the lane owner table. Every connection stands alone, so the
  physical and the logical peer of an envelope are the same.
- The sending gate of `send` and the routing to a connection are not part of a connection's run in
  `Pipeline`; `Handshake.GatesAgree` speaks of the gate.
- Crossing.CrossingExactly: the two ends share one secret, and a reply leaves in the step that
  handled the message; in the program a message of one's own opening may slip in between.
- RuntimeObjects.Runtime.HandleEnvelope: the lane messages change nothing, and the logical peer of
  an envelope is its physical one, because lanes are left out.
- RuntimeObjects.Runtime.OnSessionMessage: the entry has no lossy peer, because lanes are left out.
- RuntimeObjects.Runtime.DropPeerState: the branch for a lost lossy lane is not there, because lanes
  are left out.
- AnyRoom.EnvelopesAnyRoom: frames longer than the receiver's limit are refused and scanned for a
  magic inside them, so what is then reported depends on their payloads.
- A handshake message refused by a full send queue: the channels of `Handshake` deliver everything.
- Enumerations of envelopes are datatypes, so an envelope holding an unnamed value is not modelled;
  those of payloads are raw numbers, and unnamed ones are.
- `latest_key`: the key is an opaque string, and the string built for it is not modelled.
- Event texts, diagnostics, subscriber callbacks and the text of status replies.
- The discovery advertiser's UDP loop, the C, Rust and Python bindings, and the protobuf files.
- Core payloads are modelled on values, not as the steps of their reader and writer: the writer
  passes callbacks for list elements, so its cursor and its growing buffer are not modelled.
- The other configuration and core messages: sequences of texts, numbers and the parts above.
- The check of whole metric snapshots, and the Sunray, media, shell and system validators: flat
  field checks.
- The arithmetic of floating point: a double is its 64 bits, finite by its exponent (section 3.4
  of IEEE 754-2008).
- MetricKey.ValidMetricKey: keys are bytes; the Rust split form works on characters, which agree on
  every key either form accepts.
