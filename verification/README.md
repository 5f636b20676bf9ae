# Gemina's transport core, modelled and proved in Dafny

Gemina keeps a VPN session alive over two uplinks at once. The client seals every packet once, sends
the same datagram over each path, and the gateway delivers the first copy that arrives. This project
models the parts that promise is made of and proves what they keep:

- the RFC 6479 replay window, as a ring bitmap updated in place (`Bitmap`, `ReplaySpec`, `ReplayWindow`);
- one end of a session, and two ends over a network that drops, repeats, reorders and injects
  (`SessionSpec`, `Session`, `SessionPair`);
- the gateway: admission, key store, session cache, address leases, return paths and the two loops
  that serve them, as objects (`Admission`, `DataPlane`, `Allocator`, `PathSet`, `Router`, `Gateway`),
  as a machine whose atomic actions interleave freely (`GatewayRuns`, `GatewaySafety`,
  `GatewayNonces`, `GatewayEpochs`), from end to end (`GatewayClients`, `GatewayDelivery`), with runs that
  show where each law ends (`GatewayScenarios`, `GatewayReplays`), and the proof that the second is the
  first (`GatewayRefines`);
- the handshake from both sides, and the C bridge's opaque handles (`HelloWire`, `ClientHandshake`,
  `Handles`, `Bridge`);
- the probe server and its first-in first-out window (`FifoSpec`, `FifoWindow`, `ProbeServer`);
- entitlement tokens (`Base64Url`, `Decimal`, `Token`), Internet checksums and the UDP frames that
  carry them (`Checksum`, `UdpFrame`), and the failover timeline (`Impact`).

Modules follow the program's files. Code that updates state in place is a class or a method with loops
and is proved against a function on values; what the program promises is then proved about those
functions and about every sequence of their steps. `dafny verify dfyconfig.toml` checks everything.

## How the outside world appears

- Authenticated encryption is ideal: `Seal` records a box (key, nonce, associated data, ciphertext) and
  `Open` succeeds on recorded boxes and on nothing else. The ciphertext bytes are an arbitrary function.
- Key agreement, signatures and the keyed hash are arbitrary functions with the stated output lengths.
  `HandshakeAgrees` says which two facts it needs of them: the signature verifies under the pinned
  identity, and key agreement is symmetric.
- Clocks, randomness, the freshness decision, the entitlement decision, and whether a device or socket
  accepts a write are parameters.
- A step of the gateway machine is what one mutex covers, plus the code between two lock acquisitions
  of the loop that executes it. Any action of the other loop, of `Forget` or of the network may come
  between two steps.
- 64-bit counters wrap explicitly. Theorems that need them not to repeat say so as a bound of 2^64 on
  what the counter counts: the sends of one end, the replies of one session, the registrations in one
  handle table, the datagrams of a probe server.

## Where the code and its comments differ

- A session id is said to be single-use for the gateway's lifetime (internal/gateway/admission.go:16-18,
  56-60). After `DataPlane.Forget` it can be admitted again. `KeyKept` states what holds: single use
  until forgotten.
- A forgotten id is said not to come back with a fresh dedup window (internal/gateway/dataplane.go:88-91).
  `ServedBySameExactly` is the exact law: an id is served by one session, with one window, until it is
  forgotten, and by another one after that.
- Recorded endpoints survive a forget. `EndpointOutlivesSession` is a run in which a new session of an id
  is answered where only the earlier one was heard from; `SenderOfSameSession` says exactly when the
  sealing session is the one that authenticated the endpoint's datagram.
- Cancelling an unknown handshake handle is said to consume it (bridge/geminacore/handshake.go:125-126).
  `FinalExactly` says that it does if and only if the handle has been issued, and `EarlyCancelIgnored`
  shows one that had not.
- `PathSet.Fresh` is said to return all endpoints seen within the time to live
  (internal/exit/pathset.go:68-70). `LawExactly` says when, for any clock: unless an earlier query has
  already pruned the endpoint. `BackwardsClockLoses` is an instance; a clock that does not run back
  excludes it (`FreshUnderClock`).
- A checksum of zero is sent as all ones (research/usb-rndis-spike/rndis_lib.c:90-93). `AllOnesVerifies`
  says when that verifies for data of any length, `LongestFails` is the shortest length for which it does
  not, and `ShortNeverWraps` covers every frame the code builds.
- `inboundInto` marks a packet as seen before it looks at the buffer, so a first copy that does not fit
  is never delivered: `DeliveredAtMostOnce` and `DeliversExactly` state the at-most-once semantics.

Two facts are about what the code would do with inputs the running gateway does not give it. `Handshake`
draws a fresh ephemeral key each time, so it does not derive one session key twice; a key that did come
back after a forget would repeat a nonce (`SameKeyAgainReuses`) and let an old datagram in again
(`RegisteredAgainReplays`, `SameKeyAgainReplays`). `NonceReuseExactly` and `ReplayEntersExactly` give the
exact conditions, and `FreshKeysNeverReuse` and `FreshKeysTunnelOnce` say, key by key, that registering it
once is enough. The handshake also has a branch for an answer that cannot be encoded
(internal/gateway/admission.go:176-194). `GenerateKeyPair` and the signer never yield the sizes that lead
there, as `ProperSizesNeverLeak` notes, so this too is a fact about the branch: it would keep the new
lease (`RefusedLeavesState`, `UnanswerableLeaks`), and could leave a cached session without a key
(`UnwindKeepsExactly`, `UnanswerableOrphans`).

## Model

| member | source | states |
|---|---|---|
| ReplaySpec.RunShape | internal/dedup/replay.go:99-132 | after any arrivals, the window's newest number is the highest that arrived, and the accepted numbers still inside it are exactly the arrived ones |
| ReplaySpec.HistoryDecides | internal/dedup/replay.go:99-132 | the decision on a number is a function of the raw arrivals alone: stale if overtaken by a whole width, duplicate if it arrived before, else first copy |
| ReplaySpec.FirstCopyAtMostOnce | internal/dedup/replay.go:91-132 | over any arrivals, no number is a first copy twice |
| ReplaySpec.FirstCopyExactly | internal/dedup/replay.go:99-132 | an arrival is a first copy if and only if it is non-zero, is the first of its number, and was not overtaken by the width or more |
| ReplaySpec.ArrivedIffAccepted | internal/dedup/replay.go:120-132 | a number inside the window has arrived if and only if one of its arrivals was accepted |
| ReplaySpec.ExactlyOnce | internal/dedup/replay.go:99-132 | if nothing is overtaken by a whole width, every number that arrives is accepted at exactly one arrival and a duplicate at all others |
| ReplayWindows.ArcIsAhead | internal/dedup/replay.go:139-165 | the ring positions from last+1 to n are exactly the residues of the numbers ahead of last, so clearing them hits no live number |
| ReplayWindows.SetTracks | internal/dedup/replay.go:208-211 | setting the bit of a number inside the window keeps "bit p mod width is set iff the one live number with that residue was accepted" |
| ReplayWindows.JumpTracks | internal/dedup/replay.go:142-146 | after a jump of a width or more, a cleared ring represents the new window |
| ReplayWindows.SlideTracks | internal/dedup/replay.go:147-161 | after a shorter advance, clearing just that arc represents the new window |
| ReplayWindows.ReplayWindow.New | internal/dedup/replay.go:72-83 | a non-positive width is refused; otherwise the width is rounded up to whole words and the window is empty |
| ReplayWindows.ReplayWindow.Observe | internal/dedup/replay.go:99-132 | decides and evolves exactly as the specification that remembers every accepted number, for every width and every 64-bit number |
| ReplayWindows.ReplayWindow.Advance | internal/dedup/replay.go:139-165 | moves the newest number to n, accepts n, forgets nothing still inside the window |
| ReplayWindows.ReplayWindow.ClearArc | internal/dedup/replay.go:147-161 | one or two range clears, around the end if need be, clear exactly the arc and keep every other bit |
| ReplayWindows.ReplayWindow.ClearRange | internal/dedup/replay.go:170-192 | zeroes exactly positions lo to hi over any number of words and keeps every other bit |
| ReplayWindows.ReplayWindow.ClearWithin | internal/dedup/replay.go:176-180 | the same inside one word, by mask |
| ReplayWindows.ReplayWindow.ClearFrom | internal/dedup/replay.go:182-183 | clears from a position to the end of its word and nothing else |
| ReplayWindows.ReplayWindow.SetBit | internal/dedup/replay.go:208-211 | marks one number inside the window and no other |
| ReplayWindows.ReplayWindow.TestBit | internal/dedup/replay.go:215-218 | for a number inside the window: set if and only if it was accepted |
| Bitmap.ClearInside | internal/dedup/replay.go:195-204 | the word mask clears exactly the bits from lo to hi of its word |
| Bitmap.ClearLowPart | internal/dedup/replay.go:182-183 | the shifted all-ones mask clears exactly the upper part of a word |
| DataWire.FrameHeader | pkg/clientcore/data.go:45-55 | the buffer filled in place is the 30-byte header |
| DataWire.HeaderLayout | pkg/clientcore/data.go:45-55 | what stands at each of the 30 positions of a header |
| DataWire.ParseRefuses | pkg/clientcore/data.go:70-94 | when a header is refused, and for which of four reasons |
| DataWire.ParseFramed | pkg/clientcore/data.go:45-94 | whatever follows it, a framed header is read back exactly, or refused when its identity is invalid |
| DataWire.ParsedIsFramed | pkg/clientcore/data.go:70-94 | an accepted header is the framing of what was read up to seven unread flag bits, and is the framing itself if and only if those are zero |
| DataWire.SpareFlagAccepted | pkg/clientcore/data.go:81-84 | a header with a spare flag bit set is accepted and reads as the one without it |
| DataWire.HeaderInjective | pkg/clientcore/data.go:45-55 | different identities or directions never share header bytes |
| DataWire.NonceInjective | pkg/clientcore/crypto.go:62-67 | two nonces are equal if and only if direction and number are |
| DataWire.NonceLayout | pkg/clientcore/crypto.go:62-67 | for every direction and number: byte 0 is 0 towards the gateway and 1 towards the client, three zero bytes, then the number |
| HelloWire.HeaderExactly | pkg/clientcore/handshake_message.go:90-113 | a handshake header of a kind and id is accepted if and only if the first 22 bytes are the written ones |
| HelloWire.HeaderRefuses | pkg/clientcore/handshake_message.go:99-113 | when a handshake header is refused, and for which of four reasons |
| HelloWire.ClientHelloLayout | pkg/clientcore/handshake_message.go:117-132 | what stands at each position of a client hello |
| HelloWire.ClientHelloRefuses | pkg/clientcore/handshake_message.go:136-153 | when a client hello is refused, and for which reason |
| HelloWire.ServerHelloLayout | pkg/clientcore/handshake_message.go:157-169 | what stands at each position of the answer |
| HelloWire.ServerHelloRefuses | pkg/clientcore/handshake_message.go:173-188 | when an answer is refused, and for which reason |
| HelloWire.PingLayout | pkg/clientcore/ping.go:27-38 | what stands at each position of a ping or pong |
| HelloWire.EncodeClientHello | pkg/clientcore/handshake_message.go:117-132 | fills the encoding in place, or refuses a wrong key size or an overlong token |
| HelloWire.ClientHelloDecodes | pkg/clientcore/handshake_message.go:117-153 | decoding undoes encoding for every id, signed timestamp, key and token |
| HelloWire.ClientHelloEncodes | pkg/clientcore/handshake_message.go:136-153 | any accepted byte string is the encoding of what it decodes to |
| HelloWire.EncodeServerHello | pkg/clientcore/handshake_message.go:157-169 | fills the encoding in place, or refuses wrong key or signature sizes |
| HelloWire.ServerHelloDecodes | pkg/clientcore/handshake_message.go:157-188 | decoding undoes encoding |
| HelloWire.ServerHelloEncodes | pkg/clientcore/handshake_message.go:173-188 | any accepted byte string is the encoding of what it decodes to |
| HelloWire.PingExactly | pkg/clientcore/ping.go:27-55 | a byte string decodes to a ping or pong if and only if it is its encoding |
| HelloWire.ClassifiedByDecoder | pkg/clientcore/classify.go:32-54 | whatever a decoder accepts is classified as that decoder's kind |
| HelloWire.EncodedIsClassified | pkg/clientcore/classify.go:32-54 | every frame an encoder builds is classified as its own kind |
| HelloWire.ClassifiesExactly | pkg/clientcore/classify.go:32-54 | the bytes that make a datagram each of the four kinds |
| SessionSpec.WireAuthenticates | pkg/clientcore/session.go:81-131 | a sealed packet's datagram opens at the peer to exactly its number and payload |
| SessionSpec.BoxLayout | pkg/clientcore/session.go:85-95 | the box of every packet has the header and nonce of its session, direction and number, and the datagram is header and ciphertext |
| SessionSpec.AuthenticateRefuses | pkg/clientcore/session.go:114-126 | when a datagram fails authentication, and for which of three reasons |
| SessionSpec.NewExactly | pkg/clientcore/session.go:63-76 | a session is built, at number zero with an empty window, if and only if its id is not zero, its key has 32 bytes and its capacity is positive; otherwise which of these is the reason |
| SessionSpec.AuthenticatedIsBoxed | pkg/clientcore/session.go:114-126 | a datagram that authenticates is byte for byte the header and ciphertext of a sealed box, with a non-zero number |
| Sessions.SessionObject.Make | pkg/clientcore/session.go:63-76 | for every id, key, role and capacity: a new session with the given identity, counter zero and an empty window of the rounded capacity, or the error of the first unusable argument |
| Sessions.SessionObject.Outbound | pkg/clientcore/session.go:81-95 | an oversize payload takes no number; any other takes the next one, and the box then recorded has, byte for byte, a header that names direction, session and number and a nonce that names direction and number; the datagram is that header and the ciphertext |
| Sessions.SessionObject.InboundClassified | pkg/clientcore/session.go:114-131 | a datagram that fails authentication touches nothing; any other is judged by the window as it stood |
| SessionPair.StepKeeps | pkg/clientcore/session.go:81-131 | every step of either end, of the network and of outsiders keeps: what is pending, reported or sealed is what was sent, and windows are what their reports say |
| SessionPair.ExecInv | pkg/clientcore/session.go:81-131 | every interleaving of both ends in which each sends fewer than 2^64 packets ends in such a state |
| SessionPair.ReceivedIsSealed | pkg/clientcore/session.go:114-126 | a datagram that opens is, byte for byte, the datagram of a packet the peer sealed |
| SessionPair.DeliveredGenuine | pkg/clientcore/session.go:97-131 | in every schedule, whatever an end reports was sealed by its peer under that number and is byte-identical to it |
| SessionPair.DeliveredOnce | pkg/clientcore/session.go:97-131 | in every schedule, no packet is reported as a first copy twice |
| SessionPair.ForgeryHasNoEffect | pkg/clientcore/session.go:99-101 | any datagram other than the bytes of a packet the peer sealed changes no window, counter or report |
| SessionPair.CopyDelivered | pkg/clientcore/session.go:114-131 | a copy of a sealed packet is reported with its payload, as a first copy if and only if the packet was not reported as one and is not overtaken by the window's width |
| SessionPair.ExactlyOncePerRun | pkg/clientcore/session.go:102-131 | if no copy is overtaken by a whole window, every packet with an arriving copy is delivered exactly once, whichever copies were lost |
| SessionPair.NonceNeverReused | pkg/clientcore/session.go:85-95 | in every schedule, no two sealings of either end under the shared key use the same nonce |
| SessionPair.NumbersRepeatExactly | pkg/clientcore/session.go:85-88 | the numbers of the i-th and j-th sends coincide if and only if 2^64 divides j-i |
| FifoSpec.ObserveKeeps | internal/dedup/window.go:82-113 | the queue stays within capacity, without repeats, and equal to the map's keys |
| FifoSpec.QueueCount | internal/dedup/window.go:115-122 | the map has exactly one record per queued identity |
| FifoSpec.Separation | internal/dedup/window.go:82-150 | over any copies, two first-copy decisions for one identity are separated by first copies of at least capacity distinct other identities |
| FifoSpec.RememberedExactly | internal/dedup/window.go:82-150 | in every run, after its latest first copy an identity is remembered if and only if fewer than capacity first copies of others have followed |
| FifoSpec.OutcomeExactly | internal/dedup/window.go:82-113 | when a copy is invalid, first or a duplicate, and what is reported of it: a first copy is number 1 under its own path, a duplicate names the path of its latest first copy and counts from there |
| FifoSpec.ResidentRecord | internal/dedup/window.go:82-113 | a resident record names the path of the current first copy and counts the copies since it exactly |
| FifoWindows.PushLive | internal/dedup/window.go:133-137 | writing one slot behind the live stretch of the ring appends to it |
| FifoWindows.PopLive | internal/dedup/window.go:141-150 | advancing the head drops exactly the oldest |
| FifoWindows.Window.Observe | internal/dedup/window.go:82-113 | the ring and map answer and evolve as the bounded queue does |
| FifoWindows.Window.EvictIfFull | internal/dedup/window.go:141-150 | at capacity the oldest identity leaves both ring and map; otherwise nothing changes |
| FifoWindows.Window.PushId | internal/dedup/window.go:133-137 | appends to the live stretch, wrapping around the ring |
| FifoWindows.Window.Len | internal/dedup/window.go:115-122 | the number of live identities |
| ProbeServer.Marshal | internal/protocol/probe.go:63-74 | the buffer filled in place is the probe's encoding; an invalid identity is refused |
| ProbeServer.ProbeLayout | internal/protocol/probe.go:63-74 | what stands at each position of a probe |
| ProbeServer.UnmarshalRefuses | internal/protocol/probe.go:78-98 | when a probe is refused, and for which reason |
| ProbeServer.UnmarshalMarshalled | internal/protocol/probe.go:63-98 | decoding undoes encoding, whatever bytes trail |
| ProbeServer.UnmarshalledIsMarshalled | internal/protocol/probe.go:78-98 | an accepted datagram begins with the encoding of what was read |
| ProbeServer.TagNamesRoundTrip | internal/gateway/server.go:238-245 | the names of the tags, and that a name is read back as the tag, with unassigned tags all counting as unknown |
| ProbeServer.DecodedIsUsable | internal/gateway/server.go:120-169 | a record is a rejection if and only if decoding failed, so the defensive branch is never taken |
| ProbeServer.RecordExactly | internal/gateway/server.go:120-169 | what the record of a datagram says, whether it is refused, first or a duplicate |
| ProbeServer.Server.Handle | internal/gateway/server.go:120-169 | record, window and the wrapping counters after one datagram |
| ProbeServer.ServeFifo | internal/gateway/server.go:120-169 | after any datagrams the server's window is that of the copies they stand for |
| ProbeServer.CounterIsTally | internal/gateway/server.go:120-169 | each counter is the number of records with its decision |
| ProbeServer.CountersAddUp | internal/gateway/server.go:120-169 | the three counters sum to the number of datagrams handled |
| ProbeServer.DuplicateNamesFirst | internal/gateway/server.go:132-169 | a duplicate names the normalised tag of the resident first copy of its identity, which is the latest first copy before it, and its copy number counts from there |
| Allocators.PrefixIsRange | internal/exit/allocator.go:45-63 | a prefix is the run of 2^(32-b) addresses from its masked base and fits the 32-bit space |
| Allocators.UsableHosts | internal/exit/allocator.go:41-63 | the walk yields base+2 to base+2^(32-b)-2 once each and in order, and nothing for /31, /32 and non-IPv4 pools |
| Allocators.Allocator.New | internal/exit/allocator.go:41-75 | succeeds if and only if the pool is IPv4 of length at most 30; all usable hosts are then free |
| Allocators.AllocateKeeps | internal/exit/allocator.go:80-97 | a request keeps the two maps inverse and free and leased a partition of the pool |
| Allocators.ReleaseKeeps | internal/exit/allocator.go:122-133 | so does a release |
| Allocators.ReleaseUndoesAllocate | internal/exit/allocator.go:80-133 | a lease taken and given back restores the allocator, free stack included |
| Allocators.LeasesAddUp | internal/exit/allocator.go:80-133 | free plus leased addresses always add up to the pool |
| Allocators.ExhaustedExactly | internal/exit/allocator.go:80-97 | a request fails if and only if every pool address is leased to somebody else |
| Allocators.RunInv | internal/exit/allocator.go:41-133 | after any requests and releases over any usable prefix, the maps are inverse and the pool is partitioned |
| Allocators.NoSharedLease | internal/exit/allocator.go:80-118 | no two sessions hold the same address |
| Allocators.LeasedInOrder | internal/exit/allocator.go:80-97 | a fresh pool is handed out from its last address down, one to each new session |
| Allocators.Allocator.Allocate | internal/exit/allocator.go:80-97 | returns the existing lease, or pops a free address into both maps, or fails; the invariant is kept |
| Allocators.Allocator.LeaseOf | internal/exit/allocator.go:103-108 | a lease found is in the pool and leads back to its session; none found means the session is nobody's holder |
| Allocators.Allocator.Lookup | internal/exit/allocator.go:112-118 | the one session that holds an address, or none if no session does |
| Allocators.Allocator.Release | internal/exit/allocator.go:122-133 | frees the session's address in both maps, or does nothing; the invariant is kept |
| PathSets.RunShape | internal/exit/pathset.go:52-99 | after any recordings and queries, whatever the clock did: one entry per endpoint, with its latest time, for exactly the endpoints no query has dropped since that recording |
| PathSets.FreshExactly | internal/exit/pathset.go:71-99 | for every history and every clock the result is, without repeats, exactly the endpoints whose latest recording is strictly newer than now minus the time to live and was not dropped since |
| PathSets.LawExactly | internal/exit/pathset.go:68-99 | the promise that fresh endpoints are the ones returned holds of an endpoint if and only if no query has dropped it while its latest recording is still fresh |
| PathSets.FreshUnderClock | internal/exit/pathset.go:68-99 | under a clock that never runs back it holds without exception |
| PathSets.RecordInPlace | internal/exit/pathset.go:52-66 | a recording keeps every endpoint at its place and adds a new one at the end |
| PathSets.LiveInPlace | internal/exit/pathset.go:71-99 | a query keeps exactly the live endpoints, in their order |
| PathSets.BackwardsClockLoses | internal/exit/pathset.go:71-99 | with a clock that runs back, an earlier query can prune an endpoint that should still be returned |
| PathSets.PathSet.Record | internal/exit/pathset.go:52-66 | refreshes the endpoint's entry in place or appends one; every other session's slice is untouched |
| PathSets.PathSet.Fresh | internal/exit/pathset.go:71-99 | returns the live endpoints in order, compacts the slice in place and drops an emptied session; every other session is untouched |
| PathSets.Compact | internal/exit/pathset.go:82-87 | in-place filtering leaves exactly the live entries, in order, at the front of the same backing array |
| PathSets.Append | internal/exit/pathset.go:65 | append extends the slice's contents by one, in spare capacity or in a new array |
| GatewaySpec.HandleCoherent | internal/gateway/dataplane.go:65-118 | handling a datagram keeps every cached session a responder under the key registered for its id |
| GatewaySpec.ResolvesExactly | internal/gateway/dataplane.go:101-118 | which session a lookup yields: the cached one, a new responder under the registered key, or which error |
| GatewaySpec.HandleRefuses | internal/gateway/dataplane.go:65-76 | for which reason a datagram is refused, and that any other is judged by its session's window |
| GatewaySpec.FramesExactly | internal/gateway/dataplane.go:80-86 | a return packet is framed if and only if its session is found and it has at most 1600 bytes, and then under the next number; an oversize one takes none |
| GatewaySpec.FrameCoherent | internal/gateway/dataplane.go:80-118 | so does framing a return packet |
| GatewaySpec.ForgetCoherent | internal/gateway/dataplane.go:92-99 | so does forgetting a session |
| GatewaySpec.HandshakeCoherent | internal/gateway/admission.go:61-69 | a handshake never rebinds a registered id, so cached sessions stay under their keys |
| GatewaySpec.HandshakeKeepsLeased | internal/gateway/admission.go:146-196 | with the exit path on, every registered id keeps having a lease |
| GatewaySpec.AdmittedIsLeased | internal/gateway/admission.go:146-196 | an admission registers exactly one new id, changes no other, and the address in its answer is leased to that id |
| GatewaySpec.RefusedLeavesState | internal/gateway/admission.go:146-196 | a refused handshake never touches the keys, and leaves the leases alone if and only if it is not the one unencodable-answer failure |
| GatewaySpec.UnanswerableLeaks | internal/gateway/admission.go:176-194 | an instance of that failure, which keeps the pool's one address |
| GatewaySpec.ProperSizesNeverLeak | internal/gateway/admission.go:146-196 | with ephemeral keys and signatures of their proper sizes a refusal leaves no trace |
| GatewaySpec.AdmittedExactly | internal/gateway/admission.go:146-196 | a handshake is admitted if and only if the datagram is the encoding of a fresh hello with an entitled token, a key can be agreed, the id is unregistered, an address is available and the answer has its proper sizes; the id is then registered under that key |
| GatewaySpec.RefusedBecause | internal/gateway/admission.go:146-196 | for which of seven reasons a hello is refused, each exactly when it is the first that applies |
| GatewaySpec.UndecodedIsRefused | internal/gateway/admission.go:146-150 | bytes that are no hello, and only those, are refused for what the decoder says of them |
| Admissions.Admitter.Handshake | internal/gateway/admission.go:146-196 | key store, allocator and answer are those of the handshake function, including the unwinding of a registration when a later step fails |
| DataPlanes.SessionStore.Register | internal/gateway/admission.go:61-69 | stores a key for a free id; a taken id keeps its key |
| DataPlanes.DataPlane.SessionFor | internal/gateway/dataplane.go:101-118 | the cached session, or one built once from the registered key, or the error; every other session is untouched |
| DataPlanes.DataPlane.HandleClassified | internal/gateway/dataplane.go:65-76 | resolves, authenticates and judges one datagram; only the session it names changes |
| DataPlanes.DataPlane.FrameReturn | internal/gateway/dataplane.go:80-86 | seals under the session's next number; only that session changes |
| DataPlanes.DataPlane.Forget | internal/gateway/dataplane.go:92-99 | neither key nor cached session remains; every other session is untouched |
| GatewaySpec.ParsesExactly | internal/exit/ipv4.go:13-31 | an inner packet parses to two addresses if and only if it is long enough for its own header, is IPv4, and carries those addresses |
| GatewaySpec.FiltersExactly | internal/exit/router.go:110-134 | a packet passes if and only if its session has a lease and it is IPv4 from there; otherwise which of three reasons |
| Routers.AcceptedExactly | internal/exit/router.go:182-189 | a frame goes to exactly the fresh endpoints that accept it: one failing path does not block the others |
| Routers.RoutesExactly | internal/exit/router.go:151-191 | what becomes of a return packet: for which of the reasons it is dropped, or that it is sealed for the lessee of its destination and sent to its fresh endpoints |
| Routers.AcceptedOnce | internal/exit/router.go:182-189 | an endpoint that accepts gets one copy each time it is listed, in the order of the list |
| Routers.RouteCoherent | internal/exit/router.go:151-191 | a return packet keeps cached sessions under their registered keys |
| Routers.Router.Egress | internal/exit/router.go:110-134 | a packet reaches the device if and only if it parses as IPv4, the session has a lease, the source is that lease and the device accepts |
| Routers.Router.ReturnOne | internal/exit/router.go:151-191 | parse, look up the lessee, seal for it, prune its paths and copy to each fresh endpoint, with every drop reason |
| Gateways.DataGateway.HandleHello | internal/gateway/datagateway.go:151-174 | record, reply and tables after a ClientHello; the joint invariant is kept |
| Gateways.DataGateway.HandleData | internal/gateway/datagateway.go:176-200 | a rejected datagram's record names no session; only a first copy is delivered; the joint invariant is kept |
| Gateways.DataGateway.HandleDatagram | internal/gateway/datagateway.go:132-149 | every datagram goes to the handler of its kind and leaves all other tables alone; a datagram of the ping kind is answered if and only if it is a ping, with the pong of its nonce, and a pong is never answered |
| Gateways.PingAnsweredExactly | internal/gateway/datagateway.go:138-144 | a ping-kind datagram is answered with r if and only if it is a ping and r the pong of its nonce; r is as long as the ping and is itself unanswered |
| Gateways.RepliesEnd | internal/gateway/datagateway.go:132-149 | whatever a gateway answers, no gateway answers that: two of them cannot keep a datagram going |
| Gateways.DataRecordExactly | internal/gateway/datagateway.go:176-200 | what the record of a data datagram says |
| Gateways.ServesExactly | internal/gateway/datagateway.go:228-254 | exactly the authenticated datagrams, duplicates included, record their endpoint, and exactly the first copies from their session's lease reach a willing device |
| Gateways.HelloRecordExactly | internal/gateway/datagateway.go:151-174 | what the record of a hello says: admitted with its id, or rejected without one |
| Gateways.DataGateway.ServeOne | internal/gateway/datagateway.go:228-254 | one round of the receive loop: only an authenticated datagram records its endpoint, only a first copy whose source is its session's lease reaches the device |
| Gateways.DataGateway.ReturnPacket | internal/exit/router.go:151-191 | one round of the return loop keeps the joint invariant and sends only what routing says |
| Gateways.DataGateway.Forget | internal/gateway/dataplane.go:92-99 | keeps the joint invariant: key and cached session go, the lease stays |
| Gateways.DataGateway.EnableExit | internal/gateway/datagateway.go:95-103 | wires router and leaser together; the joint invariant, which now covers the leases, holds if and only if every session registered by then has one |
| GatewaySafety.StepKeeps | internal/gateway/datagateway.go:132-255 | every atomic action of either loop, of handshakes with or without an encodable answer, of forgetting and of outsiders keeps the gateway invariant over tables, histories and both loops' positions |
| GatewaySafety.ExecInv | internal/gateway/datagateway.go:207-255 | every interleaving in which no session takes 2^64 numbers ends in a state that satisfies it |
| GatewaySafety.TablesAgree | internal/gateway/dataplane.go:92-118 | in every reachable state cached ids are leased and point at sessions of their own, and a registered id without a lease is one whose handshake is under way; if every answer can be encoded, cached ids are registered under their session's key |
| GatewaySafety.UnwindKeepsExactly | internal/gateway/admission.go:176-194 | unwinding a registration leaves cached sessions under registered keys if and only if no session was built for it meanwhile |
| GatewayScenarios.UnanswerableOrphans | internal/gateway/admission.go:176-194 | a run in which one was built, and stays cached without a key |
| GatewaySafety.TunnelledIsFirstCopy | internal/exit/router.go:110-134 | every packet ever written to the tunnel is the payload of an authenticated first copy of its session, and its source is that session's lease |
| GatewaySafety.TunnelledOnce | internal/gateway/datagateway.go:176-255 | no packet of a session enters the tunnel twice |
| GatewaySafety.ReturnedToLessee | internal/exit/router.go:151-191 | every return frame is the datagram of a recorded sealing by a session of the one id that leases the packet's destination |
| GatewaySafety.ReturnedToSender | internal/exit/router.go:151-191 | it goes to an endpoint that delivered an authenticated datagram for that id, and that very arrival was recorded no later than the send and within the time to live before it |
| GatewayEpochs.ServedBySameExactly | internal/gateway/dataplane.go:88-118 | an id is served by the same session at two moments of a run if and only if it is not forgotten in between |
| GatewayEpochs.SenderOfSameSession | internal/gateway/dataplane.go:88-118 | a return frame was sealed by the session that authenticated a given arrival of its id if and only if the id was not forgotten between the event that looked up the session for that arrival's datagram and the one that looked it up for that frame's packet |
| GatewayScenarios.EndpointOutlivesSession | internal/gateway/dataplane.go:92-99 | a run of the other case: an id comes back under another key and is answered at the endpoint only its earlier session heard from |
| GatewaySafety.RecordedIsAuthenticated | internal/gateway/datagateway.go:240-246 | every recording of an endpoint is caused by an authenticated arrival from there, at a session of that id, opened no later than it was recorded |
| GatewaySafety.RecordedInOrder | internal/gateway/datagateway.go:240-246 | recordings come in the order of their arrivals and none has the arrival of another |
| GatewaySafety.KeyKept | internal/gateway/admission.go:56-69 | once admitted, an id keeps its key through everything except being forgotten, and no handshake rebinds it |
| GatewayNonces.NonceReuseExactly | pkg/clientcore/crypto.go:55-73 | over every interleaving, the gateway repeats a nonce under a key if and only if two different sessions that have both replied hold the same key |
| GatewayNonces.FreshKeysNeverReuse | internal/gateway/dataplane.go:88-118 | however sessions are forgotten and ids come back, no nonce is used twice under a key that is registered at most once |
| GatewayNonces.FreshKeysRegisterOnce | internal/gateway/admission.go:61-69 | if no two handshakes derive the same key, no key is registered twice |
| GatewayScenarios.SameKeyAgainReuses | internal/gateway/dataplane.go:92-118 | an id that is forgotten and admitted again with the same key seals its first reply with a nonce that was already used |
| GatewayReplays.ReplayEntersExactly | internal/gateway/datagateway.go:176-255 | in every state between two datagrams, the datagram behind a packet of the tunnel brings it in again if and only if the session that serves its id by then, cached or to be built, has its key and not its number; the session that let it in never does |
| GatewayReplays.RegisteredAgainReplays | internal/gateway/dataplane.go:88-118 | from every such state in which the id is forgotten, registering it under the same key again is enough for that |
| GatewayClients.FreshKeysTunnelOnce | internal/gateway/dataplane.go:88-118 | under a key that is registered at most once no box and no number enters the tunnel twice, however sessions are forgotten and ids come back |
| GatewayScenarios.SameKeyAgainReplays | internal/gateway/dataplane.go:88-118 | a run in which an id is forgotten and admitted again with the same key, and the same datagram enters the tunnel twice |
| GatewayClients.ExecSealings | internal/gateway/dataplane.go:80-86 | over every run, whatever is sealed was sealed by somebody else or is a reply of the gateway, and every reply stays sealed |
| GatewayClients.TunnelledIsSent | internal/gateway/datagateway.go:176-255 | over every run of gateway and client: if only the client seals towards the gateway under its key, each packet the tunnel gets from a session with that key is byte for byte the packet the client sealed under that number |
| GatewayClients.SentTunnelledOnce | internal/gateway/datagateway.go:176-255 | two packets that the tunnel gets from sessions with the client's key, registered once, are two different entries of what the client sent |
| GatewayDelivery.ExecDelivers | internal/gateway/datagateway.go:207-255 | over every run with a willing device: windows are what the arrivals at their session make of them, every first copy is kept as one, and every one that may leave has entered the tunnel or is in the receive loop's hands |
| GatewayDelivery.SentExactlyOnce | internal/gateway/datagateway.go:207-255 | exactly once: between two datagrams, of every client packet with an arriving copy that may leave, if no copy was overtaken by a whole window, the tunnel holds exactly one packet with that number under the client's key, and it is what the client sent |
| GatewayClients.ReturnedIsOpened | internal/exit/router.go:151-191 | every return frame opens at a client with its session's key, registered once, to exactly the packet the tunnel returned, under its number |
| GatewayClients.OpenedIsReply | internal/gateway/dataplane.go:80-86 | conversely, if only the gateway seals towards clients under a key, whatever a client opens with it is the datagram of a reply the gateway sealed, with that number and packet |
| GatewayRefines.HandshakeIsSteps | internal/gateway/admission.go:146-196 | a handshake that fails its checks is no action of the machine, and one that passes them is registration, lease and unwinding in sequence, whether it is admitted, finds its id taken, finds no address or has no encodable answer |
| GatewayRefines.ReachableIsPointed | internal/gateway/dataplane.go:101-118 | the premise of the following rows holds in every reachable state: cached ids point at sessions of their own |
| GatewayRefines.DatagramIsSteps | internal/gateway/dataplane.go:65-118 | resolving, opening and judging in sequence give the same sessions, payload and decision as handling the datagram |
| GatewayRefines.ServeIsSteps | internal/gateway/datagateway.go:228-254 | the five actions on a datagram are one round of the receive loop: same sessions, same recorded path, same packet to the device |
| GatewayRefines.ReturnIsSteps | internal/exit/router.go:151-191 | the five actions on a return packet are one round of the return loop: same tables, same datagrams to the same endpoints |
| GatewayRefines.ForgetIsStep | internal/gateway/dataplane.go:92-99 | forgetting is one action of the machine: the same keys and cached sessions go |
| ClientHandshakes.CompletesExactly | pkg/clientcore/handshake_message.go:224-245 | a handshake completes if and only if the answer is the encoding of a message for its own id that verifies under the pinned identity and yields a usable key |
| ClientHandshakes.RefusesBecause | pkg/clientcore/handshake_message.go:224-245 | for which reason an answer that decodes is refused, each exactly when it is the first that applies; the program reports a foreign id as a bad field |
| ClientHandshakes.UndecodedIsRefused | pkg/clientcore/handshake_message.go:224-228 | bytes that are no answer, and only those, are refused for what the decoder says of them |
| ClientHandshakes.HandshakeAgrees | pkg/clientcore/handshake_message.go:198-245 | an admitted hello and its answer leave client and gateway at the two ends of one session pair, under the same key, and the address the client learns is the one the allocator now leases to its id |
| Handles.HandlesNeverRepeat | bridge/geminacore/handshake.go:22-45 | over any calls with fewer than 2^64 registrations, no handle is returned twice within its registry |
| Handles.HandshakeConsumed | bridge/geminacore/handshake.go:94-129 | completing or cancelling an issued handle consumes it whatever the outcome: no later call completes it |
| Handles.FinalExactly | bridge/geminacore/handshake.go:121-129 | cancelling or completing a handle is final, in every continuation, if and only if the handle had been issued by then |
| Handles.EarlyCancelIgnored | bridge/geminacore/handshake.go:121-129 | a handle cancelled before it is issued is issued and completed afterwards |
| Handles.OneSessionPerHandshake | bridge/geminacore/handshake.go:105-119 | of two calls that complete the same handle at most one succeeds |
| Handles.DeadForGood | bridge/geminacore/registry.go:36-74 | a numbered handle that is no longer live never comes back |
| Handles.HandleResolves | bridge/geminacore/registry.go:52-97 | until it is freed, a session handle names the session it was returned for |
| Bridges.Registry.Add | bridge/geminacore/registry.go:52-59 | numbers the entry next, with wrap-around, and keeps the others |
| Bridges.Registry.Take | bridge/geminacore/handshake.go:49-57 | returns the entry if live and removes it in the same call |
| Bridges.NonZero | pkg/clientcore/handshake_message.go:35-43 | setting the lowest bit keeps the other bits and rules out the zero id |
| Bridges.Host.BeginHandshake | bridge/geminacore/handshake.go:73-92 | the hello is in the buffer, decodes to the drawn id, time, key and token, and its handle is live, if and only if both keys have 32 bytes, randomness is available, the token has at most 4096 bytes and the buffer holds it; otherwise nothing changes and each reason has its own code |
| Bridges.Host.CompleteHandshake | bridge/geminacore/handshake.go:105-119 | consumes the handle; registers the completed session and writes its address over the first four bytes if and only if the core completes, and otherwise leaves the buffer untouched; all other sessions stay as they are |
| Bridges.CompletesHandle | bridge/geminacore/handshake.go:105-119 | a handle completes if and only if it is live and the core completes, and then with that session |
| Bridges.Host.CancelHandshake | bridge/geminacore/handshake.go:127-129 | removes the handle and nothing else |
| Bridges.Host.CreateSession | bridge/geminacore/registry.go:82-97 | registers a session if and only if id, key and capacity are usable |
| Bridges.Host.OutboundInto | bridge/geminacore/registry.go:102-116 | on a live handle succeeds if and only if the payload has at most 1600 bytes and the buffer holds its datagram, whose length is the code; an unknown handle, an oversize payload and a short buffer each have their own code; a packet that does not fit has used up its number; no other session changes |
| Bridges.Host.InboundInto | bridge/geminacore/registry.go:124-140 | writes the payload of a packet that authenticates and fits; an unknown handle, a packet that does not authenticate and one that does not fit each have their own code; the last has been judged; no other session changes |
| Bridges.Host.FreeSession | bridge/geminacore/registry.go:70-74 | the handle is gone and every other session is untouched |
| Bridges.Host.Exchange | bridge/geminacore/registry.go:102-140 | two calls in a row through two handles of one pair: the first succeeds if and only if the payload has at most 1600 bytes and the buffer holds its datagram, and then the second buffer holds the payload, delivered if and only if its window calls it a first copy; no third session changes |
| Bridges.SentIsReceived | bridge/geminacore/registry.go:102-140 | what one end sends the other receives unchanged from the vault that sending left, delivered the first time if its buffer holds it |
| Bridges.SendsExactly | bridge/geminacore/registry.go:102-116 | a send succeeds if and only if the payload has at most 1600 bytes and the buffer holds its datagram; which code each failure has |
| Bridges.HostBufferSuffices | apps/macos/PacketTunnelExtension/CoreTransport.swift:160 | with a 16-byte tag the datagram is 46 bytes longer than the payload, so the host's buffer of 64 more always holds it |
| Bridges.ReceivesExactly | bridge/geminacore/registry.go:124-140 | a receive returns the length of the payload, or a code of its own for what does not authenticate, which changes nothing, and for what does not fit, which has been judged |
| Bridges.DeliversExactly | bridge/geminacore/registry.go:118-140 | over any calls, one delivers if and only if it authenticates the first copy of a packet and the buffer holds it |
| Bridges.DeliveredAtMostOnce | bridge/geminacore/registry.go:124-140 | no packet is delivered by two calls, and a first copy that met too small a buffer is never delivered later |
| Base64Url.DecodeEncode | internal/entitlement/token.go:69-70 | unpadded base64url decoding, lenient as it is, undoes encoding on every byte string |
| Base64Url.LetterIs | internal/entitlement/token.go:69-70 | the alphabet of table 2 of RFC 4648 |
| Base64Url.EncodesGroups | internal/entitlement/token.go:69-70 | three bytes become the four digits of their 24 bits, most significant first, and one or two bytes become two or three |
| Base64Url.GroupsDecode | internal/entitlement/token.go:69-70 | a text without line breaks decodes if and only if it is all letters and no single one is left over after groups of four |
| Base64Url.LineBreaksIgnored | internal/entitlement/token.go:69-70 | carriage returns and line feeds anywhere change nothing |
| Decimal.ParseFormat | internal/entitlement/token.go:92-127 | every signed 64-bit integer is read back as printed |
| Decimal.FormatShape | internal/entitlement/token.go:92 | a number is printed as its digits, with a minus sign in front of a negative one |
| Decimal.ParseExactly | internal/entitlement/token.go:124-127 | a field is read as a number if and only if it is an optional sign and digits whose value fits 64 bits, and then as that value |
| Decimal.CutExactly | internal/entitlement/token.go:105-108 | cutting finds exactly the first separator |
| Decimal.SplitThree | internal/entitlement/token.go:120-123 | three fields free of the separator come apart as the same three |
| Tokens.ReadPayload | internal/entitlement/token.go:92-128 | reading a payload gives back the claims it was written for |
| Tokens.PayloadInjective | internal/entitlement/token.go:72-95 | different valid claims never share a payload |
| Tokens.IssueVerifies | internal/entitlement/token.go:78-138 | a token is issued if and only if key and claims are usable, and verifies to exactly its claims through its expiry second and as expired afterwards |
| Tokens.TokenText | internal/entitlement/token.go:78-98 | an issued token is the encoded payload, a dot and the encoded signature |
| Tokens.IssueRefuses | internal/entitlement/token.go:78-91 | for which reason a token is not issued |
| Tokens.VerifyRefuses | internal/entitlement/token.go:101-138 | for which reason a token is refused |
| Tokens.NoDotRefused | internal/entitlement/token.go:105-108 | a text without a dot is malformed |
| Tokens.ReadsExactly | internal/entitlement/token.go:116-128 | a payload carries claims if and only if it decodes to three fields of which the last is a number, and then those |
| Tokens.VerifiedExactly | internal/entitlement/token.go:101-138 | a token is accepted if and only if it is the signed form of a payload carrying unexpired claims of the hosted tier |
| Tokens.AcceptedIsIssued | internal/entitlement/token.go:98-138 | an accepted token with an issued payload is the issued token byte for byte |
| Tokens.SignatureBinds | internal/entitlement/token.go:110-114 | an issued signature moved to another payload or key is refused if and only if the keyed hashes differ |
| Checksums.FoldMeaning | research/usb-rndis-spike/rndis_lib.c:34-35 | the fold terminates, keeps the value modulo 65535, and only zero folds to zero |
| Checksums.Sum32 | research/usb-rndis-spike/rndis_lib.c:28-33 | the loop computes the sum of the big-endian words, odd tail included, modulo 2^32 |
| Checksums.InetCsum | research/usb-rndis-spike/rndis_lib.c:28-37 | returns the complement of the folded sum |
| Checksums.ChecksumVerifies | research/usb-rndis-spike/rndis_lib.c:28-37 | data of any length with its checksum in place sums to zero at the receiver (section 1 of RFC 1071) |
| Checksums.AllOnesVerifies | research/usb-rndis-spike/rndis_lib.c:90-93 | so does data with all ones in place of a zero checksum (RFC 768) if and only if its 32-bit sum is not the largest there is |
| Checksums.ShortNeverWraps | research/usb-rndis-spike/rndis_lib.c:81-94 | data of fewer than 131076 bytes with a zero checksum field never reaches the largest 32-bit sum |
| Checksums.LongestFails | research/usb-rndis-spike/rndis_lib.c:28-37 | 131076 bytes, all set but the checksum field, reach it: their checksum is zero and they do not verify with all ones in its place |
| UdpFrames.HeaderVerifies | research/usb-rndis-spike/rndis_lib.c:67-79 | the finished IPv4 header of every frame sums to zero |
| UdpFrames.UdpVerifies | research/usb-rndis-spike/rndis_lib.c:81-94 | pseudo-header and segment sum to zero, with a non-zero field, for every payload up to 512 bytes; longer ones carry no checksum |
| UdpFrames.FrameParses | research/usb-rndis-spike/rndis_lib.c:67-78 | the packet inside a frame reads as IPv4 from the flow's source to its destination |
| UdpFrames.FrameLayout | research/usb-rndis-spike/rndis_lib.c:41-97 | what stands at each position of every frame: both MAC addresses, type, lengths, protocol, addresses, ports and payload |
| UdpFrames.PseudoLayout | research/usb-rndis-spike/rndis_lib.c:81-89 | what stands at each position of the pseudo-header that the checksum covers |
| UdpFrames.BuildUdpFrame | research/usb-rndis-spike/rndis_lib.c:41-97 | the bytes written in place are that frame, laid out position by position, and nothing beyond it, or -1 with the buffer untouched |
| UdpFrames.PutIp | research/usb-rndis-spike/rndis_lib.c:67-79 | writes exactly the header with its checksum |
| UdpFrames.PutUdpSum | research/usb-rndis-spike/rndis_lib.c:81-94 | writes exactly the checksum field, through a separate pseudo-header buffer |
| Impact.ComputeImpact | apps/macos/Core/Impact.swift:47-84 | the loop computes the fold of the timeline, and so all of its figures: times, drops, the longest drop, and the share that protected time has of the total |
| Impact.ImpactReads | apps/macos/Core/Impact.swift:40-84 | totals, protected time, absorbed time, number of drops and longest drop are those of the maximal one-path stretches that directly follow two or more paths; the share times the total is the protected time, and zero without a total |
| Impact.DropsAreFalls | apps/macos/Core/Impact.swift:47-84 | there are exactly as many such stretches as moments at which two or more paths fall to one |
| Impact.WithinSession | apps/macos/Core/Impact.swift:18-33 | protected plus absorbed time never exceeds the session, and the protected share lies between 0 and 1 |
| Impact.SplitInvariant | apps/macos/Core/Impact.swift:47-84 | cutting a segment in two changes none of the figures |

## Left out

- Metrics, logging and record strings: counters other than the probe server's three add no state that a decision depends on.
- Sockets, TUN devices and shutdown: what they accept is a parameter, and closing them ends a loop between two steps.
- Freshness arithmetic of handshake timestamps (pkg/clientcore/handshake_message.go:24-33): an arbitrary predicate of the timestamp.
- The entitlement service's open and hosted modes and webhooks: the admission decision is an arbitrary predicate of the token.
- Real cryptography: AES-GCM, X25519, HKDF, Ed25519 and HMAC appear only through the contracts above.
- DHCP and ARP frames and RNDIS wrapping (research/usb-rndis-spike/rndis_lib.c:99-290): fixed layouts that would add only easy members.
- SwiftUI, StoreKit and the packet-tunnel provider: presentation and platform glue.
- ReplayWindows.ReplayWindow.New: does not model the overflow of Go's int for widths within 63 of its maximum.
- FifoWindows.Window.Observe: copy counts are unbounded, where the program's int would wrap after 2^63 copies of one identity.
- Bridges.Registry.Take: the mutex is left out, so each call is one atomic step.
- UdpFrames.BuildUdpFrame: lengths for which the C int sum overflows are excluded by the payload's own length.
- Decimal.ParseFormat: the underscore and base-prefix forms of the library parser do not arise in base 10.
- GatewaySafety.StepKeeps: the machine has the exit path on from the start.
- GatewayDelivery.SentExactlyOnce: the device accepts every write; the program drops a packet whose write fails, for good.
- GatewayClients.TunnelledIsSent: the client's run and the gateway's are two runs joined by what was sealed, not one interleaving of both.
- Impact.ComputeImpact: durations are real numbers, so floating-point rounding is not modelled.
