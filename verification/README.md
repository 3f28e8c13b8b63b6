# LinkForge, verified

LinkForge is an encrypted multipath tunnel: a client stripes numbered packets over several UDP paths, a relay
rebuilds their order, and a control plane hands out credentials and addresses. This project models its four
stateful parts in Dafny and proves what they promise over every run.

- **Data plane.** `Reorder`/`ReorderRuns` (the in-order buffer), `Bits`/`Replay` (the 64-bit replay window),
  `Scheduler`/`SchedulerRuns` (smooth weighted round-robin), `Wire`/`Protocol` (headers, handshakes, envelopes,
  key derivation), `Nonces` (path ids and packet numbers of a session) and `Tunnel`, which composes numbering,
  sealing, a network that drops, repeats and reorders, replay checking and the buffer into one step system.
- **Relay.** `Relay` (sessions, and what one critical section does to the tables), `RelayInvariants` (what such
  sections keep), `RelayServer` (the operations run undisturbed, as an object) and `RelayRuns` (their critical
  sections interleaved).
- **Client rejoin.** `ClientPaths` (the critical sections on the list of paths) and `ClientRejoin` (connect,
  rejoin and every reconnect running at once).
- **Control plane.** `Store`/`StoreRuns` (activations, devices, addresses), `Service` (store first, relay second, one
  request at a time), `ServiceRuns` (overlapping requests, on top of the interleaved relay) and `RateLimiter`.

`Words`, `Sums` and `Wire` hold what several parts share. Objects that the program updates in place are classes
whose methods are proved equal to functions on their abstract state; the theorems are about those functions and
about runs of them. Concurrency is a step system in which a step is one lock region or one atomic access.

`dafny verify dfyconfig.toml` checks everything.

## What is assumed

- AES-GCM, HMAC-SHA256 and randomness are parameters. `Protocol.Correct` says that sealing adds a tag and that
  the AEAD opens exactly what it sealed; `Tunnel.Unforged` adds that what it opens was sealed by the peer. Random
  ids, codes and nonces are fresh where a theorem says so. No cryptographic strength is claimed.
- Clocks do not run backwards where a theorem says so, and read later than Go's zero time in `RateLimiter`.
- Times are integers of nanoseconds, weights are reals (rounding is not modelled), and Go's integers wrap as they
  do in Go wherever a counter could reach its end.
- The database is a map with atomic transactions; activations are filed under the code instead of its SHA-256
  digest, and device keys are stored in the clear instead of encrypted.
- Client ids, keys and addresses arrive parsed (`None` where they do not parse), and labels arrive trimmed.

## Where the code falls short of its word

- `docs/protocol.md:90-92` calls the version 2 hello unambiguously length-checked. It is not: a legacy hello whose
  name is 16 bytes longer than the value of its sixteenth byte has the length of a version 2 hello and is refused as
  unauthentic. `Protocol.HelloV1RoundTripIff` gives the exact condition, `Protocol.LegacyNameExample` a 61-byte name.
- `docs/protocol.md:59` gives the key derivation info as label, session and path; the code pads the 21-byte label
  with three zero bytes first. The model follows the code.
- `expected++` wraps. The buffer's accounting holds at every step exactly as long as number 2^64-1 is not delivered
  (`ReorderRuns.RunIsSoundIff`), and holds whatever is pushed later exactly if 2^64-1 was never pushed
  (`ReorderRuns.StaysSoundIff`, the check for a caller). `ReorderRuns.WrapReordersExample` delivers 2^64-1 and then 1.
- The janitor deletes index entries whoever holds them. A step loses a route exactly if it expires a session that
  shares its address with a survivor (`RelayRuns.StepKeepsRoutesIff`, `RelayRuns.RoutedThroughoutIff`). The server's
  own interface allows that, by authorizing one address for two clients while a termination is pending
  (`RelayRuns.JanitorLosesRoute`); the program does not. Its only callers (`cmd/linkforge/main.go:207-250`) pass
  reserved addresses and addresses the store never reuses, and with one owner for each address every session is
  found in every interleaving (`RelayRuns.OwnedRunIsRouted`, `ServiceRuns.WholeProgram`).
- A path swapped in between `rejoinAll`'s snapshot and its clearing of the paths keeps its socket open for ever:
  `ClientRejoin.RejoinLosesIff`, and `ClientRejoin.RejoinLosesExample` for a run from the start.
- The error "relay returned inconsistent sessions for all paths" in `connect` cannot occur: `ClientPaths.Client.KeepUsable`.
- Store and relay part when a rotation picks a key in use (`Service.Service.RotateKey` gives the condition, and with
  `Service.Service.Revoke` says what mends it).
- Requests that overlap on one device can leave store and relay apart (`Service.OverlappingRequestsPart` is a
  schedule). With new keys they agree in the end exactly if, on each device, the relay heard last what the store
  decided last (`ServiceRuns.OverlappingAgreeIff`), hence always if no two requests on one device overlap
  (`ServiceRuns.SeparateRequestsAgree`).

## Model

| member | source | states |
|---|---|---|
| Reorder.Buffer.Push | internal/reorder/reorder.go:50-74 | a push changes buffer and output as `PushStep` says: late and repeated packets are dropped, the expected one is released with its successors, others wait until the size or age limit forces a skip |
| Reorder.Buffer.FlushExpired | internal/reorder/reorder.go:76-83 | a flush forces a skip exactly when a gap is past its deadline |
| Reorder.Buffer.DrainReady | internal/reorder/reorder.go:85-100 | draining takes the unbroken stretch from `expected` and restarts or clears the gap clock |
| Reorder.Buffer.ForceDrain | internal/reorder/reorder.go:102-116 | a forced drain goes to the lowest number held and drains from there |
| ReorderRuns.DrainMeaning | internal/reorder/reorder.go:85-94 | what a drain delivers is exactly the unbroken stretch held from `expected` on, in order; everything else stays, unchanged |
| ReorderRuns.OutcomeConserves | internal/reorder/reorder.go:50-116 | one call moves `expected` by what it delivers plus what it skips; what it held it delivers once, in order and under its own number, or still holds |
| ReorderRuns.RunIsSoundIff | internal/reorder/reorder.go:50-116 | at every step of a run delivered plus skipped equals `expected` - 1, delivered numbers strictly increase, everything accepted is delivered or pending, pending numbers exceed `expected` and stay below the limit, and the gap clock runs iff something is pending; this holds exactly for runs that do not deliver 2^64-1 |
| ReorderRuns.StaysSoundIff | internal/reorder/reorder.go:50-116 | that accounting survives every continuation that does not push 2^64-1 exactly if the run itself did not push 2^64-1 |
| ReorderRuns.RunIsSound | internal/reorder/reorder.go:50-116 | a run that never pushes 2^64-1 keeps the accounting at every step |
| ReorderRuns.WrapReordersExample | internal/reorder/reorder.go:56-57 | the input that fails: 2^64-1 is delivered, and 1 after it |
| ReorderRuns.TakenOnce | internal/reorder/reorder.go:50-74 | a number is delivered at most once, never also pending, and is never taken in again |
| ReorderRuns.NothingSkippedIff | internal/reorder/reorder.go:63-83 | nothing is skipped over a run exactly when no call trips the size or age limit |
| ReorderRuns.ClockIsWaitingSince | internal/reorder/reorder.go:68-99 | the gap clock runs from the last call that delivered something or opened the gap, by the times of the calls alone |
| ReorderRuns.SkipsIffLate | internal/reorder/reorder.go:63-98 | with ordered clocks a call gives up on a gap exactly if a push fills the buffer, or packets are held and `maxDelay` has passed since every call that delivered something and every call that found nothing held |
| ReorderRuns.AcceptedWerePushed | internal/reorder/reorder.go:50-74 | the buffer invents nothing: what it accepted was pushed with that number and content |
| ReorderRuns.ArrivalOrderIrrelevant | internal/reorder/reorder.go:54-73 | numbers 1..n pushed in any order with any repeats come out as packets 1..n exactly when no drain was forced, and the buffer ends empty |
| ReorderRuns.FlushesEmpty | internal/reorder/reorder.go:76-83 | k pending packets need at most k expired flushes; then everything accepted is delivered and the accounting holds, exactly unless 2^64-1 was pending |
| ReorderRuns.ForceDrainShrinks | internal/reorder/reorder.go:102-116 | each forced drain strictly shrinks what is pending |
| Replay.ReplayWindow.Accept | internal/protocol/protocol.go:431-458 | the shift-and-mask code does what `AcceptStep` says, on 64-bit words |
| Replay.AcceptRefines | internal/protocol/protocol.go:431-458 | if bit d of the bitmap stands for highest - d having been accepted, `Accept` says yes exactly to fresh numbers and the bitmap stands for the new set |
| Replay.RunRepresents | internal/protocol/protocol.go:431-458 | through every run and every shift, bit d is set iff highest - d was accepted |
| Replay.RunDecides | internal/protocol/protocol.go:422-458 | a number is accepted exactly when no equal one was accepted before and none 64 or more above it |
| Scheduling.EffectiveWeight | internal/scheduler/scheduler.go:67-80 | a path without RTT has its configured weight, or 1 if none is configured; from half a second on it has four fifths of that; it never has more, less or none |
| Scheduling.PenaltyIsLinear | internal/scheduler/scheduler.go:72-78 | up to half a second the loss is the weight times a fifth of the RTT in half seconds |
| Scheduling.Scheduler.Next | internal/scheduler/scheduler.go:31-65 | the two loops compute `NextStep`: new currents and choice |
| SchedulerRuns.NextMeaning | internal/scheduler/scheduler.go:36-63 | a call chooses the first of the highest bidders among the healthy candidates and charges it the total weight; none are healthy iff it chooses nobody |
| SchedulerRuns.SumMovesByDepartures | internal/scheduler/scheduler.go:52-63 | the sum of the currents changes exactly by what departed paths take with them |
| SchedulerRuns.DeviationIsBounded | internal/scheduler/scheduler.go:39-63 | for a fixed healthy set of n paths and moving RTTs the currents sum to zero and lie strictly between -W and (n-1)W (for one path they stay zero) |
| SchedulerRuns.OwedIsBounded | internal/scheduler/scheduler.go:39-63 | whatever paths join, leave, fail and recover, with at most n healthy at a time and at most W in total weight, all positive currents together never exceed (n-1)W |
| SchedulerRuns.ExactFairness | internal/scheduler/scheduler.go:31-65 | with constant weights in the proportion of whole shares, after a whole number of rounds each path was chosen exactly its share of times and every current is zero, whatever the candidate order |
| SchedulerRuns.FairByWeight | internal/scheduler/scheduler.go:31-80 | while the healthy paths have equal RTTs, whole rounds give each path exactly its share of the configured weights, in any candidate order |
| SchedulerRuns.WaitIsBounded | internal/scheduler/scheduler.go:39-80 | a healthy path of configured weight w (1 if it has none) is passed over fewer than nW/(0.8w) times in a row |
| Protocol.MarshalHeader | internal/protocol/protocol.go:77-87 | the bytes written are the 28-byte header |
| Protocol.HeaderRoundTrip | internal/protocol/protocol.go:77-103 | a marshalled header, whatever follows it, parses back to itself |
| Protocol.HeaderInverse | internal/protocol/protocol.go:89-103 | only a header's own encoding parses to it |
| Protocol.MarshalHello | internal/protocol/protocol.go:144-162 | names over 63 bytes and empty instance nonces are refused, in that order, and nothing else; otherwise the bytes are the version 2 hello |
| Protocol.HelloV2RoundTrip | internal/protocol/protocol.go:144-216 | a marshalled hello comes back whole at second precision unless its weight is zero or its time is off |
| Protocol.HelloV2Inverse | internal/protocol/protocol.go:164-190 | only the encoding of an acceptable hello parses as version 2 |
| Protocol.HelloAcceptedIff | internal/protocol/protocol.go:164-216 | of all byte strings exactly the authentic hellos of version 2, and those of version 1 whose name does not collide, are accepted, if their weight is not zero and their clock within two minutes |
| Protocol.UnsignedHello | internal/protocol/protocol.go:164-201 | what nobody signed is refused: as unauthentic if it has the length of a hello, else as malformed |
| Protocol.HelloV1RoundTripIff | internal/protocol/protocol.go:164-216 | an authentic legacy hello is judged on weight and time exactly when its name does not give it the version 2 length; otherwise it is refused as unauthentic |
| Protocol.LegacyNameExample | internal/protocol/protocol.go:164-170 | a 61-byte name for which a timely authentic legacy hello is refused |
| Protocol.MarshalWelcome | internal/protocol/protocol.go:232-240 | the bytes written are the welcome, authenticated with its header |
| Protocol.WelcomeRoundTrip | internal/protocol/protocol.go:232-261 | a welcome comes back whole to the nonce it answers, within the skew, and to no other |
| Protocol.WelcomeAcceptedIff | internal/protocol/protocol.go:242-261 | of all byte strings exactly the welcome that answers the nonce, authenticated with the header it came under, is accepted, within two minutes |
| Protocol.PlainRoundTrip | internal/protocol/protocol.go:263-275 | a payload is sent exactly up to 65,492 bytes, and gives back header and payload |
| Protocol.MarshalData | internal/protocol/protocol.go:277-285 | the bytes written are number and packet, refused over the size limit |
| Protocol.DataRoundTripIff | internal/protocol/protocol.go:277-296 | an enveloped packet comes back exactly when its number is not zero and it is not empty |
| Protocol.DataInverse | internal/protocol/protocol.go:277-296 | only the envelope of a nonempty packet under a nonzero number parses; 65,484 bytes is the longest packet that gets one |
| Protocol.KeyInputsInjective | internal/protocol/protocol.go:298-312 | salt and info determine both nonces, session and path, so no two paths derive a key from the same input |
| Protocol.Hkdf | internal/protocol/protocol.go:357-372 | the loop computes the output keying material of sections 2.2 and 2.3 of RFC 5869 |
| Protocol.FirstBlocks | internal/protocol/protocol.go:357-372 | the first two blocks are those of section 2.3 of RFC 5869; a path key is the first |
| Protocol.CounterIsBlockNumber | internal/protocol/protocol.go:361-370 | the byte counter is the block number as long as RFC 5869 allows blocks, and wraps only beyond |
| Protocol.NonceEqualIff | internal/protocol/protocol.go:335-345 | two packet nonces are equal exactly when direction, number and the low 31 path bits are |
| Protocol.NonceTells | internal/protocol/protocol.go:335-345 | a nonce shows direction in its top bit, then the low 31 path bits, then the number |
| Protocol.SealedRoundTrip | internal/protocol/protocol.go:314-333 | up to 65,492 bytes are sealed, and the packet shows its header and opens to what was sealed |
| Protocol.SealedInverse | internal/protocol/protocol.go:314-333 | of the packets that show a header, exactly the one sealed under it opens |
| Protocol.OpensIff | internal/protocol/protocol.go:323-333 | whatever the AEAD, a packet opens exactly if it has 44 bytes and the AEAD opens its body under its nonce and header; else it is malformed if short, and unauthentic otherwise |
| Protocol.IPv4Addresses | internal/protocol/ip.go:17-59 | source and destination of a packet laid out as section 3.1 of RFC 791 says are found |
| Protocol.IPv6Addresses | internal/protocol/ip.go:17-59 | and of one laid out as section 3 of RFC 8200 says |
| Protocol.AddressesIff | internal/protocol/ip.go:10-59 | nothing else has an address |
| Nonces.PathEnd.Send | internal/engine/client.go:684-702 | a send gives the packet the session's next stamp, under a nonce the session has not used while it is within 2^32 handshakes and 2^64 packets per path and direction, and the datagram opens to what was sent |
| Nonces.PathIdsDistinctIff | internal/engine/server.go:299-303 | the path ids of a session are distinct exactly up to 2^32 handshakes |
| Nonces.NoncesDistinctIff | internal/engine/server.go:810-817 | up to 2^32 handshakes, no nonce of a session repeats exactly while no path sent more than 2^64 packets in one direction |
| Tunnel.RunIsGood | internal/engine/client.go:363-449 | every run of the composed system keeps: datagrams in the network are genuine, the windows stand for what was received, accepted packets are the numbered ones |
| Tunnel.AuthenticWasSent | internal/engine/server.go:493-505 | if the AEAD accepts nothing that was not sealed, the receiver takes as authentic only what the sender sent |
| Tunnel.AuthenticIff | internal/engine/server.go:480-497 | taken as authentic is exactly a datagram of this session and an open path whose body the AEAD opens under its header |
| Tunnel.ExtractedIff | internal/engine/server.go:511-526 | of its payload exactly a numbered packet of the right address goes on to the buffer |
| Tunnel.SubmitMeaning | internal/engine/client.go:363-396 | a packet of the right address on an open path is numbered, and up to 65,484 bytes long it puts one datagram into the network, which shows the path's next packet number and opens to the packet under its number |
| Tunnel.EndToEnd | internal/engine/server.go:493-527 | whatever is dropped, repeated or reordered, on whatever paths, the receiver writes a strictly increasing selection of the numbered packets, each unchanged, at most once, and from (or to) the client's tunnel address, and every missing number is counted as skipped |
| Tunnel.SpoofsNeverLeave | internal/engine/server.go:513-527 | whoever has the keys, and whatever the AEAD lets through, only packets of the client's own address leave the tunnel |
| Tunnel.ProcessedAtMostOnce | internal/engine/client.go:717-729 | no path processes one of its packet numbers twice |
| Tunnel.FreshDataGetsThrough | internal/engine/server.go:493-524 | a data datagram arriving on an open path is passed on to the buffer, with its own number and packet, exactly when its number is fresh to the path's window |
| Tunnel.FreshDataReachesBuffer | internal/engine/server.go:493-527 | and once pushed, that packet is pending or delivered under its number unless the buffer had already gone past it |
| Tunnel.LosslessWhenAllArrive | internal/engine/client.go:411-431 | if every numbered packet reached the buffer and nothing was skipped, the output is the input |
| Tunnel.NextIsFresh | internal/protocol/protocol.go:431-458 | the next packet number of a path is always fresh to its window, in runs of fewer than 2^64-1 steps |
| Tunnel.DeliversNext | internal/engine/client.go:363-449 | after any run that left no gap, a packet submitted on an open path whose datagram arrives and is pushed comes out next |
| Tunnel.TunnelDelivers | internal/engine/client.go:363-449 | from the start, packets of the right address and size sent one by one over any paths, none lost, come out exactly, all of them and in order |
| Relay.Session.RegisterPath | internal/engine/server.go:286-346 | a nonce already known is turned away from another address and else answered, its path being as healthy as the sending went; a new one gets the next 31-bit id if there is one and the session is not closing; ids and nonces of a session's paths stay distinct |
| Relay.Session.AddPath | internal/engine/server.go:706-714 | a closing session takes no path |
| Relay.Session.MarkClosing | internal/engine/server.go:716-725 | the session is closing and its paths are returned |
| Relay.Session.RemovePath | internal/engine/server.go:754-768 | only the very path registered under the id goes; the last one out closes the session; ids and nonces stay distinct |
| Relay.HoldsIff | internal/engine/server.go:754-768 | a path object that once had the id of a registered path takes nothing away |
| Relay.Session.ExpirePaths | internal/engine/server.go:783-796 | paths silent for a minute are gone, those silent for ten seconds are unhealthy, others are unchanged; ids and nonces stay distinct |
| Relay.SurvivingMeaning | internal/engine/server.go:783-796 | a path stays exactly if heard from within a minute, and healthy exactly if it was and within ten seconds; nothing else about it changes |
| RelayInvariants.DetachKeepsLinked | internal/engine/server.go:464-478 | detaching keeps the indexes in agreement and takes the session out of all of them |
| RelayInvariants.DetachKeepsOthers | internal/engine/server.go:464-478 | it takes no one else's route and no one else's session |
| RelayInvariants.DetachIsExact | internal/engine/server.go:464-478 | every other session stays in every index it was in |
| RelayInvariants.ReplaceKeeps | internal/engine/server.go:366-411 | a session for a current credential replaces its client's old one without disturbing any client not awaiting termination |
| RelayInvariants.ReplaceIsExact | internal/engine/server.go:366-411 | exactly the client's old session goes, and exactly the new one comes |
| RelayInvariants.ExpireIsExact | internal/engine/server.go:645-657 | exactly the named sessions go, and the routes of their addresses |
| RelayInvariants.ExpireKeepsRoutesIff | internal/engine/server.go:645-657 | the janitor's unguarded deletions lose a route exactly when an expired session shares a survivor's address |
| RelayServer.Server.AuthorizeClient | internal/engine/server.go:117-162 | accepted exactly when the parts parse, the address is a client address of the subnet and neither address nor key is another client's; then the credential is set and an outdated session ended, otherwise nothing changes; the indexes stay in bijection |
| RelayServer.Server.RevokeClient | internal/engine/server.go:164-174 | credential and session are gone |
| RelayServer.Server.GetOrCreateSession | internal/engine/server.go:356-427 | refused exactly when the credential changed; otherwise the session accepts the hello and is either the client's own, unchanged, or a new one that replaces it and closes it |
| RelayServer.Server.TerminateClientSession | internal/engine/server.go:429-446 | the client's session leaves every index and is closing; no session in the table is |
| RelayServer.Server.TerminateSessionIfCurrent | internal/engine/server.go:448-462 | only the session registered under its id is closed and detached |
| RelayServer.Server.DetachSession | internal/engine/server.go:464-478 | each index entry goes only if the session holds it |
| RelayServer.Server.ClosePath | internal/engine/server.go:540-543 | when the last path goes the session is detached, and only then |
| RelayServer.Server.HandleHello | internal/engine/server.go:281-354 | a hello whose credential is still current is answered in its client's session if that is of the same process, else in a new one. It is foreign or answered exactly if a path of that session has its handshake nonce, at another address or its own; else it gets a path with its nonce and address, which stays if the welcome went out, and with which an otherwise empty session ends if not. All other paths of all sessions stay as they were |
| RelayServer.Server.Janitor | internal/engine/server.go:645-657 | exactly the silent sessions expire, and run undisturbed this keeps all three indexes in bijection |
| RelayServer.AuthorizedConsistent | internal/engine/server.go:134-162 | authorizing keeps all indexes in bijection over current credentials |
| RelayServer.RevokedConsistent | internal/engine/server.go:164-174 | so does revoking, which leaves no session of the client |
| RelayServer.ClashesIff | internal/engine/server.go:141-151 | the check refuses exactly the credentials that would make two clients share an address or a key |
| RelayServer.AuthorizedIsExact | internal/engine/server.go:134-162 | an authorization ends its client's session exactly if key or address changed, and no other session |
| RelayServer.RevokedIsExact | internal/engine/server.go:164-174 | a revocation ends its client's session and no other |
| RelayRuns.RunIsSound | internal/engine/server.go:356-478 | every interleaving of authorize, revoke, terminate, hello, close and janitor steps keeps the invariant: beyond the next row, a session outside the table is closing or expired, and closing is for good |
| RelayRuns.AlwaysCurrent | internal/engine/server.go:117-174 | in every interleaving: credentials share no address or key, sessions and clients correspond one to one, the counter is the table size, address entries are live sessions with that address, and each session has its client's current key and address unless the client's termination is pending |
| RelayRuns.RouteLeadsToOwner | internal/engine/server.go:564-571 | in every interleaving a packet for an address goes to the one client whose credential has it, or to one whose termination is pending |
| RelayRuns.SettledIsCurrent | internal/engine/server.go:356-411 | once nothing is pending for a client, its session has its current key and address and is its only one |
| RelayRuns.OneOpenSession | internal/engine/server.go:383-411 | of one client's sessions at most one can still take paths, expired ones aside |
| RelayRuns.SessionEndsIff | internal/engine/server.go:356-478 | in every interleaving a live session ends exactly by its client's termination, by a hello of its client from another process or after it was marked closing, by the loss of its last path or by silence; only hellos make sessions |
| RelayRuns.HelloIsServed | internal/engine/server.go:356-427 | a hello under a current credential always ends with a live session of its own process; under any other it changes nothing |
| RelayRuns.EmptySessionIsNotJoined | internal/engine/server.go:754-768 | between losing its last path and leaving the table a session is not joined: a hello gets another one |
| RelayRuns.SetMeaning | internal/engine/server.go:134-162 | a credential is accepted exactly if it leaves all clients apart, and makes its client's termination due exactly if it changed key or address |
| RelayRuns.RevokedHasNoSession | internal/engine/server.go:164-174 | after both steps of a revocation, whatever ran before, between and after, the client has no session until it is authorized again |
| RelayRuns.StepKeepsRoutesIff | internal/engine/server.go:651-653 | a step loses a route exactly when the janitor expires a session sharing the address of a survivor that awaits nothing |
| RelayRuns.RoutedThroughoutIff | internal/engine/server.go:645-657 | a run keeps every route at every step exactly if no janitor step in it expires a session sharing the address of a survivor that awaits nothing |
| RelayRuns.OwnedRunIsRouted | internal/engine/server.go:144-174 | if no address is ever authorized for two clients, every session, even one awaiting termination, is found by its address in every state of every interleaving with any janitor |
| RelayRuns.JanitorLosesRoute | internal/engine/server.go:651-653 | without that, which the server alone does not enforce while a termination is pending, there is a seven-step run after which nothing is pending and a live session is not found by its address |
| RelayRuns.RevokeIsTwoSteps | internal/engine/server.go:164-174 | the undisturbed revocation is its two steps in a row |
| RelayRuns.AuthorizeIsItsSteps | internal/engine/server.go:134-162 | the undisturbed authorization is its one or two steps in a row |
| ClientPaths.Client.KeepUsable | internal/engine/client.go:194-207 | the in-place filter keeps, in order, exactly the paths of the first one's session, rejects the others, and never keeps none |
| ClientPaths.Client.SwapPath | internal/engine/client.go:549-557 | the replacement takes the place of the path it replaces if that is still in use, and nothing else changes |
| ClientPaths.SwappedAt | internal/engine/client.go:549-557 | exactly the first occurrence is replaced |
| ClientRejoin.AlwaysCoherent | internal/engine/client.go:524-599 | in every interleaving of connect, rejoin and reconnects, all paths in use have the client's session id and no path is in use twice |
| ClientRejoin.SessionChangesWhileEmpty | internal/engine/client.go:575-588 | the session id changes only while there are no paths |
| ClientRejoin.ReconnectMeaning | internal/engine/client.go:524-564 | an undisturbed reconnect puts its replacement in place of the ailing path, which it closes, exactly if that is still in use and the sessions agree; else it closes the replacement; nothing else changes |
| ClientRejoin.RejoinMeaning | internal/engine/client.go:570-599 | an undisturbed rejoin closes all paths in use and goes on with exactly the new ones of the first one's session, closing the others; it loses nothing |
| ClientRejoin.RejoinNeverSticks | internal/engine/client.go:570-599 | however far a rejoin has come it can end without help, and then another can begin |
| ClientRejoin.DepartedNeverReturns | internal/engine/client.go:548-564 | a path object that left the list never returns |
| ClientRejoin.RunAccounts | internal/engine/client.go:524-599 | every path object is held by someone, closed, or lost with its socket open; what is lost stays so |
| ClientRejoin.RejoinLosesIff | internal/engine/client.go:575-581 | a rejoin loses a socket exactly when a reconnect swaps a path in between the snapshot and the clearing |
| ClientRejoin.RejoinLosesExample | internal/engine/client.go:548-581 | the loss is reachable: nine steps from the start leave an open socket in nobody's hands |
| Store.LowestFree | internal/controlplane/store.go:437-447 | the lowest host address not in use, or none exactly when all are in use |
| Store.Database.AllocateAddress | internal/controlplane/store.go:418-447 | the two loops find the lowest free host address or report exhaustion, and terminate |
| Store.Database.CreateActivation | internal/controlplane/store.go:149-193 | bad labels and lifetimes are refused, old activations pruned, and the new one filed, as `Created` says |
| Store.CreatedMeaning | internal/controlplane/store.go:149-213 | the new activation is on file as asked for, with exactly those that are neither used nor expired for more than a day |
| Store.PruneActivations | internal/controlplane/store.go:195-213 | exactly the activations finished before the cutoff go |
| Store.Database.Enroll | internal/controlplane/store.go:215-298 | each refusal in its order; on success the device is stored, the activation marked used and the event recorded |
| Store.Database.Revoke | internal/controlplane/store.go:343-367 | exactly the known devices can be revoked; exactly the device's credential stops being active, every other device is untouched, and a second revocation changes nothing |
| Store.RevokedMeaning | internal/controlplane/store.go:343-376 | a revocation is for good: repeating it later gives the same data and reply, and the device can no longer rotate its key |
| Store.Database.Rotate | internal/controlplane/store.go:369-401 | exactly the active devices can rotate; the device's credential changes in its key only, the record in key and time stamp only, and every other device is untouched |
| Store.RotatedMeaning | internal/controlplane/store.go:369-401 | the same of the transaction alone, which changes nothing when it refuses |
| Store.Database.Touch | internal/controlplane/store.go:403-416 | no credential changes and no other device; only the time a known device was last seen moves |
| Store.Database.ActiveCredentials | internal/controlplane/store.go:300-325 | exactly the credentials of devices not revoked, each once |
| StoreRuns.RedeemsIff | internal/controlplane/store.go:215-298 | over every run with pruning, a code buys a device exactly when it was asked for, not redeemed before and its lifetime is not over, the request is well filled and an address is left; each refusal names its reason and changes nothing |
| StoreRuns.RedeemBuys | internal/controlplane/store.go:235-294 | it buys a device of the user the code was asked for, at the lowest address nobody ever had; nothing else changes, and the code is used |
| StoreRuns.IssuesIff | internal/controlplane/store.go:149-193 | over every run a code is issued exactly for a user and device name of 1 to 128 bytes and a lifetime of a minute to a day |
| StoreRuns.RedeemedOnce | internal/controlplane/store.go:242-243 | once redeemed, a code never buys another device |
| StoreRuns.PruningIsUnseen | internal/controlplane/store.go:173-213 | every reply of every run is the same as that of a store that never prunes |
| StoreRuns.AuditTells | internal/controlplane/store.go:290-292 | after every run a device is active exactly if the audit log says it was enrolled and does not say it was revoked; owners and times agree |
| StoreRuns.RequestIsNoted | internal/controlplane/store.go:188-190 | each request that does something leaves exactly one entry, and no other leaves any |
| StoreRuns.RunGoesOn | internal/controlplane/store.go:149-416 | a run of requests serves each from the data the ones before it left |
| StoreRuns.RunIsPlaced | internal/controlplane/store.go:255-447 | over every run no two devices, revoked ones included, share an address; none is reserved, network or broadcast; addresses never change and revocations are never undone |
| StoreRuns.ExhaustedIff | internal/controlplane/store.go:418-447 | the pool is exhausted exactly when as many devices exist as there are assignable addresses |
| Service.Service.LoadCredentials | internal/controlplane/service.go:80-92 | in whatever order the devices are walked, loading succeeds exactly when no key is shared, and then store and relay agree |
| Service.Service.Enroll | internal/controlplane/service.go:169-212 | with a new id, agreement of store and relay is kept in every case; the relay then refuses only a key in use, and the device is revoked again; no other client's session or credential changes |
| Service.Service.Revoke | internal/controlplane/service.go:239-252 | agreement is kept, and restored if only this device was in dispute; the relay has neither a session nor a credential of the device |
| Service.Service.RotateKey | internal/controlplane/service.go:254-271 | from agreement on all other clients: it succeeds exactly if no other client has the key, and store and relay agree exactly if it succeeds; otherwise they part about this device only |
| Service.ClashIsKey | internal/engine/server.go:141-151 | for an address from the allocator the relay's checks come down to the key |
| Service.OverlappingRequestsPart | internal/controlplane/service.go:239-271 | an example of overlap, the exact condition being the next row: a revocation between the two halves of a rotation leaves the relay accepting a revoked device |
| ServiceRuns.OverlappingAgreeIff | internal/controlplane/service.go:169-276 | however any number of enrolments, revocations and rotations overlap, and whatever the relay does meanwhile: once all are answered, store and relay agree exactly if, on every device asked about, the relay heard last the request the store served last, or both of them revoke |
| ServiceRuns.SeparateRequestsAgree | internal/controlplane/service.go:169-276 | if no two requests on one device overlap, store and relay agree at every moment on every device without an unanswered request |
| ServiceRuns.NeverRefused | internal/engine/server.go:141-151 | with new ids and keys no authorization ever fails, whatever overlaps |
| ServiceRuns.RelayIsARun | internal/controlplane/service.go:169-276 | what the relay goes through in such a run is a run of `RelayRuns`, so all that is proved there holds here |
| ServiceRuns.StoreIsARun | internal/controlplane/service.go:169-276 | and the store goes through the requests in their order and nothing else |
| ServiceRuns.LoadedIsSound | cmd/linkforge/main.go:207-256 | a successful load establishes the invariant of these runs |
| ServiceRuns.UndisturbedSaysIts | internal/controlplane/service.go:184-264 | a request served undisturbed is its two halves in a row, and changes one client's credential at the relay |
| ServiceRuns.UndisturbedIsAnswered | internal/controlplane/service.go:184-264 | then nothing more is pending than before, and the relay heard last what the store decided last |
| ServiceRuns.WholeProgram | cmd/linkforge/main.go:207-256 | in every state of every run of control plane and relay together no authorization fails, the relay's invariant holds and every session is found by its address |
| RateLimiter.RateLimiter.Allow | internal/controlplane/service.go:392-417 | table and answer are as `Allowed` says, eviction loop included |
| RateLimiter.CallIsLogged | internal/controlplane/service.go:392-417 | over every run a call is noted as granted exactly if the limiter grants it |
| RateLimiter.NeverMoreThanTwice | internal/controlplane/service.go:392-417 | whatever is evicted, a closed interval of length `duration` grants one key at most twice its maximum (counted as at least one), and the table holds at most 4096 keys |
| RateLimiter.RefusedHadItsShare | internal/controlplane/service.go:396-416 | a key is refused only if it had its maximum within `duration`, or if 4096 other keys were granted something within it |

## Left out

- Sockets, TUN devices, routes and interface binding (internal/tun, internal/netbind, internal/netconfig, internal/engine/udp.go): input and output.
- HTTP, JSON, metrics, logging and the command line: plumbing; only the `ActiveSessions` counter is kept.
- Configuration and path discovery: their results (unique names, pool equal to the relay's subnet, reserved addresses) are preconditions.
- Sending and repeating a welcome: whether it could be sent is a parameter of `RelayServer.Server.HandleHello`; repeats are not modelled.
- Shutting down: the client's last close packets and the closing of its sockets.
- Path health, RTT smoothing and probes: they feed the scheduler values that its theorems leave free.
- bbolt's cursor, which deletes while it walks, and its files: pruning is a map update.
- Scheduling.Scheduler.Next: weights are exact reals, so floating-point rounding of currents is not modelled.
- Protocol.HelloV2RoundTrip: names are byte strings and Unicode validity is not modelled.
- Relay.Session.RemovePath: paths are values known by id and handshake nonce, so two path objects with both equal are not told apart; a path's address does not follow the client's.
- RelayServer.Server.Janitor: the moment a session was last heard is read once per visit, as a field no other step of the model changes.
- Tunnel.TunnelDelivers: the packets travel one at a time; what reordering makes of them is `ReorderRuns.ArrivalOrderIrrelevant`.
- ClientRejoin.AlwaysCoherent: packets in flight are not part of it; a late packet may reach the buffer after a rejoin, so `Tunnel` speaks of one session.
- StoreRuns.RedeemsIff: codes are taken to be new whenever drawn, and a run starts from an empty store.
- Service.Service.Enroll: the method serves one request, with a new client id; overlapping requests are in `ServiceRuns`.
- ServiceRuns.OverlappingAgreeIff: keys and ids are taken to be new; a key drawn twice is `Service.Service.RotateKey`'s case.
- RelayServer.Server.HandleHello: the hello is taken to have been authenticated under the credential it is given.
