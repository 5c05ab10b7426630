# Verified models of the KdDeskTC server and client

This project models the stateful parts of KdDeskTC, a remote desktop with its own rendezvous and
relay server, in Dafny, and proves what they guarantee over whole runs and for all inputs.
`dafny verify dfyconfig.toml` checks everything.

Code that changes state is modelled in that form: classes whose methods update fields, loops with
invariants, algorithms over byte arrays. Each such method is proved against a function or a
predicate that says what it computes, and the theorems are about those.

## What is modelled

**Registry (rendezvous server).** An id is bound to (uuid, pk, ip) in an in-memory peer map in front
of an SQL table. `Database.dfy`, `Peers.dfy`, `IpBlocker.dfy` and `RendezvousServer.dfy` are the
table, the map, the limiter in front of key registration and the message handlers; `Registry.dfy`
says what one message does. `RegistryRuns.dfy` puts messages, lookups and restarts (map and limiter
lost, table kept) in any order and proves that the map agrees with the table and that the server
behaves as one plain map. The agreement is fragile: the SQL update never writes `uuid`, so it rests
on the handler's own test, and it is kept by a step if and only if the read the step needs finds the
row and the write it needs succeeds. `FailedReadBreaksAgreement` is a concrete run: while a read
fails, a second uuid is accepted for a bound id. From then on until the next restart the id is
refused to everyone else, its rightful owner included (`UsurpedUntilRestart`). What is in the table
is safer: its uuid never changes, even when calls fail. `RegistryGate.dfy` says which registrations
are accepted when, `RegistryTiming.dfy` where hole punch messages go and for how long a peer counts
as online. They go to the recorded ip or the server's own, except when a peer was just loaded by a
server whose clock is less than an hour old: it then counts as online for 30 s and the message goes
to 0.0.0.0:0. The exact condition is `PunchGoesNowhereIff`, a run `YoungServerPunchesNowhere`.
`RelayRotation.dfy` is the rotation over relay servers, `ReplySinks.dfy` the table of one-shot TCP
reply sinks under any interleaving of connection tasks. The table goes by the remote address alone,
while two listeners share it, so a second connection from one address can close the sink of the
first: `SinkIsCutIff` says exactly when, `SharedAddressLosesSink` is a run.

**Relay server.** `RelayPairing.dfy` interleaves lookup, insert and expiry of waiting streams as
separate lock steps. Streams are conserved and pairs match, but the code does not give every stream
its 30 s: a timer clears whatever waits under its uuid (`StaleTimerDropsLaterStream`, and
`WaitLastsIff` for exactly when). `RelayUsage.dfy` is the accounting loop of one connection.

**Publish and subscribe (client).** `PubSub.dfy` and `ConnServer.dfy` are services with live and
pending subscribers, and `ServiceRuns.dfy` shows that each subscriber is served as if it were alone;
`CursorStream.dfy` is the stream of cursor images in which repeated images are replaced by ids, with
the receiver that puts them back; `CursorService.dfy` is the cursor service's thread, interleaved at
every lock acquisition with connections that join and leave. The design promises a snapshot and then
every broadcast. The code keeps that except for a subscriber that joins after the snapshot's send
and before its promotion; it is promoted without one (`LateJoinerHasNoSnapshot`). The theorem states
both cases. `CursorScreen.dfy` shows that every cursor found gets to the screen.

**Cursor bitmaps (client, Windows).** `MaskImage.dfy`, `Outline.dfy` and `CursorMask.dfy` work on
byte arrays as the code does, with `Raster.dfy` for row-major scans and `Bits.dfy` for bit masks;
`LowestBit.dfy` is the multiplication trick that finds the lowest set bit. `DrawOutline` starts one
old row and one pixel into a buffer that is two pixels wider, so the image ends one pixel down and
one to the left, while the caller moves the hot spot one down and one to the right
(`DrawingIsOffByTwo`). The code is modelled as it is.

**Smaller cores.** `Dsl.dfy` is the key DSL's tokenizer, proved to accept exactly a language of text
and tags, with a printer that inverts it on exactly its image; `Framing.dfy` the chunked reader of
length-prefixed messages; `Latency.dfy` the integer moving average of the latency.

`Wrappers.dfy`, `Net.dfy` and `Arith.dfy` hold shared types and arithmetic. Time is a natural number
of nanoseconds of a monotonic clock, passed in; fresh guids and the outcomes of database calls are
parameters of each step.

## Model

| member | source | states |
|---|---|---|
| `PeerTable.Database.GetPeer` | KdDeskTC_Server/src/database.rs:100-108 | a read that reaches the database returns the one row of the id, or none if there is none |
| `PeerTable.Database.InsertPeer` | KdDeskTC_Server/src/database.rs:135-154 | inserts iff neither the key nor the unique id is taken, and otherwise changes nothing |
| `PeerTable.Database.UpdatePk` | KdDeskTC_Server/src/database.rs:156-173 | writes id, pk and info but never uuid, keeps ids unique, and succeeds without effect when no row matches |
| `Peers.PeerMap.Get` | KdDeskTC_Server/src/peer.rs:134-155 | a cached peer is returned as it is; otherwise the row, if read, is loaded into the map; the map stays well formed |
| `Peers.PeerMap.GetOr` | KdDeskTC_Server/src/peer.rs:158-169 | as `Get`, and a peer not found is created with the default fields |
| `Peers.PeerMap.UpdatePk` | KdDeskTC_Server/src/peer.rs:91-131 | rebinds the peer in memory first, then inserts (no guid yet) or updates; a failed write leaves memory changed |
| `IpBlocker.Blocker.Check` | KdDeskTC_Server/src/rendezvous_server.rs:866-894 | the whole new limiter state and the verdict, in the code's order: newness of the id is decided before an expired set is cleared |
| `IpBlocker.Blocker.Retain` | KdDeskTC_Server/src/rendezvous_server.rs:940-945 | drops exactly the entries idle for both durations |
| `IpBlocker.InvHolds` | KdDeskTC_Server/src/rendezvous_server.rs:866-894 | in every run the counter stays at most 31 and the id set at most 301 |
| `IpBlocker.IpRateLimit` | KdDeskTC_Server/src/rendezvous_server.rs:866-894 | in any run, any interval shorter than 61 s lets at most 32 messages of an ip pass |
| `IpBlocker.IpRateLimitIsReached` | KdDeskTC_Server/src/rendezvous_server.rs:866-894 | 32 messages at one instant all pass and, 61 s later, so does the next: neither number can be improved |
| `IpBlocker.AcceptedAreRecorded` | KdDeskTC_Server/src/rendezvous_server.rs:879-889 | while the id set is not cleared, every id that passes is in it at the end |
| `IpBlocker.DistinctIdLimit` | KdDeskTC_Server/src/rendezvous_server.rs:879-891 | from one clearing to the next at most 302 distinct ids of an ip pass |
| `IpBlocker.DistinctIdLimitIsReached` | KdDeskTC_Server/src/rendezvous_server.rs:879-891 | a run in which 302 distinct ids pass without a clearing, the first unrecorded |
| `IpBlocker.PassesIff` | KdDeskTC_Server/src/rendezvous_server.rs:866-894 | in every run a message passes iff its ip has no entry, or fewer than 31 counted messages run up to it less than 61 s apart behind an earlier one and its id is recorded, fewer than 301 are, or none was for more than a day |
| `IpBlocker.RecordedIdsAre` | KdDeskTC_Server/src/rendezvous_server.rs:879-889 | which ids are recorded behind a message that passes, and when the record is renewed |
| `IpBlocker.RetainedIff` | KdDeskTC_Server/src/rendezvous_server.rs:940-945 | the clean-up drops an entry iff 61 s and a day and a second have passed |
| `RendezvousServer.RendezvousServer.HandleRegisterPk` | KdDeskTC_Server/src/rendezvous_server.rs:318-405 | the whole state and reply of a key registration: silent, refused, too frequent or accepted |
| `RendezvousServer.RendezvousServer.AdmitPeer` | KdDeskTC_Server/src/rendezvous_server.rs:331-374 | the checks on the peer on record: uuid, ip or pk, and the gate; a refused registration leaves the peer alone |
| `RendezvousServer.RendezvousServer.UpdateAddr` | KdDeskTC_Server/src/rendezvous_server.rs:560-600 | the address is taken over iff the peer is in memory with a key and did not change its ip; otherwise its key is requested |
| `RendezvousServer.RendezvousServer.HandlePunchHoleRequest` | KdDeskTC_Server/src/rendezvous_server.rs:689-791 | which failure is answered when, in all cases; otherwise the message goes to the target's address, by relay, local addresses or punch hole, names exactly the server it has to, and moves the rotation as often as it asked |
| `RegistryRuns.AgreementKeptIff` | KdDeskTC_Server/src/peer.rs:91-155 | a registration keeps map and table in agreement iff the read it needs finds the existing row and the write it needs succeeds |
| `RegistryRuns.CacheRefinesTable` | KdDeskTC_Server/src/peer.rs:91-169 | in every run with healthy database calls, restarts included, each cached peer with a guid equals its row in id, uuid, pk and ip, and a peer without one has no row |
| `RegistryRuns.StepRefines` | KdDeskTC_Server/src/rendezvous_server.rs:318-405 | one step changes the bindings as one step of a plain map from ids to (uuid, pk, ip) |
| `RegistryRuns.RunRefinesPlainMap` | KdDeskTC_Server/src/rendezvous_server.rs:318-405 | so does every healthy run, restarts included |
| `RegistryRuns.RefusalIsPlain` | KdDeskTC_Server/src/rendezvous_server.rs:330-365 | a registration is refused for its uuid iff the plain map forbids it, and never accepted then |
| `RegistryRuns.StepKeepsUuids` | KdDeskTC_Server/src/peer.rs:113-129 | one step changes no uuid of the table and removes no id, whether or not its database calls succeed |
| `RegistryRuns.DurableUuidIsPermanent` | KdDeskTC_Server/src/database.rs:156-173 | once an id is in the table, no run changes its uuid: restarts and failing calls included |
| `RegistryRuns.PkChangesFromRecordedIp` | KdDeskTC_Server/src/rendezvous_server.rs:336-365 | a step changes a pk only to that of a registration from the recorded ip, an ip only together with the same pk, a uuid never |
| `RegistryRuns.PkChangeHasItsMoment` | KdDeskTC_Server/src/rendezvous_server.rs:336-365 | if a pk differs after a run, some accepted registration in it changed the pk and came from the ip on record at that moment |
| `RegistryRuns.FailedReadUsurps` | KdDeskTC_Server/src/peer.rs:139-169 | a failed read lets any well-formed registration take a bound id in memory, the table unchanged |
| `RegistryRuns.StaysUsurped` | KdDeskTC_Server/src/rendezvous_server.rs:330-358 | then each step but a restart, failing calls or not, keeps the usurping uuid and refuses every other, the rightful one included |
| `RegistryRuns.UsurpedUntilRestart` | KdDeskTC_Server/src/peer.rs:113-129 | so does every run without a restart, and the table keeps the rightful uuid |
| `RegistryRuns.FailedReadBreaksAgreement` | KdDeskTC_Server/src/peer.rs:139-169 | a run from the start that gets there: a registration, a restart, a registration with a failed read |
| `RegistryGate.GateStep` | KdDeskTC_Server/src/rendezvous_server.rs:366-374 | only an accepted registration of its id changes a peer's gate record |
| `RegistryGate.RegistrationRateLimit` | KdDeskTC_Server/src/rendezvous_server.rs:366-374 | in any run, an interval shorter than 7 s without a restart accepts at most three registrations of an id |
| `RegistryGate.RegistrationRateLimitIsReached` | KdDeskTC_Server/src/rendezvous_server.rs:366-374 | of four registrations at one instant three are accepted, and the next is 7 s later: neither number can be improved |
| `RegistryGate.ReplyIs` | KdDeskTC_Server/src/rendezvous_server.rs:318-405 | in every healthy run the reply to each registration, from the message, the limiter's verdict, the plain map and whether three acceptances less than 7 s apart run up to it |
| `RegistryGate.NextThreeAreAccepted` | KdDeskTC_Server/src/rendezvous_server.rs:366-374 | after 7 s without an acceptance the next three registrations that reach the map and may bind are accepted |
| `RegistryGate.LimiterIsAsked` | KdDeskTC_Server/src/rendezvous_server.rs:320-329 | the limiter counts exactly the complete and long enough registrations |
| `RegistryTiming.RunLocates` | KdDeskTC_Server/src/rendezvous_server.rs:566-591 | in every run, failing calls included and whatever the clock does, each peer either has no address or has the ip last registered, or the server's own |
| `RegistryTiming.OfflineTestIsRightIff` | KdDeskTC_Server/src/rendezvous_server.rs:709-711 | when the 32-bit offline test is right, in both directions; always below 2^31 ms |
| `RegistryTiming.PunchGoesToRecordedIp` | KdDeskTC_Server/src/rendezvous_server.rs:706-780 | in every healthy run a target either has no address yet or is bound and addressed at its recorded ip or the server's own |
| `RegistryTiming.PunchGoesNowhereIff` | KdDeskTC_Server/src/rendezvous_server.rs:706-720 | a target counts as online without an address iff it has not been heard from since it was loaded and the low 32 bits of the time since the expired time of that moment are below 30 s |
| `RegistryTiming.HeardTargetIsBound` | KdDeskTC_Server/src/rendezvous_server.rs:566-577 | a target heard from since it was loaded is bound and addressed at its recorded ip or the server's own |
| `RegistryTiming.OldServerPunchesRecordedIp` | KdDeskTC_Server/src/common.rs:13-17 | on a clock of at least an hour every target online within 2^31 ms is bound and addressed at its recorded ip or the server's own |
| `RegistryTiming.YoungServerPunchesNowhere` | KdDeskTC_Server/src/common.rs:13-17 | a healthy run of a registration and a restart after which, two seconds after boot, the target is online and its address is 0.0.0.0:0 |
| `RegistryTiming.HeardIsOnlineIff` | KdDeskTC_Server/src/rendezvous_server.rs:575-578 | in every run a peer last heard at t is found at exactly the address of that message, online for 30 s from t and offline from then on until 2^31 ms |
| `RegistryTiming.RegistrationIsHeardIff` | KdDeskTC_Server/src/rendezvous_server.rs:359-398 | a registration takes the address over iff it is accepted and changes the binding |
| `RegistryTiming.HeartbeatReplyIs` | KdDeskTC_Server/src/rendezvous_server.rs:566-574 | in every healthy run a heartbeat is taken over, and not answered by a request for the key, iff the peer is in memory with a key and the message comes from the server's own host or the ip last heard from, or, if none was, the recorded one |
| `RelayRotation.Rotation.GetRelayServer` | KdDeskTC_Server/src/rendezvous_server.rs:902-913 | the server picked and the new counter; short lists leave the counter alone |
| `RelayRotation.RotationGoesRound` | KdDeskTC_Server/src/rendezvous_server.rs:908-912 | as many calls in a row as there are servers return the list from the next position on, once round |
| `RelayRotation.RotationIsFair` | KdDeskTC_Server/src/rendezvous_server.rs:902-913 | so they return every server exactly once, from any counter and for any list |
| `ReplySinks.TcpPunch.Park` | KdDeskTC_Server/src/rendezvous_server.rs:480-482 | a sink still held is stored under the address; a repeated request changes nothing |
| `ReplySinks.TcpPunch.Take` | KdDeskTC_Server/src/rendezvous_server.rs:818-826 | the sink of an address leaves the table |
| `ReplySinks.TcpPunch.Close` | KdDeskTC_Server/src/rendezvous_server.rs:1144-1146 | the end of a task clears its address iff the task gave its sink away |
| `ReplySinks.SinksAreLinear` | KdDeskTC_Server/src/rendezvous_server.rs:480-491 | in every interleaving, addresses shared or not, each accepted sink is in exactly one place: held, stored under its task's address, taken for a reply, used up or cut by another task; it is answered at most once, and no entry outlives its task |
| `ReplySinks.SinkStaysLinear` | KdDeskTC_Server/src/rendezvous_server.rs:480-491 | whatever the step, one sink stays in one place and is answered at most once |
| `ReplySinks.ReachableSinks` | KdDeskTC_Server/src/rendezvous_server.rs:794-826 | the same for every state reached from the empty one; a cut sink was never answered |
| `ReplySinks.RepliesIff` | KdDeskTC_Server/src/rendezvous_server.rs:801-826 | a step counts a reply on a sink iff its task answers directly or the send on the taken sink is made, each the first |
| `ReplySinks.CutIff` | KdDeskTC_Server/src/rendezvous_server.rs:480-482 | a sink is cut by a step iff it is stored and another task of its address parks one or ends without one |
| `ReplySinks.StoredEndsIff` | KdDeskTC_Server/src/rendezvous_server.rs:1144-1146 | which steps take, end, cut or keep a stored sink |
| `ReplySinks.SinkIsCutIff` | KdDeskTC_Server/src/rendezvous_server.rs:480-491 | over any run from the empty state a sink is cut iff such a step comes while it is stored |
| `ReplySinks.DistinctSinksAreNeverCut` | KdDeskTC_Server/src/rendezvous_server.rs:480-491 | in runs that accept no connection from the address of a running task each sink is held, stored, taken or used up |
| `ReplySinks.ParkingOverwritesNothing` | KdDeskTC_Server/src/rendezvous_server.rs:487-492 | with distinct live addresses no stored sink is lost by parking another |
| `ReplySinks.SharedAddressLosesSink` | KdDeskTC_Server/src/rendezvous_server.rs:263-279 | a run in which two connections of one address, which the two listeners allow, lose both sinks unanswered: the first by the second request, the second by the end of the first task |
| `RelayPairing.WaitingStreams.Remove` | KdDeskTC_Server/src/relay_server.rs:435-458 | search and clean-up take out whatever waits under the uuid |
| `RelayPairing.WaitingStreams.Insert` | KdDeskTC_Server/src/relay_server.rs:456 | storing a stream closes the one stored before |
| `RelayPairing.PairingIsSound` | KdDeskTC_Server/src/relay_server.rs:434-460 | in every interleaving each stream is searching, unpaired, waiting, paired or dropped, exactly one of them; pairs are two streams of one uuid; every waiting stream has its own timer 30 s after its insert |
| `RelayPairing.ReachablePairing` | KdDeskTC_Server/src/relay_server.rs:421-464 | the same for every state reached from the empty one |
| `RelayPairing.WaitEndsIff` | KdDeskTC_Server/src/relay_server.rs:435-458 | which steps end a wait, and how: found by a search, dropped by any insert or expiry under the uuid |
| `RelayPairing.DroppedEarlyIff` | KdDeskTC_Server/src/relay_server.rs:456-458 | a waiting stream is dropped other than by its own timer iff the step is another stream's insert or timer under its uuid |
| `RelayPairing.WaitLastsIff` | KdDeskTC_Server/src/relay_server.rs:434-460 | over any run a waiting stream is dropped iff such a step comes while it waits or its own timer fires 30 s after its insert or later; otherwise it waits on or was found |
| `RelayPairing.StaleTimerDropsLaterStream` | KdDeskTC_Server/src/relay_server.rs:456-458 | a run from the empty state in which the timer of a stream already paired drops a later stream 20 s early |
| `RelayUsage.Relay` | KdDeskTC_Server/src/relay_server.rs:466-566 | the loop's reports are those the completed turns call for, and it downgrades iff some report exceeds the threshold after the start time |
| `RelayUsage.ReportTurnsAreAll` | KdDeskTC_Server/src/relay_server.rs:534-551 | reports are made in order and none is missing |
| `RelayUsage.ReportAddsUp` | KdDeskTC_Server/src/relay_server.rs:546-550 | at each report the total is eight times the bytes so far and the elapsed time the sum of the times between reports |
| `RelayUsage.StopsIff` | KdDeskTC_Server/src/relay_server.rs:488-539 | what ends the loop, with its numbers |
| `RelayUsage.TotalIsSumOfWindows` | KdDeskTC_Server/src/relay_server.rs:542-551 | at each report the total is the sum of all window totals and the speed is that of the last window |
| `RelayUsage.AverageNeverExceedsHighest` | KdDeskTC_Server/src/relay_server.rs:312-325 | the printed average never exceeds the printed highest speed although both are rounded down |
| `RelayUsage.HighestIsMaximum` | KdDeskTC_Server/src/relay_server.rs:543-545 | the highest speed is the speed of some window and no window was faster |
| `PubSub.ServiceInner.Subscribe` | KdDeskTC_Client/src/server/service.rs:71-81 | a live subscriber stays; any other becomes pending, or live in a service without snapshots |
| `PubSub.ServiceInner.Unsubscribe` | KdDeskTC_Client/src/server/service.rs:83-88 | removes a live subscriber, otherwise a pending one |
| `PubSub.ServiceInner.SendToEach` | KdDeskTC_Client/src/server/service.rs:146-151 | every subscriber of the map is handed the message once, and sends it as it is if it does not cache; no other object changes |
| `PubSub.ServiceInner.SendShared` | KdDeskTC_Client/src/server/service.rs:146-151 | a broadcast reaches the live subscribers and only them; without caching each sends it as it is |
| `PubSub.ServiceInner.SwapNewSubscribes` | KdDeskTC_Client/src/server/service.rs:48-53 | all pending subscribers become live with what they have been sent |
| `PubSub.ServiceInner.Snapshot` | KdDeskTC_Client/src/server/service.rs:123-133 | with anyone pending the callback runs; afterwards, even if it fails, nobody is pending and everyone who was is live, with the message if it was sent; the others are untouched |
| `PubSub.SnapshotPromotes` | KdDeskTC_Client/src/server/service.rs:271-275 | afterwards nobody is pending, everyone who was is live with the snapshot if it was sent, the others are untouched |
| `ServiceRuns.RunMatches` | KdDeskTC_Client/src/server/service.rs:71-151 | in every run each subscriber of a service stands as it would alone: absent, pending, or live with the messages it was handed |
| `ServiceRuns.PlainStream` | KdDeskTC_Client/src/server/service.rs:146-151 | so a live subscriber of a service without caching has sent exactly its snapshot, if any, and every broadcast since its promotion, in order |
| `ServiceRuns.SnapshotThenBroadcasts` | KdDeskTC_Client/src/server/service.rs:123-151 | one that joins, gets a snapshot and stays is handed the snapshot and then all broadcasts, none of those before |
| `ConnServer.Server.AddConnection` | KdDeskTC_Client/src/server.rs:217-224 | a barred service is untouched; any other has the connection live or pending afterwards; nobody else's entries change |
| `ConnServer.Server.RemoveConnection` | KdDeskTC_Client/src/server.rs:226-231 | unsubscribes it from every service; afterwards it is live or pending in none, and nobody else's entries change |
| `ConnServer.LeavingUndoesJoining` | KdDeskTC_Client/src/server.rs:217-231 | leaving after joining gives the service without the subscriber |
| `CursorStream.Subscriber.Send` | KdDeskTC_Client/src/server/input_service.rs:70-84 | the first image of an id goes out as it is and later ones as the id; anything else, and everything without caching, as it is |
| `CursorStream.ReceiverKeepsUp` | KdDeskTC_Client/src/ui/remote.rs:1789-1794 | the receiver shows one message for each handed in and holds the first image of every cached id |
| `CursorStream.RecoveredIffConsistent` | KdDeskTC_Client/src/server/input_service.rs:70-84 | the receiver recovers the uncompressed stream iff no id was handed in with two images, whatever it had stored before |
| `CursorStream.IdsFollowData` | KdDeskTC_Client/src/server/input_service.rs:70-84 | no id is sent before its image in the same subscription |
| `CursorStream.WireIs` | KdDeskTC_Client/src/server/input_service.rs:70-84 | exactly what a caching subscriber sends: the id for an image whose id was handed in before, else the message itself |
| `CursorStream.PlainWireIs` | KdDeskTC_Client/src/server/connection.rs:123-136 | one that does not cache sends exactly what it was handed |
| `CursorService.StateCursor.RunCursor` | KdDeskTC_Client/src/server/input_service.rs:139-165 | one run of the callback: service, cursor state and outcome, errors included |
| `CursorService.StateCursor.Reset` | KdDeskTC_Client/src/server/input_service.rs:20-27 | forgets the cursor and its cache |
| `CursorService.CallbackIsItsSteps` | KdDeskTC_Client/src/server/input_service.rs:139-165 | undisturbed, the interleaved steps are one run of the callback |
| `CursorService.RunIsFaithful` | KdDeskTC_Client/src/server/service.rs:185-209 | in every interleaving with joins, leaves, errors and resets, one image per id is fixed as long as any subscriber remembers it |
| `CursorService.ReceiversSeeTheirStream` | KdDeskTC_Client/src/server/service.rs:185-209 | so every subscription, current or ended, is shown exactly what was handed to it |
| `CursorService.ResetWithSubscriberWouldLose` | KdDeskTC_Client/src/server/service.rs:200-203 | from any state in which a reset would happen beside a live subscriber that remembers a handle, the next callback that fetches another image for it makes the receiver show the wrong one |
| `CursorService.SnapshotThenEveryBroadcast` | KdDeskTC_Client/src/server/input_service.rs:156-163 | in every interleaving a live subscriber was handed its snapshot, which is the last broadcast since the last reset (empty if there was none), unless it joined between send and promotion, and then each later broadcast once, in order |
| `CursorService.LateJoinerHasNoSnapshot` | KdDeskTC_Client/src/server/service.rs:271-275 | a run in which a subscriber joins between send and promotion and is live with nothing handed to it |
| `CursorScreen.ProbeReachesScreen` | KdDeskTC_Client/src/server/input_service.rs:139-158 | in every interleaving a callback that finds a handle and does not fail leaves it on the screen: it broadcasts iff another was there, again what it sent before or the image fetched, and fails iff it has neither |
| `CursorScreen.OtherProbesBringNothing` | KdDeskTC_Client/src/server/input_service.rs:140 | one that finds none broadcasts nothing |
| `CursorScreen.BroadcastsAreSeen` | KdDeskTC_Client/src/server/input_service.rs:139-158 | so the images broadcast since the reset are those of the handles found since, in order and without repetitions |
| `CursorScreen.IdleTurnForgets` | KdDeskTC_Client/src/server/service.rs:188-203 | in every interleaving a turn with nobody subscribed forgets the cursor and all images, unless nothing is remembered |
| `MaskImage.HandleMask` | KdDeskTC_Client/src/windows.cc:195-244 | reads only inside the mask, makes each pixel white, black or transparent by its two bits, leaves the rest of the buffer alone, and reports iff some pixel has both bits |
| `MaskImage.MeaningFromBytes` | KdDeskTC_Client/src/windows.cc:204-236 | each pixel's colour from the bytes of the two planes |
| `MaskImage.DrawPixel` | KdDeskTC_Client/src/windows.cc:207-239 | the same for one pixel: its meaning, and nothing else written |
| `MaskImage.DrawOneMore` | KdDeskTC_Client/src/windows.cc:204-240 | drawing a pixel disturbs none drawn before, as places grow along the scan |
| `Outline.DrawOutline` | KdDeskTC_Client/src/windows.cc:246-291 | never writes outside a buffer of any size; visible pixels end at their places, the pixels of runs around them that fit end white, the others keep their value |
| `Outline.Pass1` | KdDeskTC_Client/src/windows.cc:251-274 | whitens exactly the runs around visible pixels that fit into the buffer |
| `Outline.Pass2` | KdDeskTC_Client/src/windows.cc:276-290 | puts every visible pixel at its place and changes nothing else |
| `Outline.CopyOneMore` | KdDeskTC_Client/src/windows.cc:279-290 | a copy overwrites no pixel copied before |
| `Outline.RunsInside` | KdDeskTC_Client/src/windows.cc:258-268 | in the caller's buffer all places and runs fit except the upper runs of the first two pixels of the first row |
| `Outline.NeighboursAreCovered` | KdDeskTC_Client/src/windows.cc:258-268 | the runs around a visible pixel cover it and its eight neighbours, the row above only where it fits |
| `Outline.DrawingIsOffByTwo` | KdDeskTC_Client/src/windows.cc:249-250 | the place of a pixel is two short of where the caller's moved hot spot expects it |
| `CursorMask.FixCursorMask` | KdDeskTC_Client/src/platform/windows.rs:293-383 | true iff no alpha is set; otherwise both arrays are untouched; if true every pixel and every mask bit ends as defined by the arrays given |
| `CursorMask.Pack` | KdDeskTC_Client/src/platform/windows.rs:310-324 | the forward packing in place never reads a byte it has overwritten |
| `CursorMask.PackOneMore` | KdDeskTC_Client/src/platform/windows.rs:316-322 | one byte packed leaves those packed before and those still to be read |
| `CursorMask.BlackenPixel` | KdDeskTC_Client/src/platform/windows.rs:337-352 | a coloured pixel under a clear bit loses its colour and gets the bit; any other is left alone |
| `CursorMask.Blacken` | KdDeskTC_Client/src/platform/windows.rs:329-360 | the same for the whole image, with a moving bit mask |
| `CursorMask.OtherBitsStay` | KdDeskTC_Client/src/platform/windows.rs:332-343 | no two pixels share a bit of the packed mask |
| `CursorMask.Recolour` | KdDeskTC_Client/src/platform/windows.rs:362-381 | the first and third colours are swapped and alpha is 0 iff the mask bit is there and clear |
| `CursorMask.PassesCompose` | KdDeskTC_Client/src/platform/windows.rs:314-381 | the three passes together give a pixel its final value and its mask bit |
| `CursorMask.WholeMaskDecides` | KdDeskTC_Client/src/platform/windows.rs:293-383 | with a mask for the whole image: (c2,c1,c0,255) under an inverted bit, otherwise (0,0,0,255) if there was a colour and all zero if not |
| `CursorMask.AllTransparent` | KdDeskTC_Client/src/platform/windows.rs:300-308 | the early scan is true iff no pixel has an alpha value |
| `CursorMask.TransparentIff` | KdDeskTC_Client/src/platform/windows.rs:300-308 | which means that every fourth byte is zero |
| `LowestBit.FfiIsLowestSetBit` | KdDeskTC_Client/src/windows.cc:293-300 | for every 32-bit word that is not zero the bit at the result is set and no lower one is |
| `LowestBit.TableInvertsHash` | KdDeskTC_Client/src/windows.cc:295-299 | the table undoes the multiplication on every power of two |
| `Dsl.Tokenize` | KdDeskTC_Client/libs/enigo/src/dsl.rs:72-148 | the loop with its flag and buffer computes the recursive definition, errors included |
| `Dsl.ReadTag` | KdDeskTC_Client/libs/enigo/src/dsl.rs:97-118 | the tag with its escaped brackets and the position behind it, or the error |
| `Dsl.AcceptedIffWritten` | KdDeskTC_Client/libs/enigo/src/dsl.rs:89-147 | an input is accepted with some tokens iff it is written from text with doubled brackets and known tags, no closing bracket right behind a tag, that mean those tokens |
| `Dsl.ErrorIsFirstOffence` | KdDeskTC_Client/libs/enigo/src/dsl.rs:90-142 | it fails with an error iff that is the first offence behind such pieces |
| `Dsl.RoundTrip` | KdDeskTC_Client/libs/enigo/src/dsl.rs:72-148 | printing a list of the image and tokenizing the text gives the list back |
| `Dsl.ImageIsExact` | KdDeskTC_Client/libs/enigo/src/dsl.rs:72-148 | a list is the result of some input iff no buffer is empty and none starts with a closing bracket, save a plain one at the start |
| `Dsl.PrintedIsEquivalent` | KdDeskTC_Client/libs/enigo/src/dsl.rs:72-148 | every accepted input is equivalent to the printed form of its tokens |
| `Dsl.Eval` | KdDeskTC_Client/libs/enigo/src/dsl.rs:45-62 | presses the keys of all tokens in order, and none if the input does not parse |
| `Dsl.EvalLeaves` | KdDeskTC_Client/libs/enigo/src/dsl.rs:49-60 | evaluation leaves down exactly the keys that the input presses and does not release after, and enters its texts in order, plain ones key by key |
| `Dsl.KeyTagsPress` | KdDeskTC_Client/libs/enigo/src/dsl.rs:122-129 | what each key tag presses |
| `Dsl.ModeTagsSet` | KdDeskTC_Client/libs/enigo/src/dsl.rs:120-121 | what each mode tag makes of the text behind it |
| `Framing.Loop` | KdDeskTC_Client/pynput_service.py:84-101 | for every way to cut the bytes into chunks, the messages handled are those of parsing all at once up to the first that is not text, which ends the loop; without one the leftover is that of parsing all as well |
| `Framing.TakeMessages` | KdDeskTC_Client/pynput_service.py:93-99 | the inner loop: the complete messages of the buffer and its leftover, or those up to one that is not text |
| `Framing.FirstUnreadable` | KdDeskTC_Client/pynput_service.py:98 | the first message that is not text in the chunks so far is the first of the whole stream |
| `Framing.ParseInTwoParts` | KdDeskTC_Client/pynput_service.py:92-99 | parsing may stop anywhere and go on from its leftover |
| `Framing.ParseKeepsEverything` | KdDeskTC_Client/pynput_service.py:94-99 | messages framed again plus leftover are the input, and the leftover is incomplete |
| `Framing.ParseUndoesFraming` | KdDeskTC_Client/pynput_service.py:94-99 | framed messages before an incomplete rest are read back |
| `Framing.ChunksDoNotMatter` | KdDeskTC_Client/pynput_service.py:84-99 | messages of at most 255 bytes sent in any chunks arrive as they are |
| `Latency.LatencyMeter.UpdateLatency` | KdDeskTC_Client/src/rendezvous_mediator.rs:128-152 | average, published value and failure count after a response |
| `Latency.LatencyMeter.Timeout` | KdDeskTC_Client/src/rendezvous_mediator.rs:237-255 | a timeout counts, and from the fourth on resets the published value |
| `Latency.EmaIsBounded` | KdDeskTC_Client/src/rendezvous_mediator.rs:137-142 | since a zero average the value stays between the least sample rounded down to a multiple of 30, at most 29 less, and the greatest, over any run |
| `Latency.SinceSeeding` | KdDeskTC_Client/src/rendezvous_mediator.rs:137-142 | the same inside any run, for the samples since the last zero |
| `Latency.EmaSinksToBound` | KdDeskTC_Client/src/rendezvous_mediator.rs:140 | equal samples of 30q + 29 sink by one a step until they reach that bound and stay there |
| `Latency.AverageMoves` | KdDeskTC_Client/src/rendezvous_mediator.rs:137-142 | a sample moves the average by a thirtieth of the difference up to rounding |
| `Latency.PublishedIsClose` | KdDeskTC_Client/src/rendezvous_mediator.rs:143-151 | after an accepted sample the published value is within max(3000, value / 5) of the average; it is published anew iff the old one was not, or was reset |
| `Latency.TimeoutsAlarm` | KdDeskTC_Client/src/rendezvous_mediator.rs:237-255 | a row of timeouts publishes nothing up to the third, 0 for the fourth to the sixth, -1 from then on |
| `Latency.ConfigIsInTouch` | KdDeskTC_Client/src/rendezvous_mediator.rs:147-254 | in every run the configuration holds the published value, or -1 after it was reset |

## Left out

- Sockets, tasks, protobuf, websockets, logging and command lines: messages are datatypes and steps.
- Signatures, the license key's contents, base64, compression and JSON; `info` is the ip itself.
- The `user`, `status` and `note` columns, the admin commands except the limiter's clean-up (removing
  one ip from the limiter included), the record of ip changes kept for the admin, configuration updates.
- `Peers.PeerMap.Get`: is one atomic step; in the code a slow lookup may overwrite a newer entry
  between its read and its insert (KdDeskTC_Server/src/peer.rs:135-150).
- A key registration or heartbeat is one step of `RegistryRuns`: the server's loop finishes one datagram
  before it takes the next (KdDeskTC_Server/src/rendezvous_server.rs:234-241). Connection tasks only look
  peers up in between.
- `RegistryRuns.CacheRefinesTable`: assumes fresh guids that are not in the table (they are random).
- `PeerTable.Database.InsertPeer`: takes the new guid as a parameter.
- `RegistryTiming.PunchGoesNowhereIff`: assumes that no message comes from 0.0.0.0:0.
- Counters are natural numbers: the wrap-around of the relay rotation's counter and of the traffic
  counters is not modelled; the truncation to 32 bits in the offline test is.
- The list of relay servers changing under the rotation, and the check that they answer.
- Bandwidth limiters of the relay, its blacklist, raw mode; how long a turn takes is an input.
- Video and audio services, `send_to`, `send_without` and `Server::subscribe` with its membership test,
  which looks at live subscribers only.
- Subscriber ids are natural numbers; the service's sleeping times are not modelled.
- `CursorMask.FixCursorMask`: says nothing of a result true with mask rows narrower than packed ones,
  which Windows bitmaps never have, nor of padding bits at the ends of rows.
- `MaskImage.HandleMask`: demands a mask of two planes with rows wide enough, as the caller allocates.
- `Outline.DrawOutline`: says nothing of the at most three bytes behind the last whole pixel.
- Reading cursors from the system, cursor images beyond an opaque value in the stream.
- Which bytes of a keyboard message are valid UTF-8 is a parameter of the loop; the key actions.
- Resolving the server's name again after failures, and the timers that decide on a timeout.
- Video codecs, capture, key injection, service control, installers and the user interface.
