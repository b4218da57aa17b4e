# Verification of the Cloud Gateway's state machines

The Cloud Gateway connects a Tungsten Fabric cloud to a physical network. BGP updates make it
program floating-IP routes and UDP tunnels into VPP and announce prefixes; BFD sessions watch its
neighbours. This project models that behaviour in Dafny and proves what it keeps over whole runs.
`dafny verify dfyconfig.toml` checks all of it.

## What is modelled

**Floating IPs and tunnels.** One update changes four coupled stores: the floating-IP route table,
the tunnel table with a use count per vRouter, the use count per VRF, and two mirrors outside the
process (VPP and the originated VPNv4 prefixes). A change to a stored route deletes it, edits its
path list and adds it back, so counters pass through zero and tunnels come back under new IDs.

- `Routes`: a route as three parallel lists, `AddPath` and `DelPath` in place.
- `Storages`: the tables, which hand out the stored objects.
- `GatewayState`, `GatewayProtocol`: the stores as one value, and each step on it as a function.
- `Gateway`: the same steps as methods on shared objects, proved to compute those functions.
- `GatewayInvariant`: counters, bindings and crashes. `GatewayMirror`: VPP after every single call.
  `GatewayRebind`: the tunnels of a route that is deleted and comes back.
  `GatewayFold`: the tables as a fold of the updates. `GatewayAdvertised`: originated prefixes.
  `GatewayConfluence`: independence from the interleaving, and which updates commute.
  `GatewayRefusals`: what a refused BGP request does, and does not do.
- `GatewayWilling`: a VPP that carries out every call, with which no list of updates meets a failure.
  `GatewayWitness`: runs from the start on which expected properties fail.

How VPP and GoBGP answer is an input of every event, so a theorem about all runs is one about every
pattern of failures. Each answer of VPP, with what VPP held after it, goes into a log; "VPP
succeeded" means that every entry of the log did. A Go panic is the outcome `Crashed`.

**BFD.** `BfdSession` is the session of RFC 5880 with its timers, poll sequences and failure
detector, as functions and as an object. `BfdStates`, `BfdTimers` and `BfdDetector` are about one
session over its runs, `BfdPackets` about what it says to its peer; `BfdHandshake` and `BfdConvergence` put two sessions together over a channel;
`BfdControl` is the list of sessions, with demultiplexing and removal.

**Beside them.** `BgpPeers`: peer events, the active-peer metric and the start of BFD monitoring.
`ClearConfig`: clearing VPP at start. `MplsLabel`: the label of a VRF.

## Where the code falls short of the obvious property

Each is proved as an exact condition, beside an input or a run from the start that misses it.

- `AddPath` indexes out of range when a next hop other than the last one is relabelled
  (`Routes.AddPathPanicsExactly`); the update handler then panics after it has deleted the route
  (`GatewayInvariant.CrashesExactly`, `GatewayWitness.RelabelCrashes`). The method is modelled as
  written. Theorems about the tables cover the state a crash leaves too; only those about the fold,
  the originated prefixes and confluence ask that the run has not crashed.
- A route deletion that VPP refuses leaves a FIB path over a missing tunnel exactly when VPP deletes
  a tunnel that only this route used (`GatewayMirror.FailedDeleteDangles`,
  `GatewayWitness.RefusedDeleteDangles`). Adding the edited route back in the same event repairs that
  exactly when it has one path, which replaces the entry, or when all those tunnel IDs are given out
  again (`GatewayRebind.ReturnRepairsExactly`).
- A stored prefix that arrives under another VRF is counted on the old VRF and announced for the new
  one; `GatewayAdvertised.MovedUpdateExactly` says exactly when the originated set stays right
  (`GatewayWitness.MovedStaysAnnounced`).
- An aggregate that the physical network announces as well is one prefix with two owners. Its
  withdrawal by the physical network takes it away although it is due, and the last floating IP of
  its VRF takes it away although it is learned: exactly then the set is wrong
  (`GatewayAdvertised.NetworkAdvertises`, `GatewayAdvertised.DelFipAdvertises`,
  `GatewayWitness.NetworkTakesAggregate`, `GatewayWitness.LastRouteTakesLearned`). Over a whole run
  the set is right after every event if and only if every event is harmless in this sense as it
  arrives (`GatewayAdvertised.AlwaysAdvertisedExactly`).
- A path without a label starts a prefix but does not join one. Two updates of different paths commute
  on every table if and only if they do not clash over such a path
  (`GatewayConfluence.CommuteExactly`, `GatewayWitness.UnlabelledDoesNotCommute`). A path without a next
  hop does neither: VPP is not even asked for a tunnel (`GatewayInvariant.EmptyHopIgnored`).
- The detection time is computed in 32 bits: with a configured TX interval of at most one second it
  is that of RFC 5880 in all runs exactly when the product fits (`BfdTimers.RunDetectsExactly`,
  `BfdTimers.OverflowExample`). For products that fit, it is right in all runs exactly when that
  interval, cut to 32 bits, is at most one second (`BfdTimers.DetectionRightExactly`, with the failing
  run in `BfdTimers.DetectionWrong`); the sample in
  docs/eng/cloudgw_config.adoc:63 has three seconds, the files under config/ have one.
- A Poll that asks for a faster rate closes the connection before its answer is written, so the answer
  is lost. Exactly one Final leaves if and only if the connection is open, the packet does not close
  it and the write succeeds (`BfdTimers.PollIsAnswered`, `BfdTimers.PollUnanswered`); the next try is
  answered (`BfdTimers.RetriedPollIsAnswered`).
- A session that is not Up should announce a TX interval of at least one second. After a drop that
  follows the peer's Down the code keeps announcing the configured one, so that holds in all runs
  exactly when the configured one is at least a second (`BfdPackets.SlowWhileNotUpExactly`, with the
  run in `BfdPackets.FastWhileDown`).
- The diagram has a timer in Init; the code has none. A session in Init stays there exactly as long as
  no accepted packet has a state other than Down (`BfdStates.InitStaysExactly`).
- A peer that asks for silence with a required RX interval of zero is obeyed exactly when its desired
  TX interval is zero too, other reasons aside (`BfdTimers.SilentExactly`,
  `BfdTimers.SilenceUnheeded`).
- The failure detector returns for good when a tick finds the connection closed, as it is for a moment
  after the peer asks for a faster rate (`BfdDetector.DetectorGoneExactly`,
  `BfdDetector.FasterPeerKillsDetector`).
- Counting deliveries each way does not decide whether two sessions come Up; turns of direction do. The
  exact condition is given for each pair of states (`BfdConvergence.ArrivesExactly`), for all of them
  at once (`BfdConvergence.FromEverywhere`), and for whole sessions with discriminators that may be
  stale and Polls that may be answered (`BfdConvergence.ConvergesExactly`). Three rounds with both
  directions in each are enough, two are not.
- `DelSession` leaves a session behind exactly when two to that address stand next to each other
  (`BfdControl.RemovalExactly`), and blocks for good exactly when it removes several sessions and the
  last of the list is one of them (`BfdControl.BlocksExactly`).
- Clearing VPP leaves multipath routes whose tunnel IDs are 256 or more
  (`ClearConfig.SurvivesExactly`).
- Two VRF addresses can get the same label (`MplsLabel.LabelsEqualExactly`). The comment at
  pkg/netutils/mpls_label.go:9 has the base 10000000; the code and docs/eng/overlay.adoc:19 have
  1000000, as here.

## Assumptions

- Updates are handled one path at a time, each as one step.
- Updates start from parsed attributes; a physical-network update comes from another AS than the
  gateway's own.
- Within one event VPP gives one answer for route additions, one for route deletions and one per
  tunnel, and GoBGP one per prefix and direction; no event repeats such a request.
- An ID that VPP gives to a new tunnel names no tunnel that exists, and is not the undefined ID.
- With several paths VPP merges an added route into the entry and removes only the named paths;
  with one path it replaces or removes the whole entry.
- Before the first event VPP has been cleared and the tables are empty (`Booted`).
- Theorems about the originated set ask that BGP requests succeed. That a floating IP stays in its VRF
  and the physical network announces no aggregate (`Orderly`) is enough for their exact condition,
  `HarmlessRun`.
- A delivery between two BFD sessions is a packet of the send loop, which passes the send guard and is
  demultiplexed by discriminator, and the Final that answers it, if any; writes succeed. Both ends are
  active, ask for no silence and never for demand mode, as the sessions that the gateway creates are.
- The first connection of a BFD session succeeds before a packet arrives.
- The detection-time theorems ask for a desired TX interval other than zero, which RFC 5880 reserves.
- The object ID of a path in a VPP dump is byte-swapped.

## Model

| member | source | states |
|---|---|---|
| `Routes.FipRoute.AddPath` | internal/model/vpp_route.go:56-74 | in place, the loop keeps ranging over the old length; panics or leaves the three lists as the edited route, other fields unchanged |
| `Routes.FipRoute.DelPath` | internal/model/vpp_route.go:77-95 | in place, by the loop of the source: leaves the route without the first path to the next hop |
| `Routes.AddPathPanicsExactly` | internal/model/vpp_route.go:61-69 | for every route, duplicates included: `AddPath` indexes out of range if and only if the arguments are set and the next hop occurs before the last position |
| `Routes.PanicExample` | internal/model/vpp_route.go:61-69 | a well-formed two-path route on which it does |
| `Routes.AddPathIgnores` | internal/model/vpp_route.go:57-59 | without a next hop, a tunnel ID or a label the route stays as it is |
| `Routes.AddPathMeaning` | internal/model/vpp_route.go:55-74 | when it does not panic, next hops stay distinct, lists stay parallel, and read as a map exactly one label is set |
| `Routes.AddPathShape` | internal/model/vpp_route.go:61-74 | the added path is last, with its own tunnel ID and label, after the others in their order |
| `Routes.DelPathMeaning` | internal/model/vpp_route.go:76-95 | the named next hop alone disappears from the map, the shape stays |
| `Routes.DelPathShape` | internal/model/vpp_route.go:76-95 | the other paths keep their order, tunnel IDs and labels |
| `Routes.DelUndoesAdd` | internal/model/vpp_route.go:55-95 | deleting a freshly added path gives back the same three lists |
| `Routes.PathsByPosition` | internal/repository/vpp/vpp.go:941-962 | the paths handed to VPP are exactly next hop, tunnel ID and label at one position each |
| `Storages.UdpTunnelStorage.IncFIPServed` | internal/repository/imdb/udp_tunnel.go:131-151 | through the shared object: the count of that tunnel alone goes up, nothing happens for an unknown address |
| `Storages.UdpTunnelStorage.DecFIPServed` | internal/repository/imdb/udp_tunnel.go:153-177 | the count of that tunnel alone goes down unless it is zero |
| `Storages.UdpTunnelStorage.GetFIPServed` | internal/repository/imdb/udp_tunnel.go:179-195 | the count, zero for an unknown address |
| `Storages.VrfStorage.AddVRF` | internal/repository/imdb/vpp_vrf.go:47-57 | the object itself is stored under its ID, over an older one |
| `Storages.VrfStorage.IncFIPServed` | internal/repository/imdb/vpp_vrf.go:119-139 | the count of that VRF alone goes up, through the pointer although nothing is committed |
| `Storages.VrfStorage.DecFIPServed` | internal/repository/imdb/vpp_vrf.go:141-165 | the count of that VRF alone goes down unless it is zero |
| `Storages.FipRouteStorage.IsFIPWithNHAndLabelExist` | internal/repository/imdb/fip_route.go:147-173 | true exactly when the stored route has this next hop with this label at one position |
| `GatewayState.IncAllAt` | internal/service/tunnel_route_add.go:78-80 | counting a route in raises exactly the counters of its next hops, by one |
| `GatewayState.DecAllAt` | internal/service/tunnel_route_remove.go:47-49 | counting it out lowers exactly those, by one |
| `GatewayState.FibAddAdds` | internal/repository/vpp/vpp.go:964-979 | a call that adds a route leaves in its entry exactly the paths named by position, with the old ones if there are several, and no other entry changes |
| `GatewayState.FibDeleteRemoves` | internal/repository/vpp/vpp.go:964-979 | a call that deletes one takes exactly the paths named by position if there are several, else the entry, and no other entry changes |
| `Gateway.VppApi.AddUDPTunnel` | internal/repository/vpp/vpp.go:658-697 | an empty address is refused before anything is sent; else an offered fresh ID becomes a live tunnel, a refusal changes nothing, and the call is logged |
| `Gateway.VppApi.DelUDPTunnel` | internal/repository/vpp/vpp.go:700-721 | the tunnel disappears if VPP agrees, the call is logged |
| `Gateway.VppApi.AddDelFIPRoute` | internal/repository/vpp/vpp.go:918-997 | refuses undefined tunnel IDs before sending; else changes the FIB entry by the multipath rule if VPP agrees |
| `Gateway.Gateway.BindTunnels` | internal/service/tunnel_route_add.go:30-57 | one next hop at a time on shared objects: computes `Bind`, stopping at the first refused tunnel, IDs written into the route |
| `Gateway.Gateway.AdvertiseAggregates` | internal/service/tunnel_route_add.go:84-110 | announces the update's aggregates unless the stored VRF serves more than two |
| `Gateway.Gateway.AddFIPAndTunnelInVPPAndStorage` | internal/service/tunnel_route_add.go:19-111 | takes the four stores exactly where `AddFip` says, early returns included |
| `Gateway.Gateway.CollectTunnels` | internal/service/tunnel_route_remove.go:53-66 | deletes unused tunnels from VPP and forgets them whatever VPP answers |
| `Gateway.Gateway.WithdrawAggregates` | internal/service/tunnel_route_remove.go:70-92 | withdraws the update's aggregates when the stored VRF serves nothing |
| `Gateway.Gateway.DelFIPAndTunnelFromVPPAndStorage` | internal/service/tunnel_route_remove.go:18-93 | takes the four stores exactly where `DelFip` says |
| `Gateway.Gateway.RemovePath` | internal/service/handle_bgp_update.go:172-213 | delete, drop the path from the object that was handed out, add the rest back |
| `Gateway.Gateway.HandleWithdraw` | internal/service/handle_bgp_update.go:152-213 | a withdrawal does what `Step` says |
| `Gateway.Gateway.ReplacePath` | internal/service/handle_bgp_update.go:250-276 | delete, add the path to the object that was handed out, add the route back, or panic in between |
| `Gateway.Gateway.HandleAdvertise` | internal/service/handle_bgp_update.go:215-276 | an advertisement does what `Step` says |
| `Gateway.Gateway.HandleFabricPath` | internal/service/handle_bgp_update.go:119-278 | one path of the Tungsten Fabric callback, unknown VRFs skipped |
| `Gateway.Gateway.HandleNetworkPath` | internal/service/handle_bgp_update.go:323-401 | one path of the physical-network callback, a missing VRF record is a panic |
| `Gateway.Gateway.ProcessPaths` | internal/service/handle_bgp_update.go:84-278 | for every list of paths, the objects end in the state, or the crash, that `Run` gives: theorems about `Run` are about the methods |
| `GatewayProtocol.PlanShape` | internal/service/handle_bgp_update.go:119-277 | whichever branch is taken, the route added has the update's prefix, keeps the stored VRF and is well shaped |
| `GatewayInvariant.GuardsNeverFire` | internal/repository/imdb/udp_tunnel.go:168-171 | when a stored route is counted out, no counter it lowers is zero |
| `GatewayInvariant.BindKeeps` | internal/service/tunnel_route_add.go:30-57 | binding keeps the invariant; if it succeeds the IDs are those of the tunnel table |
| `GatewayInvariant.CollectKeeps` | internal/service/tunnel_route_remove.go:53-66 | exactly the given tunnels that serve nothing go, the invariant stays |
| `GatewayInvariant.DelFipKeeps` | internal/service/tunnel_route_remove.go:28-92 | under all answers exactly one route goes and the invariant stays |
| `GatewayInvariant.AddFipKeeps` | internal/service/tunnel_route_add.go:30-110 | under all answers the route is stored with some IDs or the routes are as before, and the invariant stays |
| `GatewayInvariant.StepKeepsInv` | internal/service/handle_bgp_update.go:85-278 | every event keeps counters, bindings and live tunnels right, crash or not, under all answers |
| `GatewayInvariant.WithdrawFindsTunnel` | internal/service/handle_bgp_update.go:162-167 | the branch for a missing tunnel is unreachable |
| `GatewayInvariant.EmptyHopIgnored` | internal/service/tunnel_route_add.go:45-49 | adding a route to an empty next hop changes nothing at all, the log of calls included |
| `GatewayInvariant.CrashesExactly` | internal/service/handle_bgp_update.go:215-277 | the exact condition, on the update and the stored route, for a panic |
| `GatewayInvariant.RunAgrees` | internal/service/tunnel_route_add.go:45-80 | all runs, all failures: each tunnel counts the stored routes using it, each VRF the routes in it, and each stored path has the ID of a tunnel that is stored and lives in VPP |
| `GatewayMirror.StepGood` | internal/service/tunnel_route_remove.go:28-66 | one event keeps the FIB equal to the stored routes, and all intermediate states free of dangling paths |
| `GatewayMirror.RunNeverDangles` | internal/service/tunnel_route_add.go:30-66 | all runs with successful route deletions, other failures allowed: after every VPP call no FIB path names a missing tunnel, and the FIB holds exactly the stored routes, each next hop with the tunnel ID and label at its own position |
| `GatewayMirror.CollectLive` | internal/service/tunnel_route_remove.go:53-58 | exactly the unused tunnels that VPP agrees to delete leave VPP |
| `GatewayMirror.FailedDeleteDangles` | internal/service/tunnel_route_remove.go:29-34 | after a refused route deletion: nothing dangles if and only if VPP keeps every tunnel that only this route used |
| `GatewayRebind.BindExactly` | internal/service/tunnel_route_add.go:30-57 | the first loop gets through if and only if every next hop without a tunnel is offered one under an ID of its own, and then made exactly these |
| `GatewayRebind.BindStopsExactly` | internal/service/tunnel_route_add.go:45-49 | if it stops, it does so at the first next hop that is not offered a tunnel, and the tunnels made before stay |
| `GatewayRebind.DeletionTakes` | internal/service/tunnel_route_remove.go:43-66 | a deletion forgets exactly the tunnels that only this route used; of those VPP loses the ones it agrees to delete |
| `GatewayRebind.ReturnRepairsExactly` | internal/service/handle_bgp_update.go:181-213 | after a refused deletion the edited route is added: nothing dangles if and only if it has one path and VPP takes it, or every freed ID is given out again |
| `GatewayFold.StoredMeans` | internal/repository/imdb/fip_route.go:160-170 | the positional search equals a lookup in the map from next hop to label |
| `GatewayFold.SkipsExactly` | internal/service/handle_bgp_update.go:119-227 | exactly which updates change nothing at all, repeated advertisements among them |
| `GatewayFold.PlanIsFold` | internal/service/handle_bgp_update.go:150-277 | the branch chosen edits path lists exactly as the fold edits maps |
| `GatewayFold.StepIsFold` | internal/service/handle_bgp_update.go:150-277 | an event without panic or VPP failure moves the table as the fold does; advertisements without next hop are dropped by both |
| `GatewayFold.RunExact` | internal/service/tunnel_route_remove.go:53-66 | with VPP succeeding, VPP's tunnels are the stored ones and every one of them serves a route |
| `GatewayFold.RunIsFold` | internal/service/handle_bgp_update.go:150-277 | all clean runs: the route table is the fold of the updates; the FIB has a path to a next hop through a tunnel with a label if and only if the fold has that label and the tunnel is that of the next hop; tunnels are stored and live exactly while used |
| `GatewayFold.StoredExactlyWhileUsed` | internal/service/tunnel_route_remove.go:53-66 | a tunnel is stored if and only if a stored route uses its address |
| `GatewayAdvertised.AddFipAdvertises` | internal/service/tunnel_route_add.go:84-110 | the "> 2" threshold never skips a needed announcement: the originated set is right after the addition |
| `GatewayAdvertised.DelFipAdvertises` | internal/service/tunnel_route_remove.go:70-92 | after a deletion under the route's own VRF the set is right if and only if the VRF serves another route or the physical network announces none of its aggregates |
| `GatewayAdvertised.FabricAdvertises` | internal/service/handle_bgp_update.go:150-277 | for every Tungsten Fabric event, own VRF or other, under all VPP answers: the set stays right if and only if the event is harmless by counts, aggregates, learned prefixes and whether the route comes back |
| `GatewayAdvertised.ReaddsExactly` | internal/service/tunnel_route_add.go:45-66 | a deleted route comes back if and only if the update edits it, VPP takes it and every next hop that only this route used, or that has no tunnel, is offered a fresh ID |
| `GatewayAdvertised.NetworkAdvertises` | internal/service/handle_bgp_update.go:349-401 | a physical-network path keeps it right if and only if it does not withdraw an aggregate that is due |
| `GatewayAdvertised.AlwaysAdvertisedExactly` | internal/service/tunnel_route_add.go:84-110 | all runs, all VPP failures: the set is right after every event if and only if every event is harmless as it arrives |
| `GatewayAdvertised.OriginatedExactly` | internal/service/tunnel_route_add.go:84-110 | all harmless runs, all VPP failures: originated are the aggregates of VRFs with a stored route and the learned prefixes, nothing else |
| `GatewayAdvertised.OrderlyIsHarmless` | internal/service/handle_bgp_update.go:181-190 | a run in which floating IPs stay in their VRF and no aggregate is announced by the physical network is harmless |
| `GatewayAdvertised.MovedUpdateExactly` | internal/service/handle_bgp_update.go:181-190 | an update under another VRF than the stored one: the set stays right if and only if the move is harmless, in terms of the state before it; with VPP succeeding the route counts as coming back whenever the update edits it |
| `GatewayRefusals.StepRespects` | internal/service/tunnel_route_add.go:88-110 | in every event a prefix whose announcement is refused is not added, one whose withdrawal is refused not removed |
| `GatewayRefusals.RefusalsStayLocal` | internal/service/tunnel_route_add.go:101-109 | refusals change nothing but their own prefixes: tables, VPP, the log and all other prefixes are as if every request had been accepted |
| `GatewayConfluence.FoldsEqual` | internal/service/handle_bgp_update.go:150-277 | equal histories per prefix and next hop give equal folds |
| `GatewayConfluence.LearnedEqual` | internal/service/handle_bgp_update.go:360-401 | equal histories per physical prefix give equal learned sets |
| `GatewayConfluence.CountersFollow` | internal/repository/imdb/udp_tunnel.go:131-177 | equal tables have equal users of every tunnel and VRF |
| `GatewayConfluence.Confluence` | internal/service/handle_bgp_update.go:150-277 | two clean runs with equal histories, however interleaved, end with equal labels, counters and originated prefixes |
| `GatewayConfluence.CommuteExactly` | internal/service/handle_bgp_update.go:215-276 | two updates of different paths commute on every table if and only if they do not share a prefix, both count and one is an advertisement without a label |
| `GatewayWilling.RunSupplied` | internal/repository/vpp/vpp.go:658-721 | with a VPP that carries out every call, tunnels made anew included, no list of updates meets a failure |
| `GatewayWilling.WillingRunIsFold` | internal/service/handle_bgp_update.go:150-277 | so for every list of updates, unless `AddPath` panics, the table is the fold and the FIB has its next hops and labels |
| `GatewayWitness.SomeGatewayIsReady` | internal/app/init_imdb.go:17-46 | a concrete start that all the runs below apply to |
| `GatewayWitness.RelabelCrashes` | internal/service/handle_bgp_update.go:263-265 | from the start: two advertisements of a floating IP and a new label for the first next hop end in the panic, with no call failed |
| `GatewayWitness.RefusedDeleteDangles` | internal/service/tunnel_route_remove.go:29-66 | from the start: advertise, withdraw with a refused route deletion; a FIB path names a missing tunnel |
| `GatewayWitness.MovedStaysAnnounced` | internal/service/tunnel_route_remove.go:70-92 | from the start: advertise in one VRF, withdraw under another; no route is stored and the aggregates stay announced |
| `GatewayWitness.NetworkTakesAggregate` | internal/service/handle_bgp_update.go:362-378 | from the start: advertise, then a network withdrawal of an aggregate; it is no longer announced although due |
| `GatewayWitness.LastRouteTakesLearned` | internal/service/tunnel_route_remove.go:70-92 | from the start: the network announces an aggregate, a floating IP comes and goes; it is no longer announced although learned |
| `GatewayWitness.UnlabelledDoesNotCommute` | internal/model/vpp_route.go:57-59 | from the start: two advertisements of one floating IP, one without a label, in both orders; both runs go well and the tables differ |
| `BfdSession.BfdEndpoint.SetRemoteMinTx` | pkg/bfd/session.go:451-459 | the setter as written, storing into the remote RX interval |
| `BfdSession.BfdEndpoint.SetDesiredMinTx` | pkg/bfd/session.go:499-521 | the setter as written, with the pending value in the detection time |
| `BfdSession.BfdEndpoint.RxPacket` | pkg/bfd/session.go:208-340 | the object after a packet, the reply that leaves and the callback are those of `Rx`; a write to a connection closed by the same packet fails |
| `BfdSession.BfdEndpoint.SendPass` | pkg/bfd/session.go:157-194 | one pass of the send loop: reconnect, send, fail to send or stay silent |
| `BfdPackets.SentExactly` | pkg/bfd/session.go:343-386 | every packet of every run of a new session, replies included: the configured multiplier and discriminator, the learned discriminator, state and diagnostic of that moment, the configured RX interval, the TX interval then wanted, Poll and Final |
| `BfdPackets.FirstPacket` | pkg/bfd/session.go:187-193 | the first packet of a new active session, field by field; a passive one sends none |
| `BfdPackets.RunWants` | pkg/bfd/session.go:242-298 | over a run the announced TX interval is one second at first and after timeouts and administrative drops, the configured one from going Up on |
| `BfdPackets.SlowWhileNotUpExactly` | pkg/bfd/session.go:286-296 | section 6.8.3 of RFC 5880, a second at least while not Up, holds in all runs if and only if the configured interval is at least that |
| `BfdPackets.FastWhileDown` | pkg/bfd/session.go:286-296 | with a shorter one: Up by the peer's Init, Down by its Down, and still announcing it |
| `BfdPackets.RxDesires` | pkg/bfd/session.go:241-298 | the announced intervals after a packet |
| `BfdPackets.RxPaces` | pkg/bfd/session.go:461-479 | the send interval in use after a packet, in terms of the packet and the session before it |
| `BfdPackets.RxPends` | pkg/bfd/session.go:512-513 | the pending detection time after a packet |
| `BfdPackets.RxPollsExactly` | pkg/bfd/session.go:303-337 | a poll sequence runs after a packet if and only if it is no Final and one ran already or going Up changed the TX interval |
| `BfdPackets.RestartsExactly` | pkg/bfd/session.go:474-476 | the connection is closed for a faster rate if and only if the send interval in use gets shorter |
| `BfdPackets.RequiredMinRxChanges` | pkg/bfd/session.go:481-497 | the setter of the required RX interval: waiting for a Final exactly when Up and shorter, polling always |
| `BfdPackets.ConnectionExactly` | pkg/bfd/session.go:157-194 | when the connection is closed after a packet, a pass or a tick; a failed pass sends nothing |
| `BfdPackets.WrongAuthIgnored` | pkg/bfd/session.go:209-225 | a packet with the wrong kind of authentication changes nothing |
| `BfdPackets.AdminDownWaits` | pkg/bfd/session.go:235-239 | in AdminDown a packet is neither answered nor counted as heard |
| `BfdSession.BfdEndpoint.DetectFailure` | pkg/bfd/session.go:528-557 | one tick of the detector: return, drop the session or nothing |
| `BfdStates.RxStates` | pkg/bfd/session.go:235-298 | an accepted packet moves the session as section 6.8.6 of RFC 5880 prescribes, with a callback exactly on a change |
| `BfdStates.RunStates` | pkg/bfd/session.go:235-298 | all runs: only edges of the diagram, a connected chain of callbacks from Down, and a diagnostic that names the latest drop |
| `BfdStates.OnlyUpTimesOut` | pkg/bfd/session.go:535-544 | the timer of the diagram is implemented for Up only |
| `BfdStates.InitStaysExactly` | pkg/bfd/session.go:274-298 | over a run: a session in Init stays in it after every event if and only if no accepted packet has a state other than Down |
| `BfdTimers.LearnDetects` | pkg/bfd/session.go:231-233 | the wrong intermediate detection time is corrected by the third setter: the RFC's value cut to 32 bits, so the RFC's exactly when it fits |
| `BfdTimers.RxDetectsExactly` | pkg/bfd/session.go:231-337 | the detection time after any packet, exactly: the RFC's cut to 32 bits unless a Final meets a pending value |
| `BfdTimers.RunQuiet` | pkg/bfd/session.go:499-521 | with a TX interval of at most a second no pending value ever appears in a run |
| `BfdTimers.RunDetectsExactly` | pkg/bfd/session.go:414-438 | with a TX interval of at most a second, in every run: section 6.8.4 is met if and only if the product fits 32 bits |
| `BfdTimers.DetectionRightExactly` | pkg/bfd/session.go:310-337 | for products that fit 32 bits, section 6.8.4 is met after every packet of every run of a new session if and only if its TX interval, cut to 32 bits, is at most one second |
| `BfdTimers.DetectionWrong` | pkg/bfd/session.go:512-513 | with a longer one: the session goes Up, and the Final that answers its Poll makes the TX interval the detection time |
| `BfdTimers.OverflowExample` | pkg/bfd/session.go:414-438 | a new session and a packet for which 4,294,967,550 us become 254 |
| `BfdTimers.NewSessionIsNew` | pkg/bfd/session.go:75-127 | the state of a new session: multiplier, discriminators, intervals cut to 32 bits, open connection; it meets what the run theorems ask of its start |
| `BfdTimers.PollIsAnswered` | pkg/bfd/session.go:303-308 | exactly one Final leaves, in the new state, if and only if an accepted Poll finds the connection open, does not close it by a faster rate, and the write succeeds; else nothing leaves |
| `BfdTimers.PollUnanswered` | pkg/bfd/session.go:474-476 | a new session and two packets whose second, a Poll for a faster rate, gets no answer although every write would succeed |
| `BfdTimers.RetriedPollIsAnswered` | pkg/bfd/session.go:158-172 | the same Poll is answered once the send loop has reconnected |
| `BfdTimers.NeverPollAndFinal` | pkg/bfd/session.go:354-386 | in no run does a packet carry both bits |
| `BfdTimers.PollUntilFinal` | pkg/bfd/session.go:354-386 | once a sequence has started every periodic packet polls until a Final is accepted |
| `BfdTimers.FinalEndsPoll` | pkg/bfd/session.go:310-337 | an accepted Final ends the sequence, also one that the same packet started |
| `BfdTimers.SilentExactly` | pkg/bfd/session.go:187-193 | when the send loop's next pass stays silent after a packet, in terms of the session before it and the packet: not whenever the peer's required RX interval is zero |
| `BfdTimers.SilenceUnheeded` | pkg/bfd/session.go:451-459 | a new session sends to a peer that has just asked for silence |
| `BfdDetector.DropsExactly` | pkg/bfd/session.go:534-536 | in every run a tick drops the session if and only if the silence since the latest accepted packet is too long and the detector works |
| `BfdDetector.SilentRun` | pkg/bfd/session.go:527-561 | a silent session stays as it is until the first tick after its deadline, then goes Down with one close |
| `BfdDetector.DetectedInTime` | pkg/bfd/session.go:523-561 | ticks at most 150 ms apart: still Up up to the bound, Down within 150 ms after it |
| `BfdDetector.ClosesAreTimeouts` | pkg/bfd/session.go:555 | the channel is closed once for each timeout of the run |
| `BfdDetector.DetectorGoneExactly` | pkg/bfd/session.go:528-532 | in every run the detector has returned if and only if it had at the start or some tick found the connection closed |
| `BfdDetector.DeadDetectorNeverDrops` | pkg/bfd/session.go:529-532 | a detector that has returned never drops the session again |
| `BfdDetector.FasterPeerKillsDetector` | pkg/bfd/session.go:461-479 | a shorter interval closes the connection, and a tick in that moment ends detection for every continuation |
| `BfdHandshake.NextHonest` | pkg/bfd/session.go:207-298 | every step of either end keeps what packets and states say about the other end true |
| `BfdHandshake.UpMeansHeard` | pkg/bfd/session.go:207-386 | all runs over a channel that loses, duplicates, delays and reorders: Up means that the peer accepted a packet and that its discriminator is known |
| `BfdConvergence.ArriveLowers` | pkg/bfd/session.go:253-298 | a delivery changes nothing or lowers the rank, and some direction lowers it |
| `BfdConvergence.ArrivesExactly` | pkg/bfd/session.go:253-298 | from each pair of states: exactly which schedules end in Up/Up, by turns of direction and what follows the first delivery each way |
| `BfdConvergence.FromEverywhere` | pkg/bfd/session.go:253-298 | a schedule ends in Up/Up from all pairs if and only if two turns follow the first delivery each way |
| `BfdConvergence.DeliverArrives` | pkg/bfd/control.go:110-133 | whole sessions, through send guard, demultiplexing and the answer to a Poll: a delivery moves the states as its arrivals do, and the first one heard makes both discriminators right |
| `BfdConvergence.DeliveredDetection` | pkg/bfd/session.go:231-233 | after a delivery the receiver's detection time is the sender's configured multiplier times the longer of the receiver's RX and the sender's announced TX interval |
| `BfdConvergence.OpenedSends` | pkg/bfd/session.go:157-194 | the packet delivered is the one that the send loop sends, after reconnecting if it must |
| `BfdConvergence.NewTalks` | pkg/bfd/session.go:75-127 | sessions as the gateway makes them are of the kind these theorems speak of |
| `BfdConvergence.ConvergesExactly` | pkg/bfd/session.go:207-308 | from any live pair, stale discriminators and polling ends included: both ends are Up after a schedule if and only if its arrivals, answers to Polls among them, suffice for their states |
| `BfdConvergence.SteadyConverges` | pkg/bfd/session.go:499-521 | for ends configured to one second, which never poll, the condition is on the schedule and the discriminators alone |
| `BfdConvergence.HeardConverges` | pkg/bfd/session.go:253-298 | for all live ends that condition is enough: answers only help |
| `BfdConvergence.AnswerHelps` | pkg/bfd/session.go:303-308 | one delivery from a polling Init end, with its answer, brings a Down end and itself Up |
| `BfdConvergence.Converges` | pkg/bfd/session.go:253-298 | three rounds with both directions, of any composition, end in Up/Up for good from any states; four if one discriminator is stale |
| `BfdConvergence.TwoRoundsFail` | pkg/bfd/session.go:253-298 | two rounds are not enough |
| `BfdConvergence.StaleNeverHears` | pkg/bfd/control.go:115-122 | with both discriminators stale no schedule changes anything |
| `BfdConvergence.UnmixedIsNotEnough` | pkg/bfd/session.go:285-298 | arbitrarily many deliveries each way without a second turn fail from Up against Down, as the exact condition says |
| `BfdControl.Control.AddSession` | pkg/bfd/control.go:32-56 | appends a new session with intervals in microseconds |
| `BfdControl.Control.DelSession` | pkg/bfd/control.go:59-77 | removal under the ranging loop: the list becomes `Left`, exactly the sessions `Told` are told to quit, with the recovered panic past the end of the list, and the call blocks exactly when `TellsLastTwice` |
| `BfdControl.RemovalExactly` | pkg/bfd/control.go:68-74 | that is the list without the address if and only if no two such sessions are neighbours |
| `BfdControl.RemovalConserves` | pkg/bfd/control.go:68-74 | every session is left in the list or told to quit, none twice; only sessions to the address are told |
| `BfdControl.OthersStay` | pkg/bfd/control.go:68-74 | sessions to other addresses stay in their order |
| `BfdControl.BlockHalves` | pkg/bfd/control.go:68-74 | of a block of sessions to the address every second one stays |
| `BfdControl.BlocksExactly` | pkg/bfd/control.go:70 | a removal that leaves the list right blocks if and only if the last session of the list and another one are to the address |
| `BfdControl.Control.ProcessPacket` | pkg/bfd/control.go:110-133 | a packet with a discriminator is taken if and only if some session has that local discriminator, by the first such session; one without by source address; only that session changes, as `Rx` says |
| `BfdControl.RoutedIsOwned` | pkg/bfd/control.go:115-132 | from the address of a session, the packets routed to it in the two-ended theorems are exactly those that the list gives to it |
| `BfdControl.PeerReachesBack` | pkg/bfd/control.go:115-120 | a peer that has accepted a packet of a session reaches it with whatever it composes next, from any address |
| `BfdControl.OwnerSurvivesRemoval` | pkg/bfd/control.go:110-133 | with unambiguous sessions the owner is the one with the packet's discriminator, or else the source address, and is unaffected by removing another session |
| `BgpPeers.BgpPeerStorage.AddBgpPeer` | internal/repository/imdb/bgp_peer.go:41-51 | stores the object itself under its address |
| `BgpPeers.BgpPeerStorage.UpdateBgpPeerState` | internal/repository/imdb/bgp_peer.go:200-223 | writes both states of the stored object |
| `BgpPeers.PeerWatcher.HandlePeerEvent` | internal/service/handle_bgp_update.go:410-453 | through aliased objects, the table, the metric and the launches become those of `Handle`, or a nil pointer is dereferenced |
| `BgpPeers.RunTracks` | internal/service/handle_bgp_update.go:410-453 | all runs: crash exactly on an unconfigured peer; else states are the last reported, the metric is the number established, BFD was started exactly once for each physical-network peer with BFD enabled that ever was established, and for nobody else |
| `BgpPeers.MetricIsReportedCount` | pkg/exporter/gobgpexporter/metrics.go:18-24 | the metric equals the number of peers last reported ESTABLISHED, between zero and their number |
| `ClearConfig.DumpedIdIsLowByte` | internal/repository/vpp/vpp.go:821-824 | the decoded ID is the lowest byte, so right exactly below 256 |
| `ClearConfig.Vpp.DumpFipRoutes` | internal/repository/vpp/vpp.go:753-860 | one record per entry with decoded IDs |
| `ClearConfig.ClearLinked` | internal/repository/vpp/initialize/clear_config.go:72-82 | deleting a route once for each of its tunnels is deleting it once; exactly these tunnels go; an error exactly when a request was refused |
| `ClearConfig.ClearTunnelsAndRoutes` | internal/repository/vpp/initialize/clear_config.go:55-109 | success if and only if no request made was refused; then no tunnel is left and each entry is what survives its dumps, with IDs below 256 nothing; stopped early, each entry is untouched, stripped once or stripped twice |
| `ClearConfig.FirstPassStopped` | internal/repository/vpp/initialize/clear_config.go:71-83 | what a refusal in the first loop leaves |
| `ClearConfig.LastPassStopped` | internal/repository/vpp/initialize/clear_config.go:105-109 | what a refusal in the last loop leaves |
| `ClearConfig.SurvivesExactly` | internal/repository/vpp/initialize/clear_config.go:71-109 | what is left of an entry with distinct next hops: nothing, or exactly the paths with larger IDs, and when which |
| `ClearConfig.SmallIdsClear` | internal/repository/vpp/initialize/clear_config.go:69-109 | with IDs below 256 nothing survives, however tunnels are shared |
| `ClearConfig.LargeIdsStay` | internal/repository/vpp/initialize/clear_config.go:69-109 | a route over tunnels 256 and 257 is still there, unchanged |
| `MplsLabel.DecimalSpells` | pkg/netutils/mpls_label.go:16 | the digits written for an octet spell it, without leading zeros |
| `MplsLabel.DecimalUnique` | pkg/netutils/mpls_label.go:16 | and no other digits do |
| `MplsLabel.LabelSpellsLastFour` | pkg/netutils/mpls_label.go:16-23 | the label is the base plus the number spelled by the last four digits of the address without dots |
| `MplsLabel.LabelByArithmetic` | pkg/netutils/mpls_label.go:16-23 | the label as arithmetic on the octets, without digits |
| `MplsLabel.LabelExample` | pkg/netutils/mpls_label_test.go:28 | a label that the repository's own test expects |
| `MplsLabel.LabelFits` | pkg/netutils/mpls_label.go:23 | there is a label exactly for IPv4; it fits the 20-bit field of section 2.1 of RFC 3032 and is not a reserved value |
| `MplsLabel.LabelsEqualExactly` | pkg/netutils/mpls_label.go:16-23 | two addresses share a label if and only if those four digits agree |
| `MplsLabel.LabelsCollide` | pkg/netutils/mpls_label.go:16-23 | 10.0.1.11 and 10.0.11.1 share the label 1000111 |

## Left out

- Addresses and prefixes are numbers that are only compared; only `MplsLabel` looks inside one.
- Counters are unbounded; the source has 32 bits. The number of paths is unbounded; the source
  sends it to VPP in 8 bits.
- Storage insertions do not fail: the in-memory database rejects only records without a key.
- A reply from VPP that is lost: it counts as a refusal that changed nothing in VPP.
- The backing arrays behind a route's three lists: the lists are values of the route object, so a write
  through the copy of a route that is passed by value does not reach the original, which has then
  left the table.
- VPP and GoBGP messages, interface indices, route distinguishers and targets: replaced by maps, with
  the VRF standing for its route distinguisher.
- Listings of the tables and the map from VRF to next hop: read once, at start or for display.
- Plain IP routes of the physical network in VPP: never read back by the gateway.
- Parsing of BGP updates; updates that originate in the gateway's own AS.
- Data races between the callbacks, the BFD loops and shutdown: steps are atomic.
- The length of the transmit interval of section 6.8.7 of RFC 5880, jitter, and the formula for a multiplier of
  one: the code does not follow them, and nothing is claimed.
- Authentication contents: only the presence bit is compared.
- More than one monitored session per process: the flag that starts the detector is shared, so the
  timed theorems are about the session that owns it.
- Echo and demand mode of the local end: constants in the source.
- `BfdControl.Control.DelSession`: the send to a session's quit channel blocks here only if the same
  call has told that session already; a session told by an earlier call, or waiting elsewhere, does
  not block.
- VPP routes other than floating-IP routes, MPLS routes, sub-interfaces and VRFs at start: sequences
  of requests without shared state.
- `ClearConfig.Vpp.DumpFipRoutes`: entries without any path, on which the source would panic, do
  not occur in VPP and are excluded.
- Configuration, HTTP handlers, exporters other than the active-peer metric, export policy, logging.
