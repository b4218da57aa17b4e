/** The four coupled stores that a Tungsten Fabric update changes: the floating-IP route table,
    the UDP tunnel table, the VRF counters (internal/repository/imdb) and the two mirrors
    outside the process, VPP and the locally originated VPNv4 prefixes; and the functions that
    say what each storage method and each VPP call does to them. */
module GatewayState {
  import opened Options
  import opened Routes

  /** `model.VPPUDPTunnel`: the ID VPP gave it and `FIPServed`. */
  datatype Tunnel = Tunnel(id: nat, served: nat)

  /** `model.VPPVRFTable`: `FIPPrefixes` and `FIPServed`. */
  datatype Vrf = Vrf(aggregates: seq<Address>, served: nat)

  /** What VPP holds: live UDP encapsulations and, per routing table and prefix, FIB paths. */
  datatype Vpp = Vpp(tunnels: set<nat>, fib: map<(nat, Address), set<Path>>)

  datatype CallKind = RouteAdd | RouteDelete | TunnelAdd | TunnelDelete

  /** One request to VPP: whether it succeeded, and what VPP held after it. */
  datatype Call = Call(kind: CallKind, ok: bool, after: Vpp)

  /** How the outside answers during one event. Within an event each request is made at most
      once per next hop, tunnel or aggregate, so one answer for each covers every pattern.
      `tunnelAdd` holds the IDs VPP offers; `refused` the BGP requests that fail. */
  datatype Replies = Replies(
    routeAdd: bool, routeDelete: bool, tunnelAdd: map<Address, nat>, tunnelDelete: set<nat>,
    refused: set<(bool, Address)>)

  datatype State = State(
    routes: map<Address, Route>, tunnels: map<Address, Tunnel>, vrfs: map<nat, Vrf>,
    vpp: Vpp, log: seq<Call>, originated: set<(nat, Address)>)

  // ---- Storage counters -------------------------------------------------------------------

  function TunnelInc(ts: map<Address, Tunnel>, nh: Address): map<Address, Tunnel> {
    if nh in ts then ts[nh := ts[nh].(served := ts[nh].served + 1)] else ts
  }

  function TunnelDec(ts: map<Address, Tunnel>, nh: Address): map<Address, Tunnel> {
    if nh in ts && ts[nh].served != 0 then ts[nh := ts[nh].(served := ts[nh].served - 1)] else ts
  }

  function TunnelServed(ts: map<Address, Tunnel>, nh: Address): nat {
    if nh in ts then ts[nh].served else 0
  }

  function VrfInc(vs: map<nat, Vrf>, v: nat): map<nat, Vrf> {
    if v in vs then vs[v := vs[v].(served := vs[v].served + 1)] else vs
  }

  function VrfDec(vs: map<nat, Vrf>, v: nat): map<nat, Vrf> {
    if v in vs && vs[v].served != 0 then vs[v := vs[v].(served := vs[v].served - 1)] else vs
  }

  function VrfServed(vs: map<nat, Vrf>, v: nat): nat {
    if v in vs then vs[v].served else 0
  }

  function IncAll(ts: map<Address, Tunnel>, nhs: seq<Address>): map<Address, Tunnel> {
    if nhs == [] then ts
    else TunnelInc(IncAll(ts, nhs[..|nhs|-1]), nhs[|nhs|-1])
  }

  function DecAll(ts: map<Address, Tunnel>, nhs: seq<Address>): map<Address, Tunnel> {
    if nhs == [] then ts
    else TunnelDec(DecAll(ts, nhs[..|nhs|-1]), nhs[|nhs|-1])
  }

  // ---- VPP --------------------------------------------------------------------------------

  /** `vpp.AddUDPTunnel` succeeds with an ID that names no live tunnel. */
  function TunnelOffer(v: Vpp, nh: Address, replies: Replies): Option<nat> {
    if nh in replies.tunnelAdd && replies.tunnelAdd[nh] !in v.tunnels && replies.tunnelAdd[nh] != UNDEFINED_TUNNEL
    then Some(replies.tunnelAdd[nh]) else None
  }

  /** A route with several paths is sent with `IsMultipath`: its paths are merged into the
      entry. A single path replaces the entry. */
  function FibAdd(fib: map<(nat, Address), set<Path>>, r: Route): map<(nat, Address), set<Path>> {
    var key := (r.vrf, r.prefix);
    var kept := if |r.nextHops| > 1 && key in fib then fib[key] else {};
    fib[key := kept + r.Paths()]
  }

  /** With `IsMultipath` the named paths go, and the entry with its last path; otherwise the
      whole entry goes. */
  function FibDelete(fib: map<(nat, Address), set<Path>>, r: Route): map<(nat, Address), set<Path>> {
    var key := (r.vrf, r.prefix);
    if |r.nextHops| > 1 && key in fib && fib[key] - r.Paths() != {}
    then fib[key := fib[key] - r.Paths()]
    else fib - {key}
  }

  /** What one call that adds a route must do to the FIB, path by path. */
  ghost predicate Adds(before: map<(nat, Address), set<Path>>, after: map<(nat, Address), set<Path>>, r: Route)
    requires r.Parallel()
  {
    var key := (r.vrf, r.prefix);
    && key in after && before - {key} == after - {key}
    && (forall path :: path in after[key] <==>
          Names(r, path) || (|r.nextHops| > 1 && key in before && path in before[key]))
  }

  /** What one call that deletes a route must do. */
  ghost predicate Removes(before: map<(nat, Address), set<Path>>, after: map<(nat, Address), set<Path>>, r: Route)
    requires r.Parallel()
  {
    var key := (r.vrf, r.prefix);
    && before - {key} == after - {key}
    && (key in after ==>
          && |r.nextHops| > 1 && key in before && after[key] != {}
          && forall path :: path in after[key] <==> path in before[key] && !Names(r, path))
    && (key !in after ==> |r.nextHops| <= 1 || key !in before || forall path :: path in before[key] ==> Names(r, path))
  }

  lemma FibAddAdds(fib: map<(nat, Address), set<Path>>, r: Route)
    requires r.Parallel()
    ensures Adds(fib, FibAdd(fib, r), r)
  {
    PathsByPosition(r);
  }

  lemma FibDeleteRemoves(fib: map<(nat, Address), set<Path>>, r: Route)
    requires r.Parallel()
    ensures Removes(fib, FibDelete(fib, r), r)
  {
    var key := (r.vrf, r.prefix);
    PathsByPosition(r);
    if key in fib && fib[key] - r.Paths() == {} {
      forall path | path in fib[key]
        ensures Names(r, path)
      {
        assert path !in fib[key] - r.Paths();
      }
    }
  }

  function Logged(st: State, kind: CallKind, ok: bool, v: Vpp): State {
    st.(vpp := v, log := st.log + [Call(kind, ok, v)])
  }

  /** `vpp.AddDelFIPRoute` refuses an undefined tunnel ID before anything is sent. */
  function SendRoute(st: State, isAdd: bool, r: Route, replies: Replies): (result: (State, bool)) {
    if UNDEFINED_TUNNEL in r.tunnelIds then (st, false)
    else if isAdd then
      if replies.routeAdd
      then (Logged(st, RouteAdd, true, st.vpp.(fib := FibAdd(st.vpp.fib, r))), true)
      else (Logged(st, RouteAdd, false, st.vpp), false)
    else
      if replies.routeDelete
      then (Logged(st, RouteDelete, true, st.vpp.(fib := FibDelete(st.vpp.fib, r))), true)
      else (Logged(st, RouteDelete, false, st.vpp), false)
  }

  // ---- Lookups ----------------------------------------------------------------------------

  /** `IsFIPWithNHAndLabelExist`. */
  ghost predicate Stored(routes: map<Address, Route>, prefix: Address, nextHop: Address, mplsLabel: nat) {
    prefix in routes &&
    exists i :: 0 <= i < |routes[prefix].nextHops| && i < |routes[prefix].labels|
      && routes[prefix].nextHops[i] == nextHop && routes[prefix].labels[i] == mplsLabel
  }

  // ---- What agrees with what --------------------------------------------------------------

  /** Prefixes of the stored routes that use next hop `nh`. */
  ghost function UsersOf(routes: map<Address, Route>, nh: Address): set<Address> {
    set p | p in routes && nh in routes[p].nextHops
  }

  /** Prefixes of the stored routes of VRF `v`. */
  ghost function RoutesIn(routes: map<Address, Route>, v: nat): set<Address> {
    set p | p in routes && routes[p].vrf == v
  }

  ghost predicate RoutesShaped(routes: map<Address, Route>, vrfs: map<nat, Vrf>) {
    forall p :: p in routes ==> routes[p].Shaped() && routes[p].prefix == p && routes[p].vrf in vrfs
  }

  /** Every path of `r` carries the ID stored for its next hop. */
  ghost predicate BoundTo(r: Route, ts: map<Address, Tunnel>) {
    && r.Parallel()
    && forall i :: 0 <= i < |r.nextHops| ==> r.nextHops[i] in ts && r.tunnelIds[i] == ts[r.nextHops[i]].id
  }

  ghost predicate AllBound(routes: map<Address, Route>, ts: map<Address, Tunnel>) {
    forall p :: p in routes ==> BoundTo(routes[p], ts)
  }

  ghost predicate TunnelsCounted(routes: map<Address, Route>, ts: map<Address, Tunnel>) {
    forall nh :: nh in ts ==> ts[nh].served == |UsersOf(routes, nh)|
  }

  ghost predicate VrfsCounted(routes: map<Address, Route>, vs: map<nat, Vrf>) {
    forall v :: v in vs ==> vs[v].served == |RoutesIn(routes, v)|
  }

  /** Stored tunnels exist in VPP, under IDs of their own. */
  ghost predicate TunnelsLive(ts: map<Address, Tunnel>, live: set<nat>) {
    && (forall nh :: nh in ts ==> ts[nh].id in live && ts[nh].id != UNDEFINED_TUNNEL)
    && (forall a, b :: a in ts && b in ts && a != b ==> ts[a].id != ts[b].id)
  }

  /** The agreement that survives every pattern of failures. */
  ghost predicate Inv(st: State) {
    && RoutesShaped(st.routes, st.vrfs)
    && AllBound(st.routes, st.tunnels)
    && TunnelsCounted(st.routes, st.tunnels)
    && VrfsCounted(st.routes, st.vrfs)
    && TunnelsLive(st.tunnels, st.vpp.tunnels)
    && NO_ADDRESS !in st.tunnels
  }

  // ---- Counting lemmas --------------------------------------------------------------------

  lemma UsersOfInsert(routes: map<Address, Route>, r: Route, nh: Address)
    requires r.prefix !in routes
    ensures |UsersOf(routes[r.prefix := r], nh)| == |UsersOf(routes, nh)| + (if nh in r.nextHops then 1 else 0)
  {
    assert UsersOf(routes[r.prefix := r], nh) == UsersOf(routes, nh) + (if nh in r.nextHops then {r.prefix} else {});
  }

  lemma UsersOfRemove(routes: map<Address, Route>, p: Address, nh: Address)
    requires p in routes
    ensures |UsersOf(routes - {p}, nh)| == |UsersOf(routes, nh)| - (if nh in routes[p].nextHops then 1 else 0)
  {
    assert UsersOf(routes - {p}, nh) == UsersOf(routes, nh) - (if nh in routes[p].nextHops then {p} else {});
  }

  lemma RoutesInInsert(routes: map<Address, Route>, r: Route, v: nat)
    requires r.prefix !in routes
    ensures |RoutesIn(routes[r.prefix := r], v)| == |RoutesIn(routes, v)| + (if v == r.vrf then 1 else 0)
  {
    assert RoutesIn(routes[r.prefix := r], v) == RoutesIn(routes, v) + (if v == r.vrf then {r.prefix} else {});
  }

  lemma RoutesInRemove(routes: map<Address, Route>, p: Address, v: nat)
    requires p in routes
    ensures |RoutesIn(routes - {p}, v)| == |RoutesIn(routes, v)| - (if v == routes[p].vrf then 1 else 0)
  {
    assert RoutesIn(routes - {p}, v) == RoutesIn(routes, v) - (if v == routes[p].vrf then {p} else {});
  }

  lemma {:induction false} IncAllAt(ts: map<Address, Tunnel>, nhs: seq<Address>)
    requires DistinctKeys(nhs)
    ensures var us := IncAll(ts, nhs);
            && us.Keys == ts.Keys
            && (forall nh :: nh in ts ==>
                  us[nh] == ts[nh].(served := ts[nh].served + (if nh in nhs then 1 else 0)))
  {
    if nhs != [] {
      var n := |nhs| - 1;
      IncAllAt(ts, nhs[..n]);
      InSnoc(nhs);
    }
  }

  lemma InSnoc(nhs: seq<Address>)
    requires nhs != [] && DistinctKeys(nhs)
    ensures var n := |nhs| - 1;
            nhs[n] !in nhs[..n] && DistinctKeys(nhs[..n])
            && forall x :: x in nhs <==> x == nhs[n] || x in nhs[..n]
  {
    assert nhs == nhs[..|nhs|-1] + [nhs[|nhs|-1]];
  }

  lemma {:induction false} DecAllAt(ts: map<Address, Tunnel>, nhs: seq<Address>)
    requires DistinctKeys(nhs)
    requires forall i :: 0 <= i < |nhs| ==> TunnelServed(ts, nhs[i]) > 0
    ensures var us := DecAll(ts, nhs);
            && us.Keys == ts.Keys
            && (forall nh :: nh in ts ==>
                  && ts[nh].served >= (if nh in nhs then 1 else 0)
                  && us[nh] == ts[nh].(served := ts[nh].served - (if nh in nhs then 1 else 0)))
  {
    if nhs != [] {
      var n := |nhs| - 1;
      DecAllAt(ts, nhs[..n]);
      InSnoc(nhs);
    }
  }
}
