/** What one BGP path does to the stores: `AddFIPAndTunnelInVPPAndStorage`,
    `DelFIPAndTunnelFromVPPAndStorage` and the table callbacks of `HandleBGPUpdate`
    (internal/service), as functions on the state. The classes in `Gateway` carry out the same
    steps in place. */
module GatewayProtocol {
  import opened Options
  import opened Routes
  import opened GatewayState

  // ---- AddFIPAndTunnelInVPPAndStorage -----------------------------------------------------

  datatype Bound = Bound(st: State, ids: seq<nat>, ok: bool)

  /** The tunnel for one next hop: the stored one, or a new one asked from VPP; an empty address does
      not parse, and nothing is asked. */
  function BindOne(st: State, nh: Address, replies: Replies): (State, Option<nat>) {
    if nh in st.tunnels then (st, Some(st.tunnels[nh].id))
    else if nh == NO_ADDRESS then (st, None)
    else
      var offer := TunnelOffer(st.vpp, nh, replies);
      if offer.None? then (Logged(st, TunnelAdd, false, st.vpp), None)
      else
        var logged := Logged(st, TunnelAdd, true, st.vpp.(tunnels := st.vpp.tunnels + {offer.value}));
        (logged.(tunnels := st.tunnels[nh := Tunnel(offer.value, 0)]), offer)
  }

  /** The first loop, which stops at the first tunnel VPP refuses. */
  function Bind(st: State, nhs: seq<Address>, replies: Replies): Bound {
    if nhs == [] then Bound(st, [], true)
    else
      var before := Bind(st, nhs[..|nhs|-1], replies);
      if !before.ok then before
      else
        var (after, id) := BindOne(before.st, nhs[|nhs|-1], replies);
        if id.None? then Bound(after, before.ids, false) else Bound(after, before.ids + [id.value], true)
  }

  /** The route enters the table and is counted on its own VRF and on every next hop. */
  function CountIn(st: State, r: Route): State {
    st.(routes := st.routes[r.prefix := r],
        vrfs := VrfInc(st.vrfs, r.vrf),
        tunnels := IncAll(st.tunnels, r.nextHops))
  }

  function Advertise(originated: set<(nat, Address)>, vrf: nat, aggregates: seq<Address>, replies: Replies)
    : set<(nat, Address)>
  {
    originated + set a | a in aggregates && (true, a) !in replies.refused :: (vrf, a)
  }

  function Withdraw(originated: set<(nat, Address)>, vrf: nat, aggregates: seq<Address>, replies: Replies)
    : set<(nat, Address)>
  {
    originated - set a | a in aggregates && (false, a) !in replies.refused :: (vrf, a)
  }

  function Aggregates(st: State, vrf: nat): seq<Address> {
    if vrf in st.vrfs then st.vrfs[vrf].aggregates else []
  }

  /** "> 2 means already advertised": the threshold as the source has it. */
  function AdvertiseIfFew(st: State, countedVrf: nat, vrf: nat, replies: Replies): State {
    if VrfServed(st.vrfs, countedVrf) > 2 then st
    else st.(originated := Advertise(st.originated, vrf, Aggregates(st, vrf), replies))
  }

  /** Second half: the bound route goes to VPP and, if VPP takes it, into the tables. */
  function Install(st: State, r: Route, vrf: nat, replies: Replies): State {
    var (sent, ok) := SendRoute(st, true, r, replies);
    if !ok then sent else AdvertiseIfFew(CountIn(sent, r), r.vrf, vrf, replies)
  }

  /** `vrf` is the VRF of the received update; the counters use the VRF of the route. */
  ghost function AddFip(st: State, r: Route, vrf: nat, replies: Replies): State {
    var bound := Bind(st, r.nextHops, replies);
    if !bound.ok then bound.st else Install(bound.st, r.(tunnelIds := bound.ids), vrf, replies)
  }

  // ---- DelFIPAndTunnelFromVPPAndStorage ---------------------------------------------------

  /** The route leaves the table and the counters, whatever VPP answered. */
  function CountOut(st: State, r: Route): State {
    st.(routes := st.routes - {r.prefix},
        vrfs := VrfDec(st.vrfs, r.vrf),
        tunnels := DecAll(st.tunnels, r.nextHops))
  }

  /** A tunnel that serves nothing is deleted from VPP and, whatever VPP answers, forgotten. */
  function CollectOne(st: State, nh: Address, id: nat, replies: Replies): State {
    if TunnelServed(st.tunnels, nh) != 0 then st
    else
      var ok := id in replies.tunnelDelete;
      var logged := Logged(st, TunnelDelete, ok, if ok then st.vpp.(tunnels := st.vpp.tunnels - {id}) else st.vpp);
      logged.(tunnels := st.tunnels - {nh})
  }

  function Collect(st: State, nhs: seq<Address>, ids: seq<nat>, replies: Replies): State
    requires |nhs| == |ids|
  {
    if nhs == [] then st
    else
      var n := |nhs| - 1;
      CollectOne(Collect(st, nhs[..n], ids[..n], replies), nhs[n], ids[n], replies)
  }

  function WithdrawIfLast(st: State, countedVrf: nat, vrf: nat, replies: Replies): State {
    if VrfServed(st.vrfs, countedVrf) != 0 then st
    else st.(originated := Withdraw(st.originated, vrf, Aggregates(st, vrf), replies))
  }

  ghost function DelFip(st: State, r: Route, vrf: nat, replies: Replies): State
    requires r.Parallel()
  {
    var sent := SendRoute(st, false, r, replies).0;
    var out := CountOut(sent, r);
    WithdrawIfLast(Collect(out, r.nextHops, r.tunnelIds, replies), r.vrf, vrf, replies)
  }

  // ---- The table callbacks ----------------------------------------------------------------

  /** Parsed attributes of one received path. */
  datatype Update = Update(withdraw: bool, vrf: nat, prefix: Address, nextHop: Address, mplsLabel: nat)

  datatype Event =
    | FromFabric(update: Update, replies: Replies)
    | FromNetwork(update: Update, replies: Replies)

  /** `bgpVrfs` are the VRFs of the BGP table; `isFloating` says whether the address of a prefix
      lies in some VRF's aggregate (`netutils.IsFIP`). */
  datatype Config = Config(bgpVrfs: set<nat>, isFloating: Address -> bool)

  /** `Crashed` is a Go panic, which ends the process and leaves VPP as it is. */
  datatype Outcome = Crashed(st: State) | Running(st: State)

  /** The early `continue`s before the switch. */
  predicate KnownVrf(cfg: Config, st: State, vrf: nat) {
    vrf in st.vrfs && vrf in cfg.bgpVrfs
  }

  function Received(u: Update): Route {
    Route(u.vrf, u.prefix, [u.nextHop], [UNDEFINED_TUNNEL], [u.mplsLabel])
  }

  /** What the callback does with one update: nothing; add a new route; delete the stored route;
      delete it and add it back with another path list; or delete it and panic in `AddPath`. */
  datatype Plan = Skip | Fresh(route: Route) | Drop | Replace(route: Route) | DropAndPanic

  ghost function Decide(cfg: Config, st: State, u: Update): Plan
    requires RoutesShaped(st.routes, st.vrfs)
  {
    if !KnownVrf(cfg, st, u.vrf) then Skip
    else if u.withdraw then
      if !Stored(st.routes, u.prefix, u.nextHop, u.mplsLabel) || u.nextHop !in st.tunnels then Skip
      else if |st.routes[u.prefix].nextHops| == 1 then Drop
      else Replace(PathDeleted(st.routes[u.prefix], u.nextHop))
    else if !cfg.isFloating(u.prefix) || Stored(st.routes, u.prefix, u.nextHop, u.mplsLabel) then Skip
    else if u.prefix !in st.routes then Fresh(Received(u))
    else
      match PathAdded(st.routes[u.prefix], u.nextHop, UNDEFINED_TUNNEL, u.mplsLabel)
      case Panicked => DropAndPanic
      case Edited(route) => Replace(route)
  }

  ghost function Execute(st: State, plan: Plan, u: Update, replies: Replies): Outcome
    requires RoutesShaped(st.routes, st.vrfs)
    requires plan.Drop? || plan.Replace? || plan.DropAndPanic? ==> u.prefix in st.routes
  {
    match plan
    case Skip => Running(st)
    case Fresh(route) => Running(AddFip(st, route, u.vrf, replies))
    case Drop => Running(DelFip(st, st.routes[u.prefix], u.vrf, replies))
    case DropAndPanic => Crashed(DelFip(st, st.routes[u.prefix], u.vrf, replies))
    case Replace(route) =>
      Running(AddFip(DelFip(st, st.routes[u.prefix], u.vrf, replies), route, u.vrf, replies))
  }

  /** The update handler uses both VRF records, and the default VRF's address, unchecked. */
  function NetworkPath(cfg: Config, st: State, u: Update, replies: Replies): Outcome {
    if !KnownVrf(cfg, st, u.vrf) || 0 !in st.vrfs then Crashed(st)
    else if u.withdraw then Running(st.(originated := Withdraw(st.originated, u.vrf, [u.prefix], replies)))
    else Running(st.(originated := Advertise(st.originated, u.vrf, [u.prefix], replies)))
  }

  ghost function Step(cfg: Config, st: State, e: Event): Outcome
    requires RoutesShaped(st.routes, st.vrfs)
  {
    match e
    case FromFabric(u, replies) => Execute(st, Decide(cfg, st, u), u, replies)
    case FromNetwork(u, replies) => NetworkPath(cfg, st, u, replies)
  }

  /** Whatever the plan, a route to be added has the update's prefix, keeps the VRF of the stored
      route and is well shaped, so the tables stay well formed. */
  lemma PlanShape(cfg: Config, st: State, u: Update)
    requires RoutesShaped(st.routes, st.vrfs)
    ensures var plan := Decide(cfg, st, u);
            && (plan.Drop? || plan.Replace? || plan.DropAndPanic? <==> !plan.Skip? && u.prefix in st.routes)
            && (!plan.Skip? ==> KnownVrf(cfg, st, u.vrf))
            && (plan.Fresh? || plan.Replace? ==>
                  plan.route.Shaped() && plan.route.prefix == u.prefix && plan.route.vrf in st.vrfs)
            && (plan.Replace? ==> plan.route.vrf == st.routes[u.prefix].vrf)
            && (plan.Fresh? ==> plan.route == Received(u))
  {
    if u.prefix in st.routes {
      EditedShape(st.routes[u.prefix], u);
    }
  }

  lemma EditedShape(r: Route, u: Update)
    requires r.Shaped()
    ensures |r.nextHops| > 1 ==> PathDeleted(r, u.nextHop).Shaped()
    ensures PathDeleted(r, u.nextHop).prefix == r.prefix && PathDeleted(r, u.nextHop).vrf == r.vrf
    ensures var added := PathAdded(r, u.nextHop, UNDEFINED_TUNNEL, u.mplsLabel);
            added.Edited? ==> added.route.Shaped() && added.route.prefix == r.prefix && added.route.vrf == r.vrf
  {
    DelPathMeaning(r, u.nextHop);
    DelPathShape(r, u.nextHop);
    if !Ignored(u.nextHop, UNDEFINED_TUNNEL, u.mplsLabel) && PathAdded(r, u.nextHop, UNDEFINED_TUNNEL, u.mplsLabel).Edited? {
      AddPathMeaning(r, u.nextHop, UNDEFINED_TUNNEL, u.mplsLabel);
    }
  }
}
