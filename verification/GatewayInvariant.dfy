/** The agreement of the in-memory stores under every pattern of VPP and BGP failures. */
module GatewayInvariant {
  import opened Routes
  import opened GatewayState
  import opened GatewayProtocol

  // ---- Binding next hops to tunnels -------------------------------------------------------

  /** Everything but the tunnel table, the live tunnels and the log stays; tunnels only come. */
  ghost predicate OnlyBinds(a: State, b: State) {
    && b.routes == a.routes && b.vrfs == a.vrfs && b.originated == a.originated
    && b.vpp.fib == a.vpp.fib
    && a.vpp.tunnels <= b.vpp.tunnels
    && (forall nh :: nh in a.tunnels ==> nh in b.tunnels && b.tunnels[nh] == a.tunnels[nh])
  }

  lemma BindOneKeeps(st: State, nh: Address, replies: Replies)
    requires Inv(st)
    ensures var (after, id) := BindOne(st, nh, replies);
            && Inv(after) && OnlyBinds(st, after)
            && (id.Some? ==> nh in after.tunnels && after.tunnels[nh].id == id.value)
  {
    var (after, id) := BindOne(st, nh, replies);
    if nh !in st.tunnels && id.Some? {
      NoUsers(st.routes, st.tunnels, nh);
      NewTunnelKeeps(st.routes, st.tunnels, st.vpp.tunnels, nh, id.value);
    }
  }

  /** A new tunnel under a new ID disturbs no route and no count. */
  lemma NewTunnelKeeps(routes: map<Address, Route>, ts: map<Address, Tunnel>, live: set<nat>, nh: Address, id: nat)
    requires AllBound(routes, ts) && TunnelsCounted(routes, ts) && TunnelsLive(ts, live)
    requires nh !in ts && id !in live && id != UNDEFINED_TUNNEL && UsersOf(routes, nh) == {}
    ensures var us := ts[nh := Tunnel(id, 0)];
            AllBound(routes, us) && TunnelsCounted(routes, us) && TunnelsLive(us, live + {id})
  {
    var us := ts[nh := Tunnel(id, 0)];
    forall p | p in routes
      ensures BoundTo(routes[p], us)
    {
      assert BoundTo(routes[p], ts);
    }
  }

  /** A next hop without a stored tunnel is used by no stored route. */
  lemma NoUsers(routes: map<Address, Route>, ts: map<Address, Tunnel>, nh: Address)
    requires AllBound(routes, ts) && nh !in ts
    ensures UsersOf(routes, nh) == {}
  {
    forall p | p in routes ensures nh !in routes[p].nextHops {
      assert BoundTo(routes[p], ts);
    }
  }

  /** The IDs collected so far are those stored for the next hops passed so far. */
  ghost predicate IdsOf(ids: seq<nat>, nhs: seq<Address>, ts: map<Address, Tunnel>) {
    && |ids| == |nhs|
    && forall i :: 0 <= i < |nhs| ==> nhs[i] in ts && ts[nhs[i]].id == ids[i]
  }

  lemma OnlyBindsTrans(a: State, b: State, c: State)
    requires OnlyBinds(a, b) && OnlyBinds(b, c)
    ensures OnlyBinds(a, c)
  {
  }

  lemma IdsOfExtends(ids: seq<nat>, nhs: seq<Address>, a: State, b: State, id: nat)
    requires nhs != [] && IdsOf(ids, nhs[..|nhs|-1], a.tunnels) && OnlyBinds(a, b)
    requires nhs[|nhs|-1] in b.tunnels && b.tunnels[nhs[|nhs|-1]].id == id
    ensures IdsOf(ids + [id], nhs, b.tunnels)
  {
    forall i | 0 <= i < |nhs| ensures nhs[i] in b.tunnels && b.tunnels[nhs[i]].id == (ids + [id])[i] {
      if i < |nhs| - 1 {
        assert nhs[..|nhs|-1][i] == nhs[i];
      }
    }
  }

  lemma {:induction false} BindKeeps(st: State, nhs: seq<Address>, replies: Replies)
    requires Inv(st)
    ensures var b := Bind(st, nhs, replies);
            Inv(b.st) && OnlyBinds(st, b.st) && (b.ok ==> IdsOf(b.ids, nhs, b.st.tunnels))
  {
    if nhs != [] {
      var n := |nhs| - 1;
      BindKeeps(st, nhs[..n], replies);
      var before := Bind(st, nhs[..n], replies);
      if before.ok {
        BindOneKeeps(before.st, nhs[n], replies);
        var (after, id) := BindOne(before.st, nhs[n], replies);
        OnlyBindsTrans(st, before.st, after);
        if id.Some? {
          IdsOfExtends(before.ids, nhs, before.st, after, id.value);
        }
      }
    }
  }

  // ---- Counting a route in and out --------------------------------------------------------

  lemma CountInKeeps(st: State, r: Route)
    requires Inv(st) && r.Shaped() && r.prefix !in st.routes && r.vrf in st.vrfs && BoundTo(r, st.tunnels)
    ensures Inv(CountIn(st, r))
  {
    var after := CountIn(st, r);
    IncAllAt(st.tunnels, r.nextHops);
    forall nh | nh in after.tunnels ensures after.tunnels[nh].served == |UsersOf(after.routes, nh)| {
      UsersOfInsert(st.routes, r, nh);
    }
    forall v | v in after.vrfs ensures after.vrfs[v].served == |RoutesIn(after.routes, v)| {
      RoutesInInsert(st.routes, r, v);
    }
    forall p | p in after.routes ensures BoundTo(after.routes[p], after.tunnels) {
      assert p != r.prefix ==> BoundTo(st.routes[p], st.tunnels);
    }
  }

  /** The guards `FIPServed == 0` of the two decrements never fire for a stored route. */
  lemma GuardsNeverFire(st: State, p: Address)
    requires Inv(st) && p in st.routes
    ensures VrfServed(st.vrfs, st.routes[p].vrf) > 0
    ensures forall i :: 0 <= i < |st.routes[p].nextHops| ==> TunnelServed(st.tunnels, st.routes[p].nextHops[i]) > 0
  {
    var r := st.routes[p];
    assert p in RoutesIn(st.routes, r.vrf);
    assert BoundTo(r, st.tunnels);
    forall i | 0 <= i < |r.nextHops| ensures TunnelServed(st.tunnels, r.nextHops[i]) > 0 {
      assert p in UsersOf(st.routes, r.nextHops[i]);
    }
  }

  lemma CountOutKeeps(st: State, p: Address)
    requires Inv(st) && p in st.routes
    ensures Inv(CountOut(st, st.routes[p]))
    ensures BoundTo(st.routes[p], CountOut(st, st.routes[p]).tunnels)
    ensures CountOut(st, st.routes[p]).routes == st.routes - {p}
  {
    var r := st.routes[p];
    var after := CountOut(st, r);
    GuardsNeverFire(st, p);
    DecAllAt(st.tunnels, r.nextHops);
    assert BoundTo(r, st.tunnels);
    forall nh | nh in after.tunnels ensures after.tunnels[nh].served == |UsersOf(after.routes, nh)| {
      UsersOfRemove(st.routes, p, nh);
    }
    forall v | v in after.vrfs ensures after.vrfs[v].served == |RoutesIn(after.routes, v)| {
      RoutesInRemove(st.routes, p, v);
    }
    forall q | q in after.routes ensures BoundTo(after.routes[q], after.tunnels) {
      assert BoundTo(st.routes[q], st.tunnels);
    }
  }

  // ---- Collecting idle tunnels ------------------------------------------------------------

  /** A tunnel that counts nothing serves no stored route. */
  lemma IdleHasNoUsers(st: State, nh: Address)
    requires Inv(st) && TunnelServed(st.tunnels, nh) == 0
    ensures forall p :: p in st.routes ==> nh !in st.routes[p].nextHops
  {
    if nh !in st.tunnels {
      NoUsers(st.routes, st.tunnels, nh);
    }
    assert UsersOf(st.routes, nh) == {};
    forall p | p in st.routes ensures nh !in st.routes[p].nextHops {
      assert p !in UsersOf(st.routes, nh);
    }
  }

  lemma CollectOneKeeps(st: State, nh: Address, id: nat, replies: Replies)
    requires Inv(st)
    requires nh in st.tunnels && st.tunnels[nh].id == id
    ensures var after := CollectOne(st, nh, id, replies);
            && Inv(after)
            && after.routes == st.routes && after.vrfs == st.vrfs && after.originated == st.originated
            && after.vpp.fib == st.vpp.fib
            && after.tunnels == if st.tunnels[nh].served == 0 then st.tunnels - {nh} else st.tunnels
  {
    if TunnelServed(st.tunnels, nh) == 0 {
      IdleHasNoUsers(st, nh);
      var after := CollectOne(st, nh, id, replies);
      forall p | p in after.routes ensures BoundTo(after.routes[p], after.tunnels) {
        assert BoundTo(st.routes[p], st.tunnels);
      }
    }
  }

  /** After collection the tunnels of the given next hops that served nothing are gone. */
  lemma {:induction false} CollectKeeps(st: State, nhs: seq<Address>, ids: seq<nat>, replies: Replies)
    requires Inv(st) && |nhs| == |ids| && DistinctKeys(nhs)
    requires forall i :: 0 <= i < |nhs| ==> nhs[i] in st.tunnels && st.tunnels[nhs[i]].id == ids[i]
    ensures var after := Collect(st, nhs, ids, replies);
            && Inv(after)
            && after.routes == st.routes && after.vrfs == st.vrfs && after.originated == st.originated
            && after.vpp.fib == st.vpp.fib
            && (forall x :: x in after.tunnels <==> x in st.tunnels && !(x in nhs && st.tunnels[x].served == 0))
            && (forall x :: x in after.tunnels ==> after.tunnels[x] == st.tunnels[x])
  {
    if nhs != [] {
      var n := |nhs| - 1;
      InSnoc(nhs);
      CollectKeeps(st, nhs[..n], ids[..n], replies);
      CollectOneKeeps(Collect(st, nhs[..n], ids[..n], replies), nhs[n], ids[n], replies);
    }
  }

  // ---- The two operations -----------------------------------------------------------------

  lemma SendRouteFrame(st: State, isAdd: bool, r: Route, replies: Replies)
    ensures var after := SendRoute(st, isAdd, r, replies).0;
            && after.routes == st.routes && after.vrfs == st.vrfs && after.tunnels == st.tunnels
            && after.originated == st.originated && after.vpp.tunnels == st.vpp.tunnels
            && (Inv(st) ==> Inv(after))
  {
  }

  /** Deleting a stored route removes exactly that route, whatever VPP and BGP answer. */
  lemma DelFipKeeps(st: State, p: Address, vrf: nat, replies: Replies)
    requires Inv(st) && p in st.routes
    ensures var after := DelFip(st, st.routes[p], vrf, replies);
            && Inv(after) && after.routes == st.routes - {p} && after.vrfs.Keys == st.vrfs.Keys
  {
    var r := st.routes[p];
    SendRouteFrame(st, false, r, replies);
    var sent := SendRoute(st, false, r, replies).0;
    CountOutKeeps(sent, p);
    CollectKeeps(CountOut(sent, r), r.nextHops, r.tunnelIds, replies);
  }

  /** Adding a route stores it with its paths bound, or leaves the routes as they were. */
  lemma AddFipKeeps(st: State, r: Route, vrf: nat, replies: Replies)
    requires Inv(st) && r.Shaped() && r.prefix !in st.routes && r.vrf in st.vrfs
    ensures var after := AddFip(st, r, vrf, replies);
            && Inv(after) && after.vrfs.Keys == st.vrfs.Keys
            && (after.routes == st.routes
                || exists ids :: after.routes == st.routes[r.prefix := r.(tunnelIds := ids)])
  {
    BindKeeps(st, r.nextHops, replies);
    var bound := Bind(st, r.nextHops, replies);
    if bound.ok {
      SendKeeps(bound.st, r.(tunnelIds := bound.ids), vrf, replies);
    }
  }

  /** The second half of adding: the tunnels are there, the route goes to VPP. */
  lemma SendKeeps(st: State, r: Route, vrf: nat, replies: Replies)
    requires Inv(st) && r.Shaped() && r.prefix !in st.routes && r.vrf in st.vrfs && BoundTo(r, st.tunnels)
    ensures var (sent, ok) := SendRoute(st, true, r, replies);
            var after := if ok then AdvertiseIfFew(CountIn(sent, r), r.vrf, vrf, replies) else sent;
            && Inv(after) && after.vrfs.Keys == st.vrfs.Keys
            && after.routes == if ok then st.routes[r.prefix := r] else st.routes
  {
    SendRouteFrame(st, true, r, replies);
    var (sent, ok) := SendRoute(st, true, r, replies);
    if ok {
      CountInKeeps(sent, r);
    }
  }

  // ---- One event --------------------------------------------------------------------------

  /** A route to be added has no empty next hop, unless the update itself names none. */
  lemma PlanHops(cfg: Config, st: State, u: Update)
    requires Inv(st)
    ensures var plan := Decide(cfg, st, u);
            plan.Replace? || (plan.Fresh? && u.nextHop != NO_ADDRESS) ==> NO_ADDRESS !in plan.route.nextHops
  {
    if u.prefix in st.routes {
      var r := st.routes[u.prefix];
      assert BoundTo(r, st.tunnels);
      assert NO_ADDRESS !in r.nextHops;
      var i := IndexOf(r.nextHops, u.nextHop);
      assert i < |r.nextHops| ==> forall nh :: nh in Without(r.nextHops, i) ==> nh in r.nextHops;
    }
  }

  /** An advertisement without a next hop, for a prefix that is not stored, changes nothing at all. */
  lemma EmptyHopIgnored(st: State, u: Update, replies: Replies)
    requires Inv(st) && u.nextHop == NO_ADDRESS
    ensures AddFip(st, Received(u), u.vrf, replies) == st
  {
    var nhs := Received(u).nextHops;
    assert nhs == [NO_ADDRESS] && nhs[..|nhs|-1] == [];
    assert Bind(st, [], replies) == Bound(st, [], true);
  }

  lemma ExecuteKeepsInv(cfg: Config, st: State, u: Update, replies: Replies)
    requires Inv(st)
    requires var plan := Decide(cfg, st, u); plan.Drop? || plan.Replace? || plan.DropAndPanic? ==> u.prefix in st.routes
    ensures Inv(Execute(st, Decide(cfg, st, u), u, replies).st)
    ensures Execute(st, Decide(cfg, st, u), u, replies).st.vrfs.Keys == st.vrfs.Keys
  {
    PlanShape(cfg, st, u);
    match Decide(cfg, st, u)
    case Skip =>
    case Fresh(route) => AddFipKeeps(st, route, u.vrf, replies);
    case Drop => DelFipKeeps(st, u.prefix, u.vrf, replies);
    case DropAndPanic => DelFipKeeps(st, u.prefix, u.vrf, replies);
    case Replace(route) =>
      DelFipKeeps(st, u.prefix, u.vrf, replies);
      AddFipKeeps(DelFip(st, st.routes[u.prefix], u.vrf, replies), route, u.vrf, replies);
  }

  /** No event breaks the agreement: neither failures nor early returns do. */
  lemma StepKeepsInv(cfg: Config, st: State, e: Event)
    requires Inv(st)
    ensures Inv(Step(cfg, st, e).st) && Step(cfg, st, e).st.vrfs.Keys == st.vrfs.Keys
  {
    if e.FromFabric? {
      PlanShape(cfg, st, e.update);
      ExecuteKeepsInv(cfg, st, e.update, e.replies);
    }
  }

  /** In every state that agrees, the withdraw branch that reports a missing tunnel is dead. */
  lemma WithdrawFindsTunnel(st: State, u: Update)
    requires Inv(st) && Stored(st.routes, u.prefix, u.nextHop, u.mplsLabel)
    ensures u.nextHop in st.tunnels
  {
    assert BoundTo(st.routes[u.prefix], st.tunnels);
  }

  /** The handler panics on an update exactly when it relabels a next hop that is stored but not
      last, or when a physical-network update names an unknown VRF. */
  lemma CrashesExactly(cfg: Config, st: State, e: Event)
    requires Inv(st)
    ensures Step(cfg, st, e).Crashed? <==>
            match e
            case FromFabric(u, _) =>
              && KnownVrf(cfg, st, u.vrf) && !u.withdraw && cfg.isFloating(u.prefix) && u.prefix in st.routes
              && u.nextHop != NO_ADDRESS && u.mplsLabel != 0
              && exists i :: 0 <= i < |st.routes[u.prefix].nextHops| - 1
                   && st.routes[u.prefix].nextHops[i] == u.nextHop && st.routes[u.prefix].labels[i] != u.mplsLabel
            case FromNetwork(u, _) => !KnownVrf(cfg, st, u.vrf) || 0 !in st.vrfs
  {
    var u := e.update;
    if e.FromFabric? && u.prefix in st.routes {
      var r := st.routes[u.prefix];
      var i := IndexOf(r.nextHops, u.nextHop);
      if i < |r.nextHops| {
        assert forall j :: 0 <= j < |r.nextHops| && r.nextHops[j] == u.nextHop ==> j == i;
        assert Stored(st.routes, u.prefix, u.nextHop, u.mplsLabel) <==> r.labels[i] == u.mplsLabel;
      }
    }
  }

  // ---- Whole runs -------------------------------------------------------------------------

  /** The gateway processing a list of paths, one after the other, until it crashes. */
  ghost function Run(cfg: Config, st: State, es: seq<Event>): (o: Outcome)
    requires Inv(st)
    ensures Inv(o.st)
  {
    if es == [] then Running(st)
    else
      var before := Run(cfg, st, es[..|es|-1]);
      StepKeepsInv(cfg, before.st, es[|es|-1]);
      if before.Crashed? then before else Step(cfg, before.st, es[|es|-1])
  }

  /** The start: empty tables, zero counters, and VPP cleared of tunnels and floating routes. */
  ghost predicate Booted(st: State) {
    && st.routes == map[] && st.tunnels == map[] && st.log == []
    && (forall v :: v in st.vrfs ==> st.vrfs[v].served == 0)
    && st.vpp.fib == map[]
  }

  lemma BootedInv(st: State)
    requires Booted(st)
    ensures Inv(st)
  {
    forall v | v in st.vrfs ensures RoutesIn(st.routes, v) == {} {
    }
  }

  /** From the start, under every pattern of VPP and BGP failures and early returns: a tunnel
      counts the stored routes that use its next hop, a VRF counts the stored routes in it, and
      every path of every stored route carries the ID stored for its next hop, one that lives in
      VPP, however often that tunnel was destroyed and made anew. */
  lemma RunAgrees(cfg: Config, st: State, es: seq<Event>)
    requires Booted(st) && Inv(st)
    ensures var end := Run(cfg, st, es).st;
            && (forall nh :: nh in end.tunnels ==>
                  end.tunnels[nh].served == |set p | p in end.routes && nh in end.routes[p].nextHops|)
            && (forall v :: v in end.vrfs ==>
                  end.vrfs[v].served == |set p | p in end.routes && end.routes[p].vrf == v|)
            && (forall p, i :: p in end.routes && 0 <= i < |end.routes[p].nextHops| ==>
                  && |end.routes[p].nextHops| == |end.routes[p].tunnelIds| == |end.routes[p].labels|
                  && end.routes[p].nextHops[i] in end.tunnels
                  && end.routes[p].tunnelIds[i] == end.tunnels[end.routes[p].nextHops[i]].id
                  && end.routes[p].tunnelIds[i] in end.vpp.tunnels)
  {
    var end := Run(cfg, st, es).st;
    forall nh | nh in end.tunnels
      ensures end.tunnels[nh].served == |set p | p in end.routes && nh in end.routes[p].nextHops|
    {
      assert UsersOf(end.routes, nh) == set p | p in end.routes && nh in end.routes[p].nextHops;
    }
    forall v | v in end.vrfs ensures end.vrfs[v].served == |set p | p in end.routes && end.routes[p].vrf == v| {
      assert RoutesIn(end.routes, v) == set p | p in end.routes && end.routes[p].vrf == v;
    }
    forall p | p in end.routes ensures BoundTo(end.routes[p], end.tunnels) {
    }
  }
}
