/** A VPP that carries out every call: with it no list of updates ever meets a failure, so the theorems
    about runs without failures speak about every list of updates. */
module GatewayWilling {
  import opened Routes
  import opened GatewayState
  import opened GatewayProtocol
  import opened GatewayInvariant
  import opened GatewayMirror
  import opened GatewayFold

  /** One ID for each next hop. */
  ghost predicate Distinguishes(offers: map<Address, nat>) {
    && NO_ADDRESS !in offers
    && (forall nh :: nh in offers ==> offers[nh] != UNDEFINED_TUNNEL)
    && (forall a, b :: a in offers && b in offers && a != b ==> offers[a] != offers[b])
  }

  function Willing(offers: map<Address, nat>): Replies {
    Replies(true, true, offers, offers.Values, {})
  }

  /** Only tunnels with these IDs exist, and no call has failed. */
  ghost predicate Supplied(st: State, offers: map<Address, nat>) {
    && (forall nh :: nh in st.tunnels ==> nh in offers && st.tunnels[nh].id == offers[nh])
    && (forall id :: id in st.vpp.tunnels ==> exists nh :: nh in st.tunnels && offers[nh] == id)
    && AllOk(st.log)
  }

  // ---- Adding -----------------------------------------------------------------------------

  lemma BindOneSupplied(st: State, nh: Address, offers: map<Address, nat>)
    requires Distinguishes(offers) && Supplied(st, offers) && nh in offers
    ensures var (after, id) := BindOne(st, nh, Willing(offers)); id.Some? && Supplied(after, offers)
  {
    if nh !in st.tunnels {
      assert offers[nh] !in st.vpp.tunnels;
      var after := BindOne(st, nh, Willing(offers)).0;
      LoggedOk(st, TunnelAdd, true, after.vpp);
      forall id | id in after.vpp.tunnels
        ensures exists x :: x in after.tunnels && offers[x] == id
      {
        if id == offers[nh] {
          assert nh in after.tunnels;
        } else {
          var x :| x in st.tunnels && offers[x] == id;
          assert x in after.tunnels;
        }
      }
    }
  }

  lemma {:induction false} BindSupplied(st: State, nhs: seq<Address>, offers: map<Address, nat>)
    requires Distinguishes(offers) && Supplied(st, offers) && forall nh :: nh in nhs ==> nh in offers
    ensures var b := Bind(st, nhs, Willing(offers)); b.ok && Supplied(b.st, offers)
  {
    if nhs != [] {
      var n := |nhs| - 1;
      BindSupplied(st, nhs[..n], offers);
      BindOneSupplied(Bind(st, nhs[..n], Willing(offers)).st, nhs[n], offers);
    }
  }

  /** The table changed in its counters alone. */
  lemma SuppliedCounts(a: State, b: State, offers: map<Address, nat>)
    requires Supplied(a, offers) && AllOk(b.log) && b.vpp.tunnels == a.vpp.tunnels && b.tunnels.Keys == a.tunnels.Keys
    requires forall nh :: nh in a.tunnels ==> b.tunnels[nh].id == a.tunnels[nh].id
    ensures Supplied(b, offers)
  {
    forall id | id in b.vpp.tunnels
      ensures exists nh :: nh in b.tunnels && offers[nh] == id
    {
      var nh :| nh in a.tunnels && offers[nh] == id;
      assert nh in b.tunnels;
    }
  }

  lemma SendSupplied(st: State, r: Route, offers: map<Address, nat>)
    requires Inv(st) && r.Shaped() && BoundTo(r, st.tunnels) && Supplied(st, offers)
    ensures var (sent, ok) := SendRoute(st, true, r, Willing(offers));
            ok && sent.routes == st.routes && Supplied(CountIn(sent, r), offers)
  {
    assert UNDEFINED_TUNNEL !in r.tunnelIds;
    var sent := SendRoute(st, true, r, Willing(offers)).0;
    LoggedOk(st, RouteAdd, true, sent.vpp);
    IncAllAt(sent.tunnels, r.nextHops);
    SuppliedCounts(st, CountIn(sent, r), offers);
  }

  lemma InstallSupplied(st: State, r: Route, vrf: nat, offers: map<Address, nat>)
    requires Inv(st) && r.Shaped() && BoundTo(r, st.tunnels) && Supplied(st, offers)
    ensures var after := Install(st, r, vrf, Willing(offers));
            Supplied(after, offers) && after.routes == st.routes[r.prefix := r]
  {
    SendSupplied(st, r, offers);
    var counted := CountIn(SendRoute(st, true, r, Willing(offers)).0, r);
    SuppliedCounts(counted, AdvertiseIfFew(counted, r.vrf, vrf, Willing(offers)), offers);
  }

  lemma AddFipSupplied(st: State, r: Route, vrf: nat, offers: map<Address, nat>) returns (ids: seq<nat>)
    requires Inv(st) && r.Shaped() && r.prefix !in st.routes && r.vrf in st.vrfs
    requires Distinguishes(offers) && Supplied(st, offers) && forall nh :: nh in r.nextHops ==> nh in offers
    ensures var after := AddFip(st, r, vrf, Willing(offers));
            Supplied(after, offers) && after.routes == st.routes[r.prefix := r.(tunnelIds := ids)]
  {
    BindSupplied(st, r.nextHops, offers);
    BindKeeps(st, r.nextHops, Willing(offers));
    var bound := Bind(st, r.nextHops, Willing(offers));
    ids := bound.ids;
    InstallSupplied(bound.st, r.(tunnelIds := ids), vrf, offers);
  }

  // ---- Deleting ---------------------------------------------------------------------------

  lemma CollectOneSupplied(st: State, nh: Address, id: nat, offers: map<Address, nat>)
    requires Distinguishes(offers) && Supplied(st, offers) && nh in st.tunnels && st.tunnels[nh].id == id
    ensures Supplied(CollectOne(st, nh, id, Willing(offers)), offers)
  {
    if TunnelServed(st.tunnels, nh) == 0 {
      var after := CollectOne(st, nh, id, Willing(offers));
      assert id in offers.Values;
      LoggedOk(st, TunnelDelete, true, after.vpp);
      forall x | x in after.vpp.tunnels
        ensures exists y :: y in after.tunnels && offers[y] == x
      {
        var y :| y in st.tunnels && offers[y] == x;
        assert y in after.tunnels;
      }
    }
  }

  lemma {:induction false} CollectSupplied(st: State, nhs: seq<Address>, ids: seq<nat>, offers: map<Address, nat>)
    requires Inv(st) && DistinctKeys(nhs) && IdsOf(ids, nhs, st.tunnels)
    requires Distinguishes(offers) && Supplied(st, offers)
    ensures Supplied(Collect(st, nhs, ids, Willing(offers)), offers)
  {
    if nhs != [] {
      var n := |nhs| - 1;
      InSnoc(nhs);
      CollectSupplied(st, nhs[..n], ids[..n], offers);
      CollectKeeps(st, nhs[..n], ids[..n], Willing(offers));
      CollectOneSupplied(Collect(st, nhs[..n], ids[..n], Willing(offers)), nhs[n], ids[n], offers);
    }
  }

  lemma CountOutSupplied(st: State, p: Address, offers: map<Address, nat>)
    requires Inv(st) && p in st.routes && Supplied(st, offers)
    ensures var sent := SendRoute(st, false, st.routes[p], Willing(offers)).0;
            Inv(sent) && sent.routes == st.routes && Supplied(CountOut(sent, st.routes[p]), offers)
  {
    var r := st.routes[p];
    var sent := SendRoute(st, false, r, Willing(offers)).0;
    StoredIsDefined(st, p);
    LoggedOk(st, RouteDelete, true, sent.vpp);
    SendRouteFrame(st, false, r, Willing(offers));
    GuardsNeverFire(sent, p);
    DecAllAt(sent.tunnels, r.nextHops);
    SuppliedCounts(st, CountOut(sent, r), offers);
  }

  lemma DelFipSupplied(st: State, p: Address, vrf: nat, offers: map<Address, nat>)
    requires Inv(st) && p in st.routes && Distinguishes(offers) && Supplied(st, offers)
    ensures Supplied(DelFip(st, st.routes[p], vrf, Willing(offers)), offers)
  {
    var r := st.routes[p];
    var sent := SendRoute(st, false, r, Willing(offers)).0;
    CountOutSupplied(st, p, offers);
    CountOutKeeps(sent, p);
    var out := CountOut(sent, r);
    CollectSupplied(out, r.nextHops, r.tunnelIds, offers);
    var collected := Collect(out, r.nextHops, r.tunnelIds, Willing(offers));
    SuppliedCounts(collected, WithdrawIfLast(collected, r.vrf, vrf, Willing(offers)), offers);
  }

  // ---- Events and runs --------------------------------------------------------------------

  /** VPP is willing, and has an ID for the update's next hop, if it has one. */
  ghost predicate WillingFor(e: Event, offers: map<Address, nat>) {
    e.FromFabric? ==>
      e.replies == Willing(offers) && (e.update.nextHop == NO_ADDRESS || e.update.nextHop in offers)
  }

  /** The route to be added has next hops of the stored one and the update's. */
  lemma PlanSupplied(cfg: Config, st: State, u: Update, offers: map<Address, nat>)
    requires Inv(st) && Supplied(st, offers) && (u.nextHop == NO_ADDRESS || u.nextHop in offers)
    ensures var plan := Decide(cfg, st, u);
            plan.Replace? || (plan.Fresh? && u.nextHop != NO_ADDRESS) ==>
              forall nh :: nh in plan.route.nextHops ==> nh in offers
  {
    if u.prefix in st.routes {
      var r := st.routes[u.prefix];
      assert BoundTo(r, st.tunnels);
      assert forall nh :: nh in r.nextHops ==> nh in offers;
      var i := IndexOf(r.nextHops, u.nextHop);
      assert i < |r.nextHops| ==> forall nh :: nh in Without(r.nextHops, i) ==> nh in r.nextHops;
    }
  }

  lemma StepSupplied(cfg: Config, st: State, e: Event, offers: map<Address, nat>)
    requires Inv(st) && Distinguishes(offers) && Supplied(st, offers) && WillingFor(e, offers)
    ensures Supplied(Step(cfg, st, e).st, offers)
  {
    if e.FromFabric? {
      var u := e.update;
      PlanShape(cfg, st, u);
      PlanSupplied(cfg, st, u, offers);
      match Decide(cfg, st, u)
      case Skip =>
      case Fresh(route) =>
        if u.nextHop == NO_ADDRESS {
          EmptyHopIgnored(st, u, Willing(offers));
        } else {
          var _ := AddFipSupplied(st, route, u.vrf, offers);
        }
      case Drop => DelFipSupplied(st, u.prefix, u.vrf, offers);
      case DropAndPanic => DelFipSupplied(st, u.prefix, u.vrf, offers);
      case Replace(route) =>
        DelFipKeeps(st, u.prefix, u.vrf, Willing(offers));
        DelFipSupplied(st, u.prefix, u.vrf, offers);
        var _ := AddFipSupplied(DelFip(st, st.routes[u.prefix], u.vrf, Willing(offers)), route, u.vrf, offers);
    }
  }

  /** With a willing VPP no call of any run fails. */
  lemma {:induction false} RunSupplied(cfg: Config, st: State, es: seq<Event>, offers: map<Address, nat>)
    requires Inv(st) && Distinguishes(offers) && Supplied(st, offers)
    requires forall i :: 0 <= i < |es| ==> WillingFor(es[i], offers)
    ensures Supplied(Run(cfg, st, es).st, offers)
    decreases |es|
  {
    if es != [] {
      var n := |es| - 1;
      RunSupplied(cfg, st, es[..n], offers);
      StepSupplied(cfg, Run(cfg, st, es[..n]).st, es[n], offers);
    }
  }

  /** From the start, whatever the updates: with a willing VPP only the panic of `AddPath` can keep the
      tables from being the fold of the updates. */
  lemma WillingRunIsFold(cfg: Config, st: State, es: seq<Event>, offers: map<Address, nat>)
    requires Booted(st) && Inv(st) && st.vpp.tunnels == {} && Distinguishes(offers)
    requires forall i :: 0 <= i < |es| ==> WillingFor(es[i], offers)
    ensures AllOk(Run(cfg, st, es).st.log)
    ensures Run(cfg, st, es).Running? ==>
              var end := Run(cfg, st, es).st;
              BookOf(end.routes) == Fold(cfg, st.vrfs.Keys, map[], es) && FibIs(end, Fold(cfg, st.vrfs.Keys, map[], es))
  {
    RunSupplied(cfg, st, es, offers);
    if Run(cfg, st, es).Running? {
      RunIsFold(cfg, st, es);
    }
  }
}
