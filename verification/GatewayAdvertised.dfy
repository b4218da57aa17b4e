/** Which VPNv4 prefixes the gateway originates: the aggregates of every VRF that serves some
    floating IP, and the prefixes learned from the physical network. */
module GatewayAdvertised {
  import opened Routes
  import opened GatewayState
  import opened GatewayProtocol
  import opened GatewayInvariant
  import opened GatewayMirror
  import opened GatewayFold
  import opened GatewayRebind

  /** Aggregates of the VRFs whose count is above zero, keyed by VRF (the route distinguisher). */
  ghost function Due(vrfs: map<nat, Vrf>): set<(nat, Address)> {
    set v, a | v in vrfs && a in vrfs[v].aggregates && vrfs[v].served > 0 :: (v, a)
  }

  /** What the physical network has announced and not withdrawn. */
  function Learn(learned: set<(nat, Address)>, e: Event): set<(nat, Address)> {
    if e.FromFabric? then learned
    else if e.update.withdraw then learned - {(e.update.vrf, e.update.prefix)}
    else learned + {(e.update.vrf, e.update.prefix)}
  }

  function Learned(es: seq<Event>): set<(nat, Address)> {
    if es == [] then {} else Learn(Learned(es[..|es|-1]), es[|es|-1])
  }

  ghost predicate Advertised(st: State, learned: set<(nat, Address)>) {
    st.originated == Due(st.vrfs) + learned
  }

  /** A physical-network prefix and an aggregate of the same VRF share one VPNv4 prefix. */
  ghost predicate Apart(vrfs: map<nat, Vrf>, learned: set<(nat, Address)>) {
    forall v, a :: (v, a) in learned && v in vrfs ==> a !in vrfs[v].aggregates
  }

  /** The configured part of the VRF table never changes. */
  ghost predicate SameAggregates(a: map<nat, Vrf>, b: map<nat, Vrf>) {
    a.Keys == b.Keys && forall v :: v in a ==> b[v].aggregates == a[v].aggregates
  }

  // ---- One counter step -------------------------------------------------------------------

  lemma DueDec(vrfs: map<nat, Vrf>, v: nat)
    requires v in vrfs && vrfs[v].served > 0
    ensures var after := VrfDec(vrfs, v);
            && SameAggregates(vrfs, after)
            && Due(after) == if vrfs[v].served == 1 then Due(vrfs) - Pairs(v, vrfs[v].aggregates) else Due(vrfs)
  {
  }

  lemma DueInc(vrfs: map<nat, Vrf>, v: nat)
    requires v in vrfs
    ensures var after := VrfInc(vrfs, v);
            && SameAggregates(vrfs, after)
            && Due(after) == if vrfs[v].served == 0 then Due(vrfs) + Pairs(v, vrfs[v].aggregates) else Due(vrfs)
  {
  }

  ghost function Pairs(v: nat, aggregates: seq<Address>): set<(nat, Address)> {
    set a | a in aggregates :: (v, a)
  }

  // ---- The two operations -----------------------------------------------------------------

  /** What deleting a stored route does to counters and originated prefixes, when BGP accepts. */
  lemma DelFipOriginates(st: State, p: Address, vrf: nat, replies: Replies)
    requires Inv(st) && p in st.routes && replies.refused == {} && vrf in st.vrfs
    ensures var after, v := DelFip(st, st.routes[p], vrf, replies), st.routes[p].vrf;
            && v in st.vrfs && st.vrfs[v].served > 0
            && after.vrfs == VrfDec(st.vrfs, v)
            && after.originated ==
               if st.vrfs[v].served == 1 then st.originated - Pairs(vrf, st.vrfs[vrf].aggregates) else st.originated
  {
    var r := st.routes[p];
    var sent := SendRoute(st, false, r, replies).0;
    SendRouteFrame(st, false, r, replies);
    CountOutKeeps(sent, p);
    GuardsNeverFire(st, p);
    CollectKeeps(CountOut(sent, r), r.nextHops, r.tunnelIds, replies);
    assert (set a | a in st.vrfs[vrf].aggregates && (false, a) !in replies.refused :: (vrf, a))
        == Pairs(vrf, st.vrfs[vrf].aggregates);
  }

  /** What adding a route does: nothing, or count it and advertise unless three are served. */
  lemma AddFipOriginates(st: State, r: Route, vrf: nat, replies: Replies)
    requires Inv(st) && r.Shaped() && r.prefix !in st.routes && r.vrf in st.vrfs
    requires replies.refused == {} && vrf in st.vrfs
    ensures var after := AddFip(st, r, vrf, replies);
            if r.prefix in after.routes then
              && after.vrfs == VrfInc(st.vrfs, r.vrf)
              && after.originated ==
                 if st.vrfs[r.vrf].served >= 2 then st.originated
                 else st.originated + Pairs(vrf, st.vrfs[vrf].aggregates)
            else after.vrfs == st.vrfs && after.originated == st.originated
  {
    BindKeeps(st, r.nextHops, replies);
    var bound := Bind(st, r.nextHops, replies);
    if bound.ok {
      SendRouteFrame(bound.st, true, r.(tunnelIds := bound.ids), replies);
      AcceptedPairs(st.originated, vrf, st.vrfs[vrf].aggregates, replies);
    }
  }

  lemma AcceptedPairs(originated: set<(nat, Address)>, vrf: nat, aggregates: seq<Address>, replies: Replies)
    requires replies.refused == {}
    ensures Advertise(originated, vrf, aggregates, replies) == originated + Pairs(vrf, aggregates)
  {
  }

  /** The "> 2" threshold never skips the step from none to one: a skipped advertisement is one
      whose aggregates are originated already. */
  lemma AddFipAdvertises(st: State, r: Route, replies: Replies, learned: set<(nat, Address)>)
    requires Inv(st) && r.Shaped() && r.prefix !in st.routes && r.vrf in st.vrfs
    requires replies.refused == {} && Advertised(st, learned)
    ensures var after := AddFip(st, r, r.vrf, replies);
            Advertised(after, learned) && SameAggregates(st.vrfs, after.vrfs)
  {
    AddFipOriginates(st, r, r.vrf, replies);
    DueInc(st.vrfs, r.vrf);
    if st.vrfs[r.vrf].served > 0 {
      DueHasPairs(st.vrfs, r.vrf);
    }
  }

  lemma DueHasPairs(vrfs: map<nat, Vrf>, v: nat)
    requires v in vrfs && vrfs[v].served > 0
    ensures Pairs(v, vrfs[v].aggregates) <= Due(vrfs)
  {
  }

  /** No aggregate of `v` was learned from the physical network. */
  ghost predicate NoneLearned(vrfs: map<nat, Vrf>, v: nat, learned: set<(nat, Address)>)
    requires v in vrfs
  {
    forall a :: a in vrfs[v].aggregates ==> (v, a) !in learned
  }

  ghost predicate AllLearned(vrfs: map<nat, Vrf>, v: nat, learned: set<(nat, Address)>)
    requires v in vrfs
  {
    forall a :: a in vrfs[v].aggregates ==> (v, a) in learned
  }

  /** Deleting a route under its own VRF keeps the originated set right exactly when the VRF serves
      another route or none of its aggregates was learned from the physical network as well. */
  lemma DelFipAdvertises(st: State, p: Address, replies: Replies, learned: set<(nat, Address)>)
    requires Inv(st) && p in st.routes && replies.refused == {} && Advertised(st, learned)
    ensures st.routes[p].vrf in st.vrfs
    ensures var after, v := DelFip(st, st.routes[p], st.routes[p].vrf, replies), st.routes[p].vrf;
            && SameAggregates(st.vrfs, after.vrfs)
            && (Advertised(after, learned) <==> st.vrfs[v].served > 1 || NoneLearned(st.vrfs, v, learned))
  {
    DeleteAdvertises(st, p, st.routes[p].vrf, replies, learned);
  }

  // ---- An update of a stored route --------------------------------------------------------

  /** The update of a route stored under VRF `v` arrives with VRF `u`: counters move on `v`, aggregates
      of `u` are announced or withdrawn. The originated set is still right exactly in these cases,
      `readded` telling whether the route comes back. */
  ghost predicate MovesHarmlessly(vrfs: map<nat, Vrf>, learned: set<(nat, Address)>, v: nat, u: nat, readded: bool)
    requires v in vrfs && u in vrfs
  {
    if readded then vrfs[v].served >= 3 || vrfs[u].served > 0 || AllLearned(vrfs, u, learned)
    else if vrfs[v].served >= 2 then true
    else if u == v then NoneLearned(vrfs, v, learned)
    else
      && AllLearned(vrfs, v, learned) && NoneLearned(vrfs, u, learned)
      && (vrfs[u].aggregates == [] || vrfs[u].served == 0)
  }

  /** Withdrawing the pairs of the VRF that stops serving. */
  lemma WithdrawOwn(vrfs: map<nat, Vrf>, v: nat, learned: set<(nat, Address)>)
    requires v in vrfs
    ensures (Due(vrfs) + learned) - Pairs(v, vrfs[v].aggregates) == (Due(vrfs) - Pairs(v, vrfs[v].aggregates)) + learned
            <==> NoneLearned(vrfs, v, learned)
  {
    var gone := Pairs(v, vrfs[v].aggregates);
    if (Due(vrfs) + learned) - gone == (Due(vrfs) - gone) + learned {
      forall a | a in vrfs[v].aggregates ensures (v, a) !in learned {
        assert (v, a) in gone && (v, a) !in (Due(vrfs) + learned) - gone;
      }
    }
  }

  /** Withdrawing the pairs of another VRF instead. */
  lemma WithdrawOther(vrfs: map<nat, Vrf>, v: nat, u: nat, learned: set<(nat, Address)>)
    requires v in vrfs && u in vrfs && u != v && vrfs[v].served > 0
    ensures (Due(vrfs) + learned) - Pairs(u, vrfs[u].aggregates) == (Due(vrfs) - Pairs(v, vrfs[v].aggregates)) + learned
            <==> && AllLearned(vrfs, v, learned) && NoneLearned(vrfs, u, learned)
                 && (vrfs[u].aggregates == [] || vrfs[u].served == 0)
  {
    var kept, right := (Due(vrfs) + learned) - Pairs(u, vrfs[u].aggregates),
                       (Due(vrfs) - Pairs(v, vrfs[v].aggregates)) + learned;
    if kept == right {
      forall a | a in vrfs[v].aggregates ensures (v, a) in learned {
        assert (v, a) in kept;
      }
      forall a | a in vrfs[u].aggregates ensures (u, a) !in learned && vrfs[u].served == 0 {
        assert (u, a) !in kept;
        assert (u, a) !in Pairs(v, vrfs[v].aggregates);
      }
      assert vrfs[u].aggregates == [] || vrfs[u].aggregates[0] in vrfs[u].aggregates;
    }
  }

  lemma DeleteAdvertises(st: State, p: Address, u: nat, replies: Replies, learned: set<(nat, Address)>)
    requires Inv(st) && p in st.routes && u in st.vrfs && replies.refused == {} && Advertised(st, learned)
    ensures st.routes[p].vrf in st.vrfs
    ensures var after := DelFip(st, st.routes[p], u, replies);
            && SameAggregates(st.vrfs, after.vrfs)
            && (Advertised(after, learned) <==> MovesHarmlessly(st.vrfs, learned, st.routes[p].vrf, u, false))
  {
    var v := st.routes[p].vrf;
    DelFipOriginates(st, p, u, replies);
    DueDec(st.vrfs, v);
    if u == v {
      WithdrawOwn(st.vrfs, v, learned);
    } else {
      WithdrawOther(st.vrfs, v, u, learned);
    }
  }

  /** Announcing all aggregates of `u` is right exactly when they are due or learned. */
  lemma PairsDue(vrfs: map<nat, Vrf>, learned: set<(nat, Address)>, u: nat)
    requires u in vrfs
    ensures Due(vrfs) + learned + Pairs(u, vrfs[u].aggregates) == Due(vrfs) + learned <==>
            vrfs[u].served > 0 || AllLearned(vrfs, u, learned)
  {
    if Due(vrfs) + learned + Pairs(u, vrfs[u].aggregates) == Due(vrfs) + learned {
      forall a | a in vrfs[u].aggregates ensures vrfs[u].served > 0 || (u, a) in learned {
        assert (u, a) in Pairs(u, vrfs[u].aggregates);
      }
    }
    if vrfs[u].served > 0 {
      DueHasPairs(vrfs, u);
    }
  }

  /** Deleting and re-adding moves the counter of the stored VRF down and up again. */
  lemma DecInc(vrfs: map<nat, Vrf>, v: nat)
    requires v in vrfs && vrfs[v].served > 0
    ensures VrfInc(VrfDec(vrfs, v), v) == vrfs && VrfDec(vrfs, v)[v].served == vrfs[v].served - 1
    ensures SameAggregates(vrfs, VrfDec(vrfs, v))
  {
  }

  lemma ReAddOriginates(st: State, p: Address, u: nat, route: Route, replies: Replies)
    requires Inv(st) && p in st.routes && u in st.vrfs && replies.refused == {}
    requires route.Shaped() && route.prefix == p && route.vrf == st.routes[p].vrf
    ensures route.vrf in st.vrfs
    ensures var deleted := DelFip(st, st.routes[p], u, replies);
            var after := AddFip(deleted, route, u, replies);
            if p in after.routes then
              && after.vrfs == st.vrfs
              && after.originated ==
                 if st.vrfs[route.vrf].served >= 3 then st.originated
                 else st.originated + Pairs(u, st.vrfs[u].aggregates)
            else after.vrfs == deleted.vrfs && after.originated == deleted.originated
  {
    var v := st.routes[p].vrf;
    DelFipKeeps(st, p, u, replies);
    DelFipOriginates(st, p, u, replies);
    DecInc(st.vrfs, v);
    AddFipOriginates(DelFip(st, st.routes[p], u, replies), route, u, replies);
  }

  lemma ReplaceAdvertises(st: State, p: Address, u: nat, route: Route, replies: Replies, learned: set<(nat, Address)>)
    requires Inv(st) && p in st.routes && u in st.vrfs && replies.refused == {} && Advertised(st, learned)
    requires route.Shaped() && route.prefix == p && route.vrf == st.routes[p].vrf
    ensures st.routes[p].vrf in st.vrfs
    ensures var after := AddFip(DelFip(st, st.routes[p], u, replies), route, u, replies);
            && SameAggregates(st.vrfs, after.vrfs)
            && (Advertised(after, learned) <==>
                MovesHarmlessly(st.vrfs, learned, st.routes[p].vrf, u, p in after.routes))
  {
    ReAddOriginates(st, p, u, route, replies);
    PairsDue(st.vrfs, learned, u);
    DeleteAdvertises(st, p, u, replies, learned);
  }

  // ---- Whether a deleted route comes back -------------------------------------------------

  /** The update edits the stored route, VPP takes the new one, and every next hop that then lacks a
      tunnel is offered one. */
  ghost predicate Readds(cfg: Config, st: State, u: Update, replies: Replies)
    requires Inv(st) && u.prefix in st.routes
  {
    && Decide(cfg, st, u).Replace? && replies.routeAdd
    && Rebinds(st, u.prefix, Decide(cfg, st, u).route.nextHops, replies)
  }

  /** Adding stores the route exactly when every next hop gets a tunnel and VPP takes the route. */
  lemma AddFipStores(st: State, r: Route, vrf: nat, replies: Replies)
    requires Inv(st) && r.Shaped() && r.prefix !in st.routes && r.vrf in st.vrfs
    ensures r.prefix in AddFip(st, r, vrf, replies).routes <==> Bind(st, r.nextHops, replies).ok && replies.routeAdd
  {
    BindKeeps(st, r.nextHops, replies);
    var bound := Bind(st, r.nextHops, replies);
    if bound.ok {
      var route := r.(tunnelIds := bound.ids);
      assert UNDEFINED_TUNNEL !in route.tunnelIds;
      SendKeeps(bound.st, route, vrf, replies);
    }
  }

  lemma ReaddsExactly(cfg: Config, st: State, u: Update, replies: Replies)
    requires Inv(st) && u.prefix in st.routes && !Decide(cfg, st, u).Skip?
    ensures u.prefix in Step(cfg, st, FromFabric(u, replies)).st.routes <==> Readds(cfg, st, u, replies)
  {
    PlanShape(cfg, st, u);
    DelFipKeeps(st, u.prefix, u.vrf, replies);
    if Decide(cfg, st, u).Replace? {
      var q := Decide(cfg, st, u).route;
      AddFipStores(DelFip(st, st.routes[u.prefix], u.vrf, replies), q, u.vrf, replies);
      RebindsExactly(st, u.prefix, u.vrf, q.nextHops, replies);
    }
  }

  /** If VPP carries out every call, that is whenever the update edits the route. */
  lemma ReaddsIfOk(cfg: Config, st: State, u: Update, replies: Replies)
    requires Inv(st) && u.prefix in st.routes && Decide(cfg, st, u).Replace?
    requires AllOk(Step(cfg, st, FromFabric(u, replies)).st.log)
    ensures Readds(cfg, st, u, replies)
  {
    var q := Decide(cfg, st, u).route;
    PlanShape(cfg, st, u);
    PlanHops(cfg, st, u);
    DelFipKeeps(st, u.prefix, u.vrf, replies);
    AddFipIfOk(DelFip(st, st.routes[u.prefix], u.vrf, replies), q, u.vrf, replies);
    RebindsExactly(st, u.prefix, u.vrf, q.nextHops, replies);
  }

  lemma AddFipIfOk(st: State, r: Route, vrf: nat, replies: Replies)
    requires Inv(st) && r.Shaped() && NO_ADDRESS !in r.nextHops && AllOk(AddFip(st, r, vrf, replies).log)
    ensures Bind(st, r.nextHops, replies).ok && replies.routeAdd
  {
    BindExact(st, r.nextHops, replies);
    BindKeeps(st, r.nextHops, replies);
    var bound := Bind(st, r.nextHops, replies);
    if bound.ok {
      var route := r.(tunnelIds := bound.ids);
      assert UNDEFINED_TUNNEL !in route.tunnelIds;
      LoggedOk(bound.st, RouteAdd, replies.routeAdd, SendRoute(bound.st, true, route, replies).0.vpp);
    }
  }

  // ---- Events -----------------------------------------------------------------------------

  /** An event keeps the originated set right. For an update of a stored route see
      `MovesHarmlessly`; a network path must not withdraw an aggregate that is due. */
  ghost predicate Harmless(cfg: Config, st: State, e: Event, learned: set<(nat, Address)>)
    requires Inv(st)
  {
    var u := e.update;
    KnownVrf(cfg, st, u.vrf) ==>
      match e
      case FromFabric(_, replies) =>
        u.prefix in st.routes && !Decide(cfg, st, u).Skip? ==>
          MovesHarmlessly(st.vrfs, learned, st.routes[u.prefix].vrf, u.vrf, Readds(cfg, st, u, replies))
      case FromNetwork(_, _) =>
        !(u.withdraw && u.prefix in st.vrfs[u.vrf].aggregates && st.vrfs[u.vrf].served > 0)
  }

  /** The exact condition for an update from Tungsten Fabric. */
  lemma FabricAdvertises(cfg: Config, st: State, u: Update, replies: Replies, learned: set<(nat, Address)>)
    requires Inv(st) && replies.refused == {} && Advertised(st, learned)
    ensures var e := FromFabric(u, replies);
            var after := Step(cfg, st, e).st;
            SameAggregates(st.vrfs, after.vrfs) && (Advertised(after, learned) <==> Harmless(cfg, st, e, learned))
  {
    PlanShape(cfg, st, u);
    if u.prefix in st.routes && !Decide(cfg, st, u).Skip? {
      ReaddsExactly(cfg, st, u, replies);
      StoredAdvertises(cfg, st, u, replies, learned);
    } else if Decide(cfg, st, u).Fresh? {
      AddFipAdvertises(st, Decide(cfg, st, u).route, replies, learned);
    }
  }

  lemma StoredAdvertises(cfg: Config, st: State, u: Update, replies: Replies, learned: set<(nat, Address)>)
    requires Inv(st) && u.prefix in st.routes && replies.refused == {} && Advertised(st, learned)
    requires !Decide(cfg, st, u).Skip?
    ensures st.routes[u.prefix].vrf in st.vrfs && u.vrf in st.vrfs
    ensures var after := Step(cfg, st, FromFabric(u, replies)).st;
            && SameAggregates(st.vrfs, after.vrfs)
            && (Advertised(after, learned) <==>
                MovesHarmlessly(st.vrfs, learned, st.routes[u.prefix].vrf, u.vrf, u.prefix in after.routes))
  {
    PlanShape(cfg, st, u);
    DelFipKeeps(st, u.prefix, u.vrf, replies);
    match Decide(cfg, st, u)
    case Drop => DeleteAdvertises(st, u.prefix, u.vrf, replies, learned);
    case DropAndPanic => DeleteAdvertises(st, u.prefix, u.vrf, replies, learned);
    case Replace(route) => ReplaceAdvertises(st, u.prefix, u.vrf, route, replies, learned);
  }

  /** An update that finds its prefix stored under another VRF keeps the originated set right exactly
      when the move is harmless; if VPP succeeds the route comes back whenever the update edits it. */
  lemma MovedUpdateExactly(cfg: Config, st: State, u: Update, replies: Replies, learned: set<(nat, Address)>)
    requires Inv(st) && u.prefix in st.routes && u.vrf != st.routes[u.prefix].vrf && replies.refused == {}
    requires Advertised(st, learned) && !Decide(cfg, st, u).Skip?
    ensures st.routes[u.prefix].vrf in st.vrfs && u.vrf in st.vrfs
    ensures var after, v := Step(cfg, st, FromFabric(u, replies)).st, st.routes[u.prefix].vrf;
            && (Advertised(after, learned) <==>
                MovesHarmlessly(st.vrfs, learned, v, u.vrf, Readds(cfg, st, u, replies)))
            && (AllOk(after.log) ==>
                (Advertised(after, learned) <==>
                 MovesHarmlessly(st.vrfs, learned, v, u.vrf, Decide(cfg, st, u).Replace?)))
  {
    ReaddsExactly(cfg, st, u, replies);
    StoredAdvertises(cfg, st, u, replies, learned);
    if Decide(cfg, st, u).Replace? && AllOk(Step(cfg, st, FromFabric(u, replies)).st.log) {
      ReaddsIfOk(cfg, st, u, replies);
    }
  }

  /** The exact condition for a path from the physical network. */
  lemma NetworkAdvertises(cfg: Config, st: State, u: Update, replies: Replies, learned: set<(nat, Address)>)
    requires Inv(st) && KnownVrf(cfg, st, u.vrf) && 0 in st.vrfs && replies.refused == {} && Advertised(st, learned)
    ensures var o := Step(cfg, st, FromNetwork(u, replies));
            && o.Running? && o.st.vrfs == st.vrfs
            && (Advertised(o.st, Learn(learned, FromNetwork(u, replies))) <==>
                !(u.withdraw && u.prefix in st.vrfs[u.vrf].aggregates && st.vrfs[u.vrf].served > 0))
            && SameAggregates(st.vrfs, o.st.vrfs)
  {
    var o := NetworkPath(cfg, st, u, replies);
    var key := (u.vrf, u.prefix);
    assert (set a | a in [u.prefix] && (u.withdraw, a) !in replies.refused :: (u.vrf, a)) == {key};
    assert o.st.originated == if u.withdraw then st.originated - {key} else st.originated + {key};
    if u.withdraw {
      assert key in Due(st.vrfs) <==> u.prefix in st.vrfs[u.vrf].aggregates && st.vrfs[u.vrf].served > 0;
      if key !in Due(st.vrfs) {
        assert (Due(st.vrfs) + learned) - {key} == Due(st.vrfs) + (learned - {key});
      } else {
        assert key !in o.st.originated;
      }
    } else {
      assert (Due(st.vrfs) + learned) + {key} == Due(st.vrfs) + (learned + {key});
    }
  }

  // ---- Runs -------------------------------------------------------------------------------

  /** BGP accepts every request of the run. */
  ghost predicate Accepted(es: seq<Event>) {
    forall i :: 0 <= i < |es| ==> es[i].replies.refused == {}
  }

  /** Every event of the run is harmless as it arrives. */
  ghost predicate HarmlessRun(cfg: Config, st: State, es: seq<Event>)
    requires Inv(st)
  {
    es != [] ==>
      var before := es[..|es|-1];
      HarmlessRun(cfg, st, before) && Harmless(cfg, Run(cfg, st, before).st, es[|es|-1], Learned(before))
  }

  /** The originated set is right at the start and after every event of the run. */
  ghost predicate AlwaysAdvertised(cfg: Config, st: State, es: seq<Event>)
    requires Inv(st)
  {
    && Advertised(Run(cfg, st, es).st, Learned(es))
    && (es != [] ==> AlwaysAdvertised(cfg, st, es[..|es|-1]))
  }

  lemma StepAdvertises(cfg: Config, st: State, e: Event, learned: set<(nat, Address)>)
    requires Inv(st) && e.replies.refused == {} && Advertised(st, learned) && Step(cfg, st, e).Running?
    ensures var after := Step(cfg, st, e).st;
            && SameAggregates(st.vrfs, after.vrfs)
            && (Advertised(after, Learn(learned, e)) <==> Harmless(cfg, st, e, learned))
  {
    if e.FromFabric? {
      FabricAdvertises(cfg, st, e.update, e.replies, learned);
    } else {
      NetworkAdvertises(cfg, st, e.update, e.replies, learned);
    }
  }

  /** Whatever VPP refuses: the originated set is right after every event of a run exactly when every
      event is harmless as it arrives. */
  lemma {:induction false} AlwaysAdvertisedExactly(cfg: Config, st: State, es: seq<Event>)
    requires Inv(st) && Advertised(st, {}) && Accepted(es) && Run(cfg, st, es).Running?
    ensures AlwaysAdvertised(cfg, st, es) <==> HarmlessRun(cfg, st, es)
    ensures HarmlessRun(cfg, st, es) ==> SameAggregates(st.vrfs, Run(cfg, st, es).st.vrfs)
    decreases |es|
  {
    if es != [] {
      var n := |es| - 1;
      AlwaysAdvertisedExactly(cfg, st, es[..n]);
      var before := Run(cfg, st, es[..n]).st;
      if HarmlessRun(cfg, st, es[..n]) {
        StepAdvertises(cfg, before, es[n], Learned(es[..n]));
      }
    }
  }

  lemma RunAdvertises(cfg: Config, st: State, es: seq<Event>)
    requires Inv(st) && Advertised(st, {}) && Accepted(es) && HarmlessRun(cfg, st, es) && Run(cfg, st, es).Running?
    ensures var end := Run(cfg, st, es).st;
            Advertised(end, Learned(es)) && SameAggregates(st.vrfs, end.vrfs)
  {
    AlwaysAdvertisedExactly(cfg, st, es);
  }

  /** From the start, over any harmless run, whatever VPP refuses: the originated prefixes are the
      aggregates of the VRFs that serve a stored route and the learned prefixes, no others. */
  lemma OriginatedExactly(cfg: Config, st: State, es: seq<Event>)
    requires Booted(st) && st.originated == {} && Inv(st)
    requires Accepted(es) && HarmlessRun(cfg, st, es) && Run(cfg, st, es).Running?
    ensures var end := Run(cfg, st, es).st;
            forall v, a :: (v, a) in end.originated <==>
              || (v, a) in Learned(es)
              || (v in st.vrfs && a in st.vrfs[v].aggregates && exists p :: p in end.routes && end.routes[p].vrf == v)
  {
    RunAdvertises(cfg, st, es);
    var end := Run(cfg, st, es).st;
    forall v, a ensures (v, a) in Due(end.vrfs) <==>
      v in st.vrfs && a in st.vrfs[v].aggregates && exists p :: p in end.routes && end.routes[p].vrf == v
    {
      if v in end.vrfs {
        ServesSome(end, v);
      }
    }
  }

  lemma ServesSome(st: State, v: nat)
    requires Inv(st) && v in st.vrfs
    ensures st.vrfs[v].served > 0 <==> exists p :: p in st.routes && st.routes[p].vrf == v
  {
    if st.vrfs[v].served > 0 {
      var p :| p in RoutesIn(st.routes, v);
    } else {
      forall p | p in st.routes ensures st.routes[p].vrf != v {
        assert p !in RoutesIn(st.routes, v);
      }
    }
  }

  // ---- A simple rule that is enough -------------------------------------------------------

  /** A floating IP stays in its VRF, and the physical network does not announce an aggregate. */
  ghost predicate Orderly(st: State, e: Event) {
    match e
    case FromFabric(u, _) => u.prefix in st.routes ==> st.routes[u.prefix].vrf == u.vrf
    case FromNetwork(u, _) => u.vrf in st.vrfs ==> u.prefix !in st.vrfs[u.vrf].aggregates
  }

  /** Every update of the run is orderly when it arrives. */
  ghost predicate OrderlyRun(cfg: Config, st: State, es: seq<Event>)
    requires Inv(st)
  {
    es != [] ==> OrderlyRun(cfg, st, es[..|es|-1]) && Orderly(Run(cfg, st, es[..|es|-1]).st, es[|es|-1])
  }

  lemma OrderlyHarmless(cfg: Config, st: State, e: Event, learned: set<(nat, Address)>)
    requires Inv(st) && Orderly(st, e) && Apart(st.vrfs, learned)
    ensures Harmless(cfg, st, e, learned)
  {
    if e.FromFabric? && e.update.prefix in st.routes {
      GuardsNeverFire(st, e.update.prefix);
    }
  }

  lemma {:induction false} OrderlyIsHarmless(cfg: Config, st: State, es: seq<Event>)
    requires Inv(st) && Advertised(st, {}) && Accepted(es) && OrderlyRun(cfg, st, es) && Run(cfg, st, es).Running?
    ensures HarmlessRun(cfg, st, es)
    ensures Apart(Run(cfg, st, es).st.vrfs, Learned(es))
    decreases |es|
  {
    if es != [] {
      var n := |es| - 1;
      OrderlyIsHarmless(cfg, st, es[..n]);
      RunAdvertises(cfg, st, es[..n]);
      var before, e := Run(cfg, st, es[..n]).st, es[n];
      OrderlyHarmless(cfg, before, e, Learned(es[..n]));
      StepAdvertises(cfg, before, e, Learned(es[..n]));
      ApartLearns(before, Run(cfg, st, es).st.vrfs, e, Learned(es[..n]));
    }
  }

  lemma ApartLearns(st: State, after: map<nat, Vrf>, e: Event, learned: set<(nat, Address)>)
    requires Apart(st.vrfs, learned) && Orderly(st, e) && SameAggregates(st.vrfs, after)
    ensures Apart(after, Learn(learned, e))
  {
  }
}
