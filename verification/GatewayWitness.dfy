/** Runs from the start on which the expected properties fail: each shows that the condition of the
    theorem beside it is met, and missed, by inputs that the gateway receives. */
module GatewayWitness {
  import opened Routes
  import opened GatewayState
  import opened GatewayProtocol
  import opened GatewayInvariant
  import opened GatewayMirror
  import opened GatewayFold
  import opened GatewayAdvertised
  import opened GatewayConfluence
  import opened GatewayWilling

  /** A gateway that has just started, with `v` among its VRFs and `p` a floating IP. */
  ghost predicate Ready(cfg: Config, st: State, v: nat, p: Address) {
    && Booted(st) && st.vpp.tunnels == {} && st.originated == {}
    && KnownVrf(cfg, st, v) && cfg.isFloating(p)
  }

  /** Such a gateway: three VRFs, two of them with aggregates, and IDs for two next hops. */
  lemma SomeGatewayIsReady(p: Address)
    ensures var cfg := Config({1, 2}, (a: Address) => a == p);
            var vrfs := map[0 := Vrf([], 0), 1 := Vrf([11], 0), 2 := Vrf([22], 0)];
            var st := State(map[], map[], vrfs, Vpp({}, map[]), [], {});
            && Ready(cfg, st, 1, p) && Inv(st) && KnownVrf(cfg, st, 2) && 0 in st.vrfs
            && Distinguishes(map[101 := 1, 102 := 2])
  {
    var vrfs := map[0 := Vrf([], 0), 1 := Vrf([11], 0), 2 := Vrf([22], 0)];
    BootedInv(State(map[], map[], vrfs, Vpp({}, map[]), [], {}));
  }

  function Advert(v: nat, p: Address, nh: Address, mplsLabel: nat, offers: map<Address, nat>): Event {
    FromFabric(Update(false, v, p, nh, mplsLabel), Willing(offers))
  }

  function Retract(v: nat, p: Address, nh: Address, mplsLabel: nat, offers: map<Address, nat>): Event {
    FromFabric(Update(true, v, p, nh, mplsLabel), Willing(offers))
  }

  // ---- Short runs -------------------------------------------------------------------------

  lemma RunMore(cfg: Config, st: State, es: seq<Event>, e: Event)
    requires Inv(st) && Run(cfg, st, es).Running?
    ensures Run(cfg, st, es + [e]) == Step(cfg, Run(cfg, st, es).st, e)
  {
    assert (es + [e])[..|es|] == es;
  }

  lemma RunOne(cfg: Config, st: State, e: Event)
    requires Inv(st)
    ensures Run(cfg, st, [e]) == Step(cfg, st, e)
  {
    RunMore(cfg, st, [], e);
    assert [] + [e] == [e];
  }

  lemma RunTwo(cfg: Config, st: State, e: Event, f: Event)
    requires Inv(st) && Step(cfg, st, e).Running?
    ensures Inv(Step(cfg, st, e).st)
    ensures Run(cfg, st, [e, f]) == Step(cfg, Step(cfg, st, e).st, f)
  {
    RunOne(cfg, st, e);
    RunMore(cfg, st, [e], f);
    assert [e] + [f] == [e, f];
  }

  lemma RunThree(cfg: Config, st: State, e: Event, f: Event, g: Event)
    requires Inv(st) && Run(cfg, st, [e, f]).Running?
    ensures Run(cfg, st, [e, f, g]) == Step(cfg, Run(cfg, st, [e, f]).st, g)
  {
    RunMore(cfg, st, [e, f], g);
    assert [e, f] + [g] == [e, f, g];
  }

  /** The only stored route is this one, with some tunnel IDs. */
  ghost predicate Holds(st: State, v: nat, p: Address, nextHops: seq<Address>, labels: seq<nat>) {
    && st.routes.Keys == {p}
    && st.routes[p].vrf == v && st.routes[p].nextHops == nextHops && st.routes[p].labels == labels
  }

  /** The first advertisement of a prefix. */
  lemma FirstAdvert(cfg: Config, st: State, v: nat, p: Address, nh: Address, mplsLabel: nat, offers: map<Address, nat>)
    requires Inv(st) && st.routes == map[] && KnownVrf(cfg, st, v) && cfg.isFloating(p)
    requires Distinguishes(offers) && Supplied(st, offers) && nh in offers
    ensures var o := Step(cfg, st, Advert(v, p, nh, mplsLabel, offers));
            && o.Running? && Inv(o.st) && Supplied(o.st, offers)
            && Holds(o.st, v, p, [nh], [mplsLabel]) && o.st.vrfs.Keys == st.vrfs.Keys
  {
    var e := Advert(v, p, nh, mplsLabel, offers);
    StepKeepsInv(cfg, st, e);
    var _ := AddFipSupplied(st, Received(e.update), v, offers);
  }

  lemma BootedSupplied(st: State, offers: map<Address, nat>)
    requires Booted(st) && st.vpp.tunnels == {}
    ensures Inv(st) && Supplied(st, offers)
  {
    BootedInv(st);
  }

  // ---- The panic --------------------------------------------------------------------------

  /** A second next hop joins at the end of the list. */
  lemma SecondAdvert(cfg: Config, st: State, v: nat, p: Address, a: Address, b: Address, la: nat, lb: nat,
                     offers: map<Address, nat>)
    requires Inv(st) && Holds(st, v, p, [a], [la]) && KnownVrf(cfg, st, v) && cfg.isFloating(p)
    requires Distinguishes(offers) && Supplied(st, offers) && b in offers
    requires a != b && b != NO_ADDRESS && lb != 0
    ensures var o := Step(cfg, st, Advert(v, p, b, lb, offers));
            && o.Running? && Inv(o.st) && Supplied(o.st, offers)
            && Holds(o.st, v, p, [a, b], [la, lb]) && o.st.vrfs.Keys == st.vrfs.Keys
  {
    var e := Advert(v, p, b, lb, offers);
    var q := Appended(st.routes[p], b, UNDEFINED_TUNNEL, lb);
    StepKeepsInv(cfg, st, e);
    SecondDecision(cfg, st, v, p, a, b, la, lb);
    var _ := ReplaceRuns(cfg, st, e.update, q, offers);
  }

  lemma SecondDecision(cfg: Config, st: State, v: nat, p: Address, a: Address, b: Address, la: nat, lb: nat)
    requires Inv(st) && Holds(st, v, p, [a], [la]) && KnownVrf(cfg, st, v) && cfg.isFloating(p)
    requires a != b && b != NO_ADDRESS && lb != 0
    ensures Decide(cfg, st, Update(false, v, p, b, lb)) == Replace(Appended(st.routes[p], b, UNDEFINED_TUNNEL, lb))
  {
    var r := st.routes[p];
    assert r.nextHops == [a] && |r.nextHops| == 1;
    assert IndexOf(r.nextHops, b) == 1;
    assert !Stored(st.routes, p, b, lb);
    assert PathDeleted(r, b) == r;
  }

  /** A willing VPP carries out a replacement. */
  lemma ReplaceRuns(cfg: Config, st: State, u: Update, q: Route, offers: map<Address, nat>) returns (ids: seq<nat>)
    requires Inv(st) && u.prefix in st.routes && Decide(cfg, st, u) == Replace(q)
    requires Distinguishes(offers) && Supplied(st, offers) && u.nextHop in offers
    ensures var o := Step(cfg, st, FromFabric(u, Willing(offers)));
            && o.Running? && Supplied(o.st, offers)
            && o.st.routes == (st.routes - {u.prefix})[u.prefix := q.(tunnelIds := ids)]
  {
    PlanShape(cfg, st, u);
    PlanSupplied(cfg, st, u, offers);
    DelFipKeeps(st, u.prefix, u.vrf, Willing(offers));
    DelFipSupplied(st, u.prefix, u.vrf, offers);
    ids := AddFipSupplied(DelFip(st, st.routes[u.prefix], u.vrf, Willing(offers)), q, u.vrf, offers);
  }

  /** Two advertisements of a floating IP and a new label for the first next hop: the gateway panics,
      although VPP and BGP carried out everything. */
  lemma RelabelCrashes(cfg: Config, st: State, v: nat, p: Address, a: Address, b: Address, la: nat, lb: nat, relabel: nat,
                       offers: map<Address, nat>)
    requires Ready(cfg, st, v, p) && Inv(st) && Distinguishes(offers) && a in offers && b in offers
    requires a != b && a != NO_ADDRESS && b != NO_ADDRESS && la != relabel && relabel != 0 && lb != 0
    ensures Run(cfg, st, [Advert(v, p, a, la, offers), Advert(v, p, b, lb, offers), Advert(v, p, a, relabel, offers)]).Crashed?
  {
    var e, f, g := Advert(v, p, a, la, offers), Advert(v, p, b, lb, offers), Advert(v, p, a, relabel, offers);
    BootedSupplied(st, offers);
    FirstAdvert(cfg, st, v, p, a, la, offers);
    SecondAdvert(cfg, Step(cfg, st, e).st, v, p, a, b, la, lb, offers);
    RunTwo(cfg, st, e, f);
    RunThree(cfg, st, e, f, g);
    var before := Run(cfg, st, [e, f]).st;
    CrashesExactly(cfg, before, g);
    assert before.routes[p].nextHops[0] == a && before.routes[p].labels[0] != relabel;
  }

  // ---- Withdrawing the only path ----------------------------------------------------------

  /** The only path of the only route is withdrawn: the route is deleted. */
  lemma OnlyPathDropped(cfg: Config, st: State, v: nat, u: Update)
    requires Inv(st) && Holds(st, v, u.prefix, [u.nextHop], [u.mplsLabel]) && KnownVrf(cfg, st, u.vrf) && u.withdraw
    ensures Decide(cfg, st, u) == Drop
  {
    var r := st.routes[u.prefix];
    assert r.nextHops[0] == u.nextHop && r.labels[0] == u.mplsLabel;
    assert Stored(st.routes, u.prefix, u.nextHop, u.mplsLabel);
    WithdrawFindsTunnel(st, u);
  }

  /** A floating IP is advertised and withdrawn; VPP refuses to delete the route but deletes the
      tunnel: a path of the FIB names a tunnel that does not exist. */
  lemma RefusedDeleteDangles(cfg: Config, st: State, v: nat, p: Address, nh: Address, mplsLabel: nat,
                             offers: map<Address, nat>)
    requires Ready(cfg, st, v, p) && Inv(st) && Distinguishes(offers) && nh in offers
    ensures var refusing := Willing(offers).(routeDelete := false);
            var es := [Advert(v, p, nh, mplsLabel, offers), FromFabric(Update(true, v, p, nh, mplsLabel), refusing)];
            !NoDangling(Run(cfg, st, es).st.vpp)
  {
    var refusing := Willing(offers).(routeDelete := false);
    var e, f := Advert(v, p, nh, mplsLabel, offers), FromFabric(Update(true, v, p, nh, mplsLabel), refusing);
    BootedSupplied(st, offers);
    FirstAdvert(cfg, st, v, p, nh, mplsLabel, offers);
    RunOne(cfg, st, e);
    RunTwo(cfg, st, e, f);
    var before := Step(cfg, st, e).st;
    RunNeverDangles(cfg, st, [e]);
    OnlyPathDropped(cfg, before, v, f.update);
    FailedDeleteDangles(before, p, v, refusing);
    assert UsersOf(before.routes, nh) == {p};
    assert BoundTo(before.routes[p], before.tunnels);
    assert before.routes[p].nextHops[0] == nh && before.routes[p].tunnelIds[0] == offers[nh];
    assert offers[nh] in offers.Values;
  }

  // ---- Originated prefixes ----------------------------------------------------------------

  /** The start is right, and stays so with the first advertisement. */
  lemma FirstOriginates(cfg: Config, st: State, v: nat, p: Address, nh: Address, mplsLabel: nat,
                        offers: map<Address, nat>, learned: set<(nat, Address)>)
    requires Inv(st) && st.routes == map[] && KnownVrf(cfg, st, v) && cfg.isFloating(p)
    requires Distinguishes(offers) && Supplied(st, offers) && nh in offers && Advertised(st, learned)
    ensures var after := Step(cfg, st, Advert(v, p, nh, mplsLabel, offers)).st;
            Advertised(after, learned) && SameAggregates(st.vrfs, after.vrfs) && after.vrfs[v].served == 1
  {
    var e := Advert(v, p, nh, mplsLabel, offers);
    FirstAdvert(cfg, st, v, p, nh, mplsLabel, offers);
    FabricAdvertises(cfg, st, e.update, e.replies, learned);
    var after := Step(cfg, st, e).st;
    assert RoutesIn(after.routes, v) == {p};
  }

  lemma BootedAdvertises(st: State)
    requires Booted(st) && st.originated == {}
    ensures Advertised(st, {})
  {
  }

  /** A floating IP is advertised in one VRF and withdrawn under another: no route is stored, and the
      aggregates of the first VRF stay announced. */
  lemma MovedStaysAnnounced(cfg: Config, st: State, v: nat, u: nat, p: Address, nh: Address, mplsLabel: nat,
                            offers: map<Address, nat>)
    requires Ready(cfg, st, v, p) && Inv(st) && Distinguishes(offers) && nh in offers
    requires u != v && KnownVrf(cfg, st, u)
    ensures var es := [Advert(v, p, nh, mplsLabel, offers), Retract(u, p, nh, mplsLabel, offers)];
            var end := Run(cfg, st, es).st;
            && end.routes == map[]
            && (forall a :: a in st.vrfs[v].aggregates ==> (v, a) in end.originated)
            && (st.vrfs[v].aggregates != [] ==> !Advertised(end, Learned(es)))
  {
    var e, f := Advert(v, p, nh, mplsLabel, offers), Retract(u, p, nh, mplsLabel, offers);
    BootedSupplied(st, offers);
    BootedAdvertises(st);
    FirstAdvert(cfg, st, v, p, nh, mplsLabel, offers);
    FirstOriginates(cfg, st, v, p, nh, mplsLabel, offers, {});
    RunTwo(cfg, st, e, f);
    RetractElsewhere(cfg, Step(cfg, st, e).st, v, f.update, offers);
    LearnedNothing(e, f);
  }

  lemma LearnedNothing(e: Event, f: Event)
    requires e.FromFabric? && f.FromFabric?
    ensures Learned([e, f]) == {}
  {
    assert [e, f][..1] == [e] && [e][..0] == [];
    assert Learned([]) == {} && Learned([e]) == Learn(Learned([]), e);
  }

  lemma RetractElsewhere(cfg: Config, st: State, v: nat, u: Update, offers: map<Address, nat>)
    requires Inv(st) && Holds(st, v, u.prefix, [u.nextHop], [u.mplsLabel]) && v in st.vrfs && st.vrfs[v].served == 1
    requires KnownVrf(cfg, st, u.vrf) && u.vrf != v && u.withdraw && Advertised(st, {})
    ensures var end := Step(cfg, st, FromFabric(u, Willing(offers))).st;
            && end.routes == map[]
            && (forall a :: a in st.vrfs[v].aggregates ==> (v, a) in end.originated)
            && (st.vrfs[v].aggregates != [] ==> !Advertised(end, {}))
  {
    OnlyPathDropped(cfg, st, v, u);
    DelFipKeeps(st, u.prefix, u.vrf, Willing(offers));
    DelFipOriginates(st, u.prefix, u.vrf, Willing(offers));
    StaysAnnounced(st.vrfs, v, u.vrf);
    var end := Step(cfg, st, FromFabric(u, Willing(offers))).st;
    assert end == DelFip(st, st.routes[u.prefix], u.vrf, Willing(offers));
    assert end.routes == map[];
  }

  /** The wrong aggregates are withdrawn: those of `v` stay although it serves nothing any more. */
  lemma StaysAnnounced(vrfs: map<nat, Vrf>, v: nat, u: nat)
    requires v in vrfs && u in vrfs && u != v && vrfs[v].served == 1
    ensures var left, after := Due(vrfs) - Pairs(u, vrfs[u].aggregates), VrfDec(vrfs, v);
            && (forall a :: a in vrfs[v].aggregates ==> (v, a) in left)
            && (vrfs[v].aggregates != [] ==> left != Due(after))
  {
    var left := Due(vrfs) - Pairs(u, vrfs[u].aggregates);
    if vrfs[v].aggregates != [] {
      assert (v, vrfs[v].aggregates[0]) in left;
      assert (v, vrfs[v].aggregates[0]) !in Due(VrfDec(vrfs, v));
    }
  }

  /** A floating IP is advertised and the physical network withdraws an aggregate of its VRF: the
      aggregate is no longer announced although its VRF serves the route. */
  lemma NetworkTakesAggregate(cfg: Config, st: State, v: nat, p: Address, nh: Address, mplsLabel: nat, a: Address,
                              offers: map<Address, nat>)
    requires Ready(cfg, st, v, p) && Inv(st) && Distinguishes(offers) && nh in offers
    requires 0 in st.vrfs && a in st.vrfs[v].aggregates
    ensures var es := [Advert(v, p, nh, mplsLabel, offers), FromNetwork(Update(true, v, a, nh, 0), Willing(offers))];
            var end := Run(cfg, st, es).st;
            p in end.routes && end.routes[p].vrf == v && (v, a) !in end.originated
  {
    var e, f := Advert(v, p, nh, mplsLabel, offers), FromNetwork(Update(true, v, a, nh, 0), Willing(offers));
    BootedSupplied(st, offers);
    FirstAdvert(cfg, st, v, p, nh, mplsLabel, offers);
    RunTwo(cfg, st, e, f);
    var before := Step(cfg, st, e).st;
    assert (v, a) !in Withdraw(before.originated, v, [a], Willing(offers));
  }

  /** The physical network announces an aggregate, a floating IP of its VRF comes and goes: the
      aggregate is no longer announced although the physical network still has it. */
  lemma LastRouteTakesLearned(cfg: Config, st: State, v: nat, p: Address, nh: Address, mplsLabel: nat, a: Address,
                              offers: map<Address, nat>)
    requires Ready(cfg, st, v, p) && Inv(st) && Distinguishes(offers) && nh in offers
    requires 0 in st.vrfs && a in st.vrfs[v].aggregates
    ensures var es := [FromNetwork(Update(false, v, a, nh, 0), Willing(offers)),
                       Advert(v, p, nh, mplsLabel, offers), Retract(v, p, nh, mplsLabel, offers)];
            (v, a) in Learned(es) && (v, a) !in Run(cfg, st, es).st.originated
  {
    var e := FromNetwork(Update(false, v, a, nh, 0), Willing(offers));
    var f, g := Advert(v, p, nh, mplsLabel, offers), Retract(v, p, nh, mplsLabel, offers);
    BootedSupplied(st, offers);
    BootedAdvertises(st);
    NetworkAdvertises(cfg, st, e.update, Willing(offers), {});
    var one := Step(cfg, st, e).st;
    FirstAdvert(cfg, one, v, p, nh, mplsLabel, offers);
    FirstOriginates(cfg, one, v, p, nh, mplsLabel, offers, Learn({}, e));
    RunTwo(cfg, st, e, f);
    RunThree(cfg, st, e, f, g);
    RetractLast(cfg, Step(cfg, one, f).st, v, g.update, a, offers);
    LearnedFirst(e, f, g);
  }

  lemma LearnedFirst(e: Event, f: Event, g: Event)
    requires f.FromFabric? && g.FromFabric?
    ensures Learned([e, f, g]) == Learn({}, e)
  {
    assert [e, f, g][..2] == [e, f] && [e, f][..1] == [e] && [e][..0] == [];
    assert Learned([]) == {} && Learned([e]) == Learn(Learned([]), e);
    assert Learned([e, f]) == Learn(Learned([e]), f);
  }

  lemma RetractLast(cfg: Config, st: State, v: nat, u: Update, a: Address, offers: map<Address, nat>)
    requires Inv(st) && Holds(st, v, u.prefix, [u.nextHop], [u.mplsLabel]) && u.vrf == v && u.withdraw
    requires KnownVrf(cfg, st, v) && st.vrfs[v].served == 1 && a in st.vrfs[v].aggregates
    ensures (v, a) !in Step(cfg, st, FromFabric(u, Willing(offers))).st.originated
  {
    OnlyPathDropped(cfg, st, v, u);
    DelFipOriginates(st, u.prefix, v, Willing(offers));
    assert (v, a) in Pairs(v, st.vrfs[v].aggregates);
  }

  // ---- Updates that do not commute --------------------------------------------------------

  lemma FoldTwo(cfg: Config, vrfs: set<nat>, e: Event, f: Event)
    requires e.FromFabric? && f.FromFabric?
    ensures Fold(cfg, vrfs, map[], [e, f]) == FoldStep(cfg, vrfs, FoldStep(cfg, vrfs, map[], e.update), f.update)
  {
    assert [e, f][..1] == [e] && [e][..0] == [];
    assert Fold(cfg, vrfs, map[], [e]) == FoldStep(cfg, vrfs, Fold(cfg, vrfs, map[], []), e.update);
  }

  /** The second advertisement does not crash: its next hop is new, or it has no label. */
  lemma TwoAdvertsRun(cfg: Config, st: State, v: nat, p: Address, a: Address, b: Address, la: nat, lb: nat,
                      offers: map<Address, nat>)
    requires Ready(cfg, st, v, p) && Inv(st) && Distinguishes(offers) && a in offers && b in offers && a != b
    ensures var es := [Advert(v, p, a, la, offers), Advert(v, p, b, lb, offers)];
            && Run(cfg, st, es).Running? && AllOk(Run(cfg, st, es).st.log)
            && BookOf(Run(cfg, st, es).st.routes) == Fold(cfg, st.vrfs.Keys, map[], es)
  {
    var e, f := Advert(v, p, a, la, offers), Advert(v, p, b, lb, offers);
    BootedSupplied(st, offers);
    FirstAdvert(cfg, st, v, p, a, la, offers);
    RunTwo(cfg, st, e, f);
    CrashesExactly(cfg, Step(cfg, st, e).st, f);
    WillingRunIsFold(cfg, st, [e, f], offers);
  }

  /** Two advertisements of one floating IP, the one without a label first or second: both runs go
      well, and end with different tables. */
  lemma UnlabelledDoesNotCommute(cfg: Config, st: State, v: nat, p: Address, a: Address, b: Address, lb: nat,
                                 offers: map<Address, nat>)
    requires Ready(cfg, st, v, p) && Inv(st) && Distinguishes(offers) && a in offers && b in offers && a != b
    requires b != NO_ADDRESS && lb != 0
    ensures var e, f := Advert(v, p, a, 0, offers), Advert(v, p, b, lb, offers);
            && Run(cfg, st, [e, f]).Running? && AllOk(Run(cfg, st, [e, f]).st.log)
            && Run(cfg, st, [f, e]).Running? && AllOk(Run(cfg, st, [f, e]).st.log)
            && BookOf(Run(cfg, st, [e, f]).st.routes) != BookOf(Run(cfg, st, [f, e]).st.routes)
  {
    var e, f := Advert(v, p, a, 0, offers), Advert(v, p, b, lb, offers);
    TwoAdvertsRun(cfg, st, v, p, a, b, 0, lb, offers);
    TwoAdvertsRun(cfg, st, v, p, b, a, lb, 0, offers);
    FoldTwo(cfg, st.vrfs.Keys, e, f);
    FoldTwo(cfg, st.vrfs.Keys, f, e);
    BareClash(cfg, st.vrfs.Keys, e.update, f.update);
  }
}
