/** With VPP succeeding, the whole machinery of deleting, editing and re-adding amounts to a
    simple fold over the updates, and nothing is left over: a tunnel exists exactly while some
    stored route uses it. */
module GatewayFold {
  import opened Routes
  import opened GatewayState
  import opened GatewayProtocol
  import opened GatewayInvariant
  import opened GatewayMirror

  // ---- The simple form --------------------------------------------------------------------

  /** prefix -> (next hop -> label) */
  type Book = map<Address, map<Address, nat>>

  /** Which updates pass the checks that do not depend on the stored routes. An advertisement without a
      next hop gets no tunnel and joins no route. */
  predicate Relevant(cfg: Config, vrfs: set<nat>, u: Update) {
    && u.vrf in vrfs && u.vrf in cfg.bgpVrfs
    && (u.withdraw || (cfg.isFloating(u.prefix) && u.nextHop != NO_ADDRESS))
  }

  /** Withdraw forgets the pair if the label matches, and an emptied prefix with it. Advertise
      sets the pair; without a label it can only start a new prefix. */
  function FoldStep(cfg: Config, vrfs: set<nat>, b: Book, u: Update): Book {
    if !Relevant(cfg, vrfs, u) then b
    else if u.withdraw then
      if u.prefix in b && u.nextHop in b[u.prefix] && b[u.prefix][u.nextHop] == u.mplsLabel then
        if b[u.prefix] - {u.nextHop} == map[] then b - {u.prefix}
        else b[u.prefix := b[u.prefix] - {u.nextHop}]
      else b
    else if u.prefix !in b then b[u.prefix := map[u.nextHop := u.mplsLabel]]
    else if u.mplsLabel == 0 then b
    else
      var labels: map<Address, nat> := b[u.prefix][u.nextHop := u.mplsLabel];
      b[u.prefix := labels]
  }

  function Fold(cfg: Config, vrfs: set<nat>, b: Book, es: seq<Event>): Book {
    if es == [] then b
    else
      var before := Fold(cfg, vrfs, b, es[..|es|-1]);
      var e := es[|es|-1];
      if e.FromFabric? then FoldStep(cfg, vrfs, before, e.update) else before
  }

  /** The stored routes read as a book. */
  ghost function BookOf(routes: map<Address, Route>): Book
    requires AllParallel(routes)
  {
    map p | p in routes :: routes[p].Labels()
  }

  // ---- Reading the stored routes ----------------------------------------------------------

  lemma StoredMeans(r: Route, nextHop: Address, mplsLabel: nat)
    requires r.Parallel() && r.Distinct()
    ensures (exists i :: 0 <= i < |r.nextHops| && r.nextHops[i] == nextHop && r.labels[i] == mplsLabel) <==>
            nextHop in r.Labels() && r.Labels()[nextHop] == mplsLabel
  {
    forall i | 0 <= i < |r.nextHops| ensures r.Labels()[r.nextHops[i]] == r.labels[i] {
      AtPosition(r, i);
    }
    if nextHop in r.Labels() {
      var i := IndexOf(r.nextHops, nextHop);
      assert r.nextHops[i] == nextHop && r.Labels()[nextHop] == r.labels[i];
    }
  }

  lemma SinglePath(r: Route, nextHop: Address)
    requires r.Shaped() && nextHop in r.nextHops
    ensures |r.nextHops| == 1 <==> r.Labels() - {nextHop} == map[]
  {
    if |r.nextHops| == 1 {
      assert r.nextHops[0] == nextHop;
    } else {
      var other := if r.nextHops[0] == nextHop then r.nextHops[1] else r.nextHops[0];
      assert other in r.Labels() - {nextHop};
    }
  }

  ghost predicate AllParallel(routes: map<Address, Route>) {
    forall p :: p in routes ==> routes[p].Parallel()
  }

  lemma BookInsert(routes: map<Address, Route>, p: Address, r: Route)
    requires AllParallel(routes) && r.Parallel()
    ensures BookOf(routes[p := r]) == BookOf(routes)[p := r.Labels()]
  {
  }

  lemma BookRemove(routes: map<Address, Route>, p: Address)
    requires AllParallel(routes)
    ensures BookOf(routes - {p}) == BookOf(routes) - {p}
  {
  }

  lemma SameLabels(r: Route, ids: seq<nat>)
    requires r.Parallel() && |ids| == |r.nextHops|
    ensures r.(tunnelIds := ids).Labels() == r.Labels()
  {
  }

  // ---- Adding and deleting when VPP succeeds ----------------------------------------------

  /** The log only grows, so a run without failures has none in its beginnings. */
  ghost predicate Grows(a: State, b: State) {
    AllOk(b.log) ==> AllOk(a.log)
  }

  /** VPP's live tunnels are those of the table. */
  ghost predicate LiveExactly(st: State) {
    forall id :: id in st.vpp.tunnels <==> exists nh :: nh in st.tunnels && st.tunnels[nh].id == id
  }

  ghost predicate Tight(st: State) {
    forall nh :: nh in st.tunnels ==> st.tunnels[nh].served > 0
  }

  lemma BindOneExact(st: State, nh: Address, replies: Replies)
    requires Inv(st)
    ensures var (after, id) := BindOne(st, nh, replies);
            && Grows(st, after)
            && (AllOk(after.log) ==> (nh != NO_ADDRESS ==> id.Some?) && (LiveExactly(st) ==> LiveExactly(after)))
            && (forall x :: x in after.tunnels ==> x in st.tunnels || x == nh)
  {
    if nh !in st.tunnels && nh != NO_ADDRESS {
      var (after, id) := BindOne(st, nh, replies);
      LoggedOk(st, TunnelAdd, id.Some?, after.vpp);
      if id.Some? && LiveExactly(st) {
        forall x | x in after.vpp.tunnels ensures exists y :: y in after.tunnels && after.tunnels[y].id == x {
          if x == id.value {
            assert after.tunnels[nh].id == x;
          } else {
            var y :| y in st.tunnels && st.tunnels[y].id == x;
            assert after.tunnels[y].id == x;
          }
        }
      }
    }
  }

  lemma {:induction false} BindExact(st: State, nhs: seq<Address>, replies: Replies)
    requires Inv(st)
    ensures var b := Bind(st, nhs, replies);
            && Grows(st, b.st)
            && (AllOk(b.st.log) ==> (NO_ADDRESS !in nhs ==> b.ok) && (LiveExactly(st) ==> LiveExactly(b.st)))
            && (forall x :: x in b.st.tunnels ==> x in st.tunnels || x in nhs)
  {
    if nhs != [] {
      var n := |nhs| - 1;
      BindExact(st, nhs[..n], replies);
      BindKeeps(st, nhs[..n], replies);
      var before := Bind(st, nhs[..n], replies);
      if before.ok {
        BindOneExact(before.st, nhs[n], replies);
      }
    }
  }

  lemma CollectOneExact(st: State, nh: Address, id: nat, replies: Replies)
    requires Inv(st) && nh in st.tunnels && st.tunnels[nh].id == id
    ensures var after := CollectOne(st, nh, id, replies);
            Grows(st, after) && (AllOk(after.log) && LiveExactly(st) ==> LiveExactly(after))
  {
    if TunnelServed(st.tunnels, nh) == 0 {
      var after := CollectOne(st, nh, id, replies);
      LoggedOk(st, TunnelDelete, id in replies.tunnelDelete, after.vpp);
      if AllOk(after.log) && LiveExactly(st) {
        forall x | x in after.vpp.tunnels ensures exists y :: y in after.tunnels && after.tunnels[y].id == x {
          var y :| y in st.tunnels && st.tunnels[y].id == x;
          assert y in after.tunnels;
        }
      }
    }
  }

  lemma {:induction false} CollectExact(st: State, nhs: seq<Address>, ids: seq<nat>, replies: Replies)
    requires Inv(st) && DistinctKeys(nhs) && IdsOf(ids, nhs, st.tunnels)
    ensures var after := Collect(st, nhs, ids, replies);
            Grows(st, after) && (AllOk(after.log) && LiveExactly(st) ==> LiveExactly(after))
  {
    if nhs != [] {
      var n := |nhs| - 1;
      InSnoc(nhs);
      CollectExact(st, nhs[..n], ids[..n], replies);
      CollectKeeps(st, nhs[..n], ids[..n], replies);
      CollectOneExact(Collect(st, nhs[..n], ids[..n], replies), nhs[n], ids[n], replies);
    }
  }

  /** Changing counts alone keeps the IDs. */
  lemma SameIds(a: State, b: State)
    requires a.vpp.tunnels == b.vpp.tunnels && a.tunnels.Keys == b.tunnels.Keys
    requires forall nh :: nh in a.tunnels ==> b.tunnels[nh].id == a.tunnels[nh].id
    ensures LiveExactly(a) ==> LiveExactly(b)
  {
    if LiveExactly(a) {
      forall x | x in b.vpp.tunnels ensures exists y :: y in b.tunnels && b.tunnels[y].id == x {
        var y :| y in a.tunnels && a.tunnels[y].id == x;
        assert b.tunnels[y].id == x;
      }
    }
  }

  ghost predicate Exact(st: State) {
    AllOk(st.log) ==> LiveExactly(st) && Tight(st)
  }

  /** Tunnels outside the deleted route keep serving something. */
  lemma CountOutExact(st: State, p: Address)
    requires Inv(st) && p in st.routes
    ensures var out := CountOut(st, st.routes[p]);
            && (LiveExactly(st) ==> LiveExactly(out))
            && (Tight(st) ==>
                  forall nh :: nh in out.tunnels && nh !in st.routes[p].nextHops ==> out.tunnels[nh].served > 0)
  {
    var r := st.routes[p];
    GuardsNeverFire(st, p);
    DecAllAt(st.tunnels, r.nextHops);
    SameIds(st, CountOut(st, r));
  }

  lemma SendDeleteExact(st: State, p: Address, replies: Replies)
    requires Inv(st) && p in st.routes && Exact(st)
    ensures var sent := SendRoute(st, false, st.routes[p], replies).0;
            Inv(sent) && sent.routes == st.routes && Grows(st, sent) && Exact(sent)
  {
    var sent := SendRoute(st, false, st.routes[p], replies).0;
    SendRouteFrame(st, false, st.routes[p], replies);
    StoredIsDefined(st, p);
    LoggedOk(st, RouteDelete, replies.routeDelete, sent.vpp);
    SameIds(st, sent);
  }

  lemma DelFipExact(st: State, p: Address, vrf: nat, replies: Replies)
    requires Inv(st) && p in st.routes && Exact(st)
    ensures var after := DelFip(st, st.routes[p], vrf, replies);
            Grows(st, after) && Exact(after)
  {
    var r := st.routes[p];
    SendDeleteExact(st, p, replies);
    var sent := SendRoute(st, false, r, replies).0;
    CountOutKeeps(sent, p);
    CountOutExact(sent, p);
    CollectUnused(st, CountOut(sent, r), r, replies);
  }

  lemma CollectUnused(start: State, out: State, r: Route, replies: Replies)
    requires Inv(out) && r.Shaped() && BoundTo(r, out.tunnels) && Grows(start, out)
    requires AllOk(out.log) ==>
               LiveExactly(out) && forall nh :: nh in out.tunnels && nh !in r.nextHops ==> out.tunnels[nh].served > 0
    ensures var after := Collect(out, r.nextHops, r.tunnelIds, replies);
            Grows(start, after) && Exact(after)
  {
    CollectExact(out, r.nextHops, r.tunnelIds, replies);
    CollectKeeps(out, r.nextHops, r.tunnelIds, replies);
  }

  lemma AddFipExact(st: State, r: Route, vrf: nat, replies: Replies)
    requires Inv(st) && r.Shaped() && r.prefix !in st.routes && r.vrf in st.vrfs && Exact(st)
    requires NO_ADDRESS !in r.nextHops
    ensures var after := AddFip(st, r, vrf, replies);
            && Grows(st, after) && Exact(after)
            && (AllOk(after.log) ==>
                  exists ids :: |ids| == |r.nextHops| && after.routes == st.routes[r.prefix := r.(tunnelIds := ids)])
  {
    BindExact(st, r.nextHops, replies);
    BindKeeps(st, r.nextHops, replies);
    var bound := Bind(st, r.nextHops, replies);
    if bound.ok {
      assert |bound.ids| == |r.nextHops|;
      InstallExact(st, bound.st, r.(tunnelIds := bound.ids), vrf, replies);
    }
  }

  lemma InstallExact(start: State, st: State, r: Route, vrf: nat, replies: Replies)
    requires Inv(st) && r.Shaped() && BoundTo(r, st.tunnels) && Grows(start, st)
    requires AllOk(st.log) ==> LiveExactly(st)
    requires Exact(start) && OnlyBinds(start, st)
    requires forall x :: x in st.tunnels ==> x in start.tunnels || x in r.nextHops
    ensures var after := Install(st, r, vrf, replies);
            && Grows(start, after) && Exact(after)
            && (AllOk(after.log) ==> after.routes == st.routes[r.prefix := r])
  {
    SendExact(start, st, r, replies);
    SendRouteFrame(st, true, r, replies);
    var (sent, ok) := SendRoute(st, true, r, replies);
    if ok {
      AdvertiseExact(CountIn(sent, r), r.vrf, vrf, replies);
    }
  }

  lemma AdvertiseExact(st: State, countedVrf: nat, vrf: nat, replies: Replies)
    requires Exact(st)
    ensures var after := AdvertiseIfFew(st, countedVrf, vrf, replies);
            Exact(after) && after.log == st.log && after.routes == st.routes
  {
  }

  lemma SendExact(start: State, st: State, r: Route, replies: Replies)
    requires Inv(st) && r.Shaped() && BoundTo(r, st.tunnels) && Grows(start, st)
    requires AllOk(st.log) ==> LiveExactly(st)
    requires AllOk(start.log) ==> Tight(start)
    requires OnlyBinds(start, st) && forall x :: x in st.tunnels ==> x in start.tunnels || x in r.nextHops
    ensures var (sent, ok) := SendRoute(st, true, r, replies);
            && (AllOk(sent.log) ==> ok)
            && Grows(start, sent)
            && (ok ==> Exact(CountIn(sent, r)))
  {
    var (sent, ok) := SendRoute(st, true, r, replies);
    assert UNDEFINED_TUNNEL !in r.tunnelIds;
    LoggedOk(st, RouteAdd, replies.routeAdd, sent.vpp);
    if ok {
      IncAllAt(sent.tunnels, r.nextHops);
      SameIds(st, sent);
      SameIds(sent, CountIn(sent, r));
    }
  }

  // ---- Refinement -------------------------------------------------------------------------

  lemma StepExact(cfg: Config, st: State, e: Event)
    requires Inv(st) && Exact(st)
    ensures var after := Step(cfg, st, e).st;
            Grows(st, after) && Exact(after)
  {
    if e.FromFabric? {
      var u, replies := e.update, e.replies;
      PlanShape(cfg, st, u);
      PlanHops(cfg, st, u);
      match Decide(cfg, st, u)
      case Skip =>
      case Fresh(route) =>
        if u.nextHop == NO_ADDRESS {
          EmptyHopIgnored(st, u, replies);
        } else {
          AddFipExact(st, route, u.vrf, replies);
        }
      case Drop => DelFipExact(st, u.prefix, u.vrf, replies);
      case DropAndPanic => DelFipExact(st, u.prefix, u.vrf, replies);
      case Replace(route) =>
        DelFipKeeps(st, u.prefix, u.vrf, replies);
        DelFipExact(st, u.prefix, u.vrf, replies);
        AddFipExact(DelFip(st, st.routes[u.prefix], u.vrf, replies), route, u.vrf, replies);
    }
  }

  /** What the plan does to the book. */
  ghost function Planned(b: Book, plan: Plan, u: Update): Book
    requires plan.Fresh? || plan.Replace? ==> plan.route.Parallel()
  {
    match plan
    case Skip => b
    case Fresh(route) => if u.nextHop == NO_ADDRESS then b else b[u.prefix := route.Labels()]
    case Replace(route) => b[u.prefix := route.Labels()]
    case Drop => b - {u.prefix}
    case DropAndPanic => b - {u.prefix}
  }

  /** Some entry of the book is set to what it was. */
  lemma BookSame(b: Book, p: Address, labels: map<Address, nat>)
    requires p in b && b[p] == labels
    ensures b[p := labels] == b
  {
  }

  /** The plan is the fold's: this is where the path list edits are read as map edits. */
  lemma PlanIsFold(cfg: Config, st: State, u: Update)
    requires Inv(st) && !Decide(cfg, st, u).DropAndPanic?
    ensures var plan := Decide(cfg, st, u);
            && (plan.Fresh? || plan.Replace? ==> plan.route.Parallel())
            && Planned(BookOf(st.routes), plan, u) == FoldStep(cfg, st.vrfs.Keys, BookOf(st.routes), u)
  {
    PlanShape(cfg, st, u);
    if u.prefix !in st.routes {
      SingleLabel(u);
    } else if u.withdraw {
      WithdrawIsFold(cfg, st, u);
    } else {
      AdvertiseIsFold(cfg, st, u);
    }
  }

  /** What is left alone altogether: an update that does not pass the first checks, a withdrawal of what is
      not stored with this label, and the advertisement of what is. Nothing is sent to VPP or BGP. */
  lemma SkipsExactly(cfg: Config, st: State, u: Update, replies: Replies)
    requires Inv(st)
    ensures var b := BookOf(st.routes);
            var stored := u.prefix in b && u.nextHop in b[u.prefix] && b[u.prefix][u.nextHop] == u.mplsLabel;
            Decide(cfg, st, u).Skip? <==>
            || u.vrf !in st.vrfs || u.vrf !in cfg.bgpVrfs
            || (if u.withdraw then !stored else !cfg.isFloating(u.prefix) || stored)
    ensures Decide(cfg, st, u).Skip? ==> Step(cfg, st, FromFabric(u, replies)) == Running(st)
  {
    PlanShape(cfg, st, u);
    if u.prefix in st.routes {
      StoredMeans(st.routes[u.prefix], u.nextHop, u.mplsLabel);
      assert BookOf(st.routes)[u.prefix] == st.routes[u.prefix].Labels();
      if Stored(st.routes, u.prefix, u.nextHop, u.mplsLabel) {
        WithdrawFindsTunnel(st, u);
      }
    }
  }

  /** A withdrawal is decided by the label map of the stored route. */
  lemma WithdrawDecision(cfg: Config, st: State, u: Update)
    requires Inv(st) && u.prefix in st.routes && u.withdraw && KnownVrf(cfg, st, u.vrf)
    ensures var r, m := st.routes[u.prefix], st.routes[u.prefix].Labels();
            Decide(cfg, st, u) ==
            if !(u.nextHop in m && m[u.nextHop] == u.mplsLabel) then Skip
            else if m - {u.nextHop} == map[] then Drop
            else Replace(PathDeleted(r, u.nextHop))
  {
    var r := st.routes[u.prefix];
    StoredMeans(r, u.nextHop, u.mplsLabel);
    if Stored(st.routes, u.prefix, u.nextHop, u.mplsLabel) {
      WithdrawFindsTunnel(st, u);
      SinglePath(r, u.nextHop);
    }
  }

  lemma WithdrawIsFold(cfg: Config, st: State, u: Update)
    requires Inv(st) && u.prefix in st.routes && u.withdraw
    ensures var plan := Decide(cfg, st, u);
            && (plan.Replace? ==> plan.route.Parallel())
            && Planned(BookOf(st.routes), plan, u) == FoldStep(cfg, st.vrfs.Keys, BookOf(st.routes), u)
  {
    if KnownVrf(cfg, st, u.vrf) {
      WithdrawDecision(cfg, st, u);
      DelPathMeaning(st.routes[u.prefix], u.nextHop);
      WithdrawEdits(cfg, st.vrfs.Keys, BookOf(st.routes), st.routes[u.prefix], u, Decide(cfg, st, u));
    }
  }

  lemma WithdrawEdits(cfg: Config, vrfs: set<nat>, b: Book, r: Route, u: Update, plan: Plan)
    requires Relevant(cfg, vrfs, u) && u.withdraw && r.Parallel() && u.prefix in b && b[u.prefix] == r.Labels()
    requires PathDeleted(r, u.nextHop).Parallel() && PathDeleted(r, u.nextHop).Labels() == r.Labels() - {u.nextHop}
    requires plan == if !(u.nextHop in r.Labels() && r.Labels()[u.nextHop] == u.mplsLabel) then Skip
                     else if r.Labels() - {u.nextHop} == map[] then Drop
                     else Replace(PathDeleted(r, u.nextHop))
    ensures (plan.Replace? ==> plan.route.Parallel()) && !plan.Fresh?
    ensures Planned(b, plan, u) == FoldStep(cfg, vrfs, b, u)
  {
    FoldWithdraw(cfg, vrfs, b, u, PathDeleted(r, u.nextHop).Labels());
  }

  lemma FoldWithdraw(cfg: Config, vrfs: set<nat>, b: Book, u: Update, labels: map<Address, nat>)
    requires Relevant(cfg, vrfs, u) && u.withdraw && u.prefix in b && labels == b[u.prefix] - {u.nextHop}
    ensures FoldStep(cfg, vrfs, b, u) ==
            if !(u.nextHop in b[u.prefix] && b[u.prefix][u.nextHop] == u.mplsLabel) then b
            else if labels == map[] then b - {u.prefix}
            else b[u.prefix := labels]
  {
    SameEntry(b, u.prefix, labels, b[u.prefix] - {u.nextHop});
  }

  lemma SameEntry(b: Book, p: Address, x: map<Address, nat>, y: map<Address, nat>)
    requires x == y
    ensures b[p := x] == b[p := y]
  {
  }

  lemma AdvertiseIsFold(cfg: Config, st: State, u: Update)
    requires Inv(st) && u.prefix in st.routes && !u.withdraw && !Decide(cfg, st, u).DropAndPanic?
    ensures var plan := Decide(cfg, st, u);
            && (plan.Replace? ==> plan.route.Parallel())
            && Planned(BookOf(st.routes), plan, u) == FoldStep(cfg, st.vrfs.Keys, BookOf(st.routes), u)
  {
    var r := st.routes[u.prefix];
    StoredMeans(r, u.nextHop, u.mplsLabel);
    if Relevant(cfg, st.vrfs.Keys, u) {
      AdvertiseEdits(cfg, st.vrfs.Keys, BookOf(st.routes), r, u);
    }
  }

  lemma AdvertiseEdits(cfg: Config, vrfs: set<nat>, b: Book, r: Route, u: Update)
    requires Relevant(cfg, vrfs, u) && !u.withdraw && r.Shaped() && u.prefix in b && b[u.prefix] == r.Labels()
    ensures u.nextHop in r.Labels() && r.Labels()[u.nextHop] == u.mplsLabel ==> FoldStep(cfg, vrfs, b, u) == b
    ensures var edited := PathAdded(r, u.nextHop, UNDEFINED_TUNNEL, u.mplsLabel);
            edited.Edited? ==>
              edited.route.Parallel() && b[u.prefix := edited.route.Labels()] == FoldStep(cfg, vrfs, b, u)
  {
    if u.nextHop in r.Labels() && r.Labels()[u.nextHop] == u.mplsLabel {
      BookSame(b, u.prefix, r.Labels()[u.nextHop := u.mplsLabel]);
    }
    if Ignored(u.nextHop, UNDEFINED_TUNNEL, u.mplsLabel) {
      BookSame(b, u.prefix, r.Labels());
    } else if PathAdded(r, u.nextHop, UNDEFINED_TUNNEL, u.mplsLabel).Edited? {
      AddPathMeaning(r, u.nextHop, UNDEFINED_TUNNEL, u.mplsLabel);
    }
  }

  lemma SingleLabel(u: Update)
    ensures Received(u).Labels() == map[u.nextHop := u.mplsLabel]
  {
    var r := Received(u);
    AtPosition(r, 0);
  }

  /** One event that neither panics nor meets a VPP failure steps the book as the fold does. */
  lemma StepIsFold(cfg: Config, st: State, e: Event)
    requires Inv(st) && Exact(st) && Step(cfg, st, e).Running? && AllOk(Step(cfg, st, e).st.log)
    ensures Inv(Step(cfg, st, e).st)
    ensures BookOf(Step(cfg, st, e).st.routes) ==
            if e.FromFabric? then FoldStep(cfg, st.vrfs.Keys, BookOf(st.routes), e.update) else BookOf(st.routes)
  {
    StepKeepsInv(cfg, st, e);
    if e.FromFabric? {
      var u := e.update;
      PlanIsFold(cfg, st, u);
      PlanShape(cfg, st, u);
      PlanHops(cfg, st, u);
      ExecutePlans(st, Decide(cfg, st, u), u, e.replies);
    }
  }

  lemma ExecutePlans(st: State, plan: Plan, u: Update, replies: Replies)
    requires Inv(st) && Exact(st)
    requires plan.Drop? || plan.Replace? || plan.DropAndPanic? ==> u.prefix in st.routes
    requires plan.Fresh? ==> u.prefix !in st.routes
    requires plan.Fresh? || plan.Replace? ==>
               plan.route.Shaped() && plan.route.prefix == u.prefix && plan.route.vrf in st.vrfs
    requires plan.Fresh? ==> plan.route == Received(u)
    requires plan.Replace? ==> NO_ADDRESS !in plan.route.nextHops
    requires Inv(Execute(st, plan, u, replies).st) && AllOk(Execute(st, plan, u, replies).st.log)
    ensures BookOf(Execute(st, plan, u, replies).st.routes) == Planned(BookOf(st.routes), plan, u)
  {
    match plan
    case Skip =>
    case Fresh(route) =>
      if u.nextHop == NO_ADDRESS {
        EmptyHopIgnored(st, u, replies);
      } else {
        AddFipBook(st, route, u, replies);
      }
    case Drop => DelFipBook(st, u, replies);
    case DropAndPanic => DelFipBook(st, u, replies);
    case Replace(route) =>
      DelFipKeeps(st, u.prefix, u.vrf, replies);
      DelFipExact(st, u.prefix, u.vrf, replies);
      DelFipBook(st, u, replies);
      AddFipBook(DelFip(st, st.routes[u.prefix], u.vrf, replies), route, u, replies);
      SetAfterRemove(BookOf(st.routes), u.prefix, route.Labels());
  }

  lemma DelFipBook(st: State, u: Update, replies: Replies)
    requires Inv(st) && u.prefix in st.routes
    ensures var after := DelFip(st, st.routes[u.prefix], u.vrf, replies);
            AllParallel(after.routes) && BookOf(after.routes) == BookOf(st.routes) - {u.prefix}
  {
    DelFipKeeps(st, u.prefix, u.vrf, replies);
    BookRemove(st.routes, u.prefix);
  }

  lemma AddFipBook(st: State, route: Route, u: Update, replies: Replies)
    requires Inv(st) && Exact(st) && u.prefix !in st.routes
    requires route.Shaped() && route.prefix == u.prefix && route.vrf in st.vrfs && NO_ADDRESS !in route.nextHops
    requires AllOk(AddFip(st, route, u.vrf, replies).log)
    ensures var after := AddFip(st, route, u.vrf, replies);
            AllParallel(after.routes) && BookOf(after.routes) == BookOf(st.routes)[u.prefix := route.Labels()]
  {
    AddFipExact(st, route, u.vrf, replies);
    var after := AddFip(st, route, u.vrf, replies);
    var ids :| |ids| == |route.nextHops| && after.routes == st.routes[route.prefix := route.(tunnelIds := ids)];
    SameLabels(route, ids);
    BookInsert(st.routes, u.prefix, route.(tunnelIds := ids));
  }

  lemma {:induction false} RunExact(cfg: Config, st: State, es: seq<Event>)
    requires Inv(st) && Exact(st)
    ensures var end := Run(cfg, st, es).st;
            Grows(st, end) && Exact(end) && end.vrfs.Keys == st.vrfs.Keys
    decreases |es|
  {
    if es != [] {
      RunExact(cfg, st, es[..|es|-1]);
      StepExact(cfg, Run(cfg, st, es[..|es|-1]).st, es[|es|-1]);
      StepKeepsInv(cfg, Run(cfg, st, es[..|es|-1]).st, es[|es|-1]);
    }
  }

  lemma {:induction false} RunBook(cfg: Config, st: State, es: seq<Event>)
    requires Inv(st) && Exact(st) && Run(cfg, st, es).Running? && AllOk(Run(cfg, st, es).st.log)
    ensures BookOf(Run(cfg, st, es).st.routes) == Fold(cfg, st.vrfs.Keys, BookOf(st.routes), es)
    decreases |es|
  {
    if es != [] {
      var before := Run(cfg, st, es[..|es|-1]);
      RunExact(cfg, st, es[..|es|-1]);
      StepExact(cfg, before.st, es[|es|-1]);
      RunBook(cfg, st, es[..|es|-1]);
      StepIsFold(cfg, before.st, es[|es|-1]);
    }
  }

  /** What VPP is to hold for a book: one entry for each prefix, and in it a path to next hop `nh` through
      tunnel `t` with label `l` exactly when the book has `l` for `nh` and `t` is the tunnel of `nh`. */
  ghost predicate FibIs(st: State, b: Book) {
    && st.routes.Keys == b.Keys
    && (forall k :: k in st.vpp.fib <==> k.1 in st.routes && k.0 == st.routes[k.1].vrf)
    && (forall p, nh, t, l :: p in st.routes && (st.routes[p].vrf, p) in st.vpp.fib ==>
          (Path(nh, t, l) in st.vpp.fib[(st.routes[p].vrf, p)] <==>
           nh in b[p] && b[p][nh] == l && nh in st.tunnels && st.tunnels[nh].id == t))
  }

  lemma FibIsBook(st: State)
    requires Inv(st) && FibMatches(st.vpp.fib, st.routes)
    ensures FibIs(st, BookOf(st.routes))
  {
    var b := BookOf(st.routes);
    MatchMirrors(st);
    forall p, nh, t, l | p in st.routes
      ensures Names(st.routes[p], Path(nh, t, l)) <==>
              nh in b[p] && b[p][nh] == l && nh in st.tunnels && st.tunnels[nh].id == t
    {
      NamesMeans(st.routes[p], st.tunnels, Path(nh, t, l));
    }
    forall k: (nat, Address) | k.1 in st.routes && k.0 == st.routes[k.1].vrf
      ensures k in st.vpp.fib
    {
      assert k == (st.routes[k.1].vrf, k.1);
    }
  }

  lemma NamesMeans(r: Route, ts: map<Address, Tunnel>, path: Path)
    requires r.Shaped() && BoundTo(r, ts)
    ensures Names(r, path) <==>
            && path.nextHop in r.Labels() && r.Labels()[path.nextHop] == path.mplsLabel
            && path.nextHop in ts && ts[path.nextHop].id == path.tunnelId
  {
    if path.nextHop in r.nextHops {
      var i := IndexOf(r.nextHops, path.nextHop);
      AtPosition(r, i);
      if path.mplsLabel == r.labels[i] && path.tunnelId == r.tunnelIds[i] {
        assert Names(r, path);
      }
    }
  }

  /** From the start, over any list of updates that neither crashes nor meets a VPP failure: the
      stored routes are the fold of the updates, VPP's FIB holds exactly its next hops and labels, each
      through the tunnel of its next hop, and a tunnel is stored, and lives in VPP, exactly while some
      stored route uses it. */
  lemma RunIsFold(cfg: Config, st: State, es: seq<Event>)
    requires Booted(st) && st.vpp.tunnels == {}
    requires Inv(st) && Run(cfg, st, es).Running? && AllOk(Run(cfg, st, es).st.log)
    ensures var end := Run(cfg, st, es).st;
            && BookOf(end.routes) == Fold(cfg, st.vrfs.Keys, map[], es)
            && FibMatches(end.vpp.fib, end.routes)
            && FibIs(end, Fold(cfg, st.vrfs.Keys, map[], es))
            && (forall nh :: nh in end.tunnels <==> exists p :: p in end.routes && nh in end.routes[p].nextHops)
            && (forall id :: id in end.vpp.tunnels <==> exists nh :: nh in end.tunnels && end.tunnels[nh].id == id)
  {
    RunExact(cfg, st, es);
    RunBook(cfg, st, es);
    RunNeverDangles(cfg, st, es);
    var end := Run(cfg, st, es).st;
    assert BookOf(st.routes) == map[];
    FibIsBook(end);
    forall nh ensures nh in end.tunnels <==> exists p :: p in end.routes && nh in end.routes[p].nextHops {
      StoredExactlyWhileUsed(end, nh);
    }
  }

  lemma StoredExactlyWhileUsed(st: State, nh: Address)
    requires Inv(st) && Tight(st)
    ensures nh in st.tunnels <==> exists p :: p in st.routes && nh in st.routes[p].nextHops
  {
    if nh in st.tunnels {
      assert UsersOf(st.routes, nh) != {};
      var p :| p in UsersOf(st.routes, nh);
    } else {
      NoUsers(st.routes, st.tunnels, nh);
      forall p | p in st.routes ensures nh !in st.routes[p].nextHops {
        assert p !in UsersOf(st.routes, nh);
      }
    }
  }
}
