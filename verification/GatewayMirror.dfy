/** VPP against the in-memory stores: what its FIB and tunnel table hold after every event, and
    that no installed route names a missing tunnel after any single VPP call. */
module GatewayMirror {
  import opened Routes
  import opened GatewayState
  import opened GatewayProtocol
  import opened GatewayInvariant

  ghost predicate DeletesOk(log: seq<Call>) {
    forall i :: 0 <= i < |log| && log[i].kind.RouteDelete? ==> log[i].ok
  }

  ghost predicate AllOk(log: seq<Call>) {
    forall i :: 0 <= i < |log| ==> log[i].ok
  }

  /** No path in the FIB names a tunnel ID that does not exist. */
  ghost predicate NoDangling(v: Vpp) {
    forall k, q :: k in v.fib && q in v.fib[k] ==> q.tunnelId in v.tunnels
  }

  ghost predicate Safe(log: seq<Call>) {
    forall i :: 0 <= i < |log| ==> NoDangling(log[i].after)
  }

  /** The FIB holds the paths of the stored routes and nothing else. */
  ghost predicate FibMatches(fib: map<(nat, Address), set<Path>>, routes: map<Address, Route>) {
    && (forall p :: p in routes ==> (routes[p].vrf, p) in fib && fib[(routes[p].vrf, p)] == routes[p].Paths())
    && (forall k :: k in fib ==> k.1 in routes && routes[k.1].vrf == k.0)
  }

  /** The same, path by path: VPP has, for each stored route, exactly the next hops of the route, each
      with the tunnel ID and the label at its own position. */
  ghost predicate Mirrors(fib: map<(nat, Address), set<Path>>, routes: map<Address, Route>) {
    && (forall p :: p in routes ==>
          && routes[p].Parallel() && (routes[p].vrf, p) in fib
          && forall path :: path in fib[(routes[p].vrf, p)] <==> Names(routes[p], path))
    && (forall k :: k in fib ==> k.1 in routes && routes[k.1].vrf == k.0)
  }

  lemma MatchMirrors(st: State)
    requires Inv(st) && FibMatches(st.vpp.fib, st.routes)
    ensures Mirrors(st.vpp.fib, st.routes)
  {
    forall p | p in st.routes
      ensures forall path :: path in st.vpp.fib[(st.routes[p].vrf, p)] <==> Names(st.routes[p], path)
    {
      PathsByPosition(st.routes[p]);
    }
  }

  ghost predicate Good(st: State) {
    Inv(st) && (DeletesOk(st.log) ==> FibMatches(st.vpp.fib, st.routes) && Safe(st.log))
  }

  // ---- Single calls -----------------------------------------------------------------------

  lemma LoggedOk(st: State, kind: CallKind, ok: bool, v: Vpp)
    ensures var log := Logged(st, kind, ok, v).log;
            && (DeletesOk(log) <==> DeletesOk(st.log) && (kind.RouteDelete? ==> ok))
            && (AllOk(log) <==> AllOk(st.log) && ok)
            && (Safe(log) <==> Safe(st.log) && NoDangling(v))
  {
    var log := Logged(st, kind, ok, v).log;
    var n := |st.log|;
    assert log[n] == Call(kind, ok, v);
    assert forall i :: 0 <= i < n ==> log[i] == st.log[i];
  }

  lemma BoundPathsLive(r: Route, st: State, q: Path)
    requires BoundTo(r, st.tunnels) && TunnelsLive(st.tunnels, st.vpp.tunnels) && q in r.Paths()
    ensures q.tunnelId in st.vpp.tunnels
  {
  }

  /** When the tables agree, the FIB they mirror has no dangling path. */
  lemma MatchIsSafe(st: State)
    requires Inv(st) && FibMatches(st.vpp.fib, st.routes)
    ensures NoDangling(st.vpp)
  {
    forall k, q | k in st.vpp.fib && q in st.vpp.fib[k] ensures q.tunnelId in st.vpp.tunnels {
      assert k == (st.routes[k.1].vrf, k.1);
      assert BoundTo(st.routes[k.1], st.tunnels);
      BoundPathsLive(st.routes[k.1], st, q);
    }
  }

  lemma BindOneGood(st: State, nh: Address, replies: Replies)
    requires Good(st)
    ensures Good(BindOne(st, nh, replies).0)
  {
    BindOneKeeps(st, nh, replies);
    if nh !in st.tunnels {
      var after := BindOne(st, nh, replies).0;
      LoggedOk(st, TunnelAdd, TunnelOffer(st.vpp, nh, replies).Some?, after.vpp);
      if DeletesOk(st.log) {
        MatchIsSafe(after);
      }
    }
  }

  lemma {:induction false} BindGood(st: State, nhs: seq<Address>, replies: Replies)
    requires Good(st)
    ensures Good(Bind(st, nhs, replies).st)
  {
    if nhs != [] {
      BindGood(st, nhs[..|nhs|-1], replies);
      var before := Bind(st, nhs[..|nhs|-1], replies);
      if before.ok {
        BindOneGood(before.st, nhs[|nhs|-1], replies);
      }
    }
  }

  lemma CollectOneGood(st: State, nh: Address, id: nat, replies: Replies)
    requires Good(st) && nh in st.tunnels && st.tunnels[nh].id == id
    ensures Good(CollectOne(st, nh, id, replies))
  {
    CollectOneKeeps(st, nh, id, replies);
    if TunnelServed(st.tunnels, nh) == 0 {
      var after := CollectOne(st, nh, id, replies);
      LoggedOk(st, TunnelDelete, id in replies.tunnelDelete, after.vpp);
      if DeletesOk(st.log) {
        MatchIsSafe(after);
      }
    }
  }

  lemma {:induction false} CollectGood(st: State, nhs: seq<Address>, ids: seq<nat>, replies: Replies)
    requires Good(st) && DistinctKeys(nhs) && IdsOf(ids, nhs, st.tunnels)
    ensures Good(Collect(st, nhs, ids, replies))
  {
    if nhs != [] {
      var n := |nhs| - 1;
      InSnoc(nhs);
      CollectGood(st, nhs[..n], ids[..n], replies);
      CollectKeeps(st, nhs[..n], ids[..n], replies);
      CollectOneGood(Collect(st, nhs[..n], ids[..n], replies), nhs[n], ids[n], replies);
    }
  }

  lemma StoredIsDefined(st: State, p: Address)
    requires Inv(st) && p in st.routes
    ensures UNDEFINED_TUNNEL !in st.routes[p].tunnelIds
  {
    assert BoundTo(st.routes[p], st.tunnels);
  }

  /** Deleting from VPP and then from the table: the FIB follows. */
  lemma DeleteFollows(fib: map<(nat, Address), set<Path>>, routes: map<Address, Route>, p: Address)
    requires FibMatches(fib, routes) && p in routes && routes[p].prefix == p
    ensures FibMatches(FibDelete(fib, routes[p]), routes - {p})
  {
    assert fib[(routes[p].vrf, p)] - routes[p].Paths() == {};
  }

  lemma AddFollows(fib: map<(nat, Address), set<Path>>, routes: map<Address, Route>, r: Route)
    requires FibMatches(fib, routes) && r.prefix !in routes
    ensures FibMatches(FibAdd(fib, r), routes[r.prefix := r])
    ensures FibAdd(fib, r) == fib[(r.vrf, r.prefix) := r.Paths()]
  {
  }

  lemma DeleteGood(st: State, p: Address, replies: Replies)
    requires Good(st) && p in st.routes
    ensures Good(CountOut(SendRoute(st, false, st.routes[p], replies).0, st.routes[p]))
  {
    var r := st.routes[p];
    var sent := SendRoute(st, false, r, replies).0;
    SendRouteFrame(st, false, r, replies);
    CountOutKeeps(sent, p);
    StoredIsDefined(st, p);
    LoggedOk(st, RouteDelete, replies.routeDelete, sent.vpp);
    if DeletesOk(sent.log) {
      DeleteFollows(st.vpp.fib, st.routes, p);
      MatchIsSafe(st);
      assert NoDangling(sent.vpp);
    }
  }

  lemma SendAndCountGood(st: State, r: Route, replies: Replies)
    requires Good(st) && r.Shaped() && r.prefix !in st.routes && r.vrf in st.vrfs && BoundTo(r, st.tunnels)
    ensures var (sent, ok) := SendRoute(st, true, r, replies);
            Good(if ok then CountIn(sent, r) else sent)
  {
    var (sent, ok) := SendRoute(st, true, r, replies);
    SendRouteFrame(st, true, r, replies);
    assert UNDEFINED_TUNNEL !in r.tunnelIds;
    LoggedOk(st, RouteAdd, replies.routeAdd, sent.vpp);
    if ok {
      CountInKeeps(sent, r);
    }
    if DeletesOk(sent.log) {
      MatchIsSafe(st);
      if ok {
        AddFollows(st.vpp.fib, st.routes, r);
        forall k, q | k in sent.vpp.fib && q in sent.vpp.fib[k] ensures q.tunnelId in sent.vpp.tunnels {
          if k == (r.vrf, r.prefix) {
            BoundPathsLive(r, st, q);
          }
        }
      }
    }
  }

  // ---- Events and runs --------------------------------------------------------------------

  lemma DelFipGood(st: State, p: Address, vrf: nat, replies: Replies)
    requires Good(st) && p in st.routes
    ensures Good(DelFip(st, st.routes[p], vrf, replies))
  {
    var r := st.routes[p];
    var sent := SendRoute(st, false, r, replies).0;
    DeleteGood(st, p, replies);
    SendRouteFrame(st, false, r, replies);
    CountOutKeeps(sent, p);
    CollectGood(CountOut(sent, r), r.nextHops, r.tunnelIds, replies);
  }

  lemma AddFipGood(st: State, r: Route, vrf: nat, replies: Replies)
    requires Good(st) && r.Shaped() && r.prefix !in st.routes && r.vrf in st.vrfs
    ensures Good(AddFip(st, r, vrf, replies))
  {
    BindGood(st, r.nextHops, replies);
    BindKeeps(st, r.nextHops, replies);
    var bound := Bind(st, r.nextHops, replies);
    if bound.ok {
      SendAndCountGood(bound.st, r.(tunnelIds := bound.ids), replies);
    }
  }

  lemma StepGood(cfg: Config, st: State, e: Event)
    requires Good(st)
    ensures Good(Step(cfg, st, e).st)
  {
    if e.FromFabric? {
      var u, replies := e.update, e.replies;
      PlanShape(cfg, st, u);
      match Decide(cfg, st, u)
      case Skip =>
      case Fresh(route) => AddFipGood(st, route, u.vrf, replies);
      case Drop => DelFipGood(st, u.prefix, u.vrf, replies);
      case DropAndPanic => DelFipGood(st, u.prefix, u.vrf, replies);
      case Replace(route) =>
        DelFipKeeps(st, u.prefix, u.vrf, replies);
        DelFipGood(st, u.prefix, u.vrf, replies);
        AddFipGood(DelFip(st, st.routes[u.prefix], u.vrf, replies), route, u.vrf, replies);
    }
  }

  lemma {:induction false} RunGood(cfg: Config, st: State, es: seq<Event>)
    requires Good(st)
    ensures Good(Run(cfg, st, es).st)
    decreases |es|
  {
    if es != [] {
      RunGood(cfg, st, es[..|es|-1]);
      StepGood(cfg, Run(cfg, st, es[..|es|-1]).st, es[|es|-1]);
    }
  }

  lemma BootedGood(st: State)
    requires Booted(st)
    ensures Good(st)
  {
    BootedInv(st);
  }

  /** From the start, in every run whose route deletions VPP carried out, whatever else failed and
      even if the run ends in a crash: after every single VPP call no installed path names a
      missing tunnel, and after the last event VPP's FIB holds exactly the stored routes. */
  lemma RunNeverDangles(cfg: Config, st: State, es: seq<Event>)
    requires Booted(st) && Inv(st)
    ensures var end := Run(cfg, st, es).st;
            DeletesOk(end.log) ==>
              FibMatches(end.vpp.fib, end.routes) && Mirrors(end.vpp.fib, end.routes) && Safe(end.log)
  {
    BootedGood(st);
    RunGood(cfg, st, es);
    if DeletesOk(Run(cfg, st, es).st.log) {
      MatchMirrors(Run(cfg, st, es).st);
    }
  }

  // ---- When VPP refuses to delete a route -------------------------------------------------

  /** The IDs of next hops that serve nothing and that VPP agrees to delete. */
  ghost function Freed(ts: map<Address, Tunnel>, nhs: seq<Address>, ids: seq<nat>, replies: Replies): set<nat>
    requires |nhs| == |ids|
  {
    set i | 0 <= i < |nhs| && TunnelServed(ts, nhs[i]) == 0 && ids[i] in replies.tunnelDelete :: ids[i]
  }

  lemma FreedSnoc(ts: map<Address, Tunnel>, nhs: seq<Address>, ids: seq<nat>, replies: Replies)
    requires |nhs| == |ids| && nhs != []
    ensures var n := |nhs| - 1;
            Freed(ts, nhs, ids, replies) == Freed(ts, nhs[..n], ids[..n], replies)
              + (if TunnelServed(ts, nhs[n]) == 0 && ids[n] in replies.tunnelDelete then {ids[n]} else {})
  {
  }

  lemma {:induction false} CollectLive(st: State, nhs: seq<Address>, ids: seq<nat>, replies: Replies)
    requires Inv(st) && DistinctKeys(nhs) && IdsOf(ids, nhs, st.tunnels)
    ensures Collect(st, nhs, ids, replies).vpp.tunnels == st.vpp.tunnels - Freed(st.tunnels, nhs, ids, replies)
  {
    if nhs != [] {
      var n := |nhs| - 1;
      InSnoc(nhs);
      FreedSnoc(st.tunnels, nhs, ids, replies);
      CollectLive(st, nhs[..n], ids[..n], replies);
      CollectKeeps(st, nhs[..n], ids[..n], replies);
    }
  }

  lemma LoneElement(s: set<Address>, p: Address)
    requires p in s
    ensures |s| == 1 <==> s == {p}
  {
    assert s == {p} + (s - {p});
  }

  lemma LastUser(st: State, p: Address, nh: Address)
    requires Inv(st) && p in st.routes && nh in st.routes[p].nextHops
    ensures TunnelServed(CountOut(st, st.routes[p]).tunnels, nh) == 0 <==> UsersOf(st.routes, nh) == {p}
  {
    var out := CountOut(st, st.routes[p]);
    CountOutKeeps(st, p);
    assert nh in out.tunnels && out.tunnels[nh].served == |UsersOf(st.routes - {p}, nh)|;
    UsersOfRemove(st.routes, p, nh);
    LoneElement(UsersOf(st.routes, nh), p);
  }

  /** A refused deletion leaves the FIB; the tunnels go as if it had succeeded. */
  lemma RefusedDelete(st: State, p: Address, vrf: nat, replies: Replies)
    requires Inv(st) && p in st.routes && !replies.routeDelete
    ensures var r := st.routes[p];
            DelFip(st, r, vrf, replies).vpp ==
            st.vpp.(tunnels := st.vpp.tunnels - Freed(CountOut(st, r).tunnels, r.nextHops, r.tunnelIds, replies))
  {
    var r := st.routes[p];
    var sent := SendRoute(st, false, r, replies).0;
    SendRouteFrame(st, false, r, replies);
    CountOutKeeps(sent, p);
    CollectLive(CountOut(sent, r), r.nextHops, r.tunnelIds, replies);
    CollectKeeps(CountOut(sent, r), r.nextHops, r.tunnelIds, replies);
  }

  /** If VPP keeps a route that the gateway deletes, its paths are left dangling exactly when VPP
      does delete a tunnel that only this route used. */
  lemma FailedDeleteDangles(st: State, p: Address, vrf: nat, replies: Replies)
    requires Inv(st) && FibMatches(st.vpp.fib, st.routes) && p in st.routes && !replies.routeDelete
    ensures var r := st.routes[p];
            NoDangling(DelFip(st, r, vrf, replies).vpp) <==>
            forall i :: 0 <= i < |r.nextHops| && UsersOf(st.routes, r.nextHops[i]) == {p} ==>
              r.tunnelIds[i] !in replies.tunnelDelete
  {
    var r := st.routes[p];
    RefusedDelete(st, p, vrf, replies);
    var ts := CountOut(st, r).tunnels;
    forall i | 0 <= i < |r.nextHops|
      ensures TunnelServed(ts, r.nextHops[i]) == 0 <==> UsersOf(st.routes, r.nextHops[i]) == {p}
    {
      LastUser(st, p, r.nextHops[i]);
    }
    DanglesIfFreed(st, p, Freed(ts, r.nextHops, r.tunnelIds, replies));
    NoneFreed(ts, r.nextHops, r.tunnelIds, replies);
  }

  lemma NoneFreed(ts: map<Address, Tunnel>, nhs: seq<Address>, ids: seq<nat>, replies: Replies)
    requires |nhs| == |ids|
    ensures Freed(ts, nhs, ids, replies) == {} <==>
            forall i :: 0 <= i < |nhs| && TunnelServed(ts, nhs[i]) == 0 ==> ids[i] !in replies.tunnelDelete
  {
    if i :| 0 <= i < |nhs| && TunnelServed(ts, nhs[i]) == 0 && ids[i] in replies.tunnelDelete {
      assert ids[i] in Freed(ts, nhs, ids, replies);
    }
  }

  lemma DanglesIfFreed(st: State, p: Address, freed: set<nat>)
    requires Inv(st) && FibMatches(st.vpp.fib, st.routes) && p in st.routes
    requires forall id :: id in freed ==> id in st.routes[p].tunnelIds
    ensures NoDangling(st.vpp.(tunnels := st.vpp.tunnels - freed)) <==> freed == {}
  {
    MatchIsSafe(st);
    if freed != {} {
      var id :| id in freed;
      var r := st.routes[p];
      var i :| 0 <= i < |r.tunnelIds| && r.tunnelIds[i] == id;
      assert Path(r.nextHops[i], r.tunnelIds[i], r.labels[i]) in r.Paths();
      assert Path(r.nextHops[i], id, r.labels[i]) in st.vpp.fib[(r.vrf, p)];
    }
  }
}
