/** A route that is deleted and added back within one event: which tunnels it loses, when it gets new
    ones, and what its return repairs when VPP refused the deletion. */
module GatewayRebind {
  import opened Options
  import opened Routes
  import opened GatewayState
  import opened GatewayProtocol
  import opened GatewayInvariant
  import opened GatewayMirror

  // ---- Binding a list of next hops --------------------------------------------------------

  /** VPP offers a next hop an ID that no live tunnel has. */
  ghost predicate Offered(nh: Address, live: set<nat>, replies: Replies) {
    && nh != NO_ADDRESS && nh in replies.tunnelAdd
    && replies.tunnelAdd[nh] !in live && replies.tunnelAdd[nh] != UNDEFINED_TUNNEL
  }

  /** Each next hop without a tunnel is offered one, under an ID of its own. */
  ghost predicate AllOffered(missing: set<Address>, nhs: seq<Address>, live: set<nat>, replies: Replies) {
    && (forall i :: 0 <= i < |nhs| && nhs[i] in missing ==> Offered(nhs[i], live, replies))
    && (forall i, j :: 0 <= i < j < |nhs| && nhs[i] in missing && nhs[j] in missing ==>
          replies.tunnelAdd[nhs[i]] != replies.tunnelAdd[nhs[j]])
  }

  ghost function NewIds(missing: set<Address>, nhs: seq<Address>, replies: Replies): set<nat> {
    set i | 0 <= i < |nhs| && nhs[i] in missing && nhs[i] in replies.tunnelAdd :: replies.tunnelAdd[nhs[i]]
  }

  /** What a successful binding leaves. */
  ghost predicate Extends(st: State, after: State, missing: set<Address>, nhs: seq<Address>, replies: Replies) {
    && after.vpp.tunnels == st.vpp.tunnels + NewIds(missing, nhs, replies)
    && (forall nh :: nh in after.tunnels <==> nh in st.tunnels || nh in nhs)
  }

  lemma BindOneExactly(st: State, nhs: seq<Address>, missing: set<Address>, start: State, replies: Replies)
    requires nhs != [] && DistinctKeys(nhs) && Extends(start, st, missing, nhs[..|nhs|-1], replies)
    requires nhs[|nhs|-1] in missing <==> nhs[|nhs|-1] !in start.tunnels
    requires AllOffered(missing, nhs[..|nhs|-1], start.vpp.tunnels, replies)
    ensures var (after, id) := BindOne(st, nhs[|nhs|-1], replies);
            && (id.Some? <==> AllOffered(missing, nhs, start.vpp.tunnels, replies))
            && (id.Some? ==> Extends(start, after, missing, nhs, replies))
  {
    var n := |nhs| - 1;
    var nh := nhs[n];
    assert nhs == nhs[..n] + [nh];
    assert nh !in nhs[..n];
    var (after, id) := BindOne(st, nh, replies);
    NewIdsSnoc(missing, nhs, replies);
    AllOfferedSnoc(missing, nhs, start.vpp.tunnels, replies);
  }

  lemma NewIdsSnoc(missing: set<Address>, nhs: seq<Address>, replies: Replies)
    requires nhs != []
    ensures var n := |nhs| - 1;
            NewIds(missing, nhs, replies) == NewIds(missing, nhs[..n], replies)
              + (if nhs[n] in missing && nhs[n] in replies.tunnelAdd then {replies.tunnelAdd[nhs[n]]} else {})
  {
    var n := |nhs| - 1;
    forall id | id in NewIds(missing, nhs, replies)
      ensures id in NewIds(missing, nhs[..n], replies)
           || (nhs[n] in missing && nhs[n] in replies.tunnelAdd && id == replies.tunnelAdd[nhs[n]])
    {
      var i :| 0 <= i < |nhs| && nhs[i] in missing && nhs[i] in replies.tunnelAdd && replies.tunnelAdd[nhs[i]] == id;
      assert i < n ==> nhs[..n][i] == nhs[i];
    }
    forall id | id in NewIds(missing, nhs[..n], replies)
      ensures id in NewIds(missing, nhs, replies)
    {
      var i :| 0 <= i < n && nhs[..n][i] in missing && nhs[..n][i] in replies.tunnelAdd && replies.tunnelAdd[nhs[..n][i]] == id;
      assert nhs[i] == nhs[..n][i];
    }
  }

  lemma AllOfferedSnoc(missing: set<Address>, nhs: seq<Address>, live: set<nat>, replies: Replies)
    requires nhs != [] && AllOffered(missing, nhs[..|nhs|-1], live, replies)
    ensures var n := |nhs| - 1;
            AllOffered(missing, nhs, live, replies) <==>
            nhs[n] !in missing || Offered(nhs[n], live + NewIds(missing, nhs[..n], replies), replies)
  {
    var n := |nhs| - 1;
    var before := NewIds(missing, nhs[..n], replies);
    assert forall i :: 0 <= i < n ==> nhs[..n][i] == nhs[i];
    if nhs[n] in missing && Offered(nhs[n], live, replies) {
      var id := replies.tunnelAdd[nhs[n]];
      if id in before {
        var i :| 0 <= i < n && nhs[..n][i] in missing && nhs[..n][i] in replies.tunnelAdd && replies.tunnelAdd[nhs[..n][i]] == id;
        assert nhs[i] in missing && replies.tunnelAdd[nhs[i]] == id;
      } else {
        forall i | 0 <= i < n && nhs[i] in missing
          ensures replies.tunnelAdd[nhs[i]] != id
        {
          assert nhs[..n][i] in missing && replies.tunnelAdd[nhs[..n][i]] in before;
        }
      }
    }
  }

  /** The first loop of adding gets through exactly when every next hop without a tunnel is offered
      one; it then has made these tunnels and no others. */
  lemma {:induction false} BindExactly(st: State, nhs: seq<Address>, missing: set<Address>, replies: Replies)
    requires DistinctKeys(nhs)
    requires forall i :: 0 <= i < |nhs| ==> (nhs[i] in missing <==> nhs[i] !in st.tunnels)
    ensures var b := Bind(st, nhs, replies);
            && (b.ok <==> AllOffered(missing, nhs, st.vpp.tunnels, replies))
            && (b.ok ==> Extends(st, b.st, missing, nhs, replies))
  {
    if nhs != [] {
      var n := |nhs| - 1;
      BindExactly(st, nhs[..n], missing, replies);
      var before := Bind(st, nhs[..n], replies);
      if before.ok {
        BindOneExactly(before.st, nhs, missing, st, replies);
      } else {
        assert forall i :: 0 <= i < n ==> nhs[..n][i] == nhs[i];
      }
    }
  }

  /** What a binding leaves that stopped at next hop `n`: the tunnels made before it stay. */
  ghost predicate StoppedAt(st: State, after: State, missing: set<Address>, nhs: seq<Address>, replies: Replies, n: nat)
    requires n < |nhs|
  {
    && Extends(st, after, missing, nhs[..n], replies)
    && AllOffered(missing, nhs[..n], st.vpp.tunnels, replies)
    && !AllOffered(missing, nhs[..n+1], st.vpp.tunnels, replies)
  }

  /** If the loop stops early, it does so at the first next hop that is not offered a tunnel. */
  lemma {:induction false} BindStopsExactly(st: State, nhs: seq<Address>, missing: set<Address>, replies: Replies) returns (n: nat)
    requires DistinctKeys(nhs) && !Bind(st, nhs, replies).ok
    requires forall i :: 0 <= i < |nhs| ==> (nhs[i] in missing <==> nhs[i] !in st.tunnels)
    ensures n < |nhs| && StoppedAt(st, Bind(st, nhs, replies).st, missing, nhs, replies, n)
  {
    var m := |nhs| - 1;
    var before := Bind(st, nhs[..m], replies);
    if before.ok {
      n := m;
      BindExactly(st, nhs[..m], missing, replies);
      BindExactly(st, nhs, missing, replies);
      assert nhs[..m+1] == nhs;
      FailedOne(before.st, nhs[m], replies);
    } else {
      n := BindStopsExactly(st, nhs[..m], missing, replies);
      assert nhs[..m][..n] == nhs[..n] && nhs[..m][..n+1] == nhs[..n+1];
    }
  }

  lemma FailedOne(st: State, nh: Address, replies: Replies)
    requires BindOne(st, nh, replies).1.None?
    ensures var after := BindOne(st, nh, replies).0; after.tunnels == st.tunnels && after.vpp == st.vpp
  {
  }

  // ---- What a deletion takes --------------------------------------------------------------

  /** Only the route of prefix `p` uses this next hop. */
  ghost predicate Sole(routes: map<Address, Route>, p: Address, nh: Address) {
    UsersOf(routes, nh) == {p}
  }

  /** The IDs of the tunnels that go in VPP with the route. */
  ghost function FreedIds(st: State, p: Address, replies: Replies): set<nat>
    requires p in st.routes && st.routes[p].Parallel()
  {
    var r := st.routes[p];
    set i | 0 <= i < |r.nextHops| && Sole(st.routes, p, r.nextHops[i]) && r.tunnelIds[i] in replies.tunnelDelete :: r.tunnelIds[i]
  }

  /** The tunnels left in VPP. */
  ghost function Left(st: State, p: Address, replies: Replies): set<nat>
    requires p in st.routes && st.routes[p].Parallel()
  {
    st.vpp.tunnels - FreedIds(st, p, replies)
  }

  /** A deletion forgets exactly the tunnels that only this route used, and those of them that VPP
      agrees to delete disappear there. */
  lemma DeletionTakes(st: State, p: Address, vrf: nat, replies: Replies)
    requires Inv(st) && p in st.routes
    ensures var after := DelFip(st, st.routes[p], vrf, replies);
            && (forall nh :: nh in after.tunnels <==> nh in st.tunnels && !Sole(st.routes, p, nh))
            && after.vpp.tunnels == Left(st, p, replies)
  {
    var r := st.routes[p];
    var sent := SendRoute(st, false, r, replies).0;
    SendRouteFrame(st, false, r, replies);
    CountOutTakes(sent, p, replies);
    assert FreedIds(sent, p, replies) == FreedIds(st, p, replies);
  }

  lemma CountOutTakes(st: State, p: Address, replies: Replies)
    requires Inv(st) && p in st.routes
    ensures var r := st.routes[p];
            var after := Collect(CountOut(st, r), r.nextHops, r.tunnelIds, replies);
            && (forall nh :: nh in after.tunnels <==> nh in st.tunnels && !Sole(st.routes, p, nh))
            && after.vpp.tunnels == Left(st, p, replies)
  {
    CountOutForgets(st, p, replies);
    CountOutFrees(st, p, replies);
  }

  lemma CountOutForgets(st: State, p: Address, replies: Replies)
    requires Inv(st) && p in st.routes
    ensures var r := st.routes[p];
            var after := Collect(CountOut(st, r), r.nextHops, r.tunnelIds, replies);
            forall nh :: nh in after.tunnels <==> nh in st.tunnels && !Sole(st.routes, p, nh)
  {
    var r := st.routes[p];
    CountOutKeeps(st, p);
    CollectKeeps(CountOut(st, r), r.nextHops, r.tunnelIds, replies);
    SoleAreIdle(st, p);
    DecAllAt(st.tunnels, r.nextHops);
  }

  lemma CountOutFrees(st: State, p: Address, replies: Replies)
    requires Inv(st) && p in st.routes
    ensures var r := st.routes[p];
            Collect(CountOut(st, r), r.nextHops, r.tunnelIds, replies).vpp.tunnels == Left(st, p, replies)
  {
    var r := st.routes[p];
    CountOutKeeps(st, p);
    CollectLive(CountOut(st, r), r.nextHops, r.tunnelIds, replies);
    SoleAreIdle(st, p);
    assert Freed(CountOut(st, r).tunnels, r.nextHops, r.tunnelIds, replies) == FreedIds(st, p, replies);
  }

  /** Counted out, a next hop serves nothing exactly when the route was its sole user. */
  lemma SoleAreIdle(st: State, p: Address)
    requires Inv(st) && p in st.routes
    ensures forall nh :: nh in st.routes[p].nextHops ==>
              (TunnelServed(CountOut(st, st.routes[p]).tunnels, nh) == 0 <==> Sole(st.routes, p, nh))
    ensures forall nh :: Sole(st.routes, p, nh) ==> nh in st.routes[p].nextHops
  {
    forall nh | nh in st.routes[p].nextHops
      ensures TunnelServed(CountOut(st, st.routes[p]).tunnels, nh) == 0 <==> Sole(st.routes, p, nh)
    {
      LastUser(st, p, nh);
    }
    forall nh | Sole(st.routes, p, nh)
      ensures nh in st.routes[p].nextHops
    {
      assert p in UsersOf(st.routes, nh);
    }
  }

  // ---- Coming back ------------------------------------------------------------------------

  /** The next hops that have no tunnel once the route of prefix `p` is deleted. */
  ghost function Lacking(st: State, p: Address, nhs: seq<Address>): set<Address> {
    set i | 0 <= i < |nhs| && (nhs[i] !in st.tunnels || Sole(st.routes, p, nhs[i])) :: nhs[i]
  }

  /** Each of them is offered a tunnel, under an ID that no tunnel left in VPP has. */
  ghost predicate Rebinds(st: State, p: Address, nhs: seq<Address>, replies: Replies)
    requires p in st.routes && st.routes[p].Parallel()
  {
    AllOffered(Lacking(st, p, nhs), nhs, Left(st, p, replies), replies)
  }

  lemma LackingAre(st: State, p: Address, nhs: seq<Address>)
    ensures forall i :: 0 <= i < |nhs| ==>
              (nhs[i] in Lacking(st, p, nhs) <==> nhs[i] !in st.tunnels || Sole(st.routes, p, nhs[i]))
  {
  }

  lemma RebindsExactly(st: State, p: Address, vrf: nat, nhs: seq<Address>, replies: Replies)
    requires Inv(st) && p in st.routes && DistinctKeys(nhs)
    ensures var b := Bind(DelFip(st, st.routes[p], vrf, replies), nhs, replies);
            && (b.ok <==> Rebinds(st, p, nhs, replies))
            && (b.ok ==> b.st.vpp.tunnels == Left(st, p, replies) + NewIds(Lacking(st, p, nhs), nhs, replies))
  {
    DeletionTakes(st, p, vrf, replies);
    LackingAre(st, p, nhs);
    BindExactly(DelFip(st, st.routes[p], vrf, replies), nhs, Lacking(st, p, nhs), replies);
  }

  // ---- What coming back repairs -----------------------------------------------------------

  /** VPP after a refused deletion and the binding of the new route: the old paths are still there. */
  lemma OldPathsStay(st: State, p: Address, vrf: nat, nhs: seq<Address>, replies: Replies)
    requires Inv(st) && p in st.routes && !replies.routeDelete
    ensures Bind(DelFip(st, st.routes[p], vrf, replies), nhs, replies).st.vpp.fib == st.vpp.fib
    ensures Inv(Bind(DelFip(st, st.routes[p], vrf, replies), nhs, replies).st)
    ensures Bind(DelFip(st, st.routes[p], vrf, replies), nhs, replies).st.routes == st.routes - {p}
  {
    RefusedDelete(st, p, vrf, replies);
    DelFipKeeps(st, p, vrf, replies);
    BindKeeps(DelFip(st, st.routes[p], vrf, replies), nhs, replies);
  }

  /** The other routes are no concern: their paths are live. */
  lemma OthersLive(st: State, after: State, p: Address)
    requires FibMatches(st.vpp.fib, st.routes) && Inv(after) && after.routes == st.routes - {p}
    ensures forall k, path :: k in st.vpp.fib && k.1 != p && path in st.vpp.fib[k] ==> path.tunnelId in after.vpp.tunnels
  {
    forall k, path | k in st.vpp.fib && k.1 != p && path in st.vpp.fib[k]
      ensures path.tunnelId in after.vpp.tunnels
    {
      assert k == (st.routes[k.1].vrf, k.1);
      assert k.1 in after.routes && after.routes[k.1] == st.routes[k.1];
      assert BoundTo(after.routes[k.1], after.tunnels);
      BoundPathsLive(st.routes[k.1], after, path);
    }
  }

  /** The old paths of the route are live exactly when every ID that was freed is in use again. */
  lemma OldPathsLive(st: State, p: Address, live: set<nat>, more: set<nat>, replies: Replies)
    requires Inv(st) && p in st.routes && live == Left(st, p, replies) + more
    ensures (forall path :: path in st.routes[p].Paths() ==> path.tunnelId in live) <==> FreedIds(st, p, replies) <= more
  {
    var r := st.routes[p];
    assert BoundTo(r, st.tunnels);
    forall i | 0 <= i < |r.nextHops|
      ensures Path(r.nextHops[i], r.tunnelIds[i], r.labels[i]) in r.Paths() && r.tunnelIds[i] in st.vpp.tunnels
    {
    }
    if forall path :: path in r.Paths() ==> path.tunnelId in live {
      forall id | id in FreedIds(st, p, replies)
        ensures id in more
      {
        var i :| 0 <= i < |r.nextHops| && Sole(st.routes, p, r.nextHops[i]) && r.tunnelIds[i] in replies.tunnelDelete && r.tunnelIds[i] == id;
        assert Path(r.nextHops[i], r.tunnelIds[i], r.labels[i]).tunnelId in live;
      }
    }
  }

  /** An update deletes a route, VPP refuses, and the edited route `q` gets its tunnels. If VPP then
      takes `q` and `q` has one path, the stale entry is replaced and nothing dangles. Otherwise its
      paths stay, and none dangles exactly when every tunnel ID that went is given out again. */
  lemma ReturnRepairsExactly(st: State, p: Address, q: Route, vrf: nat, replies: Replies)
    requires Inv(st) && FibMatches(st.vpp.fib, st.routes) && p in st.routes && !replies.routeDelete
    requires q.Shaped() && q.prefix == p && q.vrf == st.routes[p].vrf && Rebinds(st, p, q.nextHops, replies)
    ensures var after := AddFip(DelFip(st, st.routes[p], vrf, replies), q, vrf, replies);
            NoDangling(after.vpp) <==>
            || (replies.routeAdd && |q.nextHops| == 1)
            || FreedIds(st, p, replies) <= NewIds(Lacking(st, p, q.nextHops), q.nextHops, replies)
  {
    RebindsExactly(st, p, vrf, q.nextHops, replies);
    var bound := Bind(DelFip(st, st.routes[p], vrf, replies), q.nextHops, replies);
    BoundRoute(st, p, q, vrf, replies);
    OldPathsStay(st, p, vrf, q.nextHops, replies);
    OldPathsLive(st, p, bound.st.vpp.tunnels, NewIds(Lacking(st, p, q.nextHops), q.nextHops, replies), replies);
    AfterRefusal(st, bound.st, p, q.(tunnelIds := bound.ids), vrf, replies);
  }

  lemma BoundRoute(st: State, p: Address, q: Route, vrf: nat, replies: Replies)
    requires Inv(st) && p in st.routes && q.Shaped() && Rebinds(st, p, q.nextHops, replies)
    ensures var bound := Bind(DelFip(st, st.routes[p], vrf, replies), q.nextHops, replies);
            bound.ok && BoundTo(q.(tunnelIds := bound.ids), bound.st.tunnels)
  {
    DelFipKeeps(st, p, vrf, replies);
    RebindsExactly(st, p, vrf, q.nextHops, replies);
    BindKeeps(DelFip(st, st.routes[p], vrf, replies), q.nextHops, replies);
  }

  lemma AfterRefusal(st: State, after: State, p: Address, q: Route, vrf: nat, replies: Replies)
    requires FibMatches(st.vpp.fib, st.routes) && p in st.routes && after.vpp.fib == st.vpp.fib
    requires Inv(after) && after.routes == st.routes - {p}
    requires BoundTo(q, after.tunnels) && q.Shaped() && q.prefix == p && q.vrf == st.routes[p].vrf
    ensures NoDangling(Install(after, q, vrf, replies).vpp) <==>
            || (replies.routeAdd && |q.nextHops| == 1)
            || forall path :: path in st.routes[p].Paths() ==> path.tunnelId in after.vpp.tunnels
  {
    OthersLive(st, after, p);
    SentDangles(st, after, p, q, replies);
  }

  /** Sending `q` over the stale entry. */
  lemma SentDangles(st: State, after: State, p: Address, q: Route, replies: Replies)
    requires FibMatches(st.vpp.fib, st.routes) && p in st.routes && after.vpp.fib == st.vpp.fib
    requires Inv(after) && BoundTo(q, after.tunnels) && q.Shaped() && q.prefix == p && q.vrf == st.routes[p].vrf
    requires forall k, path :: k in st.vpp.fib && k.1 != p && path in st.vpp.fib[k] ==> path.tunnelId in after.vpp.tunnels
    ensures NoDangling(SendRoute(after, true, q, replies).0.vpp) <==>
            || (replies.routeAdd && |q.nextHops| == 1)
            || forall path :: path in st.routes[p].Paths() ==> path.tunnelId in after.vpp.tunnels
  {
    var key := (q.vrf, p);
    var sent := SendRoute(after, true, q, replies).0;
    assert UNDEFINED_TUNNEL !in q.tunnelIds;
    assert st.vpp.fib[key] == st.routes[p].Paths();
    forall k | k in st.vpp.fib && k != key
      ensures k.1 != p
    {
    }
    forall path | path in q.Paths()
      ensures path.tunnelId in after.vpp.tunnels
    {
      BoundPathsLive(q, after, path);
    }
    if replies.routeAdd {
      assert sent.vpp.fib == after.vpp.fib[key := sent.vpp.fib[key]];
      assert sent.vpp.fib[key] == (if |q.nextHops| > 1 then st.routes[p].Paths() else {}) + q.Paths();
    }
  }
}
