/** When BGP refuses a request: that prefix stays as it was, and nothing else notices. */
module GatewayRefusals {
  import opened Routes
  import opened GatewayState
  import opened GatewayProtocol
  import opened GatewayInvariant

  // ---- The refused prefix -----------------------------------------------------------------

  /** A prefix whose announcement is refused is not added, one whose withdrawal is refused not removed. */
  ghost predicate Respects(before: set<(nat, Address)>, after: set<(nat, Address)>, replies: Replies) {
    && (forall k :: k in after && (true, k.1) in replies.refused ==> k in before)
    && (forall k :: k in before && (false, k.1) in replies.refused ==> k in after)
  }

  lemma DelFipRespects(st: State, p: Address, vrf: nat, replies: Replies)
    requires Inv(st) && p in st.routes
    ensures Respects(st.originated, DelFip(st, st.routes[p], vrf, replies).originated, replies)
  {
    var r := st.routes[p];
    SendRouteFrame(st, false, r, replies);
    var sent := SendRoute(st, false, r, replies).0;
    CountOutKeeps(sent, p);
    CollectKeeps(CountOut(sent, r), r.nextHops, r.tunnelIds, replies);
  }

  lemma AddFipRespects(st: State, r: Route, vrf: nat, replies: Replies)
    requires Inv(st)
    ensures Respects(st.originated, AddFip(st, r, vrf, replies).originated, replies)
  {
    BindKeeps(st, r.nextHops, replies);
    var bound := Bind(st, r.nextHops, replies);
    if bound.ok {
      SendRouteFrame(bound.st, true, r.(tunnelIds := bound.ids), replies);
    }
  }

  /** In every event, whatever else happens. */
  lemma StepRespects(cfg: Config, st: State, e: Event)
    requires Inv(st)
    ensures Respects(st.originated, Step(cfg, st, e).st.originated, e.replies)
  {
    if e.FromFabric? {
      var u, replies := e.update, e.replies;
      PlanShape(cfg, st, u);
      match Decide(cfg, st, u)
      case Skip =>
      case Fresh(route) => AddFipRespects(st, route, u.vrf, replies);
      case Drop => DelFipRespects(st, u.prefix, u.vrf, replies);
      case DropAndPanic => DelFipRespects(st, u.prefix, u.vrf, replies);
      case Replace(route) =>
        DelFipKeeps(st, u.prefix, u.vrf, replies);
        DelFipRespects(st, u.prefix, u.vrf, replies);
        AddFipRespects(DelFip(st, st.routes[u.prefix], u.vrf, replies), route, u.vrf, replies);
    }
  }

  // ---- Everything else --------------------------------------------------------------------

  function Accepting(replies: Replies): Replies {
    replies.(refused := {})
  }

  /** The same tables and the same VPP, and the same originated prefixes but for those in question. */
  ghost predicate Alike(a: State, b: State, replies: Replies) {
    && a.routes == b.routes && a.tunnels == b.tunnels && a.vrfs == b.vrfs && a.vpp == b.vpp && a.log == b.log
    && forall k: (nat, Address) :: (true, k.1) !in replies.refused && (false, k.1) !in replies.refused ==>
         (k in a.originated <==> k in b.originated)
  }

  lemma BindOneAlike(a: State, b: State, nh: Address, replies: Replies)
    requires Alike(a, b, replies)
    ensures var (x, id) := BindOne(a, nh, replies); var (y, jd) := BindOne(b, nh, Accepting(replies));
            Alike(x, y, replies) && id == jd
  {
  }

  lemma {:induction false} BindAlike(a: State, b: State, nhs: seq<Address>, replies: Replies)
    requires Alike(a, b, replies)
    ensures var x, y := Bind(a, nhs, replies), Bind(b, nhs, Accepting(replies));
            x.ok == y.ok && x.ids == y.ids && Alike(x.st, y.st, replies)
  {
    if nhs != [] {
      var n := |nhs| - 1;
      BindAlike(a, b, nhs[..n], replies);
      var x, y := Bind(a, nhs[..n], replies), Bind(b, nhs[..n], Accepting(replies));
      if x.ok {
        BindOneAlike(x.st, y.st, nhs[n], replies);
      }
    }
  }

  lemma SendAlike(a: State, b: State, isAdd: bool, r: Route, replies: Replies)
    requires Alike(a, b, replies)
    ensures var (x, ok) := SendRoute(a, isAdd, r, replies); var (y, same) := SendRoute(b, isAdd, r, Accepting(replies));
            Alike(x, y, replies) && ok == same
  {
  }

  lemma CollectOneAlike(a: State, b: State, nh: Address, id: nat, replies: Replies)
    requires Alike(a, b, replies)
    ensures Alike(CollectOne(a, nh, id, replies), CollectOne(b, nh, id, Accepting(replies)), replies)
  {
  }

  lemma {:induction false} CollectAlike(a: State, b: State, nhs: seq<Address>, ids: seq<nat>, replies: Replies)
    requires Alike(a, b, replies) && |nhs| == |ids|
    ensures Alike(Collect(a, nhs, ids, replies), Collect(b, nhs, ids, Accepting(replies)), replies)
  {
    if nhs != [] {
      var n := |nhs| - 1;
      CollectAlike(a, b, nhs[..n], ids[..n], replies);
      CollectOneAlike(Collect(a, nhs[..n], ids[..n], replies), Collect(b, nhs[..n], ids[..n], Accepting(replies)),
                      nhs[n], ids[n], replies);
    }
  }

  lemma AdvertiseAlike(a: State, b: State, counted: nat, vrf: nat, replies: Replies)
    requires Alike(a, b, replies)
    ensures Alike(AdvertiseIfFew(a, counted, vrf, replies), AdvertiseIfFew(b, counted, vrf, Accepting(replies)), replies)
    ensures Alike(WithdrawIfLast(a, counted, vrf, replies), WithdrawIfLast(b, counted, vrf, Accepting(replies)), replies)
  {
  }

  lemma CountAlike(a: State, b: State, r: Route, replies: Replies)
    requires Alike(a, b, replies)
    ensures Alike(CountIn(a, r), CountIn(b, r), replies) && Alike(CountOut(a, r), CountOut(b, r), replies)
  {
  }

  lemma DelFipAlike(a: State, b: State, r: Route, vrf: nat, replies: Replies)
    requires Alike(a, b, replies) && r.Parallel()
    ensures Alike(DelFip(a, r, vrf, replies), DelFip(b, r, vrf, Accepting(replies)), replies)
  {
    var other := Accepting(replies);
    SendAlike(a, b, false, r, replies);
    var x, y := SendRoute(a, false, r, replies).0, SendRoute(b, false, r, other).0;
    CountAlike(x, y, r, replies);
    CollectAlike(CountOut(x, r), CountOut(y, r), r.nextHops, r.tunnelIds, replies);
    AdvertiseAlike(Collect(CountOut(x, r), r.nextHops, r.tunnelIds, replies),
                   Collect(CountOut(y, r), r.nextHops, r.tunnelIds, other), r.vrf, vrf, replies);
  }

  lemma InstallAlike(a: State, b: State, r: Route, vrf: nat, replies: Replies)
    requires Alike(a, b, replies)
    ensures Alike(Install(a, r, vrf, replies), Install(b, r, vrf, Accepting(replies)), replies)
  {
    SendAlike(a, b, true, r, replies);
    var x, y := SendRoute(a, true, r, replies).0, SendRoute(b, true, r, Accepting(replies)).0;
    CountAlike(x, y, r, replies);
    AdvertiseAlike(CountIn(x, r), CountIn(y, r), r.vrf, vrf, replies);
  }

  lemma AddFipAlike(a: State, b: State, r: Route, vrf: nat, replies: Replies)
    requires Alike(a, b, replies)
    ensures Alike(AddFip(a, r, vrf, replies), AddFip(b, r, vrf, Accepting(replies)), replies)
  {
    BindAlike(a, b, r.nextHops, replies);
    var x, y := Bind(a, r.nextHops, replies), Bind(b, r.nextHops, Accepting(replies));
    if x.ok {
      InstallAlike(x.st, y.st, r.(tunnelIds := x.ids), vrf, replies);
    }
  }

  function WithReplies(e: Event, replies: Replies): Event {
    match e
    case FromFabric(u, _) => FromFabric(u, replies)
    case FromNetwork(u, _) => FromNetwork(u, replies)
  }

  /** A refusal is noticed by nothing but its own prefix: with the same event and every request accepted,
      tables, VPP and all other originated prefixes end up the same. */
  lemma RefusalsStayLocal(cfg: Config, st: State, e: Event)
    requires Inv(st)
    ensures var a, b := Step(cfg, st, e), Step(cfg, st, WithReplies(e, Accepting(e.replies)));
            (a.Crashed? <==> b.Crashed?) && Alike(a.st, b.st, e.replies)
  {
    assert Alike(st, st, e.replies);
    if e.FromFabric? {
      var u, replies := e.update, e.replies;
      PlanShape(cfg, st, u);
      match Decide(cfg, st, u)
      case Skip =>
      case Fresh(route) => AddFipAlike(st, st, route, u.vrf, replies);
      case Drop => DelFipAlike(st, st, st.routes[u.prefix], u.vrf, replies);
      case DropAndPanic => DelFipAlike(st, st, st.routes[u.prefix], u.vrf, replies);
      case Replace(route) =>
        var r := st.routes[u.prefix];
        DelFipAlike(st, st, r, u.vrf, replies);
        AddFipAlike(DelFip(st, r, u.vrf, replies), DelFip(st, r, u.vrf, Accepting(replies)), route, u.vrf, replies);
    }
  }
}
