/** The running gateway: the update callbacks working step by step on the storages and on VPP
    through shared objects. Every method is proved to take the state where the functions of
    `GatewayProtocol` say, so the theorems about runs are theorems about these methods. */
module Gateway {
  import opened Options
  import opened Routes
  import opened GatewayState
  import opened GatewayProtocol
  import opened GatewayInvariant
  import opened Storages

  /** The VPP end of the API stream, with the record of the calls made. */
  class VppApi {
    var state: Vpp
    var log: seq<Call>

    constructor (state: Vpp)
      ensures this.state == state && log == []
    {
      this.state, log := state, [];
    }

    method AddUDPTunnel(nh: Address, replies: Replies) returns (id: Option<nat>)
      modifies this
      ensures id == if nh == NO_ADDRESS then None else TunnelOffer(old(state), nh, replies)
      ensures state == if id.Some? then old(state).(tunnels := old(state).tunnels + {id.value}) else old(state)
      ensures log == if nh == NO_ADDRESS then old(log) else old(log) + [Call(TunnelAdd, id.Some?, state)]
    {
      if nh == NO_ADDRESS {
        return None;
      }
      id := TunnelOffer(state, nh, replies);
      if id.Some? {
        state := state.(tunnels := state.tunnels + {id.value});
      }
      log := log + [Call(TunnelAdd, id.Some?, state)];
    }

    method DelUDPTunnel(id: nat, replies: Replies)
      modifies this
      ensures state == if id in replies.tunnelDelete then old(state).(tunnels := old(state).tunnels - {id}) else old(state)
      ensures log == old(log) + [Call(TunnelDelete, id in replies.tunnelDelete, state)]
    {
      if id in replies.tunnelDelete {
        state := state.(tunnels := state.tunnels - {id});
      }
      log := log + [Call(TunnelDelete, id in replies.tunnelDelete, state)];
    }

    method AddDelFIPRoute(isAdd: bool, r: Route, replies: Replies) returns (ok: bool)
      modifies this
      ensures ok <==> UNDEFINED_TUNNEL !in r.tunnelIds && if isAdd then replies.routeAdd else replies.routeDelete
      ensures state == if !ok then old(state)
                       else old(state).(fib := if isAdd then FibAdd(old(state).fib, r) else FibDelete(old(state).fib, r))
      ensures log == if UNDEFINED_TUNNEL in r.tunnelIds then old(log)
                     else old(log) + [Call(if isAdd then RouteAdd else RouteDelete, ok, state)]
    {
      for i := 0 to |r.tunnelIds|
        invariant UNDEFINED_TUNNEL !in r.tunnelIds[..i]
      {
        if r.tunnelIds[i] == UNDEFINED_TUNNEL {
          return false;
        }
      }
      assert r.tunnelIds[..|r.tunnelIds|] == r.tunnelIds;
      ok := if isAdd then replies.routeAdd else replies.routeDelete;
      if ok {
        state := state.(fib := if isAdd then FibAdd(state.fib, r) else FibDelete(state.fib, r));
      }
      log := log + [Call(if isAdd then RouteAdd else RouteDelete, ok, state)];
    }
  }

  class Gateway {
    const cfg: Config
    const routes: FipRouteStorage
    const tunnels: UdpTunnelStorage
    const vrfs: VrfStorage
    const vpp: VppApi
    var originated: set<(nat, Address)>

    constructor (cfg: Config, vrfs: VrfStorage, vpp: VppApi)
      requires vrfs.Valid() && vpp !in vrfs.Repr
      ensures Valid() && this.vrfs == vrfs && this.vpp == vpp && this.cfg == cfg
      ensures Abs() == State(map[], map[], vrfs.Contents, vpp.state, vpp.log, {})
    {
      this.cfg, this.vrfs, this.vpp := cfg, vrfs, vpp;
      routes := new FipRouteStorage();
      tunnels := new UdpTunnelStorage();
      originated := {};
    }

    /** The storages share no object with each other or with the gateway. */
    ghost predicate Apart()
      reads routes, tunnels, vrfs
    {
      && routes.Repr !! tunnels.Repr && routes.Repr !! vrfs.Repr && tunnels.Repr !! vrfs.Repr
      && vpp !in routes.Repr && vpp !in tunnels.Repr && vpp !in vrfs.Repr
      && this !in routes.Repr && this !in tunnels.Repr && this !in vrfs.Repr
    }

    ghost predicate Valid()
      reads routes, tunnels, vrfs, routes.Repr, tunnels.Repr, vrfs.Repr
    {
      Apart() && routes.Valid() && tunnels.Valid() && vrfs.Valid()
    }

    ghost function Abs(): State
      reads this, routes, tunnels, vrfs, vpp
    {
      State(routes.Contents, tunnels.Contents, vrfs.Contents, vpp.state, vpp.log, originated)
    }

    // ---- AddFIPAndTunnelInVPPAndStorage ---------------------------------------------------

    method BindTunnel(nh: Address, replies: Replies) returns (id: Option<nat>)
      requires tunnels.Valid() && vpp !in tunnels.Repr
      modifies tunnels, vpp
      ensures tunnels.Valid() && fresh(tunnels.Repr - old(tunnels.Repr))
      ensures Same((Abs(), id), BindOne(old(Abs()), nh, replies))
    {
      var existing := tunnels.GetUDPTunnel(nh);
      if existing != null {
        return Some(existing.id);
      }
      id := vpp.AddUDPTunnel(nh, replies);
      if id.Some? {
        var t := new UdpTunnel(nh, id.value);
        tunnels.AddUDPTunnel(t);
      }
    }

    /** The first loop: it writes the IDs into the copy of the route, one next hop at a time. */
    method BindTunnels(route: FipRoute, replies: Replies) returns (ok: bool)
      requires tunnels.Valid() && vpp !in tunnels.Repr && route !in tunnels.Repr && route.Value().Parallel()
      modifies tunnels, vpp, route`tunnelIds
      ensures tunnels.Valid() && fresh(tunnels.Repr - old(tunnels.Repr))
      ensures Same(Bind(old(Abs()), route.nextHops, replies),
                   Bound(Abs(), Bind(old(Abs()), route.nextHops, replies).ids, ok))
      ensures ok ==> route.tunnelIds == Bind(old(Abs()), route.nextHops, replies).ids
    {
      var nhs := route.nextHops;
      ghost var start := Abs();
      for i := 0 to |nhs|
        invariant tunnels.Valid() && fresh(tunnels.Repr - old(tunnels.Repr))
        invariant |route.tunnelIds| == |nhs|
        invariant Same(Bind(start, nhs[..i], replies), Bound(Abs(), route.tunnelIds[..i], true))
      {
        ok := BindNext(route, nhs, i, start, replies);
        if !ok {
          return;
        }
      }
      assert nhs[..|nhs|] == nhs && route.tunnelIds[..|nhs|] == route.tunnelIds;
      return true;
    }

    method BindNext(route: FipRoute, nhs: seq<Address>, i: nat, ghost start: State, replies: Replies) returns (ok: bool)
      requires tunnels.Valid() && vpp !in tunnels.Repr && route !in tunnels.Repr && i < |nhs| == |route.tunnelIds|
      requires Same(Bind(start, nhs[..i], replies), Bound(Abs(), route.tunnelIds[..i], true))
      modifies tunnels, vpp, route`tunnelIds
      ensures tunnels.Valid() && fresh(tunnels.Repr - old(tunnels.Repr)) && |route.tunnelIds| == |nhs|
      ensures ok ==> Same(Bind(start, nhs[..i+1], replies), Bound(Abs(), route.tunnelIds[..i+1], true))
      ensures !ok ==> Same(Bind(start, nhs, replies), Bound(Abs(), Bind(start, nhs, replies).ids, false))
    {
      BindMore(start, nhs, i, replies);
      var id := BindTunnel(nhs[i], replies);
      if id.None? {
        BindStops(start, nhs, i + 1, replies);
        return false;
      }
      route.tunnelIds := Written(route.tunnelIds, i, id.value);
      return true;
    }

    /** The loop that counts the route on each of its next hops. */
    method IncServed(nhs: seq<Address>)
      requires tunnels.Valid()
      modifies tunnels.Repr
      ensures tunnels.Valid() && tunnels.Repr == old(tunnels.Repr)
      ensures tunnels.Contents == IncAll(old(tunnels.Contents), nhs)
    {
      for i := 0 to |nhs|
        invariant tunnels.Valid() && tunnels.Repr == old(tunnels.Repr)
        invariant tunnels.Contents == IncAll(old(tunnels.Contents), nhs[..i])
      {
        assert nhs[..i+1][..i] == nhs[..i];
        tunnels.IncFIPServed(nhs[i]);
      }
      assert nhs[..|nhs|] == nhs;
    }

    method CountRouteIn(route: FipRoute)
      requires Valid() && route !in routes.Repr + tunnels.Repr + vrfs.Repr
      modifies routes.Repr, vrfs.Repr, tunnels.Repr
      ensures Valid() && routes.Repr == old(routes.Repr) + {route}
      ensures tunnels.Repr == old(tunnels.Repr) && vrfs.Repr == old(vrfs.Repr)
      ensures Same(Abs(), CountIn(old(Abs()), old(route.Value())))
    {
      routes.AddFIPRoute(route);
      vrfs.IncFIPServed(route.vrf);
      IncServed(route.nextHops);
    }

    method AdvertiseAll(vrf: nat, aggregates: seq<Address>, replies: Replies)
      modifies this`originated
      ensures originated == Advertise(old(originated), vrf, aggregates, replies)
    {
      for i := 0 to |aggregates|
        invariant forall k :: k in originated <==>
                    k in old(originated) || (k.0 == vrf && k.1 in aggregates[..i] && (true, k.1) !in replies.refused)
      {
        assert aggregates[..i+1] == aggregates[..i] + [aggregates[i]];
        if (true, aggregates[i]) !in replies.refused {
          originated := originated + {(vrf, aggregates[i])};
        }
      }
      assert aggregates[..|aggregates|] == aggregates;
    }

    /** The early return at three served routes. */
    method AdvertiseAggregates(counted: nat, vrf: nat, replies: Replies)
      requires Valid()
      modifies this`originated
      ensures Same(Abs(), AdvertiseIfFew(old(Abs()), counted, vrf, replies))
    {
      var served := vrfs.GetFIPServed(counted);
      if served > 2 {
        return;
      }
      var record := vrfs.GetVRF(vrf);
      AdvertiseAll(vrf, if record == null then [] else record.aggregates, replies);
    }

    method InstallBound(route: FipRoute, vrf: nat, replies: Replies)
      requires Valid() && route !in routes.Repr + tunnels.Repr + vrfs.Repr
      modifies this`originated, vpp, routes.Repr, tunnels.Repr, vrfs.Repr
      ensures Valid() && routes.Repr <= old(routes.Repr) + {route}
      ensures tunnels.Repr == old(tunnels.Repr) && vrfs.Repr == old(vrfs.Repr)
      ensures Same(Abs(), Install(old(Abs()), old(route.Value()), vrf, replies))
    {
      var ok := vpp.AddDelFIPRoute(true, route.Value(), replies);
      if ok {
        CountRouteIn(route);
        AdvertiseAggregates(route.vrf, vrf, replies);
      }
    }

    method AddFIPAndTunnelInVPPAndStorage(r: Route, vrf: nat, replies: Replies)
      requires Valid() && r.Parallel()
      modifies this`originated, vpp, routes.Repr, tunnels.Repr, vrfs.Repr
      ensures Valid() && vrfs.Repr == old(vrfs.Repr)
      ensures fresh(routes.Repr - old(routes.Repr)) && fresh(tunnels.Repr - old(tunnels.Repr))
      ensures Same(Abs(), AddFip(old(Abs()), r, vrf, replies))
    {
      var route := new FipRoute(r);
      var ok := BindTunnels(route, replies);
      if ok {
        InstallBound(route, vrf, replies);
      }
    }

    // ---- DelFIPAndTunnelFromVPPAndStorage -------------------------------------------------

    method DecServed(nhs: seq<Address>)
      requires tunnels.Valid()
      modifies tunnels.Repr
      ensures tunnels.Valid() && tunnels.Repr == old(tunnels.Repr)
      ensures tunnels.Contents == DecAll(old(tunnels.Contents), nhs)
    {
      for i := 0 to |nhs|
        invariant tunnels.Valid() && tunnels.Repr == old(tunnels.Repr)
        invariant tunnels.Contents == DecAll(old(tunnels.Contents), nhs[..i])
      {
        assert nhs[..i+1][..i] == nhs[..i];
        tunnels.DecFIPServed(nhs[i]);
      }
      assert nhs[..|nhs|] == nhs;
    }

    method CountRouteOut(r: Route)
      requires Valid()
      modifies routes, vrfs.Repr, tunnels.Repr
      ensures Valid() && routes.table == old(routes.table) - {r.prefix}
      ensures routes.Repr == old(routes.Repr) && tunnels.Repr == old(tunnels.Repr) && vrfs.Repr == old(vrfs.Repr)
      ensures Same(Abs(), CountOut(old(Abs()), r))
    {
      routes.DelFIPRoute(r.prefix);
      vrfs.DecFIPServed(r.vrf);
      DecServed(r.nextHops);
    }

    method CollectTunnel(nh: Address, id: nat, replies: Replies)
      requires Valid()
      modifies tunnels, vpp
      ensures Valid() && tunnels.Repr == old(tunnels.Repr)
      ensures Same(Abs(), CollectOne(old(Abs()), nh, id, replies))
    {
      var served := tunnels.GetFIPServed(nh);
      if served == 0 {
        vpp.DelUDPTunnel(id, replies);
        tunnels.DelUDPTunnel(nh);
      }
    }

    method CollectTunnels(nhs: seq<Address>, ids: seq<nat>, replies: Replies)
      requires Valid() && |nhs| == |ids|
      modifies tunnels, vpp
      ensures Valid() && tunnels.Repr == old(tunnels.Repr)
      ensures Same(Abs(), Collect(old(Abs()), nhs, ids, replies))
    {
      for i := 0 to |nhs|
        invariant Valid() && tunnels.Repr == old(tunnels.Repr)
        invariant Same(Abs(), Collect(old(Abs()), nhs[..i], ids[..i], replies))
      {
        assert nhs[..i+1][..i] == nhs[..i] && ids[..i+1][..i] == ids[..i];
        CollectTunnel(nhs[i], ids[i], replies);
      }
      assert nhs[..|nhs|] == nhs && ids[..|nhs|] == ids;
    }

    method WithdrawAll(vrf: nat, aggregates: seq<Address>, replies: Replies)
      modifies this`originated
      ensures originated == Withdraw(old(originated), vrf, aggregates, replies)
    {
      for i := 0 to |aggregates|
        invariant forall k :: k in originated <==>
                    k in old(originated) && !(k.0 == vrf && k.1 in aggregates[..i] && (false, k.1) !in replies.refused)
      {
        assert aggregates[..i+1] == aggregates[..i] + [aggregates[i]];
        if (false, aggregates[i]) !in replies.refused {
          originated := originated - {(vrf, aggregates[i])};
        }
      }
      assert aggregates[..|aggregates|] == aggregates;
    }

    method WithdrawAggregates(counted: nat, vrf: nat, replies: Replies)
      requires Valid()
      modifies this`originated
      ensures Same(Abs(), WithdrawIfLast(old(Abs()), counted, vrf, replies))
    {
      var served := vrfs.GetFIPServed(counted);
      if served == 0 {
        var record := vrfs.GetVRF(vrf);
        WithdrawAll(vrf, if record == null then [] else record.aggregates, replies);
      }
    }

    method DelFIPAndTunnelFromVPPAndStorage(r: Route, vrf: nat, replies: Replies)
      requires Valid() && r.Parallel()
      modifies this`originated, vpp, routes, tunnels.Repr, vrfs.Repr
      ensures Valid() && routes.table == old(routes.table) - {r.prefix}
      ensures routes.Repr == old(routes.Repr) && tunnels.Repr == old(tunnels.Repr) && vrfs.Repr == old(vrfs.Repr)
      ensures Same(Abs(), DelFip(old(Abs()), r, vrf, replies))
    {
      var _ := vpp.AddDelFIPRoute(false, r, replies);
      CountRouteOut(r);
      CollectTunnels(r.nextHops, r.tunnelIds, replies);
      WithdrawAggregates(r.vrf, vrf, replies);
    }

    // ---- The table callbacks --------------------------------------------------------------

    /** Deletes the stored route and hands back the object it was stored in. */
    method TakeOut(u: Update, replies: Replies) returns (stored: FipRoute)
      requires Valid() && u.prefix in Abs().routes && Abs().routes[u.prefix].Parallel()
      requires Abs().routes[u.prefix].prefix == u.prefix
      modifies this`originated, vpp, routes, tunnels.Repr, vrfs.Repr
      ensures Valid() && stored in routes.Repr && stored.prefix !in routes.table
      ensures stored.Value() == old(Abs().routes[u.prefix])
      ensures routes.Repr == old(routes.Repr) && tunnels.Repr == old(tunnels.Repr) && vrfs.Repr == old(vrfs.Repr)
      ensures Same(Abs(), DelFip(old(Abs()), old(Abs().routes[u.prefix]), u.vrf, replies))
    {
      stored := routes.GetFIPRoute(u.prefix);
      DelFIPAndTunnelFromVPPAndStorage(stored.Value(), u.vrf, replies);
    }

    /** Withdraw, once the path is known to be stored. */
    method RemovePath(u: Update, replies: Replies)
      requires Valid() && u.prefix in Abs().routes && Abs().routes[u.prefix].Parallel()
      requires Abs().routes[u.prefix].prefix == u.prefix
      modifies this`originated, vpp, routes.Repr, tunnels.Repr, vrfs.Repr
      ensures Valid() && vrfs.Repr == old(vrfs.Repr)
      ensures fresh(routes.Repr - old(routes.Repr)) && fresh(tunnels.Repr - old(tunnels.Repr))
      ensures var r := old(Abs().routes[u.prefix]);
              var deleted := DelFip(old(Abs()), r, u.vrf, replies);
              Same(Abs(), if |r.nextHops| == 1 then deleted
                          else AddFip(deleted, PathDeleted(r, u.nextHop), u.vrf, replies))
    {
      var stored := TakeOut(u, replies);
      if |stored.nextHops| != 1 {
        PutBackWithout(stored, u, replies);
      }
    }

    /** The route that was taken out comes back without the path of the update. */
    method PutBackWithout(stored: FipRoute, u: Update, replies: Replies)
      requires Valid() && stored in routes.Repr && stored.prefix !in routes.table && stored.Value().Parallel()
      modifies this`originated, vpp, routes.Repr, tunnels.Repr, vrfs.Repr
      ensures Valid() && vrfs.Repr == old(vrfs.Repr)
      ensures fresh(routes.Repr - old(routes.Repr)) && fresh(tunnels.Repr - old(tunnels.Repr))
      ensures Same(Abs(), AddFip(old(Abs()), PathDeleted(old(stored.Value()), u.nextHop), u.vrf, replies))
    {
      ForgetPath(stored, u.nextHop);
      AddFIPAndTunnelInVPPAndStorage(stored.Value(), u.vrf, replies);
    }

    method HandleWithdraw(u: Update, replies: Replies)
      requires Valid() && RoutesShaped(Abs().routes, Abs().vrfs) && KnownVrf(cfg, Abs(), u.vrf) && u.withdraw
      modifies this`originated, vpp, routes.Repr, tunnels.Repr, vrfs.Repr
      ensures Valid() && vrfs.Repr == old(vrfs.Repr)
      ensures fresh(routes.Repr - old(routes.Repr)) && fresh(tunnels.Repr - old(tunnels.Repr))
      ensures Same(Running(Abs()), Step(cfg, old(Abs()), FromFabric(u, replies)))
    {
      var removable := IsRemovable(u);
      RemoveIf(removable, u, replies);
    }

    method RemoveIf(removable: bool, u: Update, replies: Replies)
      requires Valid() && RoutesShaped(Abs().routes, Abs().vrfs) && KnownVrf(cfg, Abs(), u.vrf) && u.withdraw
      requires removable <==> Stored(Abs().routes, u.prefix, u.nextHop, u.mplsLabel) && u.nextHop in Abs().tunnels
      modifies this`originated, vpp, routes.Repr, tunnels.Repr, vrfs.Repr
      ensures Valid() && vrfs.Repr == old(vrfs.Repr)
      ensures fresh(routes.Repr - old(routes.Repr)) && fresh(tunnels.Repr - old(tunnels.Repr))
      ensures Same(Running(Abs()), Step(cfg, old(Abs()), FromFabric(u, replies)))
    {
      WithdrawStep(cfg, Abs(), u, replies);
      if removable {
        RemovePath(u, replies);
      }
    }

    /** The path is stored with this label, and a tunnel is stored for it. */
    method IsRemovable(u: Update) returns (removable: bool)
      requires Valid() && (u.prefix in Abs().routes ==> Abs().routes[u.prefix].Parallel())
      ensures Valid() && Same(Abs(), old(Abs()))
      ensures removable <==> Stored(Abs().routes, u.prefix, u.nextHop, u.mplsLabel) && u.nextHop in Abs().tunnels
    {
      removable := routes.IsFIPWithNHAndLabelExist(u.prefix, u.nextHop, u.mplsLabel);
      if removable {
        var tunnel := tunnels.GetUDPTunnel(u.nextHop);
        removable := tunnel != null;
      }
    }

    /** `DelPath` on an object that has left the table: the table does not notice. */
    method ForgetPath(stored: FipRoute, nextHop: Address)
      requires Valid() && stored in routes.Repr && stored.prefix !in routes.table && stored.Value().Parallel()
      modifies stored
      ensures Valid() && Same(Abs(), old(Abs()))
      ensures stored.Value() == PathDeleted(old(stored.Value()), nextHop)
    {
      stored.DelPath(nextHop);
    }

    /** `AddPath` on an object that has left the table. */
    method LearnPath(stored: FipRoute, nextHop: Address, mplsLabel: nat) returns (panicked: bool)
      requires Valid() && stored in routes.Repr && stored.prefix !in routes.table && stored.Value().Parallel()
      modifies stored
      ensures Valid() && Same(Abs(), old(Abs()))
      ensures PathAdded(old(stored.Value()), nextHop, UNDEFINED_TUNNEL, mplsLabel) ==
              if panicked then Panicked else Edited(stored.Value())
    {
      panicked := stored.AddPath(nextHop, UNDEFINED_TUNNEL, mplsLabel);
    }

    /** Advertise, once the prefix is known to be stored without this path and label. */
    method ReplacePath(u: Update, replies: Replies) returns (panicked: bool)
      requires Valid() && u.prefix in Abs().routes && Abs().routes[u.prefix].Parallel()
      requires Abs().routes[u.prefix].prefix == u.prefix
      modifies this`originated, vpp, routes.Repr, tunnels.Repr, vrfs.Repr
      ensures Valid() && vrfs.Repr == old(vrfs.Repr)
      ensures fresh(routes.Repr - old(routes.Repr)) && fresh(tunnels.Repr - old(tunnels.Repr))
      ensures var r := old(Abs().routes[u.prefix]);
              var deleted := DelFip(old(Abs()), r, u.vrf, replies);
              var edited := PathAdded(r, u.nextHop, UNDEFINED_TUNNEL, u.mplsLabel);
              && panicked == edited.Panicked?
              && Same(Abs(), if panicked then deleted else AddFip(deleted, edited.route, u.vrf, replies))
    {
      var stored := TakeOut(u, replies);
      panicked := PutBackWith(stored, u, replies);
    }

    /** It comes back with the path of the update, or `AddPath` panics. */
    method PutBackWith(stored: FipRoute, u: Update, replies: Replies) returns (panicked: bool)
      requires Valid() && stored in routes.Repr && stored.prefix !in routes.table && stored.Value().Parallel()
      modifies this`originated, vpp, routes.Repr, tunnels.Repr, vrfs.Repr
      ensures Valid() && vrfs.Repr == old(vrfs.Repr)
      ensures fresh(routes.Repr - old(routes.Repr)) && fresh(tunnels.Repr - old(tunnels.Repr))
      ensures var edited := PathAdded(old(stored.Value()), u.nextHop, UNDEFINED_TUNNEL, u.mplsLabel);
              && panicked == edited.Panicked?
              && Same(Abs(), if panicked then old(Abs()) else AddFip(old(Abs()), edited.route, u.vrf, replies))
    {
      panicked := LearnPath(stored, u.nextHop, u.mplsLabel);
      if !panicked {
        AddFIPAndTunnelInVPPAndStorage(stored.Value(), u.vrf, replies);
      }
    }

    /** Advertise, once the path is known to be new. */
    method AdvertiseNew(u: Update, replies: Replies) returns (panicked: bool)
      requires Valid()
      requires u.prefix in Abs().routes ==> Abs().routes[u.prefix].Parallel() && Abs().routes[u.prefix].prefix == u.prefix
      modifies this`originated, vpp, routes.Repr, tunnels.Repr, vrfs.Repr
      ensures Valid() && vrfs.Repr == old(vrfs.Repr)
      ensures fresh(routes.Repr - old(routes.Repr)) && fresh(tunnels.Repr - old(tunnels.Repr))
      ensures u.prefix !in old(Abs().routes) ==>
                !panicked && Same(Abs(), AddFip(old(Abs()), Received(u), u.vrf, replies))
      ensures u.prefix in old(Abs().routes) ==>
                var r := old(Abs().routes[u.prefix]);
                var deleted := DelFip(old(Abs()), r, u.vrf, replies);
                var edited := PathAdded(r, u.nextHop, UNDEFINED_TUNNEL, u.mplsLabel);
                && panicked == edited.Panicked?
                && Same(Abs(), if panicked then deleted else AddFip(deleted, edited.route, u.vrf, replies))
    {
      var stored := routes.GetFIPRoute(u.prefix);
      if stored == null {
        AddFIPAndTunnelInVPPAndStorage(Received(u), u.vrf, replies);
        panicked := false;
      } else {
        panicked := ReplacePath(u, replies);
      }
    }

    method HandleAdvertise(u: Update, replies: Replies) returns (panicked: bool)
      requires Valid() && RoutesShaped(Abs().routes, Abs().vrfs) && KnownVrf(cfg, Abs(), u.vrf) && !u.withdraw
      modifies this`originated, vpp, routes.Repr, tunnels.Repr, vrfs.Repr
      ensures Valid() && vrfs.Repr == old(vrfs.Repr)
      ensures fresh(routes.Repr - old(routes.Repr)) && fresh(tunnels.Repr - old(tunnels.Repr))
      ensures Same(if panicked then Crashed(Abs()) else Running(Abs()), Step(cfg, old(Abs()), FromFabric(u, replies)))
    {
      if !cfg.isFloating(u.prefix) {
        return false;
      }
      var found := routes.IsFIPWithNHAndLabelExist(u.prefix, u.nextHop, u.mplsLabel);
      if found {
        return false;
      }
      panicked := AdvertiseNew(u, replies);
    }

    /** One path of the Tungsten Fabric callback. */
    method HandleFabricPath(u: Update, replies: Replies) returns (panicked: bool)
      requires Valid() && RoutesShaped(Abs().routes, Abs().vrfs)
      modifies this`originated, vpp, routes.Repr, tunnels.Repr, vrfs.Repr
      ensures Valid() && vrfs.Repr == old(vrfs.Repr)
      ensures fresh(routes.Repr - old(routes.Repr)) && fresh(tunnels.Repr - old(tunnels.Repr))
      ensures Same(if panicked then Crashed(Abs()) else Running(Abs()), Step(cfg, old(Abs()), FromFabric(u, replies)))
    {
      var vppVrf := vrfs.GetVRF(u.vrf);
      if vppVrf == null || u.vrf !in cfg.bgpVrfs {
        return false;
      }
      if u.withdraw {
        HandleWithdraw(u, replies);
        panicked := false;
      } else {
        panicked := HandleAdvertise(u, replies);
      }
    }

    /** One path of the physical-network callback; a missing record is dereferenced. */
    method HandleNetworkPath(u: Update, replies: Replies) returns (panicked: bool)
      requires Valid()
      modifies this`originated
      ensures Same(if panicked then Crashed(Abs()) else Running(Abs()), NetworkPath(cfg, old(Abs()), u, replies))
    {
      var vppVrf := vrfs.GetVRF(u.vrf);
      var defaultVrf := vrfs.GetVRF(0);
      if vppVrf == null || u.vrf !in cfg.bgpVrfs || defaultVrf == null {
        return true;
      }
      if u.withdraw {
        WithdrawAll(u.vrf, [u.prefix], replies);
      } else {
        AdvertiseAll(u.vrf, [u.prefix], replies);
      }
      return false;
    }

    /** The callbacks' loops over the received paths: the gateway runs as `Run` says. */
    method ProcessPaths(es: seq<Event>) returns (panicked: bool)
      requires Valid() && Inv(Abs())
      modifies this`originated, vpp, routes.Repr, tunnels.Repr, vrfs.Repr
      ensures Valid()
      ensures Same(if panicked then Crashed(Abs()) else Running(Abs()), Run(cfg, old(Abs()), es))
    {
      ghost var start := Abs();
      for i := 0 to |es|
        invariant Valid() && vrfs.Repr == old(vrfs.Repr)
        invariant fresh(routes.Repr - old(routes.Repr)) && fresh(tunnels.Repr - old(tunnels.Repr))
        invariant Same(Running(Abs()), Run(cfg, start, es[..i]))
      {
        assert es[..i+1][..i] == es[..i];
        panicked := HandlePath(es[i]);
        if panicked {
          RunStops(cfg, start, es, i + 1);
          return;
        }
      }
      assert es[..|es|] == es;
      panicked := false;
    }

    method HandlePath(e: Event) returns (panicked: bool)
      requires Valid() && Inv(Abs())
      modifies this`originated, vpp, routes.Repr, tunnels.Repr, vrfs.Repr
      ensures Valid() && vrfs.Repr == old(vrfs.Repr)
      ensures fresh(routes.Repr - old(routes.Repr)) && fresh(tunnels.Repr - old(tunnels.Repr))
      ensures Same(if panicked then Crashed(Abs()) else Running(Abs()), Step(cfg, old(Abs()), e))
    {
      match e
      case FromFabric(u, replies) => panicked := HandleFabricPath(u, replies);
      case FromNetwork(u, replies) => panicked := HandleNetworkPath(u, replies);
    }
  }

  /** A withdrawal, as the two branches of its handler see it. */
  lemma WithdrawStep(cfg: Config, st: State, u: Update, replies: Replies)
    requires RoutesShaped(st.routes, st.vrfs) && KnownVrf(cfg, st, u.vrf) && u.withdraw
    ensures !Stored(st.routes, u.prefix, u.nextHop, u.mplsLabel) || u.nextHop !in st.tunnels ==>
              Same(Running(st), Step(cfg, st, FromFabric(u, replies)))
    ensures Stored(st.routes, u.prefix, u.nextHop, u.mplsLabel) && u.nextHop in st.tunnels ==>
              var r := st.routes[u.prefix];
              var deleted := DelFip(st, r, u.vrf, replies);
              Same(Running(if |r.nextHops| == 1 then deleted
                           else AddFip(deleted, PathDeleted(r, u.nextHop), u.vrf, replies)),
                   Step(cfg, st, FromFabric(u, replies)))
  {
  }

  /** Equality of whole states, without looking inside them. */
  ghost predicate Same<T>(a: T, b: T) {
    a == b
  }

  function Written(ids: seq<nat>, i: nat, id: nat): (s: seq<nat>)
    requires i < |ids|
    ensures |s| == |ids| && s[..i+1] == ids[..i] + [id]
  {
    ids[i := id]
  }

  /** A crash ends the run. */
  lemma {:induction false} RunStops(cfg: Config, st: State, es: seq<Event>, n: nat)
    requires Inv(st) && n <= |es| && Run(cfg, st, es[..n]).Crashed?
    ensures Run(cfg, st, es) == Run(cfg, st, es[..n])
    decreases |es| - n
  {
    if n == |es| {
      assert es[..n] == es;
    } else {
      assert es[..n+1][..n] == es[..n];
      RunStops(cfg, st, es, n + 1);
    }
  }

  lemma BindMore(st: State, nhs: seq<Address>, i: nat, replies: Replies)
    requires i < |nhs| && Bind(st, nhs[..i], replies).ok
    ensures var before := Bind(st, nhs[..i], replies);
            var (after, id) := BindOne(before.st, nhs[i], replies);
            Bind(st, nhs[..i+1], replies) ==
            if id.None? then Bound(after, before.ids, false) else Bound(after, before.ids + [id.value], true)
  {
    assert nhs[..i+1][..i] == nhs[..i];
  }

  /** A refused tunnel ends the binding of the whole list. */
  lemma {:induction false} BindStops(st: State, nhs: seq<Address>, n: nat, replies: Replies)
    requires n <= |nhs| && !Bind(st, nhs[..n], replies).ok
    ensures Bind(st, nhs, replies) == Bind(st, nhs[..n], replies)
    decreases |nhs| - n
  {
    if n == |nhs| {
      assert nhs[..n] == nhs;
    } else {
      assert nhs[..n+1][..n] == nhs[..n];
      BindStops(st, nhs, n + 1, replies);
    }
  }
}
