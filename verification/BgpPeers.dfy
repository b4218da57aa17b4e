/** BGP peer events (internal/service/handle_bgp_update.go:410-456): the handler and the peer table
    share each peer object, the active-peer metric follows the stored states, and BFD monitoring is
    started from here. */
module BgpPeers {
  import opened Options
  import opened Routes

  /** `PeerState_SessionState` of GoBGP. */
  datatype SessionState = Unknown | Idle | Connect | Active | OpenSent | OpenConfirm | Established

  datatype Bfd = Bfd(enabled: bool, established: bool)

  /** `model.BGPPeer`, as far as its events read or write it; `bfd` is a nil-able pointer there. */
  datatype Peer = Peer(physical: bool, state: SessionState, previous: SessionState, bfd: Option<Bfd>)

  /** `launched`: the peers for which a BFD goroutine was started, in order. */
  datatype Watch = Watch(peers: map<Address, Peer>, active: int, launched: seq<Address>)

  datatype Outcome = Crashed | Running(watch: Watch)

  /** GoBGP reports the address "<nil>" for a peer it does not know yet. */
  datatype Event = Anonymous | Reported(ip: Address, state: SessionState)

  function Moved(p: Peer, state: SessionState): Peer {
    p.(previous := p.state, state := state)
  }

  predicate Monitored(p: Peer) {
    p.physical && p.bfd.Some? && p.bfd.value.enabled
  }

  predicate Launches(p: Peer) {
    Monitored(p) && p.state == Established && !p.bfd.value.established
  }

  function Started(p: Peer): Peer {
    if Launches(p) then p.(bfd := Some(p.bfd.value.(established := true))) else p
  }

  function Counted(active: int, p: Peer): int {
    active + (if p.state == Established then 1 else 0) - (if p.previous == Established then 1 else 0)
  }

  /** One event. An unknown address, or a physical-network peer without BFD data, is a nil pointer. */
  function Handle(w: Watch, e: Event): Outcome {
    if e.Anonymous? then Running(w)
    else if e.ip !in w.peers then Crashed
    else
      var p := Moved(w.peers[e.ip], e.state);
      if p.physical && p.bfd.None? then Crashed
      else
        Running(Watch(w.peers[e.ip := Started(p)], Counted(w.active, p),
                      if Launches(p) then w.launched + [e.ip] else w.launched))
  }

  function Run(w: Watch, es: seq<Event>): Outcome {
    if es == [] then Running(w)
    else
      var before := Run(w, es[..|es|-1]);
      if before.Crashed? then Crashed else Handle(before.watch, es[|es|-1])
  }

  // ---- The metric equals the count --------------------------------------------------------

  /** The table as it is filled at start: nobody established, BFD data for physical peers. */
  ghost predicate Configured(w: Watch) {
    && w.active == 0 && w.launched == []
    && forall ip :: ip in w.peers ==>
         && w.peers[ip].state == Unknown
         && (w.peers[ip].physical ==> w.peers[ip].bfd.Some?)
         && (w.peers[ip].bfd.Some? ==> !w.peers[ip].bfd.value.established)
  }

  ghost function UpPeers(peers: map<Address, Peer>): set<Address> {
    set ip | ip in peers && peers[ip].state == Established
  }

  /** The state last reported for a peer. */
  function LastState(es: seq<Event>, ip: Address): SessionState {
    if es == [] then Unknown
    else
      var e := es[|es|-1];
      if e.Reported? && e.ip == ip then e.state else LastState(es[..|es|-1], ip)
  }

  ghost predicate EverUp(es: seq<Event>, ip: Address) {
    Reported(ip, Established) in es
  }

  ghost predicate Follows(w: Watch, es: seq<Event>, ip: Address, p: Peer)
    requires ip in w.peers
  {
    && p.physical == w.peers[ip].physical
    && p.state == LastState(es, ip)
    && p.bfd == match w.peers[ip].bfd
                case None => None
                case Some(b) => Some(Bfd(b.enabled, w.peers[ip].physical && b.enabled && EverUp(es, ip)))
  }

  ghost predicate Tracked(w: Watch, es: seq<Event>, now: Watch) {
    && now.peers.Keys == w.peers.Keys
    && forall ip :: ip in w.peers ==> Follows(w, es, ip, now.peers[ip])
  }

  lemma CountMoves(peers: map<Address, Peer>, ip: Address, q: Peer)
    requires ip in peers
    ensures |UpPeers(peers[ip := q])|
         == |UpPeers(peers)| + (if q.state == Established then 1 else 0)
            - (if peers[ip].state == Established then 1 else 0)
  {
    var before, after := UpPeers(peers), UpPeers(peers[ip := q]);
    SizeAround(before, ip);
    SizeAround(after, ip);
    assert before - {ip} == after - {ip};
  }

  lemma SizeAround(s: set<Address>, x: Address)
    ensures |s| == |s - {x}| + (if x in s then 1 else 0)
  {
    if x !in s {
      assert s - {x} == s;
    }
  }

  ghost predicate LaunchedRight(w: Watch, es: seq<Event>, launched: seq<Address>) {
    && DistinctKeys(launched)
    && forall ip :: ip in launched <==>
         && ip in w.peers && w.peers[ip].physical && w.peers[ip].bfd.Some? && w.peers[ip].bfd.value.enabled
         && EverUp(es, ip)
  }

  lemma EverUpSnoc(es: seq<Event>, e: Event, ip: Address)
    ensures EverUp(es + [e], ip) == (EverUp(es, ip) || e == Reported(ip, Established))
    ensures LastState(es + [e], ip) == if e.Reported? && e.ip == ip then e.state else LastState(es, ip)
  {
    assert (es + [e])[..|es|] == es;
  }

  lemma HandleTracks(w: Watch, es: seq<Event>, now: Watch, e: Event)
    requires Configured(w) && Tracked(w, es, now)
    requires e.Reported? ==> e.ip in w.peers
    ensures Handle(now, e).Running? && Tracked(w, es + [e], Handle(now, e).watch)
  {
    var next := Handle(now, e).watch;
    forall ip | ip in w.peers
      ensures Follows(w, es + [e], ip, next.peers[ip])
    {
      EverUpSnoc(es, e, ip);
      assert Follows(w, es, ip, now.peers[ip]);
    }
  }

  lemma HandleCounts(now: Watch, e: Event)
    requires now.active == |UpPeers(now.peers)| && Handle(now, e).Running?
    ensures Handle(now, e).watch.active == |UpPeers(Handle(now, e).watch.peers)|
  {
    if e.Reported? {
      CountMoves(now.peers, e.ip, Handle(now, e).watch.peers[e.ip]);
    }
  }

  lemma HandleLaunches(w: Watch, es: seq<Event>, now: Watch, e: Event)
    requires Configured(w) && Tracked(w, es, now) && LaunchedRight(w, es, now.launched)
    requires e.Reported? ==> e.ip in w.peers
    ensures Handle(now, e).Running? && LaunchedRight(w, es + [e], Handle(now, e).watch.launched)
  {
    if e.Reported? {
      assert Follows(w, es, e.ip, now.peers[e.ip]);
    }
    forall ip
      ensures EverUp(es + [e], ip) == (EverUp(es, ip) || e == Reported(ip, Established))
    {
      EverUpSnoc(es, e, ip);
    }
  }

  /** In every run from a configured table: the gateway crashes exactly when an event names an
      unconfigured peer; otherwise each stored state is the last one reported, the metric is the
      number of peers last reported ESTABLISHED, and BFD was started exactly once for each
      physical-network peer with BFD enabled that was ever ESTABLISHED and for nobody else. */
  lemma {:induction false} RunTracks(w: Watch, es: seq<Event>)
    requires Configured(w)
    ensures Run(w, es).Crashed? <==> exists e :: e in es && e.Reported? && e.ip !in w.peers
    ensures Run(w, es).Running? ==>
              var now := Run(w, es).watch;
              && Tracked(w, es, now)
              && now.active == |UpPeers(now.peers)|
              && LaunchedRight(w, es, now.launched)
  {
    if es == [] {
      assert UpPeers(w.peers) == {};
    } else {
      var n := |es| - 1;
      var e := es[n];
      assert es == es[..n] + [e];
      RunTracks(w, es[..n]);
      if Run(w, es[..n]).Running? && (e.Anonymous? || e.ip in w.peers) {
        var now := Run(w, es[..n]).watch;
        HandleTracks(w, es[..n], now, e);
        HandleCounts(now, e);
        HandleLaunches(w, es[..n], now, e);
      }
    }
  }

  ghost function ReportedUp(w: Watch, es: seq<Event>): set<Address> {
    set ip | ip in w.peers && LastState(es, ip) == Established
  }

  /** The metric in terms of the reports alone; it stays between 0 and the number of peers. */
  lemma MetricIsReportedCount(w: Watch, es: seq<Event>)
    requires Configured(w) && Run(w, es).Running?
    ensures var active := Run(w, es).watch.active;
            && active == |ReportedUp(w, es)|
            && 0 <= active <= |w.peers|
  {
    RunTracks(w, es);
    var now := Run(w, es).watch;
    var up := ReportedUp(w, es);
    forall ip | ip in w.peers
      ensures ip in UpPeers(now.peers) <==> ip in up
    {
      assert Follows(w, es, ip, now.peers[ip]);
    }
    assert UpPeers(now.peers) == up;
    SubsetSize(up, w.peers.Keys);
    assert |w.peers.Keys| == |w.peers|;
  }

  lemma {:induction false} SubsetSize<T>(a: set<T>, b: set<T>)
    requires a <= b
    ensures |a| <= |b|
  {
    assert b == a + (b - a);
  }

  // ---- The objects ------------------------------------------------------------------------

  class BfdPeering {
    const enabled: bool
    var established: bool

    constructor (enabled: bool)
      ensures this.enabled == enabled && !established
    {
      this.enabled := enabled;
      established := false;
    }
  }

  class BgpPeer {
    const physical: bool
    const peering: BfdPeering?
    var state: SessionState
    var previous: SessionState

    constructor (physical: bool, peering: BfdPeering?)
      ensures this.physical == physical && this.peering == peering
      ensures state == Unknown && previous == Unknown
    {
      this.physical, this.peering := physical, peering;
      state, previous := Unknown, Unknown;
    }

    ghost function Value(): Peer
      reads this, peering
    {
      Peer(physical, state, previous,
           if peering == null then None else Some(Bfd(peering.enabled, peering.established)))
    }
  }

  /** Lookups hand out the stored object itself. */
  class BgpPeerStorage {
    var peers: map<Address, BgpPeer>
    ghost var Repr: set<object>

    ghost predicate Valid()
      reads this, Repr
    {
      && this !in Repr
      && (forall ip :: ip in peers ==> Owned(peers[ip]))
      && (forall a, b :: a in peers && b in peers && a != b ==> Apart(peers[a], peers[b]))
    }

    ghost predicate Owned(p: BgpPeer)
      reads this
    {
      p in Repr && (p.peering != null ==> p.peering in Repr)
    }

    ghost predicate Apart(p: BgpPeer, q: BgpPeer) {
      p != q && (p.peering != null ==> p.peering != q.peering)
    }

    ghost function Contents(): map<Address, Peer>
      requires Valid()
      reads this, Repr
    {
      map ip | ip in peers :: peers[ip].Value()
    }

    constructor ()
      ensures Valid() && Repr == {} && Contents() == map[]
    {
      peers, Repr := map[], {};
    }

    method AddBgpPeer(ip: Address, peer: BgpPeer)
      requires Valid() && peer !in Repr && (peer.peering != null ==> peer.peering !in Repr)
      modifies this
      ensures Valid() && Contents() == old(Contents())[ip := peer.Value()]
      ensures Repr == old(Repr) + {peer} + (if peer.peering != null then {peer.peering} else {})
    {
      peers := peers[ip := peer];
      Repr := Repr + {peer} + (if peer.peering != null then {peer.peering} else {});
    }

    method GetBgpPeer(ip: Address) returns (peer: BgpPeer?)
      ensures peer == if ip in peers then peers[ip] else null
    {
      peer := if ip in peers then peers[ip] else null;
    }

    method UpdateBgpPeerState(ip: Address, previous: SessionState, current: SessionState) returns (ok: bool)
      modifies if ip in peers then {peers[ip]} else {}
      ensures ok == (ip in peers)
      ensures ok ==> peers[ip].previous == previous && peers[ip].state == current
    {
      var peer := GetBgpPeer(ip);
      ok := peer != null;
      if ok {
        peer.previous, peer.state := previous, current;
      }
    }

    method UpdateBfdPeerState(ip: Address, established: bool)
      requires ip in peers ==> peers[ip].peering != null
      modifies if ip in peers then {peers[ip].peering} else {}
      ensures ip in peers ==> peers[ip].peering.established == established
    {
      var peer := GetBgpPeer(ip);
      if peer != null {
        peer.peering.established := established;
      }
    }
  }

  class GeneralMetric {
    var active: int

    constructor ()
      ensures active == 0
    {
      active := 0;
    }

    method IncActivePeerCount()
      modifies this
      ensures active == old(active) + 1
    {
      active := active + 1;
    }

    method DecActivePeerCount()
      modifies this
      ensures active == old(active) - 1
    {
      active := active - 1;
    }
  }

  class PeerWatcher {
    const storage: BgpPeerStorage
    const metric: GeneralMetric
    var launched: seq<Address>

    constructor (storage: BgpPeerStorage, metric: GeneralMetric)
      ensures this.storage == storage && this.metric == metric && launched == []
    {
      this.storage, this.metric, launched := storage, metric, [];
    }

    ghost predicate Valid()
      reads this, storage, storage.Repr
    {
      storage.Valid() && this !in storage.Repr && metric !in storage.Repr
    }

    ghost function Value(): Watch
      requires Valid()
      reads this, storage, storage.Repr, metric
    {
      Watch(storage.Contents(), metric.active, launched)
    }

    /** The peer read before the update is the object the update changes, so the comparisons
        after it see the new state and, as the previous one, the state before the event. */
    method HandlePeerEvent(e: Event) returns (crashed: bool)
      requires Valid()
      modifies this, metric, storage.Repr
      ensures Valid()
      ensures crashed == Handle(old(Value()), e).Crashed?
      ensures !crashed ==> Value() == Handle(old(Value()), e).watch
    {
      if e.Anonymous? {
        return false;
      }
      var peer := storage.GetBgpPeer(e.ip);
      if peer == null {
        return true;
      }
      crashed := HandleFound(peer, e.ip, e.state);
      if !crashed {
        assert storage.Contents() == old(storage.Contents())[e.ip := peer.Value()];
      }
    }

    method HandleFound(peer: BgpPeer, ip: Address, state: SessionState) returns (crashed: bool)
      requires Valid() && ip in storage.peers && storage.peers[ip] == peer
      modifies this`launched, metric, peer, if peer.peering == null then {} else {peer.peering}
      ensures Valid()
      ensures crashed == (peer.physical && peer.peering == null)
      ensures var p := Moved(old(peer.Value()), state);
              !crashed ==>
                && peer.Value() == Started(p)
                && metric.active == Counted(old(metric.active), p)
                && launched == if Launches(p) then old(launched) + [ip] else old(launched)
    {
      var current := peer.state;
      var found := storage.UpdateBgpPeerState(ip, current, state);
      assert peer.Value() == Moved(old(peer.Value()), state);
      CountPeer(peer);
      if peer.physical {
        if peer.peering == null {
          return true;
        }
        if peer.peering.enabled && peer.state == Established && !peer.peering.established {
          launched := launched + [ip];
          storage.UpdateBfdPeerState(ip, true);
        }
      }
      return false;
    }

    method CountPeer(peer: BgpPeer)
      modifies metric
      ensures metric.active == Counted(old(metric.active), old(peer.Value()))
    {
      if peer.state == Established {
        metric.IncActivePeerCount();
      }
      if peer.previous == Established {
        metric.DecActivePeerCount();
      }
    }
  }
}
