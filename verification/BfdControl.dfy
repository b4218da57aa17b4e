/** The list of BFD sessions (pkg/bfd/control.go): finding the session a packet is for, and removing
    a session from the list while ranging over it. */
module BfdControl {
  import opened BfdSession
  import opened BfdStates
  import opened BfdHandshake

  /** One element of the list. */
  class Peering {
    const remoteIp: nat
    const endpoint: BfdEndpoint

    constructor (remoteIp: nat, endpoint: BfdEndpoint)
      ensures this.remoteIp == remoteIp && this.endpoint == endpoint
    {
      this.remoteIp, this.endpoint := remoteIp, endpoint;
    }
  }

  // ---- Removal ----------------------------------------------------------------------------

  /** What the removing loop leaves: after a removal the next session has moved into the slot just
      left behind, so it is kept without being looked at. */
  function Left(s: seq<Peering>, ip: nat): seq<Peering> {
    if s == [] then []
    else if s[0].remoteIp != ip then [s[0]] + Left(s[1..], ip)
    else if |s| == 1 then []
    else [s[1]] + Left(s[2..], ip)
  }

  /** The sessions it tells to quit on the way. */
  function Stopped(s: seq<Peering>, ip: nat): seq<Peering> {
    if s == [] then []
    else if s[0].remoteIp != ip then Stopped(s[1..], ip)
    else [s[0]] + if |s| == 1 then [] else Stopped(s[2..], ip)
  }

  /** What a removal is for. */
  function Others(s: seq<Peering>, ip: nat): seq<Peering> {
    if s == [] then []
    else (if s[0].remoteIp == ip then [] else [s[0]]) + Others(s[1..], ip)
  }

  function To(s: seq<Peering>, ip: nat): seq<Peering> {
    if s == [] then []
    else (if s[0].remoteIp == ip then [s[0]] else []) + To(s[1..], ip)
  }

  ghost predicate Neighbours(s: seq<Peering>, ip: nat) {
    exists i :: 0 <= i < |s| - 1 && s[i].remoteIp == ip && s[i+1].remoteIp == ip
  }

  ghost predicate Mentions(s: seq<Peering>, ip: nat) {
    exists i :: 0 <= i < |s| && s[i].remoteIp == ip
  }

  lemma NeighboursStep(s: seq<Peering>, ip: nat)
    requires s != []
    ensures Neighbours(s, ip) <==>
            (|s| > 1 && s[0].remoteIp == ip && s[1].remoteIp == ip) || Neighbours(s[1..], ip)
  {
    if Neighbours(s[1..], ip) {
      var i :| 0 <= i < |s[1..]| - 1 && s[1..][i].remoteIp == ip && s[1..][i+1].remoteIp == ip;
      assert s[i+1].remoteIp == ip && s[i+2].remoteIp == ip;
    }
    if Neighbours(s, ip) && !(s[0].remoteIp == ip && s[1].remoteIp == ip) {
      var i :| 0 <= i < |s| - 1 && s[i].remoteIp == ip && s[i+1].remoteIp == ip;
      assert s[1..][i-1].remoteIp == ip && s[1..][i].remoteIp == ip;
    }
  }

  lemma {:induction false} OthersNamed(s: seq<Peering>, ip: nat)
    ensures forall i :: 0 <= i < |Others(s, ip)| ==> Others(s, ip)[i] in s && Others(s, ip)[i].remoteIp != ip
    ensures forall i :: 0 <= i < |s| && s[i].remoteIp != ip ==> s[i] in Others(s, ip)
  {
    if s != [] {
      OthersNamed(s[1..], ip);
      assert s == [s[0]] + s[1..];
    }
  }

  lemma {:induction false} LeftFinds(s: seq<Peering>, ip: nat)
    requires Neighbours(s, ip)
    ensures Mentions(Left(s, ip), ip)
  {
    NeighboursStep(s, ip);
    if s[0].remoteIp != ip {
      LeftFinds(s[1..], ip);
      MentionsLater(s[0], Left(s[1..], ip), ip);
    } else if s[1].remoteIp == ip {
      assert Left(s, ip)[0].remoteIp == ip;
    } else {
      NeighboursStep(s[1..], ip);
      assert s[1..][1..] == s[2..];
      LeftFinds(s[2..], ip);
      MentionsLater(s[1], Left(s[2..], ip), ip);
    }
  }

  lemma MentionsLater(l: Peering, s: seq<Peering>, ip: nat)
    requires Mentions(s, ip)
    ensures Mentions([l] + s, ip)
  {
    var i :| 0 <= i < |s| && s[i].remoteIp == ip;
    assert ([l] + s)[i+1].remoteIp == ip;
  }

  lemma {:induction false} LeftIsOthers(s: seq<Peering>, ip: nat)
    requires !Neighbours(s, ip)
    ensures Left(s, ip) == Others(s, ip) && Stopped(s, ip) == To(s, ip)
  {
    if s != [] {
      NeighboursStep(s, ip);
      if s[0].remoteIp != ip || |s| == 1 {
        LeftIsOthers(s[1..], ip);
      } else {
        assert s[1].remoteIp != ip;
        assert s[1..][1..] == s[2..];
        NeighboursStep(s[1..], ip);
        LeftIsOthers(s[2..], ip);
      }
    }
  }

  /** Nothing is lost or duplicated: every session is left in the list or told to quit. */
  lemma {:induction false} RemovalConserves(s: seq<Peering>, ip: nat)
    ensures multiset(Left(s, ip)) + multiset(Stopped(s, ip)) == multiset(s)
    ensures forall i :: 0 <= i < |Stopped(s, ip)| ==> Stopped(s, ip)[i].remoteIp == ip
  {
    if s != [] {
      assert s == [s[0]] + s[1..];
      if s[0].remoteIp != ip || |s| == 1 {
        RemovalConserves(s[1..], ip);
      } else {
        assert s[1..] == [s[1]] + s[2..];
        RemovalConserves(s[2..], ip);
      }
    }
  }

  /** The sessions to other addresses stay, in their order. */
  lemma {:induction false} OthersStay(s: seq<Peering>, ip: nat)
    ensures Others(Left(s, ip), ip) == Others(s, ip)
  {
    if s != [] {
      if s[0].remoteIp != ip || |s| == 1 {
        OthersStay(s[1..], ip);
        assert s[0].remoteIp != ip ==> Left(s, ip)[1..] == Left(s[1..], ip);
      } else {
        assert s[1..][1..] == s[2..];
        OthersStay(s[2..], ip);
        assert Left(s, ip)[1..] == Left(s[2..], ip);
      }
    }
  }

  /** Of a block of sessions to the address every second one stays. */
  lemma {:induction false} BlockHalves(s: seq<Peering>, ip: nat)
    requires forall i :: 0 <= i < |s| ==> s[i].remoteIp == ip
    ensures |Left(s, ip)| == |s| / 2
    ensures forall i :: 0 <= i < |s| / 2 ==> Left(s, ip)[i] == s[2 * i + 1]
  {
    if |s| > 1 {
      BlockHalves(s[2..], ip);
      forall i | 0 <= i < |s| / 2
        ensures Left(s, ip)[i] == s[2 * i + 1]
      {
        if i > 0 {
          assert Left(s, ip)[i] == Left(s[2..], ip)[i - 1];
          assert s[2..][2 * (i - 1) + 1] == s[2 * i + 1];
        }
      }
    }
  }

  /** The loop removes the sessions to an address, and nothing else, exactly when no two of them
      stand next to each other; otherwise one to that address stays. */
  lemma RemovalExactly(s: seq<Peering>, ip: nat)
    ensures Left(s, ip) == Others(s, ip) <==> !Neighbours(s, ip)
    ensures Mentions(Left(s, ip), ip) <==> Neighbours(s, ip)
    ensures !Neighbours(s, ip) ==> Stopped(s, ip) == To(s, ip)
  {
    OthersNamed(s, ip);
    if Neighbours(s, ip) {
      LeftFinds(s, ip);
    } else {
      LeftIsOthers(s, ip);
    }
  }

  function From(s: seq<Peering>, i: nat): seq<Peering> {
    if i <= |s| then s[i..] else []
  }

  /** What the loop will leave when it is about to look at slot `i`. */
  function LeftFrom(s: seq<Peering>, i: nat, ip: nat): seq<Peering> {
    if i <= |s| then s[..i] + Left(s[i..], ip) else s
  }

  /** The loop is about to look at slot `i`: the list will be left right, and the sessions told to
      quit so far are right. */
  ghost predicate OnTrack(was: seq<Peering>, s: seq<Peering>, i: nat, quit: seq<Peering>, ip: nat) {
    && LeftFrom(s, i, ip) == Left(was, ip)
    && Stopped(was, ip) == quit + Stopped(From(s, i), ip)
  }

  lemma KeepStep(was: seq<Peering>, s: seq<Peering>, i: nat, quit: seq<Peering>, ip: nat)
    requires OnTrack(was, s, i, quit, ip) && (i < |s| ==> s[i].remoteIp != ip)
    ensures OnTrack(was, s, i + 1, quit, ip)
  {
    if i < |s| {
      assert s[i..][1..] == s[i+1..];
      assert s[..i+1] == s[..i] + [s[i]];
    }
  }

  lemma GapStep(was: seq<Peering>, s: seq<Peering>, i: nat, quit: seq<Peering>, ip: nat)
    requires OnTrack(was, s, i, quit, ip) && i < |s| && s[i].remoteIp == ip
    ensures OnTrack(was, s[..i] + s[i+1..], i + 1, quit + [s[i]], ip)
  {
    var t := s[..i] + s[i+1..];
    GapFrom(s, i, ip);
    assert quit + [s[i]] + Stopped(From(t, i + 1), ip) == quit + ([s[i]] + Stopped(From(t, i + 1), ip));
  }

  lemma GapFrom(s: seq<Peering>, i: nat, ip: nat)
    requires i < |s| && s[i].remoteIp == ip
    ensures var t := s[..i] + s[i+1..];
            LeftFrom(t, i + 1, ip) == LeftFrom(s, i, ip) && Stopped(From(s, i), ip) == [s[i]] + Stopped(From(t, i + 1), ip)
  {
    var t := s[..i] + s[i+1..];
    if i + 1 < |s| {
      assert s[i..][2..] == s[i+2..] == t[i+1..];
      assert t[..i+1] == s[..i] + [s[i+1]];
    }
  }

  // ---- Past the end of the shortened list -------------------------------------------------

  ghost predicate DistinctSessions(s: seq<Peering>) {
    forall i, j :: 0 <= i < j < |s| ==> s[i] != s[j]
  }

  /** The last session of the list is to the address, and the loop has kept it unexamined. */
  ghost predicate KeepsLast(s: seq<Peering>, ip: nat) {
    s != [] && s[|s|-1].remoteIp == ip && s[|s|-1] in Left(s, ip)
  }

  /** It is removed, after another one. */
  ghost predicate TellsLastTwice(s: seq<Peering>, ip: nat) {
    s != [] && s[|s|-1].remoteIp == ip && s[|s|-1] !in Left(s, ip) && |Stopped(s, ip)| >= 2
  }

  /** Even when the list is left right, the call blocks: exactly when it removes several sessions and
      the last of the list is one of them. */
  lemma BlocksExactly(s: seq<Peering>, ip: nat)
    requires !Neighbours(s, ip)
    ensures TellsLastTwice(s, ip) <==> s != [] && s[|s|-1].remoteIp == ip && |To(s, ip)| >= 2
  {
    RemovalExactly(s, ip);
    OthersNamed(s, ip);
  }

  /** All the sessions that are told to quit: those removed, and the last one if the loop comes upon
      it again in the slots behind the shortened list. */
  ghost function Told(s: seq<Peering>, ip: nat): seq<Peering> {
    Stopped(s, ip) + if KeepsLast(s, ip) then [s[|s|-1]] else []
  }

  /** The slots behind the shortened list all hold the session that was last; it is still in the list
      unless it was the last one removed. */
  ghost predicate Behind(was: seq<Peering>, all: seq<Peering>, count: nat, i: nat, quit: seq<Peering>, ip: nat) {
    && |all| == |was| && count <= |was| && |quit| == |was| - count
    && (forall j :: 0 <= j < count ==> all[j] !in quit)
    && (forall j :: count <= j < |was| ==> all[j] == was[|was|-1])
    && (was != [] ==>
          var last := was[|was|-1];
          if last in quit then i == count + 1 && last.remoteIp == ip
          else count > 0 && all[count-1] == last && (i > count ==> last.remoteIp != ip))
  }

  lemma BehindKeep(was: seq<Peering>, all: seq<Peering>, count: nat, i: nat, quit: seq<Peering>, ip: nat)
    requires Behind(was, all, count, i, quit, ip) && i < |was| && all[i].remoteIp != ip
    ensures Behind(was, all, count, i + 1, quit, ip)
  {
  }

  lemma BehindGap(was: seq<Peering>, all: seq<Peering>, count: nat, i: nat, quit: seq<Peering>, ip: nat)
    requires Behind(was, all, count, i, quit, ip) && i < count && all[i].remoteIp == ip
    requires DistinctSessions(all[..count])
    ensures var next := all[..i] + all[i+1..count] + all[count-1..];
            && Behind(was, next, count - 1, i + 1, quit + [all[i]], ip)
            && DistinctSessions(next[..count-1]) && next[..count-1] == all[..count][..i] + all[..count][i+1..]
  {
    var s := all[..count];
    var next := all[..i] + all[i+1..count] + all[count-1..];
    forall j | 0 <= j < count - 1
      ensures next[j] == s[if j < i then j else j + 1] && next[j] != s[i] && next[j] !in quit
    {
    }
    var last := was[|was|-1];
    assert all[count-1] == s[count-1] == last;
  }

  lemma {:induction false} NoneStopped(s: seq<Peering>, ip: nat)
    requires Stopped(s, ip) == []
    ensures forall j :: 0 <= j < |s| ==> s[j].remoteIp != ip
  {
    if s != [] {
      NoneStopped(s[1..], ip);
      forall j | 0 <= j < |s|
        ensures s[j].remoteIp != ip
      {
        assert j > 0 ==> s[j] == s[1..][j-1];
      }
    }
  }

  /** The loop has come to its end. */
  lemma LoopEnds(was: seq<Peering>, all: seq<Peering>, count: nat, quit: seq<Peering>, ip: nat)
    requires Behind(was, all, count, |was|, quit, ip) && OnTrack(was, all[..count], |was|, quit, ip)
    ensures all[..count] == Left(was, ip) && quit == Told(was, ip) && !TellsLastTwice(was, ip)
  {
    var s := all[..count];
    assert LeftFrom(s, |was|, ip) == s && Stopped(From(s, |was|), ip) == [];
    if was != [] {
      var last := was[|was|-1];
      if last in quit {
        assert last !in s;
      } else {
        assert s[count-1] == last;
        if count == |was| {
          NoneStopped(was, ip);
        }
      }
    }
  }

  /** The loop has come upon the last session behind the list. */
  lemma LoopStumbles(was: seq<Peering>, all: seq<Peering>, count: nat, i: nat, quit: seq<Peering>, ip: nat)
    requires Behind(was, all, count, i, quit, ip) && OnTrack(was, all[..count], i, quit, ip)
    requires count <= i < |was| && all[i].remoteIp == ip
    ensures all[..count] == Left(was, ip)
    ensures if all[i] in quit then quit == Told(was, ip) && TellsLastTwice(was, ip)
            else quit + [all[i]] == Told(was, ip) && !TellsLastTwice(was, ip)
  {
    var s := all[..count];
    assert LeftFrom(s, i, ip) == s && Stopped(From(s, i), ip) == [];
    var last := was[|was|-1];
    if last in quit {
      assert last !in s;
    } else {
      assert s[count-1] == last;
    }
  }

  /** The removing loop about to look at slot `i`: all slots, the length of the list, who was told. */
  datatype Ranging = Ranging(all: seq<Peering>, count: nat, i: nat, quit: seq<Peering>)

  ghost predicate Sound(g: Ranging, was: seq<Peering>, ip: nat) {
    match g
    case Ranging(all, count, i, quit) =>
      && Behind(was, all, count, i, quit, ip) && OnTrack(was, all[..count], i, quit, ip)
      && DistinctSessions(all[..count])
  }

  /** The slots after the removal of slot `i`: the one behind the list keeps what it held. */
  function Closed(all: seq<Peering>, i: nat, count: nat): (r: seq<Peering>)
    requires i < count <= |all|
    ensures |r| == |all|
  {
    all[..i] + all[i+1..count] + all[count-1..]
  }

  lemma ClosedAt(all: seq<Peering>, i: nat, count: nat, k: nat)
    requires i < count <= |all| && k < |all|
    ensures Closed(all, i, count)[k] == if i <= k < count - 1 then all[k+1] else all[k]
  {
  }

  /** Within the list that is the removal of one element. */
  lemma ClosedRemoves(all: seq<Peering>, i: nat, count: nat)
    requires i < count <= |all|
    ensures Closed(all, i, count)[..count-1] == all[..count][..i] + all[..count][i+1..]
  {
    var next, removed := Closed(all, i, count), all[..count][..i] + all[..count][i+1..];
    forall k | 0 <= k < count - 1
      ensures next[k] == removed[k]
    {
      ClosedAt(all, i, count, k);
    }
    assert next[..count-1] == removed;
  }

  lemma RangingStart(was: seq<Peering>, ip: nat)
    requires DistinctSessions(was)
    ensures Sound(Ranging(was, |was|, 0, []), was, ip)
  {
    assert was[..|was|] == was && was[0..] == was;
  }

  lemma RangingKeep(g: Ranging, was: seq<Peering>, ip: nat)
    requires Sound(g, was, ip) && g.i < |was| && g.all[g.i].remoteIp != ip
    ensures Sound(g.(i := g.i + 1), was, ip)
  {
    KeepStep(was, g.all[..g.count], g.i, g.quit, ip);
    BehindKeep(was, g.all, g.count, g.i, g.quit, ip);
  }

  lemma RangingGap(g: Ranging, was: seq<Peering>, ip: nat, next: seq<Peering>)
    requires Sound(g, was, ip) && g.i < g.count && g.all[g.i].remoteIp == ip
    requires g.count <= |g.all| && next == Closed(g.all, g.i, g.count)
    ensures Sound(Ranging(next, g.count - 1, g.i + 1, g.quit + [g.all[g.i]]), was, ip)
  {
    ClosedRemoves(g.all, g.i, g.count);
    GapStep(was, g.all[..g.count], g.i, g.quit, ip);
    BehindGap(was, g.all, g.count, g.i, g.quit, ip);
    assert g.all[..g.count][g.i] == g.all[g.i];
  }

  /** What the loop leaves: all slots, the length of the list, who was told, whether the call blocks. */
  datatype Outcome = Outcome(all: seq<Peering>, count: nat, told: seq<Peering>, blocked: bool)

  ghost predicate Done(o: Outcome, was: seq<Peering>, ip: nat) {
    match o
    case Outcome(all, count, told, blocked) =>
      && count <= |all| && all[..count] == Left(was, ip) && DistinctSessions(all[..count])
      && told == Told(was, ip) && blocked == TellsLastTwice(was, ip)
  }

  lemma RangingEnds(g: Ranging, was: seq<Peering>, ip: nat)
    requires Sound(g, was, ip) && g.i == |was|
    ensures Done(Outcome(g.all, g.count, g.quit, false), was, ip)
  {
    LoopEnds(was, g.all, g.count, g.quit, ip);
  }

  lemma RangingStumbles(g: Ranging, was: seq<Peering>, ip: nat)
    requires Sound(g, was, ip) && g.count <= g.i < |was| && g.all[g.i].remoteIp == ip
    ensures var last := g.all[g.i];
            Done(Outcome(g.all, g.count, if last in g.quit then g.quit else g.quit + [last], last in g.quit), was, ip)
  {
    LoopStumbles(was, g.all, g.count, g.i, g.quit, ip);
  }

  /** The loop on values. */
  function Looped(all: seq<Peering>, count: nat, i: nat, quit: seq<Peering>, ip: nat): Outcome
    requires count <= |all|
    decreases |all| - i
  {
    if i >= |all| then Outcome(all, count, quit, false)
    else if all[i].remoteIp != ip then Looped(all, count, i + 1, quit, ip)
    else if i >= count then Outcome(all, count, if all[i] in quit then quit else quit + [all[i]], all[i] in quit)
    else Looped(Closed(all, i, count), count - 1, i + 1, quit + [all[i]], ip)
  }

  lemma {:induction false} LoopedDone(g: Ranging, was: seq<Peering>, ip: nat)
    requires Sound(g, was, ip) && g.i <= |was| == |g.all| && g.count <= |was|
    ensures Done(Looped(g.all, g.count, g.i, g.quit, ip), was, ip)
    decreases |was| - g.i
  {
    if g.i == |was| {
      RangingEnds(g, was, ip);
    } else if g.all[g.i].remoteIp != ip {
      RangingKeep(g, was, ip);
      LoopedDone(g.(i := g.i + 1), was, ip);
    } else if g.i >= g.count {
      RangingStumbles(g, was, ip);
    } else {
      var next := Closed(g.all, g.i, g.count);
      RangingGap(g, was, ip, next);
      LoopedDone(Ranging(next, g.count - 1, g.i + 1, g.quit + [g.all[g.i]]), was, ip);
    }
  }

  // ---- Demultiplexing ---------------------------------------------------------------------

  /** Section 6.3 of RFC 5880: by discriminator, or by source address while that is still zero. */
  predicate For(l: Peering, p: Packet, from: nat) {
    if p.yourDiscr > 0 then l.endpoint.localDiscr == p.yourDiscr else l.remoteIp == from
  }

  /** Position of the session that gets a packet; the length of the list when nobody does. */
  ghost predicate Owner(s: seq<Peering>, p: Packet, from: nat, k: nat) {
    && k <= |s|
    && (p.yourDiscr > 0 ==>
          && (k < |s| ==> s[k].endpoint.localDiscr == p.yourDiscr)
          && forall j :: 0 <= j < k ==> s[j].endpoint.localDiscr != p.yourDiscr)
    && (p.yourDiscr == 0 ==>
          && (k < |s| ==> s[k].remoteIp == from)
          && forall j :: 0 <= j < k ==> s[j].remoteIp != from)
  }

  /** A packet with a discriminator is for the session of that number, a packet without one for the
      session to its source address; there is an owner exactly when there is such a session. */
  lemma OwnerExists(s: seq<Peering>, p: Packet, from: nat, k: nat)
    requires Owner(s, p, from, k)
    ensures p.yourDiscr > 0 ==>
              (k < |s| <==> exists j :: 0 <= j < |s| && s[j].endpoint.localDiscr == p.yourDiscr)
    ensures p.yourDiscr == 0 ==> (k < |s| <==> exists j :: 0 <= j < |s| && s[j].remoteIp == from)
  {
  }

  /** From the address of a session, the packets that the two-ended theorems route to it are exactly those
      that the list gives to it. */
  lemma RoutedIsOwned(s: seq<Peering>, k: nat, p: Packet)
    requires Unambiguous(s) && k < |s|
    ensures Routed(s[k].endpoint.Value(), p) <==> Owner(s, p, s[k].remoteIp, k)
  {
  }

  /** A peer that has accepted a packet of session `k` reaches that session with every packet it composes,
      from whatever address. */
  lemma PeerReachesBack(s: seq<Peering>, k: nat, peer: Session, now: int, wrote: bool, first: bool, second: bool, from: nat)
    requires Unambiguous(s) && k < |s| && peer.state != AdminDown && s[k].endpoint.localDiscr > 0
    requires Accepts(peer, Compose(s[k].endpoint.Value(), first))
    ensures var told := Rx(peer, Compose(s[k].endpoint.Value(), first), now, wrote).session;
            Owner(s, Compose(told, second), from, k)
  {
    RxKnows(peer, Compose(s[k].endpoint.Value(), first), now, wrote);
  }

  ghost predicate Unambiguous(s: seq<Peering>) {
    forall i, j :: 0 <= i < j < |s| ==>
      s[i].remoteIp != s[j].remoteIp && s[i].endpoint.localDiscr != s[j].endpoint.localDiscr
  }

  /** With one session to each address and distinct discriminators, only the session a packet is
      for can get it, and removing another session does not change that. */
  lemma OwnerSurvivesRemoval(s: seq<Peering>, ip: nat, p: Packet, from: nat, k: nat, m: nat)
    requires Unambiguous(s) && Owner(s, p, from, k) && Owner(Left(s, ip), p, from, m)
    ensures forall i :: 0 <= i < |s| ==>
              (i == k <==> if p.yourDiscr > 0 then s[i].endpoint.localDiscr == p.yourDiscr else s[i].remoteIp == from)
    ensures m < |Left(s, ip)| <==> k < |s| && s[k].remoteIp != ip
    ensures m < |Left(s, ip)| ==> Left(s, ip)[m] == s[k]
  {
    assert !Neighbours(s, ip);
    RemovalExactly(s, ip);
    OthersNamed(s, ip);
    var t := Left(s, ip);
    assert t == Others(s, ip);
    if m < |t| {
      assert t[m] == Others(s, ip)[m];
      assert t[m] in s && t[m].remoteIp != ip;
    }
    if k < |s| && s[k].remoteIp != ip {
      assert s[k] in t;
    }
  }

  // ---- The list ---------------------------------------------------------------------------

  class Control {
    var slots: array<Peering>
    var count: nat

    ghost predicate Valid()
      reads this, slots
    {
      count <= slots.Length && DistinctSessions(slots[..count])
    }

    ghost function Sessions(): seq<Peering>
      requires Valid()
      reads this, slots
    {
      slots[..count]
    }

    constructor ()
      ensures Valid() && Sessions() == [] && fresh(slots)
    {
      slots, count := new Peering[0], 0;
    }

    method AddSession(remoteIp: nat, passive: bool, rxInterval: int, txInterval: int, detectMult: int, localDiscr: nat)
      returns (added: Peering)
      requires Valid()
      modifies this
      ensures Valid() && fresh(slots) && fresh(added) && fresh(added.endpoint) && added.remoteIp == remoteIp
      ensures Sessions() == old(Sessions()) + [added]
      ensures added.endpoint.Value() == NewSession(rxInterval * 1000, txInterval * 1000, detectMult, localDiscr, passive)
    {
      var endpoint := new BfdEndpoint(rxInterval * 1000, txInterval * 1000, detectMult, localDiscr, passive);
      added := new Peering(remoteIp, endpoint);
      var last, was, n := added, slots, count;
      slots := new Peering[n + 1](i requires 0 <= i <= n && n <= was.Length reads was => if i < n then was[i] else last);
      count := n + 1;
    }

    /** The loop ranges over the slots the list had at the start; the removal moves the later ones
        forward under it. Reaching past the end of the shortened list is a panic, which is
        recovered: the list stays as it then is. A session that is told to quit for the second time
        no longer listens, and the call blocks. */
    method DelSession(ip: nat) returns (quit: seq<Peering>, blocked: bool)
      requires Valid()
      modifies this`count, slots
      ensures Valid() && slots == old(slots)
      ensures Sessions() == Left(old(Sessions()), ip)
      ensures quit == Told(old(Sessions()), ip)
      ensures blocked == TellsLastTwice(old(Sessions()), ip)
    {
      ghost var was, n := Sessions(), count;
      RangingStart(was, ip);
      LoopedDone(Ranging(was, n, 0, []), was, ip);
      quit, blocked := Range(ip);
      assert slots[..n][..count] == slots[..count];
    }

    method Range(ip: nat) returns (quit: seq<Peering>, blocked: bool)
      requires count <= slots.Length
      modifies this`count, slots
      ensures count <= old(count)
      ensures Outcome(slots[..old(count)], count, quit, blocked)
           == Looped(old(slots[..count]), old(count), 0, [], ip)
    {
      quit, blocked := [], false;
      var n, i := count, 0;
      ghost var goal := Looped(slots[..n], n, 0, [], ip);
      while i < n
        invariant i <= n && count <= n <= slots.Length
        invariant Looped(slots[..n], count, i, quit, ip) == goal
      {
        if slots[i].remoteIp == ip {
          if i >= count {
            blocked := slots[i] in quit;
            quit := if blocked then quit else quit + [slots[i]];
            return;
          }
          quit := quit + [slots[i]];
          CloseGap(i, n);
        }
        i := i + 1;
      }
    }

    /** The later slots move forward by one. */
    method CloseGap(i: nat, n: nat)
      requires i < count <= n <= slots.Length
      modifies this`count, slots
      ensures count == old(count) - 1
      ensures slots[..n] == Closed(old(slots[..n]), i, old(count))
    {
      var m := count;
      count := m - 1;
      for j := i + 1 to m
        invariant forall k :: 0 <= k < slots.Length ==> slots[k] == if i <= k < j - 1 then old(slots[k+1]) else old(slots[k])
        invariant count == m - 1
      {
        slots[j-1] := slots[j];
      }
      forall k | 0 <= k < n
        ensures slots[..n][k] == Closed(old(slots[..n]), i, old(count))[k]
      {
        ClosedAt(old(slots[..n]), i, old(count), k);
      }
    }

    ghost function Endpoints(): set<BfdEndpoint>
      requires Valid()
      reads this, slots
    {
      set i | 0 <= i < count :: slots[i].endpoint
    }

    /** Only the session the packet is for sees it. */
    method ProcessPacket(p: Packet, from: nat, now: int, wrote: bool)
      returns (owner: nat, sent: seq<Packet>, moves: seq<Move>)
      requires Valid()
      modifies Endpoints()
      ensures Owner(Sessions(), p, from, owner)
      ensures p.yourDiscr > 0 ==>
                (owner < count <==> exists j :: 0 <= j < count && slots[j].endpoint.localDiscr == p.yourDiscr)
      ensures p.yourDiscr == 0 ==> (owner < count <==> exists j :: 0 <= j < count && slots[j].remoteIp == from)
      ensures owner < count ==>
                Result(slots[owner].endpoint.Value(), sent, moves)
                == Rx(old(slots[owner].endpoint.Value()), p, now, wrote)
      ensures owner == count ==> sent == [] && moves == []
      ensures forall e :: e in Endpoints() && (owner < count ==> e != slots[owner].endpoint) ==>
                e.Value() == old(e.Value())
    {
      owner, sent, moves := 0, [], [];
      while owner < count && !For(slots[owner], p, from)
        invariant owner <= count
        invariant forall j :: 0 <= j < owner ==> !For(slots[j], p, from)
      {
        owner := owner + 1;
      }
      if owner < count {
        sent, moves := slots[owner].endpoint.RxPacket(p, now, wrote);
      }
    }
  }
}
