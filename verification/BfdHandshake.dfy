/** Two sessions over a channel that may lose, duplicate, delay and reorder packets. */
module BfdHandshake {
  import opened BfdSession
  import opened BfdStates

  /** One end: its session, every packet it has sent, and whether it has accepted one. */
  datatype Node = Node(session: Session, sent: set<Packet>, heard: bool)

  datatype System = System(a: Node, b: Node)

  /** A step of one end: its own send loop or detector, or the arrival of any packet the other
      end has ever sent. A packet that is never chosen is lost. */
  datatype Act = Own(event: Event) | Arrives(packet: Packet, now: int, wrote: bool)

  datatype Choice = AtA(act: Act) | AtB(act: Act)

  /** `processPackets`: a packet with a discriminator goes to the session of that number, one
      without goes by address. */
  predicate Routed(s: Session, p: Packet) {
    p.yourDiscr > 0 ==> p.yourDiscr == s.cfg.localDiscr
  }

  ghost predicate Enabled(other: Node, act: Act) {
    match act
    case Own(e) => !e.Receive?
    case Arrives(p, _, _) => p in other.sent
  }

  ghost function Absorb(n: Node, r: Result, heard: bool): Node {
    Node(r.session, n.sent + (set p | p in r.sent), heard)
  }

  ghost function Next(n: Node, act: Act): Node {
    match act
    case Own(e) => Absorb(n, Step(n.session, e), n.heard)
    case Arrives(p, now, wrote) =>
      if Routed(n.session, p)
      then Absorb(n, Rx(n.session, p, now, wrote), n.heard || Accepts(n.session, p))
      else n
  }

  ghost predicate Allowed(y: System, c: Choice) {
    match c
    case AtA(act) => Enabled(y.b, act)
    case AtB(act) => Enabled(y.a, act)
  }

  ghost function Perform(y: System, c: Choice): System {
    match c
    case AtA(act) => y.(a := Next(y.a, act))
    case AtB(act) => y.(b := Next(y.b, act))
  }

  ghost function Play(y: System, cs: seq<Choice>): System {
    if cs == [] then y else Perform(Play(y, cs[..|cs|-1]), cs[|cs|-1])
  }

  ghost predicate Legal(y: System, cs: seq<Choice>) {
    forall i :: 0 <= i < |cs| ==> Allowed(Play(y, cs[..i]), cs[i])
  }

  // ---- The invariant ----------------------------------------------------------------------

  /** What one end's packets and state say about the other end. */
  ghost predicate Honest(n: Node, other: Node) {
    && n.session.state != AdminDown
    && (n.session.state != Down ==> n.heard)
    && (n.heard ==> n.session.remoteDiscr == other.session.cfg.localDiscr)
    && (n.session.state == Up ==> other.heard)
    && (forall p :: p in n.sent ==>
          && p.myDiscr == n.session.cfg.localDiscr
          && p.state != AdminDown
          && (p.state != Down ==> n.heard && p.yourDiscr == other.session.cfg.localDiscr))
  }

  ghost predicate Agreed(y: System) {
    Honest(y.a, y.b) && Honest(y.b, y.a)
  }

  lemma RxKnows(s: Session, p: Packet, now: int, wrote: bool)
    requires Accepts(s, p) && s.state != AdminDown
    ensures var r := Rx(s, p, now, wrote);
            && r.session.remoteDiscr == p.myDiscr && r.session.cfg.localDiscr == s.cfg.localDiscr
            && (forall q :: q in r.sent ==>
                  q.myDiscr == s.cfg.localDiscr && q.yourDiscr == p.myDiscr && q.state == r.session.state)
  {
    ReactedReacts(Learn(s, p), p.state);
  }

  lemma OwnStep(s: Session, e: Event)
    requires !e.Receive? && s.state != AdminDown
    ensures var r := Step(s, e);
            && r.session.cfg.localDiscr == s.cfg.localDiscr && r.session.remoteDiscr == s.remoteDiscr
            && (r.session.state == s.state || r.session.state == Down)
            && (forall q :: q in r.sent ==>
                  q.myDiscr == s.cfg.localDiscr && q.yourDiscr == s.remoteDiscr && q.state == s.state)
  {
  }

  /** A step of `n` keeps both views honest. */
  lemma NextHonest(n: Node, other: Node, act: Act)
    requires Honest(n, other) && Honest(other, n) && Enabled(other, act)
    ensures Honest(Next(n, act), other) && Honest(other, Next(n, act))
  {
    match act
    case Own(e) => OwnStep(n.session, e);
    case Arrives(p, now, wrote) =>
      if Routed(n.session, p) && Accepts(n.session, p) {
        RxKnows(n.session, p, now, wrote);
        RxStates(n.session, p, now, wrote);
      }
  }

  lemma {:induction false} PlayAgreed(y: System, cs: seq<Choice>)
    requires Agreed(y) && Legal(y, cs)
    ensures Agreed(Play(y, cs))
  {
    if cs != [] {
      var n := |cs| - 1;
      forall i | 0 <= i < n ensures Allowed(Play(y, cs[..n][..i]), cs[..n][i]) {
        assert cs[..n][..i] == cs[..i];
      }
      PlayAgreed(y, cs[..n]);
      var before := Play(y, cs[..n]);
      match cs[n]
      case AtA(act) => NextHonest(before.a, before.b, act);
      case AtB(act) => NextHonest(before.b, before.a, act);
    }
  }

  ghost predicate FreshEnd(n: Node) {
    n.session.state == Down && n.session.remoteDiscr == 0 && n.sent == {} && !n.heard
  }

  /** The three-way handshake (section 6.2 of RFC 5880), in every run of two fresh sessions over
      such a channel: an end is Up only if the other end has accepted a packet from it, and it
      then knows the discriminator of the other end; moreover every packet that says Init or Up
      names the discriminator of the end it is for. */
  lemma UpMeansHeard(y: System, cs: seq<Choice>)
    requires FreshEnd(y.a) && FreshEnd(y.b) && Legal(y, cs)
    ensures var z := Play(y, cs);
            && (z.a.session.state == Up ==>
                  z.b.heard && z.a.heard && z.a.session.remoteDiscr == z.b.session.cfg.localDiscr)
            && (z.b.session.state == Up ==>
                  z.a.heard && z.b.heard && z.b.session.remoteDiscr == z.a.session.cfg.localDiscr)
            && (forall p :: p in z.a.sent && p.state in {Init, Up} ==> p.yourDiscr == z.b.session.cfg.localDiscr)
            && (forall p :: p in z.b.sent && p.state in {Init, Up} ==> p.yourDiscr == z.a.session.cfg.localDiscr)
  {
    PlayAgreed(y, cs);
  }
}
