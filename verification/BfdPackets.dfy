/** What a session says to its peer in every run: each field of each packet, in terms of how the session
    was configured and what has happened to it since; and what an accepted packet leaves in each timer. */
module BfdPackets {
  import opened BfdSession
  import opened BfdStates
  import opened BfdTimers

  // ---- The timers after a packet ----------------------------------------------------------

  /** The packet brings the session Up. */
  predicate Raises(s: Session, p: Packet) {
    s.state != Up && Prescribed(s.state, p.state) == Up
  }

  /** The peer takes the session down administratively. */
  predicate Shuts(s: Session, p: Packet) {
    p.state == AdminDown && s.state != Down
  }

  /** The TX interval to announce: the configured one from going Up on, one second again after the peer
      has shut the session. */
  lemma RxDesires(s: Session, p: Packet, now: int, wrote: bool)
    requires Accepts(s, p) && s.state != AdminDown
    ensures Rx(s, p, now, wrote).session.timers.desiredMinTx ==
            if Raises(s, p) then s.cfg.txInterval else if Shuts(s, p) then SLOW_TX else s.timers.desiredMinTx
    ensures Rx(s, p, now, wrote).session.timers.requiredMinRx == s.timers.requiredMinRx
    ensures Rx(s, p, now, wrote).session.cfg == s.cfg
  {
    LearnedKeeps(s.timers, p);
  }

  /** A poll sequence runs on until a Final, and starts when going Up changes the TX interval. */
  lemma RxPollsExactly(s: Session, p: Packet, now: int, wrote: bool)
    requires Accepts(s, p) && s.state != AdminDown
    ensures Rx(s, p, now, wrote).session.timers.poll <==>
            !p.final && (s.timers.poll || (Raises(s, p) && s.cfg.txInterval != s.timers.desiredMinTx))
  {
    LearnedKeeps(s.timers, p);
  }

  /** The pending detection time: the longer TX interval that going Up asks for, or the longer interval of
      the peer, until a Final clears it. */
  lemma RxPends(s: Session, p: Packet, now: int, wrote: bool)
    requires Accepts(s, p) && s.state != AdminDown && s.timers.remoteMinTx == 0
    ensures Rx(s, p, now, wrote).session.timers.finalAsyncDetect ==
            if p.final then 0
            else if Raises(s, p) && s.cfg.txInterval > s.timers.desiredMinTx
            then Max(s.cfg.txInterval, if p.desiredMinTx != 0 then p.desiredMinTx else p.requiredMinRx)
            else s.timers.finalAsyncDetect
  {
    LearnedKeeps(s.timers, p);
    LearnedInterval(s.timers, p);
  }

  /** The send interval in use: the longer of what the packet asks for and what was announced, unless the
      packet repeats the value in the place of the remote RX interval; going Up with a shorter TX
      interval takes that alone. */
  lemma RxPaces(s: Session, p: Packet, now: int, wrote: bool)
    requires Accepts(s, p) && s.state != AdminDown && s.timers.finalAsyncTx == 0
    ensures Rx(s, p, now, wrote).session.timers.asyncTx ==
            if Raises(s, p) && s.cfg.txInterval < s.timers.desiredMinTx then s.cfg.txInterval
            else if p.requiredMinRx == s.timers.remoteMinRx then s.timers.asyncTx
            else Max(p.requiredMinRx, s.timers.desiredMinTx)
  {
    LearnedPaces(s.timers, p);
    LearnedKeeps(s.timers, p);
    ReactedPace(Learn(s, p), p.state);
  }

  lemma LearnedPaces(t: Timers, p: Packet)
    ensures Learned(t, p).asyncTx ==
            if p.requiredMinRx == t.remoteMinRx then t.asyncTx else Max(p.requiredMinRx, t.desiredMinTx)
    ensures Learned(t, p).remoteDetectMult == p.detectMult
  {
  }

  lemma ReactedPace(s: Session, received: BfdState)
    requires s.state != AdminDown
    ensures var t := Reacted(s, received).0;
            t.timers.asyncTx ==
            if s.state != Up && Prescribed(s.state, received) == Up && s.cfg.txInterval < s.timers.desiredMinTx
            then s.cfg.txInterval else s.timers.asyncTx
  {
  }

  /** The connection is closed for a faster rate exactly when the send interval gets shorter. */
  lemma RestartsExactly(t: Timers, p: Packet)
    ensures Restarts(t, p.requiredMinRx) <==> Learned(t, p).asyncTx < t.asyncTx
  {
    LearnedPaces(t, p);
  }

  /** The multiplier of the peer is remembered. */
  lemma RxMultiplies(s: Session, p: Packet, now: int, wrote: bool)
    requires Accepts(s, p) && s.state != AdminDown
    ensures Rx(s, p, now, wrote).session.timers.remoteDetectMult == p.detectMult
  {
    LearnedPaces(s.timers, p);
    ReactedMultiplies(Learn(s, p), p.state);
  }

  lemma ReactedMultiplies(s: Session, received: BfdState)
    ensures Reacted(s, received).0.timers.remoteDetectMult == s.timers.remoteDetectMult
  {
  }

  /** A local change of the required RX interval (not made after the start): a shorter one has to wait
      for a Final while the session is Up, and each change starts a poll sequence. */
  lemma RequiredMinRxChanges(t: Timers, up: bool, v: nat)
    requires v != t.requiredMinRx
    ensures var u := WithRequiredMinRx(t, up, v);
            && u.requiredMinRx == v && u.poll
            && (var detect := t.remoteDetectMult * Max(v, t.remoteMinRx) % WRAP;
                if up && v < t.requiredMinRx
                then u.finalAsyncDetect == detect && u.asyncDetect == t.asyncDetect
                else u.asyncDetect == detect && u.finalAsyncDetect == t.finalAsyncDetect)
            && u.asyncTx == t.asyncTx && u.desiredMinTx == t.desiredMinTx && u.remoteMinRx == t.remoteMinRx
  {
  }

  // ---- Packets that are not used ----------------------------------------------------------

  /** A packet with the wrong kind of authentication changes nothing. */
  lemma WrongAuthIgnored(s: Session, p: Packet, now: int, wrote: bool)
    requires p.authPresent != s.cfg.authType
    ensures Rx(s, p, now, wrote) == Result(s, [], [])
  {
  }

  /** A session in AdminDown stays there, answers nothing and does not count the packet as heard. */
  lemma AdminDownWaits(s: Session, p: Packet, now: int, wrote: bool)
    requires s.state == AdminDown
    ensures var r := Rx(s, p, now, wrote);
            && r.session.state == AdminDown && r.sent == [] && r.moves == []
            && r.session.lastRx == s.lastRx && r.session.diag == s.diag
  {
  }

  // ---- The connection ---------------------------------------------------------------------

  /** When the connection is closed after an event: a packet may close it, a pass of the send loop leaves
      it as its connecting or writing went, and a tick never touches it. */
  lemma ConnectionExactly(s: Session, e: Event)
    requires s.state != AdminDown
    ensures Step(s, e).session.link.clientDown <==>
            match e
            case Receive(p, _, wrote) =>
              s.link.clientDown
              || (p.authPresent == s.cfg.authType
                  && (Learned(s.timers, p).asyncTx < s.timers.asyncTx || (p.poll && !wrote)))
            case Sending(ok) => if s.link.clientDown || Pass(s, true).sent != [] then !ok else false
            case Detecting(_) => s.link.clientDown
    ensures e.Sending? && !e.ok ==> Step(s, e).sent == []
  {
    if e.Receive? && Accepts(s, e.packet) {
      RxLinks(s, e.packet, e.now, e.wrote);
      RestartsExactly(s.timers, e.packet);
    }
  }

  // ---- The announced TX interval over a run -----------------------------------------------

  /** One second at first; the configured one since the latest move to Up; one second again since a
      timeout or an administrative drop. A drop that follows the peer's Down does not change it. */
  function Wanted(moves: seq<Move>, configured: nat): nat {
    if moves == [] then SLOW_TX
    else
      var last := moves[|moves|-1];
      if last.to == Up then configured
      else if last.to == Down && last.cause != ByPacket(Down) then SLOW_TX
      else Wanted(moves[..|moves|-1], configured)
  }

  lemma StepWants(s: Session, e: Event)
    requires s.state != AdminDown
    ensures var r := Step(s, e);
            && |r.moves| <= 1 && r.session.state != AdminDown && r.session.cfg == s.cfg
            && r.session.timers.requiredMinRx == s.timers.requiredMinRx
            && r.session.timers.desiredMinTx ==
               if r.moves == [] then s.timers.desiredMinTx
               else if r.moves[0].to == Up then s.cfg.txInterval
               else if r.moves[0].to == Down && r.moves[0].cause != ByPacket(Down) then SLOW_TX
               else s.timers.desiredMinTx
  {
    StepFits(s, e);
    if e.Receive? && Accepts(s, e.packet) {
      RxDesires(s, e.packet, e.now, e.wrote);
      RxStates(s, e.packet, e.now, e.wrote);
    }
  }

  /** In every run of a new session: the announced intervals, and the diagnostic, follow from the
      configuration and the callbacks. */
  lemma {:induction false} RunWants(s: Session, es: seq<Event>)
    requires s.state == Down && s.diag == NoDiagnostic && s.timers.desiredMinTx == SLOW_TX
    ensures var r := Run(s, es);
            && r.session.state != AdminDown && r.session.cfg == s.cfg
            && r.session.timers.requiredMinRx == s.timers.requiredMinRx
            && r.session.timers.desiredMinTx == Wanted(r.moves, s.cfg.txInterval)
            && r.session.diag == Named(r.moves)
  {
    RunStates(s, es);
    if es != [] {
      var n := |es| - 1;
      RunWants(s, es[..n]);
      RunUnfolds(s, es);
      var before := Run(s, es[..n]);
      var last := Step(before.session, es[n]);
      StepWants(before.session, es[n]);
      WantedAppend(before.moves, last.moves, s.cfg.txInterval);
    }
  }

  lemma WantedAppend(a: seq<Move>, b: seq<Move>, configured: nat)
    requires |b| <= 1
    ensures Wanted(a + b, configured) ==
            if b == [] then Wanted(a, configured)
            else if b[0].to == Up then configured
            else if b[0].to == Down && b[0].cause != ByPacket(Down) then SLOW_TX
            else Wanted(a, configured)
  {
    if b == [] {
      assert a + b == a;
    } else {
      assert (a + b)[..|a|] == a;
    }
  }

  // ---- The packets of a run ---------------------------------------------------------------

  /** What every packet must say that leaves with the last of the events `es`. */
  ghost predicate Says(q: Packet, s: Session, es: seq<Event>, rx: int, tx: int, mult: int, discr: nat)
    requires es != []
  {
    var now, e := Run(s, es), es[|es|-1];
    && q.detectMult == (if mult <= 0 then 3 else mult % 256)
    && q.myDiscr == discr && q.yourDiscr == now.session.remoteDiscr
    && q.state == now.session.state && q.diag == Named(now.moves)
    && q.requiredMinRx == Cut(rx) && q.desiredMinTx == Wanted(now.moves, Cut(tx))
    && q.final == e.Receive? && q.poll == (!e.Receive? && now.session.timers.poll)
    && !q.demand && !q.authPresent
  }

  /** In every run of a session made with these values, each packet that is sent carries the configured
      multiplier and discriminator, the discriminator learned from the peer, the state and the
      diagnostic of that moment, the configured RX interval and the TX interval then wanted. */
  lemma SentExactly(rx: int, tx: int, mult: int, discr: nat, passive: bool, es: seq<Event>)
    requires es != []
    ensures var s := NewSession(rx, tx, mult, discr, passive);
            var before := Run(s, es[..|es|-1]).session;
            forall q :: q in Step(before, es[|es|-1]).sent ==> Says(q, s, es, rx, tx, mult, discr)
  {
    var s := NewSession(rx, tx, mult, discr, passive);
    var n := |es| - 1;
    RunWants(s, es[..n]);
    RunWants(s, es);
    RunUnfolds(s, es);
    StepSends(Run(s, es[..n]).session, es[n]);
  }

  /** A packet shows the session as its event leaves it. */
  lemma StepSends(s: Session, e: Event)
    requires s.state != AdminDown
    ensures var t := Step(s, e).session;
            forall q :: q in Step(s, e).sent ==>
              && q.detectMult == s.cfg.detectMult && q.myDiscr == s.cfg.localDiscr && q.yourDiscr == t.remoteDiscr
              && q.state == t.state && q.diag == t.diag
              && q.requiredMinRx == t.timers.requiredMinRx && q.desiredMinTx == t.timers.desiredMinTx
              && q.final == e.Receive? && q.poll == (!e.Receive? && t.timers.poll)
              && !q.demand && q.authPresent == s.cfg.authType
  {
    if e.Receive? && Accepts(s, e.packet) {
      ReactedReacts(Learn(s, e.packet), e.packet.state);
    }
  }

  /** The first pass of a new active session sends exactly this packet; a passive one waits. */
  lemma FirstPacket(rx: int, tx: int, mult: int, discr: nat)
    ensures Pass(NewSession(rx, tx, mult, discr, true), true).sent == []
    ensures Pass(NewSession(rx, tx, mult, discr, false), true).sent
         == [Packet(false, NoDiagnostic, Down, false, false, false, if mult <= 0 then 3 else mult % 256,
                    discr, 0, 1_000_000, Cut(rx))]
  {
  }

  // ---- One second while not Up ------------------------------------------------------------

  /** Section 6.8.3: a session that is not Up announces a TX interval of at least a second. */
  ghost predicate SlowWhileNotUp(tx: int) {
    forall rx: int, mult: int, discr: nat, passive: bool, es: seq<Event> ::
      var r := Run(NewSession(rx, tx, mult, discr, passive), es).session;
      r.state != Up ==> r.timers.desiredMinTx >= SLOW_TX
  }

  /** That holds in all runs exactly when the configured interval, cut to 32 bits, is at least a second:
      a drop that follows the peer's Down keeps the configured one. */
  lemma SlowWhileNotUpExactly(tx: int)
    ensures SlowWhileNotUp(tx) <==> Cut(tx) >= SLOW_TX
  {
    if Cut(tx) >= SLOW_TX {
      forall rx: int, mult: int, discr: nat, passive: bool, es: seq<Event>
        ensures Run(NewSession(rx, tx, mult, discr, passive), es).session.timers.desiredMinTx >= SLOW_TX
      {
        var s := NewSession(rx, tx, mult, discr, passive);
        RunWants(s, es);
        WantedSlow(Run(s, es).moves, Cut(tx));
      }
    } else {
      FastWhileDown(tx);
    }
  }

  lemma {:induction false} WantedSlow(moves: seq<Move>, configured: nat)
    requires configured >= SLOW_TX
    ensures Wanted(moves, configured) >= SLOW_TX
  {
    if moves != [] {
      WantedSlow(moves[..|moves|-1], configured);
    }
  }

  /** The run that shows it: Up by the peer's Init, Down by its Down. */
  lemma FastWhileDown(tx: int)
    requires Cut(tx) < SLOW_TX
    ensures var es := [Receive(RAISING, 0, true), Receive(RAISING.(state := Down), 0, true)];
            var t := Run(NewSession(1_000_000, tx, 3, 1, false), es).session;
            t.state == Down && t.timers.desiredMinTx == Cut(tx)
    ensures !SlowWhileNotUp(tx)
  {
    var s := NewSession(1_000_000, tx, 3, 1, false);
    var p := RAISING.(state := Down);
    var es := [Receive(RAISING, 0, true), Receive(p, 0, true)];
    assert es[..1] == [es[0]] && es[..1][..0] == [];
    RunUnfolds(s, es[..1]);
    RunUnfolds(s, es);
    RxStates(s, RAISING, 0, true);
    RxDesires(s, RAISING, 0, true);
    var t := Rx(s, RAISING, 0, true).session;
    assert Run(s, es[..1]).session == t;
    RxStates(t, p, 0, true);
    RxDesires(t, p, 0, true);
    assert Run(s, es).session == Rx(t, p, 0, true).session;
  }
}
