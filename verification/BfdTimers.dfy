/** The detection time (section 6.8.4 of RFC 5880) and poll sequences (section 6.5). */
module BfdTimers {
  import opened BfdSession
  import opened BfdStates

  // ---- Detection time ---------------------------------------------------------------------

  /** The multiplier of the packet times the longer of the local required RX interval and the
      remote desired TX interval, as section 6.8.4 has it: without a width. */
  function RfcDetectTime(s: Session, p: Packet): nat {
    p.detectMult * Max(s.timers.requiredMinRx, p.desiredMinTx)
  }

  /** Learning a packet leaves the right value in the 32 bits of the source, although the
      intermediate one is computed with the old multiplier in place of an interval. */
  lemma LearnDetects(s: Session, p: Packet)
    requires p.desiredMinTx != 0 && s.timers.remoteMinTx == 0
    ensures Learn(s, p).timers.asyncDetect == RfcDetectTime(s, p) % WRAP
    ensures Learn(s, p).timers.asyncDetect == RfcDetectTime(s, p) <==> RfcDetectTime(s, p) < WRAP
  {
    LearnedKeeps(s.timers, p);
    assert WithRemoteDetectMult(WithRemoteMinRx(s.timers, p.requiredMinRx), p.detectMult).remoteDetectMult == p.detectMult;
  }

  /** The pending detection time after the state machine has run. */
  function Pending(s: Session, p: Packet): nat {
    Reacted(Learn(s, p), p.state).0.timers.finalAsyncDetect
  }

  /** The detection time after an accepted packet, exactly: the RFC's cut to 32 bits, unless a Final
      arrives while a pending value waits. */
  lemma RxDetectsExactly(s: Session, p: Packet, now: int, wrote: bool)
    requires Accepts(s, p) && s.state != AdminDown && p.desiredMinTx != 0 && s.timers.remoteMinTx == 0
    ensures Rx(s, p, now, wrote).session.timers.asyncDetect ==
            if p.final && Pending(s, p) > 0 then Pending(s, p) else RfcDetectTime(s, p) % WRAP
  {
    LearnDetects(s, p);
    ReactedReacts(Learn(s, p), p.state);
  }

  /** With a configured TX interval of at most a second nothing is ever left pending. */
  ghost predicate Quiet(s: Session) {
    && s.state != AdminDown
    && s.cfg.txInterval <= SLOW_TX
    && (s.timers.desiredMinTx == SLOW_TX || s.timers.desiredMinTx == s.cfg.txInterval)
    && s.timers.finalAsyncDetect == 0 && s.timers.finalAsyncTx == 0 && s.timers.remoteMinTx == 0
  }

  lemma ReactedQuiet(s: Session, received: BfdState)
    requires Quiet(s)
    ensures Quiet(Reacted(s, received).0)
  {
  }

  lemma RxQuiet(s: Session, p: Packet, now: int, wrote: bool)
    requires Quiet(s)
    ensures Quiet(Rx(s, p, now, wrote).session)
    ensures Rx(s, p, now, wrote).session.timers.requiredMinRx == s.timers.requiredMinRx
    ensures Rx(s, p, now, wrote).session.cfg.txInterval == s.cfg.txInterval
  {
    if Accepts(s, p) {
      ReactedQuiet(Learn(s, p), p.state);
      ReactedReacts(Learn(s, p), p.state);
    }
  }

  lemma StepQuiet(s: Session, e: Event)
    requires Quiet(s)
    ensures Quiet(Step(s, e).session)
    ensures Step(s, e).session.timers.requiredMinRx == s.timers.requiredMinRx && Step(s, e).session.cfg.txInterval == s.cfg.txInterval
  {
    if e.Receive? {
      RxQuiet(s, e.packet, e.now, e.wrote);
    }
  }

  lemma {:induction false} RunQuiet(s: Session, es: seq<Event>)
    requires Quiet(s)
    ensures Quiet(Run(s, es).session)
    ensures Run(s, es).session.timers.requiredMinRx == s.timers.requiredMinRx
  {
    if es != [] {
      RunQuiet(s, es[..|es|-1]);
      RunUnfolds(s, es);
      StepQuiet(Run(s, es[..|es|-1]).session, es[|es|-1]);
    }
  }

  lemma PendingIsNone(s: Session, p: Packet)
    requires Quiet(s)
    ensures Pending(s, p) == 0
  {
    ReactedQuiet(Learn(s, p), p.state);
  }

  /** What the law needs of a session at its start; a session made by `NewSession` has it. */
  ghost predicate New(s: Session, txInterval: nat) {
    && s.cfg.txInterval == txInterval && s.state == Down && s.timers.desiredMinTx == SLOW_TX && s.timers.remoteMinTx == 0
    && s.timers.finalAsyncDetect == 0 && s.timers.finalAsyncTx == 0 && !s.cfg.authType
  }

  lemma NewSessionIsNew(rxInterval: int, txInterval: int, detectMult: int, localDiscr: nat, passive: bool)
    ensures New(NewSession(rxInterval, txInterval, detectMult, localDiscr, passive), Cut(txInterval))
    ensures 0 <= txInterval < WRAP ==> Cut(txInterval) == txInterval
    ensures Cut(txInterval) < 0x1_0000_0000 && (txInterval - Cut(txInterval)) % 0x1_0000_0000 == 0
    ensures var s := NewSession(rxInterval, txInterval, detectMult, localDiscr, passive);
            && s.cfg.detectMult == (if detectMult <= 0 then 3 else detectMult % 256)
            && s.cfg.localDiscr == localDiscr && s.cfg.passive == passive && s.remoteDiscr == 0
            && s.timers.requiredMinRx == Cut(rxInterval) && s.timers.asyncTx == SLOW_TX && s.timers.remoteMinRx == 1
            && s.timers.asyncDetect == 0 && s.timers.remoteDetectMult == 0 && !s.timers.poll
            && !s.remoteDemand && !s.link.clientDown && !s.link.detectorDone && s.link.doneCloses == 0
  {
  }

  /** With a configured TX interval of at most a second, in every run: the detection time after an
      accepted packet is the RFC's exactly when that fits 32 bits. */
  lemma RunDetectsExactly(s: Session, txInterval: nat, es: seq<Event>, p: Packet, now: int, wrote: bool)
    requires New(s, txInterval) && txInterval <= SLOW_TX
    requires Accepts(Run(s, es).session, p) && p.desiredMinTx != 0
    ensures Rx(Run(s, es).session, p, now, wrote).session.timers.asyncDetect == RfcDetectTime(s, p) <==>
            RfcDetectTime(s, p) < WRAP
  {
    RunQuiet(s, es);
    QuietDetects(Run(s, es).session, p, now, wrote);
    assert RfcDetectTime(Run(s, es).session, p) == RfcDetectTime(s, p);
  }

  lemma QuietDetects(s: Session, p: Packet, now: int, wrote: bool)
    requires Quiet(s) && Accepts(s, p) && p.desiredMinTx != 0
    ensures Rx(s, p, now, wrote).session.timers.asyncDetect == RfcDetectTime(s, p) <==> RfcDetectTime(s, p) < WRAP
  {
    RxDetectsExactly(s, p, now, wrote);
    PendingIsNone(s, p);
    FitsExactly(RfcDetectTime(s, p));
  }

  lemma FitsExactly(n: nat)
    ensures n % WRAP == n <==> n < WRAP
  {
  }

  /** After every accepted packet with a desired TX interval, in every run of a session made with this
      TX interval: the detection time is the RFC's, provided that fits 32 bits. */
  ghost predicate DetectionRight(configured: int) {
    forall rx: int, mult: int, discr: nat, passive: bool, es: seq<Event>, p: Packet, now: int, wrote: bool ::
      var s := NewSession(rx, configured, mult, discr, passive);
      Accepts(Run(s, es).session, p) && p.desiredMinTx != 0 && RfcDetectTime(s, p) < WRAP ==>
        Rx(Run(s, es).session, p, now, wrote).session.timers.asyncDetect == RfcDetectTime(s, p)
  }

  /** That holds exactly when the TX interval, cut to 32 bits, is at most a second. */
  lemma DetectionRightExactly(configured: int)
    ensures DetectionRight(configured) <==> Cut(configured) <= SLOW_TX
  {
    if Cut(configured) <= SLOW_TX {
      forall rx: int, mult: int, discr: nat, passive: bool, es: seq<Event>, p: Packet, now: int, wrote: bool |
        var s := NewSession(rx, configured, mult, discr, passive);
        Accepts(Run(s, es).session, p) && p.desiredMinTx != 0 && RfcDetectTime(s, p) < WRAP
        ensures var s := NewSession(rx, configured, mult, discr, passive);
                Rx(Run(s, es).session, p, now, wrote).session.timers.asyncDetect == RfcDetectTime(s, p)
      {
        RunDetectsExactly(NewSession(rx, configured, mult, discr, passive), Cut(configured), es, p, now, wrote);
      }
    } else {
      DetectionWrong(configured);
    }
  }

  /** The packet with which a peer in Init brings the session Up. */
  const RAISING: Packet := Packet(false, NoDiagnostic, Init, false, false, false, 1, 2, 1, 1_000_000, 1_000_000)

  /** The Final with which the peer answers the Poll that follows. */
  const ANSWERING: Packet := Packet(false, NoDiagnostic, Up, false, true, false, 1, 2, 1, 1_000_000, 1_000_000)

  /** Going Up with a longer TX interval starts a poll sequence and leaves that interval pending. */
  lemma RaisingLeavesPending(configured: int)
    requires Cut(configured) > SLOW_TX
    ensures var s := NewSession(1_000_000, configured, 3, 1, false);
            var t := Rx(s, RAISING, 0, true).session;
            && t.state == Up && t.timers.poll && t.timers.finalAsyncDetect == Cut(configured)
            && t.timers.remoteMinTx == 0 && t.timers.requiredMinRx == 1_000_000 && t.cfg == s.cfg
            && Run(s, [Receive(RAISING, 0, true)]).session == t
  {
    var s := NewSession(1_000_000, configured, 3, 1, false);
    var es := [Receive(RAISING, 0, true)];
    assert es[..0] == [];
    RunUnfolds(s, es);
  }

  /** The run that breaks the law: the session goes Up, and the Final that answers its Poll makes the
      pending TX interval the detection time. */
  lemma DetectionWrong(configured: int)
    requires Cut(configured) > SLOW_TX
    ensures !DetectionRight(configured)
    ensures var s := NewSession(1_000_000, configured, 3, 1, false);
            var t := Run(s, [Receive(RAISING, 0, true)]).session;
            && RfcDetectTime(s, ANSWERING) == 1_000_000
            && Rx(t, ANSWERING, 0, true).session.timers.asyncDetect == Cut(configured)
  {
    var s := NewSession(1_000_000, configured, 3, 1, false);
    var es := [Receive(RAISING, 0, true)];
    RaisingLeavesPending(configured);
    var t := Run(s, es).session;
    RxDetectsExactly(t, ANSWERING, 0, true);
    LearnedKeeps(t.timers, ANSWERING);
    assert Pending(t, ANSWERING) == Cut(configured);
    assert Rx(Run(s, es).session, ANSWERING, 0, true).session.timers.asyncDetect != RfcDetectTime(s, ANSWERING);
  }

  /** The width does matter: intervals of a second, a multiplier of 255 and a desired TX interval of
      16,843,010 us make a detection time of 254 us, which tolerates no silence at all. */
  lemma OverflowExample()
    ensures var s := NewSession(1_000_000, 1_000_000, 3, 1, false);
            var p := Packet(false, NoDiagnostic, Down, false, false, false, 255, 2, 0, 16_843_010, 1_000_000);
            && New(s, 1_000_000) && RfcDetectTime(s, p) == 4_294_967_550
            && Rx(s, p, 0, true).session.timers.asyncDetect == 254
  {
    var s := NewSession(1_000_000, 1_000_000, 3, 1, false);
    var p := Packet(false, NoDiagnostic, Down, false, false, false, 255, 2, 0, 16_843_010, 1_000_000);
    RxDetectsExactly(s, p, 0, true);
  }

  // ---- Poll sequences ---------------------------------------------------------------------

  /** Whether an accepted Poll is answered: the connection was open, the packet does not close it by
      asking for a faster rate, and it takes the reply. */
  predicate Answers(s: Session, p: Packet, wrote: bool) {
    p.poll && wrote && !s.link.clientDown && !Restarts(s.timers, p.requiredMinRx)
  }

  /** By section 6.8.6 every accepted Poll is answered. Here exactly one Final leaves, without Poll and
      with the new state, if and only if the condition above holds; else nothing leaves. */
  lemma PollIsAnswered(s: Session, p: Packet, now: int, wrote: bool)
    requires Accepts(s, p) && s.state != AdminDown
    ensures var r := Rx(s, p, now, wrote);
            && |r.sent| == (if Answers(s, p, wrote) then 1 else 0)
            && (Answers(s, p, wrote) ==>
                  r.sent[0].final && !r.sent[0].poll && r.sent[0].state == Prescribed(s.state, p.state))
  {
    ReactedStates(Learn(s, p), p.state);
    ReactedReacts(Learn(s, p), p.state);
  }

  /** A peer first asks for an RX interval of three seconds and then, with a Poll as section 6.8.3 wants
      it, for one second: its Poll gets no answer, though every write would have gone through. */
  lemma PollUnanswered()
    ensures var s := NewSession(300_000, 300_000, 3, 1, false);
            var slow := Packet(false, NoDiagnostic, Down, false, false, false, 3, 2, 0, 300_000, 3_000_000);
            var poll := slow.(poll := true, yourDiscr := 1, requiredMinRx := 1_000_000);
            && Accepts(s, poll)
            && Run(s, [Receive(slow, 0, true), Receive(poll, 0, true)]).sent == []
            && Run(s, [Receive(slow, 0, true), Receive(poll, 0, true)]).session.link.clientDown
  {
    var s := NewSession(300_000, 300_000, 3, 1, false);
    var slow := Packet(false, NoDiagnostic, Down, false, false, false, 3, 2, 0, 300_000, 3_000_000);
    var poll := slow.(poll := true, yourDiscr := 1, requiredMinRx := 1_000_000);
    var es := [Receive(slow, 0, true), Receive(poll, 0, true)];
    assert es[..1] == [es[0]] && es[..1][..0] == [];
    RunUnfolds(s, es[..1]);
    RunUnfolds(s, es);
    var t := Run(s, es[..1]).session;
    assert t == Rx(s, slow, 0, true).session;
    PollIsAnswered(s, slow, 0, true);
    PollIsAnswered(t, poll, 0, true);
    RxLinks(t, poll, 0, true);
  }

  /** The next try of that Poll is answered, once the send loop has opened the connection again. */
  lemma RetriedPollIsAnswered(s: Session, p: Packet, now: int, wrote: bool)
    requires Accepts(s, p) && s.state != AdminDown && p.poll && Restarts(s.timers, p.requiredMinRx)
    requires s.timers.finalAsyncTx == 0 && (p.state != AdminDown || s.timers.desiredMinTx <= SLOW_TX)
    ensures Rx(s, p, now, wrote).sent == []
    ensures Answers(Pass(Rx(s, p, now, wrote).session, true).session, p, true)
  {
    PollIsAnswered(s, p, now, wrote);
    RxLinks(s, p, now, wrote);
    LearnedKeeps(s.timers, p);
    assert Learned(s.timers, p).asyncTx == Max(p.requiredMinRx, s.timers.desiredMinTx);
    ReactedPaces(Learn(s, p), p.state, p.requiredMinRx);
  }

  /** The state machine does not make the current send interval longer than the next one would be. */
  lemma ReactedPaces(s: Session, received: BfdState, v: nat)
    requires s.timers.asyncTx == Max(v, s.timers.desiredMinTx)
    requires received != AdminDown || s.timers.desiredMinTx <= SLOW_TX
    ensures var t := Reacted(s, received).0.timers; t.asyncTx <= Max(v, t.desiredMinTx)
    ensures Reacted(s, received).0.timers.finalAsyncTx == s.timers.finalAsyncTx
  {
  }

  lemma StepNeverBoth(s: Session, e: Event)
    ensures forall q :: q in Step(s, e).sent ==> !(q.poll && q.final)
    ensures forall q :: q in Step(s, e).sent && !e.Receive? ==> q.poll == s.timers.poll && !q.final
    ensures forall q :: q in Step(s, e).sent && e.Receive? ==> q.final
  {
  }

  /** In no run is a packet sent with both bits. */
  lemma {:induction false} NeverPollAndFinal(s: Session, es: seq<Event>)
    ensures forall q :: q in Run(s, es).sent ==> !(q.poll && q.final)
  {
    if es != [] {
      NeverPollAndFinal(s, es[..|es|-1]);
      RunUnfolds(s, es);
      StepNeverBoth(Run(s, es[..|es|-1]).session, es[|es|-1]);
    }
  }

  lemma PollPersists(s: Session, e: Event)
    requires s.timers.poll && (e.Receive? && Accepts(s, e.packet) ==> !e.packet.final)
    ensures Step(s, e).session.timers.poll && Step(s, e).session.cfg.authType == s.cfg.authType
  {
    if e.Receive? && Accepts(s, e.packet) {
      ReactedReacts(Learn(s, e.packet), e.packet.state);
    }
  }

  /** Once a poll sequence has started, every periodic packet carries Poll until a Final is
      accepted, and the sequence is then over. */
  lemma {:induction false} PollUntilFinal(s: Session, es: seq<Event>)
    requires s.timers.poll
    requires forall i :: 0 <= i < |es| && es[i].Receive? && es[i].packet.authPresent == s.cfg.authType ==> !es[i].packet.final
    ensures Run(s, es).session.timers.poll && Run(s, es).session.cfg.authType == s.cfg.authType
    ensures forall q :: q in Run(s, es).sent && !q.final ==> q.poll
  {
    if es != [] {
      var n := |es| - 1;
      PollUntilFinal(s, es[..n]);
      RunUnfolds(s, es);
      PollPersists(Run(s, es[..n]).session, es[n]);
      StepNeverBoth(Run(s, es[..n]).session, es[n]);
    }
  }

  lemma FinalEndsPoll(s: Session, p: Packet, now: int, wrote: bool)
    requires Accepts(s, p) && s.state != AdminDown && p.final
    ensures !Rx(s, p, now, wrote).session.timers.poll
  {
  }

  // ---- Sending ----------------------------------------------------------------------------

  /** Whether an accepted packet leaves a poll sequence running in a session that it leaves Up. */
  predicate StillPolls(s: Session, p: Packet) {
    !p.final && (s.timers.poll || (s.state == Init && s.cfg.txInterval != s.timers.desiredMinTx))
  }

  /** Whether it leaves the connection closed. */
  predicate LeavesDown(s: Session, p: Packet, wrote: bool) {
    s.link.clientDown || Restarts(s.timers, p.requiredMinRx) || (p.poll && !wrote)
  }

  /** The next pass of the send loop after an accepted packet stays silent exactly in these cases. By
      section 6.8.7 the third should ask for a zero required RX interval alone; the code has
      overwritten it with the desired TX interval of the peer, unless that is zero too. */
  lemma SilentExactly(s: Session, p: Packet, now: int, wrote: bool)
    requires Accepts(s, p) && s.state != AdminDown && s.timers.remoteMinTx == 0
    ensures Pass(Rx(s, p, now, wrote).session, true).sent == [] <==>
            || LeavesDown(s, p, wrote)
            || (s.cfg.passive && p.myDiscr == 0)
            || (p.requiredMinRx == 0 && p.desiredMinTx == 0)
            || (p.demand && p.state == Up && (s.state == Init || s.state == Up) && !StillPolls(s, p))
  {
    RxHeard(s, p, now, wrote);
    RxLinks(s, p, now, wrote);
    if p.state == Up && (s.state == Init || s.state == Up) {
      RxPolls(s, p, now, wrote);
    }
  }

  lemma RxLinks(s: Session, p: Packet, now: int, wrote: bool)
    requires Accepts(s, p) && s.state != AdminDown
    ensures Rx(s, p, now, wrote).session.link.clientDown == LeavesDown(s, p, wrote)
  {
    ReactedReacts(Learn(s, p), p.state);
  }

  lemma RxPolls(s: Session, p: Packet, now: int, wrote: bool)
    requires Accepts(s, p) && p.state == Up && (s.state == Init || s.state == Up)
    ensures Rx(s, p, now, wrote).session.timers.poll == StillPolls(s, p)
  {
    LearnedKeeps(s.timers, p);
  }

  /** A new session goes on sending to a peer that has asked for silence. */
  lemma SilenceUnheeded(rxInterval: int, txInterval: int, detectMult: int, localDiscr: nat)
    ensures var s := NewSession(rxInterval, txInterval, detectMult, localDiscr, false);
            var p := Packet(false, NoDiagnostic, Down, false, false, false, 3, 1, 0, 1_000_000, 0);
            |Pass(Rx(s, p, 0, true).session, true).sent| == 1
  {
    var s := NewSession(rxInterval, txInterval, detectMult, localDiscr, false);
    var p := Packet(false, NoDiagnostic, Down, false, false, false, 3, 1, 0, 1_000_000, 0);
    SilentExactly(s, p, 0, true);
  }

  /** What the send guard reads is what the packet said. */
  lemma RxHeard(s: Session, p: Packet, now: int, wrote: bool)
    requires Accepts(s, p) && s.state != AdminDown && s.timers.remoteMinTx == 0
    ensures var t := Rx(s, p, now, wrote).session;
            && t.cfg == s.cfg && t.remoteDiscr == p.myDiscr
            && t.remoteDemand == p.demand && t.remoteState == p.state
            && t.state == Prescribed(s.state, p.state)
            && t.timers.remoteMinRx == if p.desiredMinTx != 0 then p.desiredMinTx else p.requiredMinRx
  {
    LearnedInterval(s.timers, p);
    ReactedHeard(Learn(s, p), p.state);
    RxStates(s, p, now, wrote);
  }

  lemma LearnedInterval(t: Timers, p: Packet)
    requires t.remoteMinTx == 0
    ensures Learned(t, p).remoteMinRx == if p.desiredMinTx != 0 then p.desiredMinTx else p.requiredMinRx
  {
  }

  lemma ReactedHeard(s: Session, received: BfdState)
    ensures var t := Reacted(s, received).0;
            && t.cfg == s.cfg && t.remoteDiscr == s.remoteDiscr && t.timers.remoteMinRx == s.timers.remoteMinRx
            && t.remoteDemand == s.remoteDemand && t.remoteState == s.remoteState
  {
  }
}
