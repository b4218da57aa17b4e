/** The state machine of a session over whole runs: only edges of the diagram in section 6.2 of
    RFC 5880, a connected chain of callbacks, and a diagnostic that names the latest drop. */
module BfdStates {
  import opened BfdSession

  /** The arrows of the diagram that leave a state, labelled by what is received or TIMER.
      The diagram also has TIMER from Init, which the detector does not implement. */
  predicate Edge(m: Move) {
    match m.cause
    case ByTimeout => m.from == Up && m.to == Down
    case ByPacket(received) =>
      match received
      case AdminDown => (m.from == Init || m.from == Up) && m.to == Down
      case Down => (m.from == Down && m.to == Init) || (m.from == Up && m.to == Down)
      case Init => (m.from == Down || m.from == Init) && m.to == Up
      case Up => m.from == Init && m.to == Up
  }

  /** Section 6.8.6: the state after a packet with the given state. */
  function Prescribed(state: BfdState, received: BfdState): BfdState {
    if state == AdminDown then AdminDown
    else if received == AdminDown then Down
    else match state
      case Down => if received == Down then Init else if received == Init then Up else Down
      case Init => if received == Init || received == Up then Up else Init
      case Up => if received == Down then Down else Up
  }

  /** Callbacks link up from one state to another. */
  ghost predicate Chain(from: BfdState, moves: seq<Move>, to: BfdState) {
    if moves == [] then from == to
    else moves[|moves|-1].to == to && Chain(from, moves[..|moves|-1], moves[|moves|-1].from)
  }

  /** What the diagnostic should say: the cause of the latest move to Down. */
  function Named(moves: seq<Move>): Diagnostic {
    if moves == [] then NoDiagnostic
    else
      var last := moves[|moves|-1];
      if last.to != Down then Named(moves[..|moves|-1])
      else if last.cause.ByTimeout? then TimeExpired
      else NeighborSignaledDown
  }

  // ---- One step ---------------------------------------------------------------------------

  lemma ReactedStates(s: Session, received: BfdState)
    requires s.state != AdminDown
    ensures var (t, moves) := Reacted(s, received);
            && t.state == Prescribed(s.state, received)
            && |moves| <= 1 && (moves == [] <==> t.state == s.state)
            && (moves != [] ==> moves[0] == Move(s.state, t.state, ByPacket(received)) && Edge(moves[0]))
            && t.diag == if moves != [] && t.state == Down then NeighborSignaledDown else s.diag
  {
  }

  /** An accepted packet moves the session as section 6.8.6 prescribes, and there is a callback
      exactly when the state changes. */
  lemma RxStates(s: Session, p: Packet, now: int, wrote: bool)
    requires s.state != AdminDown && Accepts(s, p)
    ensures var r := Rx(s, p, now, wrote);
            && r.session.state == Prescribed(s.state, p.state)
            && |r.moves| <= 1 && (r.moves == [] <==> r.session.state == s.state)
            && (r.moves != [] ==> r.moves[0] == Move(s.state, r.session.state, ByPacket(p.state)) && Edge(r.moves[0]))
            && r.session.diag == if r.moves != [] && r.session.state == Down then NeighborSignaledDown else s.diag
  {
    ReactedStates(Learn(s, p), p.state);
  }

  ghost predicate MovesFit(s: Session, r: Result) {
    && r.session.state != AdminDown
    && |r.moves| <= 1
    && (r.moves == [] ==> r.session.state == s.state && r.session.diag == s.diag)
    && (r.moves != [] ==>
          && r.moves[0].from == s.state && r.moves[0].to == r.session.state && Edge(r.moves[0])
          && r.session.diag ==
             if r.session.state != Down then s.diag
             else if r.moves[0].cause.ByTimeout? then TimeExpired else NeighborSignaledDown)
  }

  lemma StepFits(s: Session, e: Event)
    requires s.state != AdminDown
    ensures MovesFit(s, Step(s, e))
  {
    if e.Receive? && Accepts(s, e.packet) {
      RxStates(s, e.packet, e.now, e.wrote);
    }
  }

  // ---- Whole runs -------------------------------------------------------------------------

  lemma ChainSnoc(from: BfdState, moves: seq<Move>, m: Move)
    requires Chain(from, moves, m.from)
    ensures Chain(from, moves + [m], m.to)
    ensures Named(moves + [m]) ==
            if m.to != Down then Named(moves) else if m.cause.ByTimeout? then TimeExpired else NeighborSignaledDown
  {
    assert (moves + [m])[..|moves|] == moves;
  }

  lemma RunUnfolds(s: Session, es: seq<Event>)
    requires es != []
    ensures var before := Run(s, es[..|es|-1]);
            var last := Step(before.session, es[|es|-1]);
            && Run(s, es).session == last.session
            && Run(s, es).moves == before.moves + last.moves
            && Run(s, es).sent == before.sent + last.sent
  {
  }

  /** In every run of a fresh session: the state is Down, Init or Up; every callback is an edge of
      the diagram; the callbacks form a chain from Down to the current state; and the diagnostic
      is the cause of the latest drop, none if there was no drop. */
  lemma {:induction false} RunStates(s: Session, es: seq<Event>)
    requires s.state == Down && s.diag == NoDiagnostic
    ensures var r := Run(s, es);
            && r.session.state in {Down, Init, Up}
            && (forall i :: 0 <= i < |r.moves| ==> Edge(r.moves[i]))
            && Chain(Down, r.moves, r.session.state)
            && r.session.diag == Named(r.moves)
  {
    if es != [] {
      RunStates(s, es[..|es|-1]);
      RunUnfolds(s, es);
      var before := Run(s, es[..|es|-1]);
      var last := Step(before.session, es[|es|-1]);
      StepFits(before.session, es[|es|-1]);
      if last.moves != [] {
        assert last.moves == [last.moves[0]];
        ChainSnoc(Down, before.moves, last.moves[0]);
      } else {
        assert before.moves + last.moves == before.moves;
      }
    }
  }

  /** A session that is not Up is never timed out: Init has no timer. */
  lemma OnlyUpTimesOut(s: Session, now: int)
    ensures Tick(s, now).moves != [] ==> s.state == Up
    ensures s.state == Init ==> Tick(s, now).session.state == Init
  {
  }

  /** No accepted packet has a state that leads out of Init. */
  ghost predicate NothingMoves(es: seq<Event>, auth: bool) {
    forall i :: 0 <= i < |es| && es[i].Receive? && es[i].packet.authPresent == auth ==> es[i].packet.state == Down
  }

  /** In Init after every event. */
  ghost predicate StaysInit(s: Session, es: seq<Event>) {
    && Run(s, es).session.state == Init
    && (es != [] ==> StaysInit(s, es[..|es|-1]))
  }

  /** A session in Init waits there for ever, however long it hears nothing: it stays in Init exactly as
      long as no accepted packet has another state than Down. The diagram has TIMER lead to Down. */
  lemma {:induction false} InitStaysExactly(s: Session, es: seq<Event>)
    requires s.state == Init
    ensures Run(s, es).session.cfg == s.cfg
    ensures StaysInit(s, es) <==> NothingMoves(es, s.cfg.authType)
  {
    if es != [] {
      var n := |es| - 1;
      var before := Run(s, es[..n]).session;
      InitStaysExactly(s, es[..n]);
      RunUnfolds(s, es);
      StepKeepsSettings(before, es[n]);
      assert es == es[..n] + [es[n]];
      if before.state == Init && es[n].Receive? && Accepts(before, es[n].packet) {
        RxStates(before, es[n].packet, es[n].now, es[n].wrote);
      }
    }
  }

  lemma StepKeepsSettings(s: Session, e: Event)
    ensures Step(s, e).session.cfg == s.cfg
  {
    if e.Receive? && Accepts(s, e.packet) {
      ReactedReacts(Learn(s, e.packet), e.packet.state);
    }
  }
}
