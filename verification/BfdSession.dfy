/** A BFD session (pkg/bfd/session.go): what an accepted packet, one pass of the send loop and one
    tick of the failure detector do to its state variables, and the object that does so. */
module BfdSession {

  /** Width of the interval arithmetic. */
  const WRAP: nat := 0x1_0000_0000

  /** `DesiredMinTXInterval`, in microseconds. */
  const SLOW_TX: nat := 1_000_000

  datatype BfdState = AdminDown | Down | Init | Up

  datatype Diagnostic = NoDiagnostic | TimeExpired | NeighborSignaledDown

  datatype Packet = Packet(
    authPresent: bool, diag: Diagnostic, state: BfdState, poll: bool, final: bool, demand: bool,
    detectMult: nat, myDiscr: nat, yourDiscr: nat, desiredMinTx: nat, requiredMinRx: nat)

  /** Fixed when the session is made; `txInterval` as it is cut to 32 bits wherever it is used. */
  datatype Settings = Settings(txInterval: nat, detectMult: nat, localDiscr: nat, passive: bool, authType: bool)

  datatype Timers = Timers(
    desiredMinTx: nat, requiredMinRx: nat, remoteMinRx: nat, asyncTx: nat, finalAsyncTx: nat,
    asyncDetect: nat, finalAsyncDetect: nat, remoteDetectMult: nat, remoteMinTx: nat, poll: bool)

  /** `clientDown`: the channel of that name is closed; `detectorDone`: the detector goroutine has
      returned; `doneCloses`: how often the channel to the main function has been closed. */
  datatype Link = Link(clientDown: bool, detectorDone: bool, doneCloses: nat)

  /** The fields of `Session`. */
  datatype Session = Session(
    cfg: Settings, state: BfdState, remoteState: BfdState, remoteDiscr: nat, remoteDemand: bool,
    diag: Diagnostic, lastRx: int, timers: Timers, link: Link)

  /** A configured interval in the 32 bits of the state variables; a negative one wraps around. */
  function Cut(interval: int): nat {
    interval % WRAP
  }

  /** `NewSession`: the two setter calls at its end find the values already in place. */
  function NewSession(rxInterval: int, txInterval: int, detectMult: int, localDiscr: nat, passive: bool): Session {
    Session(
      Settings(Cut(txInterval), if detectMult <= 0 then 3 else detectMult % 256, localDiscr, passive, false),
      Down, Down, 0, false, NoDiagnostic, 0,
      Timers(SLOW_TX, Cut(rxInterval), 1, SLOW_TX, 0, 0, 0, 0, 0, false),
      Link(false, false, 0))
  }

  // ---- Interval setters -------------------------------------------------------------------

  function Max(a: nat, b: nat): nat {
    if a > b then a else b
  }

  function CalcDetectTime(detectMult: nat, rx: nat, tx: nat): nat {
    if detectMult == 0 && rx == 0 && tx == 0 then 0 else (detectMult * Max(rx, tx)) % WRAP
  }

  /** `setRemoteMinRxInterval`, apart from closing the connection. */
  function WithRemoteMinRx(t: Timers, v: nat): Timers {
    if v == t.remoteMinRx then t else t.(asyncTx := Max(v, t.desiredMinTx), remoteMinRx := v)
  }

  /** A shorter send interval closes the connection. */
  predicate Restarts(t: Timers, v: nat) {
    v != t.remoteMinRx && Max(v, t.desiredMinTx) < t.asyncTx
  }

  /** The third argument of the calculation is the old multiplier, as in the source. */
  function WithRemoteDetectMult(t: Timers, v: nat): Timers {
    if v == t.remoteDetectMult then t
    else t.(asyncDetect := CalcDetectTime(v, t.requiredMinRx, t.remoteDetectMult), remoteDetectMult := v)
  }

  /** The source stores the value as the remote RX interval; `remoteMinTx` is never set. */
  function WithRemoteMinTx(t: Timers, v: nat): Timers {
    if v == t.remoteMinTx then t
    else t.(asyncDetect := CalcDetectTime(t.remoteDetectMult, t.requiredMinRx, v), remoteMinRx := v)
  }

  /** The source puts the longer TX interval into the pending detection time. */
  function WithDesiredMinTx(t: Timers, up: bool, v: nat): Timers {
    if v == t.desiredMinTx then t
    else if v > t.desiredMinTx && up then
      t.(finalAsyncDetect := Max(v, t.remoteMinRx), desiredMinTx := v, poll := true)
    else t.(asyncTx := v, desiredMinTx := v, poll := true)
  }

  function WithRequiredMinRx(t: Timers, up: bool, v: nat): Timers {
    if v == t.requiredMinRx then t
    else
      var detect := CalcDetectTime(t.remoteDetectMult, v, t.remoteMinRx);
      if v < t.requiredMinRx && up
      then t.(finalAsyncDetect := detect, requiredMinRx := v, poll := true)
      else t.(asyncDetect := detect, requiredMinRx := v, poll := true)
  }

  // ---- Receiving --------------------------------------------------------------------------

  datatype Cause = ByPacket(received: BfdState) | ByTimeout

  /** One issued state callback. */
  datatype Move = Move(from: BfdState, to: BfdState, cause: Cause)

  datatype Result = Result(session: Session, sent: seq<Packet>, moves: seq<Move>)

  predicate Accepts(s: Session, p: Packet) {
    p.authPresent == s.cfg.authType
  }

  /** The three setters, in the order of the source. */
  function Learned(t: Timers, p: Packet): Timers {
    WithRemoteMinTx(WithRemoteDetectMult(WithRemoteMinRx(t, p.requiredMinRx), p.detectMult), p.desiredMinTx)
  }

  /** What is taken over from an accepted packet before the state machine runs. */
  function Learn(s: Session, p: Packet): Session {
    s.(remoteDiscr := p.myDiscr, remoteState := p.state, remoteDemand := p.demand,
       timers := Learned(s.timers, p),
       link := if Restarts(s.timers, p.requiredMinRx) then s.link.(clientDown := true) else s.link)
  }

  lemma LearnedKeeps(t: Timers, p: Packet)
    ensures var u := Learned(t, p);
            && u.desiredMinTx == t.desiredMinTx && u.requiredMinRx == t.requiredMinRx
            && u.finalAsyncTx == t.finalAsyncTx && u.finalAsyncDetect == t.finalAsyncDetect
            && u.remoteMinTx == t.remoteMinTx && u.poll == t.poll
  {
  }

  /** Going Up asks for the configured TX interval. */
  function Raised(s: Session): Session {
    s.(state := Up, timers := WithDesiredMinTx(s.timers, true, s.cfg.txInterval))
  }

  /** The state machine; the callback is issued with the state it leaves. */
  function Reacted(s: Session, received: BfdState): (Session, seq<Move>) {
    if received == AdminDown then
      if s.state != Down
      then (s.(diag := NeighborSignaledDown, state := Down, timers := s.timers.(desiredMinTx := SLOW_TX)),
            [Move(s.state, Down, ByPacket(received))])
      else (s, [])
    else if s.state == Down then
      if received == Down then (s.(state := Init), [Move(Down, Init, ByPacket(received))])
      else if received == Init then (Raised(s), [Move(Down, Up, ByPacket(received))])
      else (s, [])
    else if s.state == Init then
      if received == Init || received == Up then (Raised(s), [Move(Init, Up, ByPacket(received))])
      else (s, [])
    else if received == Down
    then (s.(diag := NeighborSignaledDown, state := Down), [Move(s.state, Down, ByPacket(received))])
    else (s, [])
  }

  /** What the state machine does not touch; it may start a poll sequence but not end one. */
  ghost predicate Reacts(s: Session, t: Session) {
    && t.cfg == s.cfg && t.link == s.link && t.remoteDiscr == s.remoteDiscr
    && t.timers.asyncDetect == s.timers.asyncDetect && t.timers.requiredMinRx == s.timers.requiredMinRx
    && t.timers.remoteMinTx == s.timers.remoteMinTx && t.timers.finalAsyncTx == s.timers.finalAsyncTx
    && (s.timers.poll ==> t.timers.poll)
  }

  lemma ReactedReacts(s: Session, received: BfdState)
    ensures Reacts(s, Reacted(s, received).0)
  {
  }

  /** `TxPacket`. */
  function Compose(s: Session, final: bool): Packet {
    Packet(s.cfg.authType, s.diag, s.state, !final && s.timers.poll, final, false,
           s.cfg.detectMult, s.cfg.localDiscr, s.remoteDiscr, s.timers.desiredMinTx, s.timers.requiredMinRx)
  }

  /** A Final ends the poll sequence and makes pending values current. */
  function EndPoll(t: Timers): Timers {
    t.(poll := false,
       asyncTx := if t.finalAsyncTx > 0 then t.finalAsyncTx else t.asyncTx, finalAsyncTx := 0,
       asyncDetect := if t.finalAsyncDetect > 0 then t.finalAsyncDetect else t.asyncDetect, finalAsyncDetect := 0)
  }

  function AfterReply(s: Session, p: Packet, wrote: bool): Session {
    if p.poll && !wrote then s.(link := s.link.(clientDown := true)) else s
  }

  function AfterFinal(s: Session, p: Packet): Session {
    if p.final then s.(timers := EndPoll(s.timers)) else s
  }

  /** What leaves: a closed connection takes nothing. */
  function Reply(s: Session, p: Packet, wrote: bool): seq<Packet> {
    if p.poll && wrote && !s.link.clientDown then [Compose(s, true)] else []
  }

  /** `RxPacket`; `wrote` tells whether an open connection takes the reply, if there is one. */
  function Rx(s: Session, p: Packet, now: int, wrote: bool): Result {
    if !Accepts(s, p) then Result(s, [], [])
    else
      var learned := Learn(s, p);
      if s.state == AdminDown then Result(learned, [], [])
      else
        var (reacted, moves) := Reacted(learned, p.state);
        Result(AfterFinal(AfterReply(reacted, p, wrote), p).(lastRx := now), Reply(reacted, p, wrote), moves)
  }

  // ---- Sending and detecting --------------------------------------------------------------

  /** The guard of the send loop. */
  predicate MaySend(s: Session) {
    !((s.remoteDiscr == 0 && s.cfg.passive)
      || s.timers.remoteMinRx == 0
      || (!s.timers.poll && s.remoteDemand && s.state == Up && s.remoteState == Up))
  }

  /** One pass of the send loop: reconnect if the connection was closed, else maybe send;
      `ok` tells whether the connection or the write succeeded, and a packet leaves only if it did. */
  function Pass(s: Session, ok: bool): Result {
    var after := s.(link := s.link.(clientDown := !ok));
    if s.link.clientDown then Result(after, [], [])
    else if MaySend(s) then Result(after, if ok then [Compose(s, false)] else [], [])
    else Result(s, [], [])
  }

  predicate Expired(s: Session, now: int) {
    s.timers.asyncDetect != 0 && s.state == Up && now - s.lastRx > s.timers.asyncDetect / 1000
  }

  /** One round of `DetectFailure`, which returns for good when it finds the connection closed. */
  function Tick(s: Session, now: int): Result {
    if s.link.detectorDone then Result(s, [], [])
    else if s.link.clientDown then Result(s.(link := s.link.(detectorDone := true)), [], [])
    else if Expired(s, now) then
      Result(s.(state := Down, diag := TimeExpired, timers := WithDesiredMinTx(s.timers, false, SLOW_TX),
                link := s.link.(doneCloses := s.link.doneCloses + 1)),
             [], [Move(Up, Down, ByTimeout)])
    else Result(s, [], [])
  }

  // ---- Runs -------------------------------------------------------------------------------

  datatype Event =
    | Receive(packet: Packet, now: int, wrote: bool)
    | Sending(ok: bool)
    | Detecting(at: int)

  function Step(s: Session, e: Event): Result {
    match e
    case Receive(p, now, wrote) => Rx(s, p, now, wrote)
    case Sending(ok) => Pass(s, ok)
    case Detecting(at) => Tick(s, at)
  }

  function Run(s: Session, es: seq<Event>): Result {
    if es == [] then Result(s, [], [])
    else
      var before := Run(s, es[..|es|-1]);
      var last := Step(before.session, es[|es|-1]);
      Result(last.session, before.sent + last.sent, before.moves + last.moves)
  }

  // ---- The object -------------------------------------------------------------------------

  class BfdEndpoint {
    const txInterval: int
    const detectMult: nat
    const localDiscr: nat
    const passive: bool
    const authType: bool
    var state: BfdState
    var remoteState: BfdState
    var remoteDiscr: nat
    var diag: Diagnostic
    var desiredMinTx: nat
    var requiredMinRx: nat
    var remoteMinRx: nat
    var remoteDemand: bool
    var asyncTx: nat
    var finalAsyncTx: nat
    var lastRx: int
    var asyncDetect: nat
    var finalAsyncDetect: nat
    var poll: bool
    var remoteDetectMult: nat
    var remoteMinTx: nat
    var clientDown: bool
    var detectorDone: bool
    var doneCloses: nat

    function Value(): Session
      reads this
    {
      Session(Settings(Cut(txInterval), detectMult, localDiscr, passive, authType),
              state, remoteState, remoteDiscr, remoteDemand, diag, lastRx, Clock(),
              Link(clientDown, detectorDone, doneCloses))
    }

    function Clock(): Timers
      reads this
    {
      Timers(desiredMinTx, requiredMinRx, remoteMinRx, asyncTx, finalAsyncTx,
             asyncDetect, finalAsyncDetect, remoteDetectMult, remoteMinTx, poll)
    }

    constructor (rxInterval: int, txInterval: int, detectMult: int, localDiscr: nat, passive: bool)
      ensures Value() == NewSession(rxInterval, txInterval, detectMult, localDiscr, passive)
    {
      this.txInterval, this.localDiscr, this.passive, this.authType := txInterval, localDiscr, passive, false;
      this.detectMult := if detectMult <= 0 then 3 else detectMult % 256;
      state, remoteState, remoteDiscr, diag := Down, Down, 0, NoDiagnostic;
      desiredMinTx, requiredMinRx, remoteMinRx, remoteDemand := SLOW_TX, Cut(rxInterval), 1, false;
      asyncTx, finalAsyncTx, lastRx, asyncDetect, finalAsyncDetect := SLOW_TX, 0, 0, 0, 0;
      poll, remoteDetectMult, remoteMinTx := false, 0, 0;
      clientDown, detectorDone, doneCloses := false, false, 0;
      new;
      SetDesiredMinTx(SLOW_TX);
      SetRequiredMinRx(Cut(rxInterval));
    }

    method SetDesiredMinTx(v: nat)
      modifies this`desiredMinTx, this`asyncTx, this`finalAsyncDetect, this`poll
      ensures Clock() == WithDesiredMinTx(old(Clock()), state == Up, v)
    {
      if v == desiredMinTx {
        return;
      }
      var txTime := if v > remoteMinRx then v else remoteMinRx;
      if v > desiredMinTx && state == Up {
        finalAsyncDetect := txTime;
      } else {
        asyncTx := v;
      }
      desiredMinTx := v;
      poll := true;
    }

    method SetRequiredMinRx(v: nat)
      modifies this`requiredMinRx, this`asyncDetect, this`finalAsyncDetect, this`poll
      ensures Clock() == WithRequiredMinRx(old(Clock()), state == Up, v)
    {
      if v == requiredMinRx {
        return;
      }
      var detectTime := CalcDetectTime(remoteDetectMult, v, remoteMinRx);
      if v < requiredMinRx && state == Up {
        finalAsyncDetect := detectTime;
      } else {
        asyncDetect := detectTime;
      }
      requiredMinRx := v;
      poll := true;
    }

    method SetRemoteMinRx(v: nat)
      modifies this`asyncTx, this`remoteMinRx, this`clientDown
      ensures Clock() == WithRemoteMinRx(old(Clock()), v)
      ensures clientDown == (old(clientDown) || Restarts(old(Clock()), v))
    {
      if v == remoteMinRx {
        return;
      }
      var was := asyncTx;
      asyncTx := if v > desiredMinTx then v else desiredMinTx;
      if asyncTx < was {
        clientDown := true;
      }
      remoteMinRx := v;
    }

    method SetRemoteDetectMult(v: nat)
      modifies this`asyncDetect, this`remoteDetectMult
      ensures Clock() == WithRemoteDetectMult(old(Clock()), v)
    {
      if v == remoteDetectMult {
        return;
      }
      asyncDetect := CalcDetectTime(v, requiredMinRx, remoteDetectMult);
      remoteDetectMult := v;
    }

    method SetRemoteMinTx(v: nat)
      modifies this`asyncDetect, this`remoteMinRx
      ensures Clock() == WithRemoteMinTx(old(Clock()), v)
    {
      if v == remoteMinTx {
        return;
      }
      asyncDetect := CalcDetectTime(remoteDetectMult, requiredMinRx, v);
      remoteMinRx := v;
    }

    method React(received: BfdState) returns (moves: seq<Move>)
      modifies this
      ensures (Value(), moves) == Reacted(old(Value()), received)
    {
      moves := [];
      if received == AdminDown {
        if state != Down {
          diag := NeighborSignaledDown;
          moves := [Move(state, Down, ByPacket(received))];
          state := Down;
          desiredMinTx := SLOW_TX;
        }
      } else if state == Down {
        if received == Down {
          moves := [Move(Down, Init, ByPacket(received))];
          state := Init;
        } else if received == Init {
          moves := [Move(Down, Up, ByPacket(received))];
          state := Up;
          SetDesiredMinTx(Cut(txInterval));
        }
      } else if state == Init {
        if received == Init || received == Up {
          moves := [Move(Init, Up, ByPacket(received))];
          state := Up;
          SetDesiredMinTx(Cut(txInterval));
        }
      } else if received == Down {
        diag := NeighborSignaledDown;
        moves := [Move(state, Down, ByPacket(received))];
        state := Down;
      }
    }

    method LearnIntervals(p: Packet)
      modifies this`asyncTx, this`remoteMinRx, this`asyncDetect, this`remoteDetectMult, this`clientDown
      ensures Clock() == Learned(old(Clock()), p)
      ensures clientDown == (old(clientDown) || Restarts(old(Clock()), p.requiredMinRx))
    {
      SetRemoteMinRx(p.requiredMinRx);
      SetRemoteDetectMult(p.detectMult);
      SetRemoteMinTx(p.desiredMinTx);
    }

    method LearnFrom(p: Packet)
      modifies this
      ensures Value() == Learn(old(Value()), p)
    {
      LearnIntervals(p);
      remoteDiscr, remoteState, remoteDemand := p.myDiscr, p.state, p.demand;
    }

    /** A write to a connection that is closed, perhaps by this very packet, fails. */
    method AnswerPoll(p: Packet, wrote: bool) returns (sent: seq<Packet>)
      modifies this`clientDown
      ensures Value() == AfterReply(old(Value()), p, wrote) && sent == Reply(old(Value()), p, wrote)
    {
      sent := [];
      if p.poll {
        if wrote && !clientDown {
          sent := [Compose(Value(), true)];
        } else {
          clientDown := true;
        }
      }
    }

    method FinishPoll(p: Packet)
      modifies this`poll, this`asyncTx, this`finalAsyncTx, this`asyncDetect, this`finalAsyncDetect
      ensures Value() == AfterFinal(old(Value()), p)
    {
      if p.final {
        poll := false;
        if finalAsyncTx > 0 {
          asyncTx, finalAsyncTx := finalAsyncTx, 0;
        }
        if finalAsyncDetect > 0 {
          asyncDetect, finalAsyncDetect := finalAsyncDetect, 0;
        }
      }
    }

    method RxPacket(p: Packet, now: int, wrote: bool) returns (sent: seq<Packet>, moves: seq<Move>)
      modifies this
      ensures Result(Value(), sent, moves) == Rx(old(Value()), p, now, wrote)
    {
      if p.authPresent != authType {
        return [], [];
      }
      LearnFrom(p);
      if state == AdminDown {
        return [], [];
      }
      moves := React(p.state);
      sent := AnswerPoll(p, wrote);
      FinishPoll(p);
      lastRx := now;
    }

    method SendPass(ok: bool) returns (sent: seq<Packet>)
      modifies this`clientDown
      ensures Result(Value(), sent, []) == Pass(old(Value()), ok)
    {
      sent := [];
      if clientDown {
        clientDown := !ok;
      } else if MaySend(Value()) {
        if ok {
          sent := [Compose(Value(), false)];
        }
        clientDown := !ok;
      }
    }

    method DetectFailure(now: int) returns (moves: seq<Move>)
      modifies this
      ensures Result(Value(), [], moves) == Tick(old(Value()), now)
    {
      moves := [];
      if detectorDone {
        return;
      }
      if clientDown {
        detectorDone := true;
        return;
      }
      if asyncDetect != 0 && state == Up && now - lastRx > asyncDetect / 1000 {
        moves := [Move(state, Down, ByTimeout)];
        state, diag := Down, TimeExpired;
        SetDesiredMinTx(SLOW_TX);
        doneCloses := doneCloses + 1;
      }
    }
  }
}
