/** Two live sessions with prompt delivery and no timeouts: which schedules of deliveries bring them
    Up together, from each pair of states and from all of them, and what stale discriminators do. */
module BfdConvergence {
  import opened BfdSession
  import opened BfdStates
  import opened BfdTimers
  import opened BfdHandshake

  datatype Direction = ToA | ToB

  // ---- The states alone -------------------------------------------------------------------

  function Arrive(x: BfdState, y: BfdState, d: Direction): (BfdState, BfdState) {
    match d
    case ToA => (Prescribed(x, y), y)
    case ToB => (x, Prescribed(y, x))
  }

  function ArriveAll(x: BfdState, y: BfdState, ds: seq<Direction>): (BfdState, BfdState)
    decreases |ds|
  {
    if ds == [] then (x, y)
    else
      var (p, q) := Arrive(x, y, ds[0]);
      ArriveAll(p, q, ds[1..])
  }

  /** How far a pair is from Up/Up. */
  function Rank(x: BfdState, y: BfdState): nat {
    if x == Up && y == Up then 0
    else if (x == Up && y == Down) || (x == Down && y == Up) then 4
    else if x == Down && y == Down then 3
    else if x == Up || y == Up then 1
    else 2
  }

  /** Every delivery changes nothing or lowers the rank; some direction lowers it. */
  lemma ArriveLowers(x: BfdState, y: BfdState, d: Direction)
    requires x != AdminDown && y != AdminDown
    ensures var (p, q) := Arrive(x, y, d);
            && p != AdminDown && q != AdminDown
            && ((p, q) == (x, y) || Rank(p, q) < Rank(x, y))
    ensures Rank(x, y) > 0 ==> exists e :: Rank(Arrive(x, y, e).0, Arrive(x, y, e).1) < Rank(x, y)
  {
    if Rank(x, y) > 0 {
      assert Rank(Arrive(x, y, ToA).0, Arrive(x, y, ToA).1) < Rank(x, y)
          || Rank(Arrive(x, y, ToB).0, Arrive(x, y, ToB).1) < Rank(x, y);
    }
  }

  // ---- Schedules --------------------------------------------------------------------------

  function Other(d: Direction): Direction {
    if d == ToA then ToB else ToA
  }

  /** How often a schedule changes direction. */
  function Turns(ds: seq<Direction>): nat
    decreases |ds|
  {
    if |ds| < 2 then 0 else (if ds[0] == ds[1] then 0 else 1) + Turns(ds[1..])
  }

  /** What follows the first delivery in direction `d`; nothing if there is none. */
  function After(ds: seq<Direction>, d: Direction): seq<Direction>
    decreases |ds|
  {
    if ds == [] then [] else if ds[0] == d then ds[1..] else After(ds[1..], d)
  }

  lemma {:induction false} OneTurn(ds: seq<Direction>)
    ensures Turns(ds) >= 1 <==> ToA in ds && ToB in ds
    decreases |ds|
  {
    if |ds| >= 2 {
      OneTurn(ds[1..]);
      assert ds == [ds[0]] + ds[1..];
    }
  }

  lemma {:induction false} TwoTurns(ds: seq<Direction>)
    requires ds != []
    ensures Turns(ds) >= 2 <==> ds[0] in After(ds, Other(ds[0]))
    decreases |ds|
  {
    if |ds| >= 2 {
      if ds[0] == ds[1] {
        TwoTurns(ds[1..]);
      } else {
        OneTurn(ds[1..]);
        assert ds[1..] == [ds[1]] + ds[2..];
        assert After(ds, ds[1]) == ds[2..];
      }
    }
  }

  /** From each pair of states, the schedules that bring both ends Up. */
  ghost predicate Suffices(x: BfdState, y: BfdState, ds: seq<Direction>) {
    match (x, y)
    case (Up, Up) => true
    case (Init, Up) => ToA in ds
    case (Up, Init) => ToB in ds
    case (Init, Init) => ToA in ds && ToB in ds
    case (Init, Down) => ToA in After(ds, ToB)
    case (Down, Init) => ToB in After(ds, ToA)
    case (Down, Down) => Turns(ds) >= 2
    case (Up, Down) => Turns(After(ds, ToA)) >= 2
    case (Down, Up) => Turns(After(ds, ToB)) >= 2
    case _ => false
  }

  /** One delivery turns the condition into that of the next pair of states. */
  lemma SufficesStep(x: BfdState, y: BfdState, ds: seq<Direction>)
    requires x != AdminDown && y != AdminDown && ds != []
    ensures var (p, q) := Arrive(x, y, ds[0]); Suffices(p, q, ds[1..]) <==> Suffices(x, y, ds)
  {
    assert ds == [ds[0]] + ds[1..];
    TwoTurns(ds);
    OneTurn(ds);
  }

  /** The schedules that bring both ends Up are exactly these. */
  lemma {:induction false} ArrivesExactly(x: BfdState, y: BfdState, ds: seq<Direction>)
    requires x != AdminDown && y != AdminDown
    ensures ArriveAll(x, y, ds) == (Up, Up) <==> Suffices(x, y, ds)
    decreases |ds|
  {
    if ds != [] {
      SufficesStep(x, y, ds);
      ArriveLowers(x, y, ds[0]);
      var (p, q) := Arrive(x, y, ds[0]);
      ArrivesExactly(p, q, ds[1..]);
    }
  }

  // ---- From everywhere --------------------------------------------------------------------

  /** Two turns are left after the first delivery each way. */
  predicate Mixed(ds: seq<Direction>) {
    Turns(After(ds, ToA)) >= 2 && Turns(After(ds, ToB)) >= 2
  }

  lemma {:induction false} AfterTurns(ds: seq<Direction>, d: Direction)
    ensures Turns(After(ds, d)) <= Turns(ds)
    ensures forall e :: e in After(ds, d) ==> e in ds
    ensures After(ds, d) != [] ==> d in ds
    decreases |ds|
  {
    if ds != [] && ds[0] != d {
      AfterTurns(ds[1..], d);
    }
  }

  /** A schedule brings both ends Up from all pairs of states exactly when it is mixed. */
  lemma FromEverywhere(ds: seq<Direction>)
    ensures (forall x, y :: x != AdminDown && y != AdminDown ==> ArriveAll(x, y, ds) == (Up, Up)) <==> Mixed(ds)
  {
    if Mixed(ds) {
      AfterTurns(ds, ToA);
      AfterTurns(ds, ToB);
      OneTurn(ds);
      OneTurn(After(ds, ToA));
      OneTurn(After(ds, ToB));
      forall x, y | x != AdminDown && y != AdminDown
        ensures ArriveAll(x, y, ds) == (Up, Up)
      {
        ArrivesExactly(x, y, ds);
      }
    } else {
      ArrivesExactly(Up, Down, ds);
      ArrivesExactly(Down, Up, ds);
    }
  }

  /** A round: a stretch of deliveries in which both directions occur. */
  ghost predicate Round(ds: seq<Direction>) {
    ToA in ds && ToB in ds
  }

  function Flat(rounds: seq<seq<Direction>>): seq<Direction> {
    if rounds == [] then [] else rounds[0] + Flat(rounds[1..])
  }

  lemma {:induction false} TurnsConcat(a: seq<Direction>, b: seq<Direction>)
    ensures Turns(a + b) >= Turns(a) + Turns(b)
    decreases |a|
  {
    if a == [] {
      assert a + b == b;
    } else {
      TurnsConcat(a[1..], b);
      assert (a + b)[1..] == a[1..] + b;
    }
  }

  lemma {:induction false} AfterConcat(a: seq<Direction>, b: seq<Direction>, d: Direction)
    requires d in a
    ensures After(a + b, d) == After(a, d) + b
    decreases |a|
  {
    assert (a + b)[1..] == a[1..] + b;
    if a[0] != d {
      AfterConcat(a[1..], b, d);
    }
  }

  /** Three rounds are mixed, whatever they consist of and whatever follows. */
  lemma ThreeRoundsMix(a: seq<Direction>, b: seq<Direction>, c: seq<Direction>, rest: seq<Direction>)
    requires Round(a) && Round(b) && Round(c)
    ensures Mixed(a + (b + (c + rest)))
  {
    OneTurn(b);
    OneTurn(c);
    TurnsConcat(c, rest);
    TurnsConcat(b, c + rest);
    var later := b + (c + rest);
    AfterConcat(a, later, ToA);
    AfterConcat(a, later, ToB);
    TurnsConcat(After(a, ToA), later);
    TurnsConcat(After(a, ToB), later);
  }

  lemma RoundsMix(rounds: seq<seq<Direction>>, rest: seq<Direction>)
    requires |rounds| >= 3 && forall i :: 0 <= i < |rounds| ==> Round(rounds[i])
    ensures Mixed(Flat(rounds) + rest)
  {
    ThreeRoundsMix(rounds[0], rounds[1], rounds[2], Flat(rounds[3..]) + rest);
    FlatThree(rounds, rest);
  }

  lemma FlatThree(rounds: seq<seq<Direction>>, rest: seq<Direction>)
    requires |rounds| >= 3
    ensures Flat(rounds) + rest == rounds[0] + (rounds[1] + (rounds[2] + (Flat(rounds[3..]) + rest)))
  {
    FlatOne(rounds, rest);
    FlatOne(rounds[1..], rest);
    FlatOne(rounds[2..], rest);
    assert rounds[1..][1..] == rounds[2..] && rounds[2..][1..] == rounds[3..];
  }

  lemma FlatOne(rounds: seq<seq<Direction>>, rest: seq<Direction>)
    requires rounds != []
    ensures Flat(rounds) + rest == rounds[0] + (Flat(rounds[1..]) + rest)
  {
  }

  /** Two rounds are not enough. */
  lemma TwoRoundsFail()
    ensures Round([ToB, ToA]) && Round([ToA, ToB]) && !Mixed([ToB, ToA] + [ToA, ToB])
  {
    var ds := [ToB, ToA] + [ToA, ToB];
    assert ds[1..] == [ToA, ToA, ToB];
    assert After(ds, ToA) == [ToA, ToB];
    assert [ToA, ToB][1..] == [ToB];
    assert Turns([ToA, ToB]) == 1;
  }

  /** Counting deliveries is not enough, they must alternate: with all deliveries to B before all
      deliveries to A, however many, an Up end facing a Down end stays short of Up/Up. */
  lemma UnmixedIsNotEnough(m: nat, n: nat)
    ensures ArriveAll(Up, Down, seq(m, i => ToB) + seq(n, i => ToA)) != (Up, Up)
  {
    var ds := seq(m, i => ToB) + seq(n, i => ToA);
    AfterBlock(m, n);
    OneTurn(After(ds, ToA));
    ArrivesExactly(Up, Down, ds);
  }

  lemma {:induction false} AfterBlock(m: nat, n: nat)
    ensures ToB !in After(seq(m, i => ToB) + seq(n, i => ToA), ToA)
  {
    var ds := seq(m, i => ToB) + seq(n, i => ToA);
    if m > 0 {
      assert ds[1..] == seq(m - 1, i => ToB) + seq(n, i => ToA);
      AfterBlock(m - 1, n);
    }
  }

  // ---- More deliveries --------------------------------------------------------------------

  /** `a` is what is left of `b` without some of its deliveries. */
  ghost predicate Within(a: seq<Direction>, b: seq<Direction>)
    decreases |b|
  {
    a == [] || (b != [] && Within(if a[0] == b[0] then a[1..] else a, b[1..]))
  }

  lemma {:induction false} WithinIn(a: seq<Direction>, b: seq<Direction>, d: Direction)
    requires Within(a, b) && d in a
    ensures d in b
    decreases |b|
  {
    if d != b[0] {
      WithinIn(if a[0] == b[0] then a[1..] else a, b[1..], d);
    }
  }

  lemma {:induction false} WithinDrop(a: seq<Direction>, b: seq<Direction>)
    requires Within(a, b) && a != []
    ensures Within(a[1..], b)
    decreases |b|, 0
  {
    if a[0] == b[0] {
      WithinMore(a[1..], b[1..], b[0]);
      assert [b[0]] + b[1..] == b;
    } else {
      WithinDrop(a, b[1..]);
      WithinMore(a[1..], b[1..], b[0]);
      assert [b[0]] + b[1..] == b;
    }
  }

  lemma {:induction false} WithinMore(a: seq<Direction>, b: seq<Direction>, d: Direction)
    requires Within(a, b)
    ensures Within(a, [d] + b)
    decreases |b|, 1
  {
    assert ([d] + b)[1..] == b;
    if a != [] && a[0] == d {
      WithinDrop(a, b);
    }
  }

  lemma {:induction false} WithinAfter(a: seq<Direction>, b: seq<Direction>, d: Direction)
    requires Within(a, b)
    ensures Within(After(a, d), After(b, d))
    decreases |b|
  {
    if a != [] && a[0] == b[0] && b[0] != d {
      WithinAfter(a[1..], b[1..], d);
    } else if a != [] && a[0] != b[0] {
      if b[0] == d {
        WithinSuffix(a, b[1..], d);
      } else {
        WithinAfter(a, b[1..], d);
      }
    }
  }

  lemma {:induction false} WithinSuffix(a: seq<Direction>, b: seq<Direction>, d: Direction)
    requires Within(a, b)
    ensures Within(After(a, d), b)
    decreases |a|
  {
    if a != [] {
      WithinDrop(a, b);
      if a[0] != d {
        WithinSuffix(a[1..], b, d);
      }
    }
  }

  lemma {:induction false} WithinTurns(a: seq<Direction>, b: seq<Direction>)
    requires Within(a, b)
    ensures Turns(a) <= Turns(b)
    decreases |b|
  {
    if a != [] {
      if a[0] != b[0] {
        WithinTurns(a, b[1..]);
      } else if |a| > 1 && a[0] != a[1] && |b| > 1 && b[0] == b[1] {
        assert Within(a[1..], b[1..]) && a[1..][0] != b[1..][0];
        WithinTurns(a, b[1..]);
      } else {
        WithinTurns(a[1..], b[1..]);
      }
    }
  }

  /** More deliveries do no harm. */
  lemma SufficesMore(x: BfdState, y: BfdState, a: seq<Direction>, b: seq<Direction>)
    requires Within(a, b) && Suffices(x, y, a)
    ensures Suffices(x, y, b)
  {
    WithinAfter(a, b, ToA);
    WithinAfter(a, b, ToB);
    WithinTurns(a, b);
    WithinTurns(After(a, ToA), After(b, ToA));
    WithinTurns(After(a, ToB), After(b, ToB));
    InMore(a, b);
    InMore(After(a, ToA), After(b, ToA));
    InMore(After(a, ToB), After(b, ToB));
  }

  lemma InMore(a: seq<Direction>, b: seq<Direction>)
    requires Within(a, b)
    ensures (ToA in a ==> ToA in b) && (ToB in a ==> ToB in b)
  {
    if ToA in a {
      WithinIn(a, b, ToA);
    }
    if ToB in a {
      WithinIn(a, b, ToB);
    }
  }

  lemma {:induction false} ArriveAllConcat(x: BfdState, y: BfdState, ds: seq<Direction>, es: seq<Direction>)
    ensures ArriveAll(x, y, ds + es) == (var (p, q) := ArriveAll(x, y, ds); ArriveAll(p, q, es))
    decreases |ds|
  {
    if ds == [] {
      assert ds + es == es;
    } else {
      assert (ds + es)[1..] == ds[1..] + es;
      var (p, q) := Arrive(x, y, ds[0]);
      ArriveAllConcat(p, q, ds[1..], es);
    }
  }

  // ---- The sessions -----------------------------------------------------------------------

  /** The send loop reconnects before it sends, if it has to. */
  function Opened(s: Session): Session {
    s.(link := s.link.(clientDown := false))
  }

  predicate Passes(sender: Session, receiver: Session) {
    MaySend(sender) && Routed(receiver, Compose(sender, false))
  }

  /** One packet of the send loop, and the Final with which it is answered, if it is; both arrive at
      once, if the send guard lets the packet go and each finds its way to the session. */
  function Exchange(sender: Session, receiver: Session, now: int): (Session, Session) {
    var out := Opened(sender);
    if !Passes(out, receiver) then (out, receiver)
    else
      var r := Rx(receiver, Compose(out, false), now, true);
      (if r.sent != [] && Routed(out, r.sent[0]) then Rx(out, r.sent[0], now, true).session else out, r.session)
  }

  function Deliver(a: Session, b: Session, d: Direction, now: int): (Session, Session) {
    match d
    case ToA => var (y, x) := Exchange(b, a, now); (x, y)
    case ToB => Exchange(a, b, now)
  }

  function DeliverAll(a: Session, b: Session, ds: seq<(Direction, int)>): (Session, Session)
    decreases |ds|
  {
    if ds == [] then (a, b)
    else
      var (x, y) := Deliver(a, b, ds[0].0, ds[0].1);
      DeliverAll(x, y, ds[1..])
  }

  /** Two passes of the send loop, or one if the connection is open, send that packet. */
  lemma OpenedSends(s: Session)
    ensures s.link.clientDown ==> Pass(s, true) == Result(Opened(s), [], [])
    ensures Pass(Opened(s), true) == Result(Opened(s), if MaySend(s) then [Compose(s, false)] else [], [])
  {
  }

  /** An active session that nothing has told to be silent, and that will ask for no silence. */
  ghost predicate Talks(s: Session) {
    && s.state != AdminDown && !s.cfg.passive && !s.remoteDemand
    && s.timers.remoteMinRx > 0 && s.timers.remoteMinTx == 0
    && s.timers.desiredMinTx > 0 && s.cfg.txInterval > 0
  }

  /** Two such ends, with the same kind of authentication. */
  ghost predicate Live(a: Session, b: Session) {
    Talks(a) && Talks(b) && a.cfg.authType == b.cfg.authType
  }

  /** The discriminator that `s` uses leads its packets to `t`: it is right, or zero. */
  predicate Reaches(s: Session, t: Session) {
    s.remoteDiscr == 0 || s.remoteDiscr == t.cfg.localDiscr
  }

  /** Only a wrong discriminator stops a live session's packet. */
  lemma PassesExactly(s: Session, t: Session)
    requires Talks(s)
    ensures Passes(Opened(s), t) <==> Reaches(s, t)
  {
  }

  /** Sessions as the gateway makes them are live. */
  lemma NewTalks(rxInterval: int, txInterval: int, detectMult: int, localDiscr: nat)
    requires Cut(txInterval) > 0
    ensures Talks(NewSession(rxInterval, txInterval, detectMult, localDiscr, false))
  {
  }

  /** An arriving packet moves the state as the abstraction does, and teaches the discriminator. */
  lemma RxTalks(s: Session, p: Packet, now: int)
    requires Talks(s) && Accepts(s, p) && p.state != AdminDown && p.desiredMinTx > 0 && !p.demand
    ensures var r := Rx(s, p, now, true).session;
            Talks(r) && r.cfg == s.cfg && r.state == Prescribed(s.state, p.state) && r.remoteDiscr == p.myDiscr
  {
    RxHeard(s, p, now, true);
    LearnedKeeps(s.timers, p);
    ReactedTalks(Learn(s, p), p.state);
  }

  lemma ReactedTalks(s: Session, received: BfdState)
    requires s.timers.desiredMinTx > 0 && s.cfg.txInterval > 0
    ensures var u := Reacted(s, received).0.timers;
            u.desiredMinTx > 0 && u.remoteMinTx == s.timers.remoteMinTx
  {
  }

  /** What the Final says that answers a Poll. */
  lemma ReplyTalks(s: Session, p: Packet, now: int)
    requires Talks(s) && Accepts(s, p) && p.state != AdminDown && Answers(s, p, true)
    ensures var r := Rx(s, p, now, true);
            && |r.sent| == 1
            && r.sent[0].state == Prescribed(s.state, p.state) && r.sent[0].desiredMinTx > 0 && !r.sent[0].demand
            && r.sent[0].myDiscr == s.cfg.localDiscr && r.sent[0].yourDiscr == p.myDiscr
            && r.sent[0].authPresent == s.cfg.authType && !r.sent[0].poll
  {
    PollIsAnswered(s, p, now, true);
    LearnedKeeps(s.timers, p);
    ReactedTalks(Learn(s, p), p.state);
    ReactedReacts(Learn(s, p), p.state);
  }

  /** The sender polls, and the receiver answers. */
  predicate Replies(sender: Session, receiver: Session) {
    Answers(receiver, Compose(sender, false), true)
  }

  lemma ExchangeTalks(s: Session, t: Session, now: int)
    requires Live(s, t)
    ensures var (x, y) := Exchange(s, t, now);
            && Live(x, y) && x.cfg == s.cfg && y.cfg == t.cfg
            && (!Reaches(s, t) ==> (x, y) == (Opened(s), t))
            && (Reaches(s, t) ==>
                  && y.state == Prescribed(t.state, s.state) && Reaches(y, x) && Reaches(x, y)
                  && x.state == if Replies(s, t) then Prescribed(s.state, y.state) else s.state)
  {
    var out, p := Opened(s), Compose(s, false);
    PassesExactly(s, t);
    if Reaches(s, t) {
      RxTalks(t, p, now);
      PollIsAnswered(t, p, now, true);
      if Replies(s, t) {
        ReplyTalks(t, p, now);
        RxTalks(out, Rx(t, p, now, true).sent[0], now);
      }
    }
  }

  /** After a delivery that is heard, the receiver waits for the configured multiplier of the sender times
      the longer of its own required RX interval and the TX interval the sender announces. */
  lemma DeliveredDetection(s: Session, t: Session, now: int)
    requires Live(s, t) && Reaches(s, t)
    ensures Exchange(s, t, now).1.timers.asyncDetect
         == (s.cfg.detectMult * Max(t.timers.requiredMinRx, s.timers.desiredMinTx)) % WRAP
  {
    PassesExactly(s, t);
    RxDetectsExactly(t, Compose(s, false), now, true);
  }

  /** The arrivals in one delivery: none if the discriminator is wrong, two if a Poll is answered. */
  function Arrivals(a: Session, b: Session, d: Direction): seq<Direction> {
    var (sender, receiver) := if d == ToA then (b, a) else (a, b);
    if !Reaches(sender, receiver) then []
    else if Replies(sender, receiver) then [d, Other(d)] else [d]
  }

  /** A delivery moves the states as its arrivals do, and from the first one that is heard nothing more
      is stopped. */
  lemma DeliverArrives(a: Session, b: Session, d: Direction, now: int)
    requires Live(a, b)
    ensures var (x, y) := Deliver(a, b, d, now);
            && Live(x, y) && (x.state, y.state) == ArriveAll(a.state, b.state, Arrivals(a, b, d))
            && (Arrivals(a, b, d) == [] ==> (Reaches(x, y) <==> Reaches(a, b)) && (Reaches(y, x) <==> Reaches(b, a)))
            && (Arrivals(a, b, d) != [] ==> Reaches(x, y) && Reaches(y, x))
  {
    ExchangeTalks(a, b, now);
    ExchangeTalks(b, a, now);
    ArriveFew(a.state, b.state, d);
  }

  lemma ArriveFew(x: BfdState, y: BfdState, d: Direction)
    ensures ArriveAll(x, y, []) == (x, y)
    ensures ArriveAll(x, y, [d]) == Arrive(x, y, d)
    ensures ArriveAll(x, y, [d, Other(d)]) == (var (p, q) := Arrive(x, y, d); Arrive(p, q, Other(d)))
  {
    assert [d, Other(d)][1..] == [Other(d)];
    var (p, q) := Arrive(x, y, d);
    assert ArriveAll(p, q, [Other(d)]) == Arrive(p, q, Other(d));
  }

  /** All arrivals of a schedule. */
  function AllArrivals(a: Session, b: Session, ds: seq<(Direction, int)>): seq<Direction>
    decreases |ds|
  {
    if ds == [] then []
    else
      var (x, y) := Deliver(a, b, ds[0].0, ds[0].1);
      Arrivals(a, b, ds[0].0) + AllArrivals(x, y, ds[1..])
  }

  lemma {:induction false} DeliverAllArrives(a: Session, b: Session, ds: seq<(Direction, int)>)
    requires Live(a, b)
    ensures var (x, y) := DeliverAll(a, b, ds);
            Live(x, y) && (x.state, y.state) == ArriveAll(a.state, b.state, AllArrivals(a, b, ds))
    decreases |ds|
  {
    if ds != [] {
      var (x, y) := Deliver(a, b, ds[0].0, ds[0].1);
      DeliverArrives(a, b, ds[0].0, ds[0].1);
      DeliverAllArrives(x, y, ds[1..]);
      ArriveAllConcat(a.state, b.state, Arrivals(a, b, ds[0].0), AllArrivals(x, y, ds[1..]));
    }
  }

  /** From any live pair: both ends are Up after a schedule exactly when its arrivals, answers to Polls
      among them, suffice for the states they start from. */
  lemma ConvergesExactly(a: Session, b: Session, ds: seq<(Direction, int)>)
    requires Live(a, b)
    ensures var (x, y) := DeliverAll(a, b, ds);
            (x.state == Up && y.state == Up) <==> Suffices(a.state, b.state, AllArrivals(a, b, ds))
  {
    DeliverAllArrives(a, b, ds);
    ArrivesExactly(a.state, b.state, AllArrivals(a, b, ds));
  }

  // ---- What a schedule alone tells --------------------------------------------------------

  function Directions(ds: seq<(Direction, int)>): seq<Direction> {
    seq(|ds|, i requires 0 <= i < |ds| => ds[i].0)
  }

  /** The part of a schedule that is not lost: with both discriminators usable all of it; with one
      of them only what begins with the first delivery from that end; else nothing. */
  function Heard(a: Session, b: Session, ds: seq<Direction>): seq<Direction> {
    if Reaches(a, b) && Reaches(b, a) then ds
    else if Reaches(b, a) then From(ds, ToA)
    else if Reaches(a, b) then From(ds, ToB)
    else []
  }

  /** The schedule from its first delivery in direction `d` on. */
  function From(ds: seq<Direction>, d: Direction): seq<Direction>
    decreases |ds|
  {
    if ds == [] || ds[0] == d then ds else From(ds[1..], d)
  }

  lemma HeardStep(a: Session, b: Session, ds: seq<(Direction, int)>)
    requires Live(a, b) && ds != []
    ensures var (x, y) := Deliver(a, b, ds[0].0, ds[0].1);
            var rest := Heard(x, y, Directions(ds[1..]));
            Heard(a, b, Directions(ds)) == if Arrivals(a, b, ds[0].0) == [] then rest else [ds[0].0] + rest
  {
    DeliverArrives(a, b, ds[0].0, ds[0].1);
    assert Directions(ds) == [ds[0].0] + Directions(ds[1..]);
    assert Directions(ds)[1..] == Directions(ds[1..]);
  }

  /** Answers only add to what is heard. */
  lemma {:induction false} HeardWithin(a: Session, b: Session, ds: seq<(Direction, int)>)
    requires Live(a, b)
    ensures Within(Heard(a, b, Directions(ds)), AllArrivals(a, b, ds))
    decreases |ds|
  {
    if ds != [] {
      var d := ds[0].0;
      var (x, y) := Deliver(a, b, d, ds[0].1);
      DeliverArrives(a, b, d, ds[0].1);
      HeardWithin(x, y, ds[1..]);
      HeardStep(a, b, ds);
      var rest, all := Heard(x, y, Directions(ds[1..])), AllArrivals(x, y, ds[1..]);
      if Arrivals(a, b, d) == [] {
        assert Arrivals(a, b, d) + all == all;
      } else if Arrivals(a, b, d) == [d] {
        WithinBoth(rest, all, d);
      } else {
        WithinMore(rest, all, Other(d));
        WithinBoth(rest, [Other(d)] + all, d);
        assert Arrivals(a, b, d) + all == [d] + ([Other(d)] + all);
      }
    } else {
      assert Directions(ds) == [];
    }
  }

  lemma WithinBoth(a: seq<Direction>, b: seq<Direction>, d: Direction)
    requires Within(a, b)
    ensures Within([d] + a, [d] + b)
  {
    assert ([d] + a)[1..] == a && ([d] + b)[1..] == b;
  }

  /** A session that has no reason to poll: its TX interval is configured to one second. */
  ghost predicate Steady(s: Session) {
    !s.timers.poll && s.timers.desiredMinTx == SLOW_TX && s.cfg.txInterval == SLOW_TX
  }

  lemma RxSteady(s: Session, p: Packet, now: int)
    requires Steady(s) && Accepts(s, p)
    ensures Steady(Rx(s, p, now, true).session)
  {
    LearnedKeeps(s.timers, p);
  }

  lemma {:induction false} SteadyArrivals(a: Session, b: Session, ds: seq<(Direction, int)>)
    requires Live(a, b) && Steady(a) && Steady(b)
    ensures AllArrivals(a, b, ds) == Heard(a, b, Directions(ds))
    decreases |ds|
  {
    if ds != [] {
      var (x, y) := Deliver(a, b, ds[0].0, ds[0].1);
      DeliverArrives(a, b, ds[0].0, ds[0].1);
      SteadyDeliver(a, b, ds[0].0, ds[0].1);
      SteadyArrivals(x, y, ds[1..]);
      HeardStep(a, b, ds);
    } else {
      assert Directions(ds) == [];
    }
  }

  lemma SteadyDeliver(a: Session, b: Session, d: Direction, now: int)
    requires Live(a, b) && Steady(a) && Steady(b)
    ensures var (x, y) := Deliver(a, b, d, now); Steady(x) && Steady(y)
    ensures |Arrivals(a, b, d)| <= 1
  {
    var (s, t) := if d == ToA then (b, a) else (a, b);
    RxSteady(t, Compose(s, false), now);
    PollIsAnswered(t, Compose(s, false), now, true);
  }

  /** Between sessions that do not poll, the schedule and the discriminators alone decide. */
  lemma SteadyConverges(a: Session, b: Session, ds: seq<(Direction, int)>)
    requires Live(a, b) && Steady(a) && Steady(b)
    ensures var (x, y) := DeliverAll(a, b, ds);
            (x.state == Up && y.state == Up) <==> Suffices(a.state, b.state, Heard(a, b, Directions(ds)))
  {
    ConvergesExactly(a, b, ds);
    SteadyArrivals(a, b, ds);
  }

  /** Between any live sessions that is still enough. */
  lemma HeardConverges(a: Session, b: Session, ds: seq<(Direction, int)>)
    requires Live(a, b) && Suffices(a.state, b.state, Heard(a, b, Directions(ds)))
    ensures var (x, y) := DeliverAll(a, b, ds); x.state == Up && y.state == Up
  {
    ConvergesExactly(a, b, ds);
    HeardWithin(a, b, ds);
    SufficesMore(a.state, b.state, Heard(a, b, Directions(ds)), AllArrivals(a, b, ds));
  }

  /** It is not needed where ends poll: the answer to a Poll makes up for a missing delivery. */
  lemma AnswerHelps(a: Session, b: Session, now: int)
    requires Live(a, b) && Reaches(a, b) && a.state == Down && b.state == Init && b.timers.poll
    requires !a.link.clientDown && !Restarts(a.timers, b.timers.requiredMinRx) && Reaches(b, a)
    ensures var (x, y) := DeliverAll(a, b, [(ToA, now)]); x.state == Up && y.state == Up
    ensures !Suffices(a.state, b.state, Heard(a, b, Directions([(ToA, now)])))
  {
    ExchangeTalks(b, a, now);
    var ds := [(ToA, now)];
    assert ds[1..] == [];
    assert Directions(ds) == [ToA] && [ToA][1..] == [];
  }

  /** Three rounds are enough, from any states and whatever they consist of, and deliveries after
      that leave both ends Up; if one of the discriminators is stale it takes four. */
  lemma Converges(a: Session, b: Session, ds: seq<(Direction, int)>, rounds: seq<seq<Direction>>, rest: seq<Direction>)
    requires Live(a, b) && Directions(ds) == Flat(rounds) + rest
    requires forall i :: 0 <= i < |rounds| ==> Round(rounds[i])
    requires Reaches(a, b) || Reaches(b, a)
    requires |rounds| >= if Reaches(a, b) && Reaches(b, a) then 3 else 4
    ensures var (x, y) := DeliverAll(a, b, ds); x.state == Up && y.state == Up
  {
    if Reaches(a, b) && Reaches(b, a) {
      RoundsMix(rounds, rest);
    } else {
      LateMix(rounds, rest, if Reaches(b, a) then ToA else ToB);
    }
    FromEverywhere(Heard(a, b, Directions(ds)));
    ArrivesExactly(a.state, b.state, Heard(a, b, Directions(ds)));
    HeardConverges(a, b, ds);
  }

  lemma {:induction false} FromConcat(a: seq<Direction>, b: seq<Direction>, d: Direction)
    requires d in a
    ensures From(a + b, d) == From(a, d) + b
    decreases |a|
  {
    if a[0] != d {
      assert (a + b)[1..] == a[1..] + b;
      FromConcat(a[1..], b, d);
    }
  }

  lemma LateMix(rounds: seq<seq<Direction>>, rest: seq<Direction>, d: Direction)
    requires |rounds| >= 4 && forall i :: 0 <= i < |rounds| ==> Round(rounds[i])
    ensures Mixed(From(Flat(rounds) + rest, d))
  {
    var later := Flat(rounds[1..]) + rest;
    RoundsMix(rounds[1..], rest);
    FlatOne(rounds, rest);
    FromConcat(rounds[0], later, d);
    MixedBefore(From(rounds[0], d), later);
  }

  /** Deliveries before a mixed schedule do not spoil it. */
  lemma MixedBefore(a: seq<Direction>, b: seq<Direction>)
    requires Mixed(b)
    ensures Mixed(a + b)
  {
    AfterGrows(a, b, ToA);
    AfterGrows(a, b, ToB);
  }

  lemma {:induction false} AfterGrows(a: seq<Direction>, b: seq<Direction>, d: Direction)
    ensures Turns(After(a + b, d)) >= Turns(After(b, d))
    decreases |a|
  {
    if a == [] {
      assert a + b == b;
    } else {
      assert (a + b)[1..] == a[1..] + b;
      if a[0] == d {
        TurnsConcat(a[1..], b);
        AfterTurns(b, d);
      } else {
        AfterGrows(a[1..], b, d);
      }
    }
  }

  /** With both discriminators stale nothing is ever heard: no schedule changes a state. */
  lemma {:induction false} StaleNeverHears(a: Session, b: Session, ds: seq<(Direction, int)>)
    requires Live(a, b) && !Reaches(a, b) && !Reaches(b, a)
    ensures AllArrivals(a, b, ds) == []
    ensures var (x, y) := DeliverAll(a, b, ds); x.state == a.state && y.state == b.state
    decreases |ds|
  {
    if ds != [] {
      var (x, y) := Deliver(a, b, ds[0].0, ds[0].1);
      DeliverArrives(a, b, ds[0].0, ds[0].1);
      StaleNeverHears(x, y, ds[1..]);
    }
  }
}
