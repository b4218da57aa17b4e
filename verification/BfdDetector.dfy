/** The failure detector over timed runs: when it drops a session, when it must not, and when it
    has stopped working. Times are in milliseconds, detection times in microseconds. */
module BfdDetector {
  import opened BfdSession
  import opened BfdStates

  /** Silence tolerated before a drop. */
  function Tolerance(s: Session): nat {
    s.timers.asyncDetect / 1000
  }

  // ---- Never early ------------------------------------------------------------------------

  /** The time of the latest accepted packet. */
  function LastHeard(s: Session, es: seq<Event>): int {
    if es == [] then s.lastRx
    else
      var e := es[|es|-1];
      if e.Receive? && e.packet.authPresent == s.cfg.authType then e.now else LastHeard(s, es[..|es|-1])
  }

  lemma StepHears(s: Session, e: Event)
    requires s.state != AdminDown
    ensures Step(s, e).session.cfg == s.cfg && Step(s, e).session.state != AdminDown
    ensures Step(s, e).session.lastRx == if e.Receive? && Accepts(s, e.packet) then e.now else s.lastRx
  {
    if e.Receive? && Accepts(s, e.packet) {
      ReactedReacts(Learn(s, e.packet), e.packet.state);
      RxStates(s, e.packet, e.now, e.wrote);
    }
  }

  lemma {:induction false} RunHears(s: Session, es: seq<Event>)
    requires s.state != AdminDown
    ensures var t := Run(s, es).session;
            t.cfg == s.cfg && t.state != AdminDown && t.lastRx == LastHeard(s, es)
  {
    if es != [] {
      RunHears(s, es[..|es|-1]);
      RunUnfolds(s, es);
      StepHears(Run(s, es[..|es|-1]).session, es[|es|-1]);
    }
  }

  /** In every run, a tick drops the session exactly when the detector still works, the session is
      Up with a detection time, and the silence since the latest accepted packet exceeds it. */
  lemma DropsExactly(s: Session, es: seq<Event>, at: int)
    requires s.state != AdminDown
    ensures var t := Run(s, es).session;
            Tick(t, at).moves != [] <==>
            && !t.link.detectorDone && !t.link.clientDown
            && t.state == Up && t.timers.asyncDetect != 0
            && at - LastHeard(s, es) > Tolerance(t)
  {
    RunHears(s, es);
  }

  // ---- Prompt -----------------------------------------------------------------------------

  /** No packet arrives and every send goes through. */
  ghost predicate Silent(es: seq<Event>) {
    forall i :: 0 <= i < |es| ==> es[i].Detecting? || es[i] == Sending(true)
  }

  /** Up, with a detection time and a working detector. */
  ghost predicate Watched(s: Session) {
    s.state == Up && s.timers.asyncDetect != 0 && !s.link.clientDown && !s.link.detectorDone
  }

  ghost predicate TickAfter(es: seq<Event>, deadline: int) {
    exists i :: 0 <= i < |es| && es[i].Detecting? && es[i].at > deadline
  }

  /** A watched session that hears nothing is dropped by the first tick after its deadline, once,
      with one close of the channel; before that tick it does not change at all. */
  lemma {:induction false} SilentRun(s: Session, es: seq<Event>)
    requires Watched(s) && Silent(es)
    ensures var r, deadline := Run(s, es), s.lastRx + Tolerance(s);
            if TickAfter(es, deadline) then
              && r.session.state == Down && r.session.diag == TimeExpired
              && r.moves == [Move(Up, Down, ByTimeout)]
              && r.session.link == s.link.(doneCloses := s.link.doneCloses + 1)
            else r.session == s && r.moves == []
  {
    if es != [] {
      var n := |es| - 1;
      SilentRun(s, es[..n]);
      RunUnfolds(s, es);
      TickAfterSnoc(es, s.lastRx + Tolerance(s));
    }
  }

  lemma TickAfterSnoc(es: seq<Event>, deadline: int)
    requires es != []
    ensures var n := |es| - 1;
            TickAfter(es, deadline) <==> TickAfter(es[..n], deadline) || (es[n].Detecting? && es[n].at > deadline)
  {
    var n := |es| - 1;
    if TickAfter(es[..n], deadline) {
      var i :| 0 <= i < n && es[..n][i].Detecting? && es[..n][i].at > deadline;
      assert es[i].Detecting? && es[i].at > deadline;
    }
    if TickAfter(es, deadline) && !(es[n].Detecting? && es[n].at > deadline) {
      var i :| 0 <= i < |es| && es[i].Detecting? && es[i].at > deadline;
      assert es[..n][i] == es[i];
    }
  }

  function Ticks(es: seq<Event>): seq<int> {
    if es == [] then []
    else
      var e := es[|es|-1];
      Ticks(es[..|es|-1]) + if e.Detecting? then [e.at] else []
  }

  function Prior(previous: int, ticks: seq<int>, i: nat): int
    requires i <= |ticks|
  {
    if i == 0 then previous else ticks[i-1]
  }

  /** Ticks follow one another within the 150 ms of the detector's sleep. */
  ghost predicate Paced(previous: int, ticks: seq<int>) {
    forall i :: 0 <= i < |ticks| ==> ticks[i] <= Prior(previous, ticks, i) + 150
  }

  /** Paced ticks that get past a deadline have one within 150 ms after it. */
  lemma TickInWindow(previous: int, ticks: seq<int>, deadline: int) returns (k: nat)
    requires previous <= deadline && Paced(previous, ticks) && ticks != [] && ticks[|ticks|-1] > deadline
    ensures k < |ticks| && deadline < ticks[k] <= deadline + 150
    ensures forall j :: 0 <= j < k ==> ticks[j] <= deadline
  {
    k := 0;
    while ticks[k] <= deadline
      invariant k < |ticks|
      invariant forall j :: 0 <= j < k ==> ticks[j] <= deadline
      decreases |ticks| - k
    {
      k := k + 1;
    }
    assert Prior(previous, ticks, k) <= deadline;
  }

  /** The event of a tick. */
  lemma {:induction false} TickEvent(es: seq<Event>, k: nat) returns (i: nat)
    requires k < |Ticks(es)|
    ensures i < |es| && es[i].Detecting? && es[i].at == Ticks(es)[k] && Ticks(es[..i+1]) == Ticks(es)[..k+1]
  {
    var n := |es| - 1;
    if k < |Ticks(es[..n])| {
      i := TickEvent(es[..n], k);
      assert es[..n][..i+1] == es[..i+1];
    } else {
      i := n;
      assert es[..n+1] == es;
    }
  }

  lemma {:induction false} TicksCover(es: seq<Event>, deadline: int)
    requires forall k :: 0 <= k < |Ticks(es)| ==> Ticks(es)[k] <= deadline
    ensures !TickAfter(es, deadline)
  {
    if es != [] {
      var n := |es| - 1;
      var before := Ticks(es[..n]);
      assert forall k :: 0 <= k < |before| ==> Ticks(es)[k] == before[k];
      TicksCover(es[..n], deadline);
      TickAfterSnoc(es, deadline);
      if es[n].Detecting? {
        assert Ticks(es)[|before|] == es[n].at;
      }
    }
  }

  /** A watched session that hears nothing, with ticks at most 150 ms apart: it is still Up while
      the silence is within the detection time, and it is Down, after exactly one close of the
      channel, at a tick no later than 150 ms after that. */
  lemma DetectedInTime(s: Session, es: seq<Event>, previous: int) returns (i: nat)
    requires Watched(s) && Silent(es)
    requires previous <= s.lastRx + Tolerance(s) && Paced(previous, Ticks(es))
    requires Ticks(es) != [] && Ticks(es)[|Ticks(es)|-1] > s.lastRx + Tolerance(s)
    ensures i < |es| && es[i].Detecting?
    ensures s.lastRx + Tolerance(s) < es[i].at <= s.lastRx + Tolerance(s) + 150
    ensures Run(s, es[..i]).session == s
    ensures Run(s, es[..i+1]).session.state == Down
    ensures Run(s, es[..i+1]).session.link.doneCloses == s.link.doneCloses + 1
  {
    i := FirstLateTick(es, previous, s.lastRx + Tolerance(s));
    DropAt(s, es, i);
  }

  lemma FirstLateTick(es: seq<Event>, previous: int, deadline: int) returns (i: nat)
    requires previous <= deadline && Paced(previous, Ticks(es))
    requires Ticks(es) != [] && Ticks(es)[|Ticks(es)|-1] > deadline
    ensures i < |es| && es[i].Detecting? && deadline < es[i].at <= deadline + 150
    ensures !TickAfter(es[..i], deadline)
  {
    var k := TickInWindow(previous, Ticks(es), deadline);
    i := TickEvent(es, k);
    assert es[..i+1][i] == es[i] && es[..i+1][..i] == es[..i];
    assert Ticks(es[..i]) == Ticks(es)[..k];
    TicksCover(es[..i], deadline);
  }

  lemma DropAt(s: Session, es: seq<Event>, i: nat)
    requires Watched(s) && Silent(es) && i < |es| && es[i].Detecting?
    requires es[i].at > s.lastRx + Tolerance(s) && !TickAfter(es[..i], s.lastRx + Tolerance(s))
    ensures Run(s, es[..i]).session == s
    ensures Run(s, es[..i+1]).session.state == Down
    ensures Run(s, es[..i+1]).session.link.doneCloses == s.link.doneCloses + 1
  {
    SilentRun(s, es[..i]);
    SilentRun(s, es[..i+1]);
    assert es[..i+1][i] == es[i];
  }

  // ---- Closing the channel ----------------------------------------------------------------

  function Timeouts(moves: seq<Move>): nat {
    if moves == [] then 0
    else Timeouts(moves[..|moves|-1]) + if moves[|moves|-1].cause.ByTimeout? then 1 else 0
  }

  lemma StepCloses(s: Session, e: Event)
    ensures Step(s, e).session.link.doneCloses == s.link.doneCloses + Timeouts(Step(s, e).moves)
    ensures |Step(s, e).moves| <= 1
  {
    if e.Receive? && Accepts(s, e.packet) {
      ReactedReacts(Learn(s, e.packet), e.packet.state);
    }
  }

  lemma {:induction false} TimeoutsAppend(a: seq<Move>, b: seq<Move>)
    requires |b| <= 1
    ensures Timeouts(a + b) == Timeouts(a) + Timeouts(b)
  {
    if b == [] {
      assert a + b == a;
    } else {
      assert (a + b)[..|a|] == a && b[..0] == [];
    }
  }

  /** In every run the channel is closed once for each timeout; Go panics on the second close, so
      the process has to end after the first. */
  lemma {:induction false} ClosesAreTimeouts(s: Session, es: seq<Event>)
    ensures Run(s, es).session.link.doneCloses == s.link.doneCloses + Timeouts(Run(s, es).moves)
  {
    if es != [] {
      var before := Run(s, es[..|es|-1]);
      ClosesAreTimeouts(s, es[..|es|-1]);
      RunUnfolds(s, es);
      StepCloses(before.session, es[|es|-1]);
      TimeoutsAppend(before.moves, Step(before.session, es[|es|-1]).moves);
    }
  }

  // ---- When the detector has gone ---------------------------------------------------------

  lemma StepDead(s: Session, e: Event)
    requires s.link.detectorDone
    ensures Step(s, e).session.link.detectorDone
    ensures forall m :: m in Step(s, e).moves ==> !m.cause.ByTimeout?
  {
    if e.Receive? && Accepts(s, e.packet) {
      ReactedReacts(Learn(s, e.packet), e.packet.state);
    }
  }

  ghost predicate FoundClosed(s: Session, es: seq<Event>) {
    exists i :: 0 <= i < |es| && es[i].Detecting? && Run(s, es[..i]).session.link.clientDown
  }

  lemma FoundClosedSnoc(s: Session, es: seq<Event>)
    requires es != []
    ensures var n := |es| - 1;
            FoundClosed(s, es) <==>
            FoundClosed(s, es[..n]) || (es[n].Detecting? && Run(s, es[..n]).session.link.clientDown)
  {
    var n := |es| - 1;
    if FoundClosed(s, es[..n]) {
      var i :| 0 <= i < n && es[..n][i].Detecting? && Run(s, es[..n][..i]).session.link.clientDown;
      assert es[..n][..i] == es[..i];
      assert es[i].Detecting? && Run(s, es[..i]).session.link.clientDown;
    }
    if FoundClosed(s, es) && !(es[n].Detecting? && Run(s, es[..n]).session.link.clientDown) {
      var i :| 0 <= i < |es| && es[i].Detecting? && Run(s, es[..i]).session.link.clientDown;
      assert es[..n][..i] == es[..i];
      assert es[..n][i].Detecting? && Run(s, es[..n][..i]).session.link.clientDown;
    }
  }

  lemma StepGone(s: Session, e: Event)
    ensures Step(s, e).session.link.detectorDone <==> s.link.detectorDone || (e.Detecting? && s.link.clientDown)
  {
    if e.Receive? && Accepts(s, e.packet) {
      ReactedReacts(Learn(s, e.packet), e.packet.state);
    }
  }

  /** In every run the detector has returned exactly when it had at the start or some tick found the
      connection closed. */
  lemma {:induction false} DetectorGoneExactly(s: Session, es: seq<Event>)
    ensures Run(s, es).session.link.detectorDone <==> s.link.detectorDone || FoundClosed(s, es)
  {
    if es != [] {
      DetectorGoneExactly(s, es[..|es|-1]);
      FoundClosedSnoc(s, es);
      RunUnfolds(s, es);
      StepGone(Run(s, es[..|es|-1]).session, es[|es|-1]);
    }
  }

  /** A detector that has returned never drops the session again, however long it hears nothing. */
  lemma {:induction false} DeadDetectorNeverDrops(s: Session, es: seq<Event>)
    requires s.link.detectorDone
    ensures Run(s, es).session.link.detectorDone
    ensures forall m :: m in Run(s, es).moves ==> !m.cause.ByTimeout?
  {
    if es != [] {
      DeadDetectorNeverDrops(s, es[..|es|-1]);
      RunUnfolds(s, es);
      StepDead(Run(s, es[..|es|-1]).session, es[|es|-1]);
    }
  }

  /** A peer that asks for a faster rate closes the connection for a moment; if the detector's
      tick comes before the send loop's pass, the session is not watched from then on. */
  lemma FasterPeerKillsDetector(s: Session, p: Packet, now: int, at: int, es: seq<Event>)
    requires s.state != AdminDown && Accepts(s, p) && Restarts(s.timers, p.requiredMinRx)
    ensures forall m :: m in Run(Run(s, [Receive(p, now, true), Detecting(at)]).session, es).moves ==>
              !m.cause.ByTimeout?
  {
    var first := Rx(s, p, now, true).session;
    ReactedReacts(Learn(s, p), p.state);
    assert first.link.clientDown;
    var two := [Receive(p, now, true), Detecting(at)];
    assert two[..1] == [Receive(p, now, true)] && two[..1][..0] == [];
    assert Run(s, two[..1]).session == first;
    assert Run(s, two).session == Tick(first, at).session;
    DeadDetectorNeverDrops(Run(s, two).session, es);
  }
}
