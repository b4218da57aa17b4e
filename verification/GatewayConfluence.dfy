/** The order in which updates of different floating IPs and next hops are interleaved does not
    matter: only the order of the updates of each (prefix, next hop) does. */
module GatewayConfluence {
  import opened Options
  import opened Routes
  import opened GatewayState
  import opened GatewayProtocol
  import opened GatewayInvariant
  import opened GatewayMirror
  import opened GatewayFold
  import opened GatewayAdvertised

  /** The updates of one prefix and next hop, in order. */
  function History(es: seq<Event>, p: Address, nh: Address): seq<Update> {
    if es == [] then []
    else
      var e := es[|es|-1];
      History(es[..|es|-1], p, nh)
      + if e.FromFabric? && e.update.prefix == p && e.update.nextHop == nh then [e.update] else []
  }

  /** The physical-network updates of one VRF and prefix, in order. */
  function NetworkHistory(es: seq<Event>, v: nat, p: Address): seq<Update> {
    if es == [] then []
    else
      var e := es[|es|-1];
      NetworkHistory(es[..|es|-1], v, p)
      + if e.FromNetwork? && e.update.vrf == v && e.update.prefix == p then [e.update] else []
  }

  /** Advertised paths have a label; each prefix belongs to one VRF. */
  ghost predicate Regular(es: seq<Event>, vrfOf: Address -> nat) {
    forall i :: 0 <= i < |es| && es[i].FromFabric? ==>
      && es[i].update.vrf == vrfOf(es[i].update.prefix)
      && (!es[i].update.withdraw ==> es[i].update.mplsLabel != 0)
  }

  // ---- One cell of the book ---------------------------------------------------------------

  function Cell(b: Book, p: Address, nh: Address): Option<nat> {
    if p in b && nh in b[p] then Some(b[p][nh]) else None
  }

  function CellStep(cfg: Config, vrfs: set<nat>, c: Option<nat>, u: Update): Option<nat> {
    if !Relevant(cfg, vrfs, u) then c
    else if !u.withdraw then Some(u.mplsLabel)
    else if c == Some(u.mplsLabel) then None
    else c
  }

  function CellFold(cfg: Config, vrfs: set<nat>, us: seq<Update>): Option<nat> {
    if us == [] then None
    else CellStep(cfg, vrfs, CellFold(cfg, vrfs, us[..|us|-1]), us[|us|-1])
  }

  ghost predicate NoEmpty(b: Book) {
    forall p :: p in b ==> b[p] != map[]
  }

  lemma FoldStepCell(cfg: Config, vrfs: set<nat>, b: Book, u: Update, p: Address, nh: Address)
    requires !u.withdraw ==> u.mplsLabel != 0
    ensures Cell(FoldStep(cfg, vrfs, b, u), p, nh) ==
            if u.prefix == p && u.nextHop == nh then CellStep(cfg, vrfs, Cell(b, p, nh), u) else Cell(b, p, nh)
  {
    if Relevant(cfg, vrfs, u) && u.withdraw && u.prefix == p && p in b && u.nextHop in b[p] && nh in b[p] && nh != u.nextHop {
      assert nh in b[p] - {u.nextHop};
    }
  }

  lemma FoldStepNoEmpty(cfg: Config, vrfs: set<nat>, b: Book, u: Update)
    requires NoEmpty(b)
    ensures NoEmpty(FoldStep(cfg, vrfs, b, u))
  {
    var after := FoldStep(cfg, vrfs, b, u);
    forall p | p in after ensures after[p] != map[] {
      if p == u.prefix && !u.withdraw && after != b {
        assert u.nextHop in after[p];
      }
    }
  }

  lemma {:induction false} FoldCells(cfg: Config, vrfs: set<nat>, es: seq<Event>, vrfOf: Address -> nat, p: Address, nh: Address)
    requires Regular(es, vrfOf)
    ensures Cell(Fold(cfg, vrfs, map[], es), p, nh) == CellFold(cfg, vrfs, History(es, p, nh))
  {
    if es != [] {
      var n := |es| - 1;
      FoldCells(cfg, vrfs, es[..n], vrfOf, p, nh);
      var e := es[n];
      if e.FromFabric? {
        FoldStepCell(cfg, vrfs, Fold(cfg, vrfs, map[], es[..n]), e.update, p, nh);
      }
      var h := History(es[..n], p, nh);
      assert h + [] == h && (h + [e.update])[..|h|] == h;
    }
  }

  lemma {:induction false} FoldNoEmpty(cfg: Config, vrfs: set<nat>, es: seq<Event>)
    ensures NoEmpty(Fold(cfg, vrfs, map[], es))
  {
    if es != [] {
      FoldNoEmpty(cfg, vrfs, es[..|es|-1]);
      if es[|es|-1].FromFabric? {
        FoldStepNoEmpty(cfg, vrfs, Fold(cfg, vrfs, map[], es[..|es|-1]), es[|es|-1].update);
      }
    }
  }

  lemma SubBook(a: Book, b: Book, p: Address)
    requires NoEmpty(a) && p in a
    requires forall nh :: Cell(a, p, nh) == Cell(b, p, nh)
    ensures p in b && a[p] == b[p]
  {
    var some :| some in a[p];
    assert Cell(a, p, some).Some?;
    assert forall nh :: nh in a[p] <==> Cell(a, p, nh).Some?;
    assert forall nh :: nh in b[p] <==> Cell(b, p, nh).Some?;
  }

  /** Books without empty entries are equal when their cells are. */
  lemma BooksEqual(a: Book, b: Book)
    requires NoEmpty(a) && NoEmpty(b)
    requires forall p, nh :: Cell(a, p, nh) == Cell(b, p, nh)
    ensures a == b
  {
    forall p | p in a ensures p in b && a[p] == b[p] {
      SubBook(a, b, p);
    }
    forall p | p in b ensures p in a {
      SubBook(b, a, p);
    }
  }

  lemma FoldsEqual(cfg: Config, vrfs: set<nat>, es: seq<Event>, fs: seq<Event>, vrfOf: Address -> nat)
    requires Regular(es, vrfOf) && Regular(fs, vrfOf)
    requires forall p, nh :: History(es, p, nh) == History(fs, p, nh)
    ensures Fold(cfg, vrfs, map[], es) == Fold(cfg, vrfs, map[], fs)
  {
    var a, b := Fold(cfg, vrfs, map[], es), Fold(cfg, vrfs, map[], fs);
    forall p, nh ensures Cell(a, p, nh) == Cell(b, p, nh) {
      FoldCells(cfg, vrfs, es, vrfOf, p, nh);
      FoldCells(cfg, vrfs, fs, vrfOf, p, nh);
    }
    FoldNoEmpty(cfg, vrfs, es);
    FoldNoEmpty(cfg, vrfs, fs);
    BooksEqual(a, b);
  }

  // ---- Learned prefixes -------------------------------------------------------------------

  lemma {:induction false} LearnedByHistory(es: seq<Event>, v: nat, p: Address)
    ensures var h := NetworkHistory(es, v, p);
            (v, p) in Learned(es) <==> h != [] && !h[|h|-1].withdraw
  {
    if es != [] {
      LearnedByHistory(es[..|es|-1], v, p);
    }
  }

  lemma LearnedEqual(es: seq<Event>, fs: seq<Event>)
    requires forall v, p :: NetworkHistory(es, v, p) == NetworkHistory(fs, v, p)
    ensures Learned(es) == Learned(fs)
  {
    forall k: (nat, Address)
      ensures k in Learned(es) <==> k in Learned(fs)
    {
      LearnedAt(es, fs, k.0, k.1);
    }
  }

  lemma LearnedAt(es: seq<Event>, fs: seq<Event>, v: nat, p: Address)
    requires NetworkHistory(es, v, p) == NetworkHistory(fs, v, p)
    ensures (v, p) in Learned(es) <==> (v, p) in Learned(fs)
  {
    LearnedByHistory(es, v, p);
    LearnedByHistory(fs, v, p);
  }

  // ---- The rest of the state follows ------------------------------------------------------

  /** Every stored route sits in the VRF of its prefix. */
  ghost predicate Placed(st: State, vrfOf: Address -> nat) {
    forall p :: p in st.routes ==> st.routes[p].vrf == vrfOf(p)
  }

  lemma AddFipPlaced(st: State, r: Route, vrf: nat, replies: Replies, vrfOf: Address -> nat)
    requires Inv(st) && r.Shaped() && r.prefix !in st.routes && r.vrf in st.vrfs
    requires Placed(st, vrfOf) && r.vrf == vrfOf(r.prefix)
    ensures Placed(AddFip(st, r, vrf, replies), vrfOf)
  {
    AddFipKeeps(st, r, vrf, replies);
  }

  lemma DelFipPlaced(st: State, p: Address, vrf: nat, replies: Replies, vrfOf: Address -> nat)
    requires Inv(st) && p in st.routes && Placed(st, vrfOf)
    ensures Placed(DelFip(st, st.routes[p], vrf, replies), vrfOf)
  {
    DelFipKeeps(st, p, vrf, replies);
  }

  lemma StepPlaced(cfg: Config, st: State, e: Event, vrfOf: Address -> nat)
    requires Inv(st) && Placed(st, vrfOf)
    requires e.FromFabric? ==> e.update.vrf == vrfOf(e.update.prefix)
    ensures Placed(Step(cfg, st, e).st, vrfOf)
  {
    if e.FromFabric? {
      var u, replies := e.update, e.replies;
      PlanShape(cfg, st, u);
      match Decide(cfg, st, u)
      case Skip =>
      case Fresh(route) => AddFipPlaced(st, route, u.vrf, replies, vrfOf);
      case Drop => DelFipPlaced(st, u.prefix, u.vrf, replies, vrfOf);
      case DropAndPanic => DelFipPlaced(st, u.prefix, u.vrf, replies, vrfOf);
      case Replace(route) =>
        DelFipKeeps(st, u.prefix, u.vrf, replies);
        DelFipPlaced(st, u.prefix, u.vrf, replies, vrfOf);
        AddFipPlaced(DelFip(st, st.routes[u.prefix], u.vrf, replies), route, u.vrf, replies, vrfOf);
    }
  }

  lemma {:induction false} RunPlaced(cfg: Config, st: State, es: seq<Event>, vrfOf: Address -> nat)
    requires Inv(st) && Placed(st, vrfOf) && Regular(es, vrfOf)
    ensures Placed(Run(cfg, st, es).st, vrfOf)
    decreases |es|
  {
    if es != [] {
      RunPlaced(cfg, st, es[..|es|-1], vrfOf);
      StepPlaced(cfg, Run(cfg, st, es[..|es|-1]).st, es[|es|-1], vrfOf);
    }
  }

  /** Equal books mean equal counters. */
  lemma CountersFollow(a: State, b: State, vrfOf: Address -> nat)
    requires Inv(a) && Inv(b) && Placed(a, vrfOf) && Placed(b, vrfOf)
    requires BookOf(a.routes) == BookOf(b.routes)
    ensures forall nh :: UsersOf(a.routes, nh) == UsersOf(b.routes, nh)
    ensures forall v :: RoutesIn(a.routes, v) == RoutesIn(b.routes, v)
  {
    assert forall p :: p in BookOf(a.routes) <==> p in a.routes;
    assert forall p :: p in BookOf(b.routes) <==> p in b.routes;
    forall p, nh | p in a.routes ensures nh in a.routes[p].nextHops <==> nh in b.routes[p].nextHops {
      assert BookOf(a.routes)[p] == a.routes[p].Labels() && BookOf(b.routes)[p] == b.routes[p].Labels();
      assert nh in a.routes[p].Labels() <==> nh in b.routes[p].Labels();
    }
  }

  lemma VrfsFollow(a: State, b: State, start: State)
    requires Inv(a) && Inv(b) && SameAggregates(start.vrfs, a.vrfs) && SameAggregates(start.vrfs, b.vrfs)
    requires forall v :: RoutesIn(a.routes, v) == RoutesIn(b.routes, v)
    ensures a.vrfs == b.vrfs
  {
    forall v | v in a.vrfs ensures a.vrfs[v] == b.vrfs[v] {
    }
  }

  lemma TunnelsFollow(a: State, b: State)
    requires Inv(a) && Inv(b) && Tight(a) && Tight(b)
    requires forall nh :: UsersOf(a.routes, nh) == UsersOf(b.routes, nh)
    ensures a.tunnels.Keys == b.tunnels.Keys
    ensures forall nh :: nh in a.tunnels ==> a.tunnels[nh].served == b.tunnels[nh].served
  {
    forall nh ensures nh in a.tunnels <==> nh in b.tunnels {
      StoredExactlyWhileUsed(a, nh);
      StoredExactlyWhileUsed(b, nh);
      assert (exists p :: p in a.routes && nh in a.routes[p].nextHops) <==> UsersOf(a.routes, nh) != {} by {
        if p :| p in a.routes && nh in a.routes[p].nextHops { assert p in UsersOf(a.routes, nh); }
      }
      assert (exists p :: p in b.routes && nh in b.routes[p].nextHops) <==> UsersOf(b.routes, nh) != {} by {
        if p :| p in b.routes && nh in b.routes[p].nextHops { assert p in UsersOf(b.routes, nh); }
      }
    }
  }

  /** A run that went well: it did not crash, VPP and BGP carried out every call, and every event was
      harmless to the originated set. */
  ghost predicate Clean(cfg: Config, st: State, es: seq<Event>)
    requires Inv(st)
  {
    Run(cfg, st, es).Running? && AllOk(Run(cfg, st, es).st.log) && Accepted(es) && HarmlessRun(cfg, st, es)
  }

  /** Two clean runs whose updates agree per (prefix, next hop) and per learned prefix end with
      the same next hops and labels, the same counters and the same originated prefixes, however
      the updates were interleaved; tunnel IDs and the order of paths may differ. */
  lemma Confluence(cfg: Config, st: State, es: seq<Event>, fs: seq<Event>, vrfOf: Address -> nat)
    requires Booted(st) && st.vpp.tunnels == {} && st.originated == {} && Inv(st)
    requires Clean(cfg, st, es) && Clean(cfg, st, fs) && Regular(es, vrfOf) && Regular(fs, vrfOf)
    requires forall p, nh :: History(es, p, nh) == History(fs, p, nh)
    requires forall v, p :: NetworkHistory(es, v, p) == NetworkHistory(fs, v, p)
    ensures var a, b := Run(cfg, st, es).st, Run(cfg, st, fs).st;
            && BookOf(a.routes) == BookOf(b.routes)
            && a.vrfs == b.vrfs
            && a.tunnels.Keys == b.tunnels.Keys
            && (forall nh :: nh in a.tunnels ==> a.tunnels[nh].served == b.tunnels[nh].served)
            && a.originated == b.originated
  {
    var a, b := Run(cfg, st, es).st, Run(cfg, st, fs).st;
    RunIsFold(cfg, st, es);
    RunIsFold(cfg, st, fs);
    FoldsEqual(cfg, st.vrfs.Keys, es, fs, vrfOf);
    RunPlaced(cfg, st, es, vrfOf);
    RunPlaced(cfg, st, fs, vrfOf);
    CountersFollow(a, b, vrfOf);
    RunAdvertises(cfg, st, es);
    RunAdvertises(cfg, st, fs);
    VrfsFollow(a, b, st);
    LearnedEqual(es, fs);
    RunExact(cfg, st, es);
    RunExact(cfg, st, fs);
    TunnelsFollow(a, b);
  }

  // ---- Which updates commute --------------------------------------------------------------

  /** An advertisement without a label starts a prefix but does not join one. */
  predicate Bare(u: Update) {
    !u.withdraw && u.mplsLabel == 0
  }

  /** Two updates of one prefix that both count, one of them bare. */
  predicate Clash(cfg: Config, vrfs: set<nat>, u: Update, w: Update) {
    && u.prefix == w.prefix && Relevant(cfg, vrfs, u) && Relevant(cfg, vrfs, w)
    && (Bare(u) || Bare(w))
  }

  predicate CommuteOn(cfg: Config, vrfs: set<nat>, b: Book, u: Update, w: Update) {
    FoldStep(cfg, vrfs, FoldStep(cfg, vrfs, b, u), w) == FoldStep(cfg, vrfs, FoldStep(cfg, vrfs, b, w), u)
  }

  /** Two updates of different paths commute on every book without empty entries exactly when they do
      not clash. */
  lemma CommuteExactly(cfg: Config, vrfs: set<nat>, u: Update, w: Update)
    requires (u.prefix, u.nextHop) != (w.prefix, w.nextHop)
    ensures (forall b :: NoEmpty(b) ==> CommuteOn(cfg, vrfs, b, u, w)) <==> !Clash(cfg, vrfs, u, w)
  {
    if Clash(cfg, vrfs, u, w) {
      ClashShows(cfg, vrfs, u, w);
    } else {
      forall b | NoEmpty(b)
        ensures CommuteOn(cfg, vrfs, b, u, w)
      {
        Commute(cfg, vrfs, b, u, w);
      }
    }
  }

  /** Only the entry of the update's prefix changes, and only by what that entry is. */
  lemma FoldStepLocal(cfg: Config, vrfs: set<nat>, a: Book, b: Book, u: Update)
    requires u.prefix in a <==> u.prefix in b
    requires u.prefix in a ==> a[u.prefix] == b[u.prefix]
    ensures var (x, y) := (FoldStep(cfg, vrfs, a, u), FoldStep(cfg, vrfs, b, u));
            && (u.prefix in x <==> u.prefix in y) && (u.prefix in x ==> x[u.prefix] == y[u.prefix])
            && x - {u.prefix} == a - {u.prefix}
  {
  }

  lemma CommuteApart(cfg: Config, vrfs: set<nat>, b: Book, u: Update, w: Update)
    requires u.prefix != w.prefix
    ensures CommuteOn(cfg, vrfs, b, u, w)
  {
    var p, q := u.prefix, w.prefix;
    var bu, bw := FoldStep(cfg, vrfs, b, u), FoldStep(cfg, vrfs, b, w);
    var x, y := FoldStep(cfg, vrfs, bu, w), FoldStep(cfg, vrfs, bw, u);
    FoldStepLocal(cfg, vrfs, b, b, u);
    FoldStepLocal(cfg, vrfs, b, b, w);
    Untouched(b, bu, p, q);
    Untouched(b, bw, q, p);
    FoldStepLocal(cfg, vrfs, bu, b, w);
    FoldStepLocal(cfg, vrfs, bw, b, u);
    forall k
      ensures k in x <==> k in y
      ensures k in x ==> x[k] == y[k]
    {
      Untouched(bu, x, q, k);
      Untouched(bw, y, p, k);
      Untouched(b, bu, p, k);
      Untouched(b, bw, q, k);
    }
  }

  lemma Untouched(a: Book, b: Book, p: Address, k: Address)
    requires b - {p} == a - {p}
    ensures k != p ==> (k in a <==> k in b) && (k in a ==> a[k] == b[k])
  {
    if k != p {
      assert k in a <==> k in a - {p};
      assert k in b <==> k in b - {p};
      assert k in a ==> (a - {p})[k] == a[k];
      assert k in b ==> (b - {p})[k] == b[k];
    }
  }

  lemma Commute(cfg: Config, vrfs: set<nat>, b: Book, u: Update, w: Update)
    requires (u.prefix, u.nextHop) != (w.prefix, w.nextHop) && !Clash(cfg, vrfs, u, w) && NoEmpty(b)
    ensures CommuteOn(cfg, vrfs, b, u, w)
  {
    if u.prefix != w.prefix {
      CommuteApart(cfg, vrfs, b, u, w);
    } else if Relevant(cfg, vrfs, u) && Relevant(cfg, vrfs, w) {
      CommuteCells(cfg, vrfs, b, u, w);
    }
  }

  lemma CommuteCells(cfg: Config, vrfs: set<nat>, b: Book, u: Update, w: Update)
    requires (u.prefix, u.nextHop) != (w.prefix, w.nextHop) && !Bare(u) && !Bare(w) && NoEmpty(b)
    ensures CommuteOn(cfg, vrfs, b, u, w)
  {
    var bu, bw := FoldStep(cfg, vrfs, b, u), FoldStep(cfg, vrfs, b, w);
    var x, y := FoldStep(cfg, vrfs, bu, w), FoldStep(cfg, vrfs, bw, u);
    FoldStepNoEmpty(cfg, vrfs, b, u);
    FoldStepNoEmpty(cfg, vrfs, b, w);
    FoldStepNoEmpty(cfg, vrfs, bu, w);
    FoldStepNoEmpty(cfg, vrfs, bw, u);
    forall p, nh
      ensures Cell(x, p, nh) == Cell(y, p, nh)
    {
      FoldStepCell(cfg, vrfs, b, u, p, nh);
      FoldStepCell(cfg, vrfs, b, w, p, nh);
      FoldStepCell(cfg, vrfs, bu, w, p, nh);
      FoldStepCell(cfg, vrfs, bw, u, p, nh);
    }
    BooksEqual(x, y);
  }

  /** A book on which a clash shows: the empty one for two advertisements, the one that holds the
      withdrawn path alone for an advertisement and a withdrawal. */
  function ClashBook(u: Update, w: Update): Book {
    if u.withdraw then map[u.prefix := map[u.nextHop := u.mplsLabel]]
    else if w.withdraw then map[w.prefix := map[w.nextHop := w.mplsLabel]]
    else map[]
  }

  lemma ClashShows(cfg: Config, vrfs: set<nat>, u: Update, w: Update)
    requires u.nextHop != w.nextHop && Clash(cfg, vrfs, u, w)
    ensures NoEmpty(ClashBook(u, w)) && !CommuteOn(cfg, vrfs, ClashBook(u, w), u, w)
  {
    if Bare(u) {
      BareClash(cfg, vrfs, u, w);
    } else {
      BareClash(cfg, vrfs, w, u);
    }
  }

  /** The bare update gets in exactly when it comes at the right moment. */
  lemma BareClash(cfg: Config, vrfs: set<nat>, u: Update, w: Update)
    requires u.nextHop != w.nextHop && Clash(cfg, vrfs, u, w) && Bare(u)
    ensures NoEmpty(ClashBook(u, w)) && ClashBook(u, w) == ClashBook(w, u)
    ensures !CommuteOn(cfg, vrfs, ClashBook(u, w), u, w)
  {
    var b, p := ClashBook(u, w), u.prefix;
    if w.withdraw {
      assert w.nextHop in b[p];
      assert map[w.nextHop := w.mplsLabel] - {w.nextHop} == map[];
      assert p !in FoldStep(cfg, vrfs, b, w);
      assert p in FoldStep(cfg, vrfs, FoldStep(cfg, vrfs, b, w), u);
      assert FoldStep(cfg, vrfs, b, u) == b;
    } else {
      var x := FoldStep(cfg, vrfs, FoldStep(cfg, vrfs, b, u), w);
      var y := FoldStep(cfg, vrfs, FoldStep(cfg, vrfs, b, w), u);
      assert u.nextHop in x[p];
      assert u.nextHop !in y[p];
    }
  }
}
