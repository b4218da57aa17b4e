/** Floating-IP routes: three parallel lists of next hops, tunnel IDs and MPLS labels
    (internal/model/vpp_route.go), and the way one path is added to or removed from them.

    `AddPath` is modelled with its defect: after removing an old path it goes on ranging
    over the old length and indexes past the end of the shortened list. */
module Routes {

  /** IP addresses and prefixes are only ever compared, so each text stands as a number. */
  type Address = nat

  /** The empty string. */
  const NO_ADDRESS: Address := 0

  /** `model.UndefinedTunnelID`. */
  const UNDEFINED_TUNNEL: nat := 0xFFFF_FFFF

  /** One path of a route as VPP sees it. */
  datatype Path = Path(nextHop: Address, tunnelId: nat, mplsLabel: nat)

  /** `model.VPPIPRoute` without the interface indices. */
  datatype Route = Route(
    vrf: nat, prefix: Address, nextHops: seq<Address>, tunnelIds: seq<nat>, labels: seq<nat>)
  {
    ghost predicate Parallel() {
      |nextHops| == |tunnelIds| == |labels|
    }

    ghost predicate Distinct() {
      DistinctKeys(nextHops)
    }

    /** The shape every stored route has. */
    ghost predicate Shaped() {
      Parallel() && Distinct() && |nextHops| > 0
    }

    /** The paths handed to VPP. */
    function Paths(): set<Path> {
      set i | 0 <= i < |nextHops| && i < |tunnelIds| && i < |labels| ::
        Path(nextHops[i], tunnelIds[i], labels[i])
    }

    /** The route read as a map from next hop to label. */
    ghost function Labels(): map<Address, nat>
      requires Parallel()
    {
      map nh | nh in nextHops :: labels[IndexOf(nextHops, nh)]
    }
  }

  /** VPP is to reach next hop `nextHops[i]` through tunnel `tunnelIds[i]` with label `labels[i]`. */
  ghost predicate Names(r: Route, path: Path)
    requires r.Parallel()
  {
    exists i :: 0 <= i < |r.nextHops|
      && path.nextHop == r.nextHops[i] && path.tunnelId == r.tunnelIds[i] && path.mplsLabel == r.labels[i]
  }

  lemma PathsByPosition(r: Route)
    requires r.Parallel()
    ensures forall path :: path in r.Paths() <==> Names(r, path)
  {
    forall path | Names(r, path)
      ensures path in r.Paths()
    {
      var i :| 0 <= i < |r.nextHops|
        && path.nextHop == r.nextHops[i] && path.tunnelId == r.tunnelIds[i] && path.mplsLabel == r.labels[i];
      assert path == Path(r.nextHops[i], r.tunnelIds[i], r.labels[i]);
    }
  }

  ghost predicate DistinctKeys(keys: seq<Address>) {
    forall i, j :: 0 <= i < j < |keys| ==> keys[i] != keys[j]
  }

  function IndexOf(s: seq<Address>, x: Address): (i: nat)
    ensures i <= |s|
    ensures i < |s| ==> s[i] == x
    ensures forall j :: 0 <= j < i ==> s[j] != x
    ensures i == |s| <==> x !in s
  {
    if s == [] then 0 else if s[0] == x then 0 else 1 + IndexOf(s[1..], x)
  }

  function Without<T>(s: seq<T>, i: nat): seq<T>
    requires i < |s|
  {
    s[..i] + s[i+1..]
  }

  /** What `AddPath` does: `Panicked` is Go's index-out-of-range panic. */
  datatype Added = Panicked | Edited(route: Route)

  /** The guard at the top of `AddPath`. */
  predicate Ignored(nextHop: Address, tunnelId: nat, mplsLabel: nat) {
    nextHop == NO_ADDRESS || tunnelId == 0 || mplsLabel == 0
  }

  ghost function PathDeleted(r: Route, nextHop: Address): Route
    requires r.Parallel()
  {
    var i := IndexOf(r.nextHops, nextHop);
    if i == |r.nextHops| then r
    else r.(nextHops := Without(r.nextHops, i),
            tunnelIds := Without(r.tunnelIds, i),
            labels := Without(r.labels, i))
  }

  function Appended(r: Route, nextHop: Address, tunnelId: nat, mplsLabel: nat): Route {
    r.(nextHops := r.nextHops + [nextHop], tunnelIds := r.tunnelIds + [tunnelId], labels := r.labels + [mplsLabel])
  }

  ghost function PathAdded(r: Route, nextHop: Address, tunnelId: nat, mplsLabel: nat): Added
    requires r.Parallel()
  {
    if Ignored(nextHop, tunnelId, mplsLabel) then Edited(r)
    else if IndexOf(r.nextHops, nextHop) + 1 < |r.nextHops| then Panicked
    else Edited(Appended(PathDeleted(r, nextHop), nextHop, tunnelId, mplsLabel))
  }

  // ---- The object edited in place --------------------------------------------------------

  class FipRoute {
    const vrf: nat
    const prefix: Address
    var nextHops: seq<Address>
    var tunnelIds: seq<nat>
    var labels: seq<nat>

    constructor (r: Route)
      ensures Value() == r
    {
      vrf, prefix := r.vrf, r.prefix;
      nextHops, tunnelIds, labels := r.nextHops, r.tunnelIds, r.labels;
    }

    /** The copy Go makes when the struct is passed by value. */
    function Value(): Route
      reads this
    {
      Route(vrf, prefix, nextHops, tunnelIds, labels)
    }

    /** The loop as written: the bound `n` is fixed before the first removal, so the check of
        `nextHops[i]` comes after the list may have become shorter. */
    method AddPath(nextHop: Address, tunnelId: nat, mplsLabel: nat) returns (panicked: bool)
      requires Value().Parallel()
      modifies this
      ensures panicked <==> PathAdded(old(Value()), nextHop, tunnelId, mplsLabel).Panicked?
      ensures !panicked ==> PathAdded(old(Value()), nextHop, tunnelId, mplsLabel) == Edited(Value())
    {
      if nextHop == NO_ADDRESS || tunnelId == 0 || mplsLabel == 0 {
        return false;
      }
      ghost var was := Value();
      ghost var first := IndexOf(was.nextHops, nextHop);
      if |nextHops| != 0 {
        var n := |nextHops|;
        for i := 0 to n
          invariant i <= first ==> Value() == was
          invariant first < i ==> first + 1 <= n && |nextHops| <= n - 1 && Value().Parallel()
          invariant first < i == n ==> first + 1 == n
          invariant first < i && first + 1 == n ==>
                      && nextHops == was.nextHops[..first]
                      && tunnelIds == was.tunnelIds[..first]
                      && labels == was.labels[..first]
        {
          if i >= |nextHops| {
            return true;
          }
          if nextHops[i] == nextHop {
            nextHops := nextHops[..i] + nextHops[i+1..];
            tunnelIds := tunnelIds[..i] + tunnelIds[i+1..];
            labels := labels[..i] + labels[i+1..];
          }
        }
      }
      nextHops := nextHops + [nextHop];
      tunnelIds := tunnelIds + [tunnelId];
      labels := labels + [mplsLabel];
      return false;
    }

    method DelPath(nextHop: Address)
      requires Value().Parallel()
      modifies this
      ensures Value() == PathDeleted(old(Value()), nextHop)
    {
      if |nextHops| == 1 && nextHops[0] == nextHop {
        nextHops, tunnelIds, labels := [], [], [];
        return;
      }
      for i := 0 to |nextHops|
        invariant Value() == old(Value())
        invariant forall j :: 0 <= j < i ==> nextHops[j] != nextHop
      {
        if nextHops[i] == nextHop {
          nextHops := nextHops[..i] + nextHops[i+1..];
          tunnelIds := tunnelIds[..i] + tunnelIds[i+1..];
          labels := labels[..i] + labels[i+1..];
          return;
        }
      }
    }
  }

  // ---- What the edits mean ---------------------------------------------------------------

  /** `AddPath` indexes past the end exactly when the next hop is already there and its first
      occurrence is not the last element; this holds for every list, even one with duplicates. */
  lemma AddPathPanicsExactly(r: Route, nextHop: Address, tunnelId: nat, mplsLabel: nat)
    requires r.Parallel()
    ensures PathAdded(r, nextHop, tunnelId, mplsLabel).Panicked? <==>
            && nextHop != NO_ADDRESS && tunnelId != 0 && mplsLabel != 0
            && exists i :: 0 <= i < |r.nextHops| - 1 && r.nextHops[i] == nextHop
  {
    var i := IndexOf(r.nextHops, nextHop);
    if i + 1 < |r.nextHops| {
      assert 0 <= i < |r.nextHops| - 1 && r.nextHops[i] == nextHop;
    }
  }

  lemma PanicExample()
    ensures var r := Route(1, 9, [1, 2], [1, 2], [10, 20]);
            r.Shaped() && PathAdded(r, 1, 1, 11).Panicked?
  {
    var s := [1, 2];
    assert s[0] == 1;
    assert IndexOf(s, 1) == 0;
  }

  /** With distinct next hops, the k-th next hop has the k-th label. */
  lemma AtPosition(r: Route, k: nat)
    requires r.Parallel() && r.Distinct() && k < |r.nextHops|
    ensures r.nextHops[k] in r.Labels() && r.Labels()[r.nextHops[k]] == r.labels[k]
  {
    assert IndexOf(r.nextHops, r.nextHops[k]) == k;
  }

  /** The positions pin the map down. */
  lemma LabelsByPosition(r: Route, m: map<Address, nat>)
    requires r.Parallel() && r.Distinct()
    requires forall k :: 0 <= k < |r.nextHops| ==> r.nextHops[k] in m && m[r.nextHops[k]] == r.labels[k]
    requires forall nh :: nh in m ==> nh in r.nextHops
    ensures r.Labels() == m
  {
    forall nh | nh in r.nextHops ensures nh in m && r.Labels()[nh] == m[nh] {
      AtPosition(r, IndexOf(r.nextHops, nh));
    }
  }

  lemma LabelsAppend(r: Route, nextHop: Address, tunnelId: nat, mplsLabel: nat)
    requires r.Parallel() && r.Distinct() && nextHop !in r.nextHops
    ensures var q := Appended(r, nextHop, tunnelId, mplsLabel);
            q.Shaped() && q.Labels() == r.Labels()[nextHop := mplsLabel]
  {
    var q := Appended(r, nextHop, tunnelId, mplsLabel);
    var m := r.Labels()[nextHop := mplsLabel];
    var n := |r.nextHops|;
    assert q.nextHops[n] == nextHop;
    forall k | 0 <= k < |q.nextHops| ensures q.nextHops[k] in m && m[q.nextHops[k]] == q.labels[k] {
      if k < n {
        assert q.nextHops[k] == r.nextHops[k] && q.nextHops[k] != q.nextHops[n];
        AtPosition(r, k);
      }
    }
    forall nh | nh in m ensures nh in q.nextHops {
      if nh in r.nextHops {
        assert q.nextHops[IndexOf(r.nextHops, nh)] == nh;
      }
    }
    LabelsByPosition(q, m);
  }

  lemma LabelsDrop(r: Route, q: Route, i: nat)
    requires r.Parallel() && r.Distinct() && q.Parallel() && q.Distinct() && i < |r.nextHops|
    requires |q.nextHops| == |r.nextHops| - 1
    requires forall k :: 0 <= k < |q.nextHops| ==>
               q.nextHops[k] == r.nextHops[Before(i, k)] && q.labels[k] == r.labels[Before(i, k)]
    ensures q.Labels() == r.Labels() - {r.nextHops[i]}
  {
    var m := r.Labels() - {r.nextHops[i]};
    forall k | 0 <= k < |q.nextHops| ensures q.nextHops[k] in m && m[q.nextHops[k]] == q.labels[k] {
      AtPosition(r, Before(i, k));
    }
    forall nh | nh in m ensures nh in q.nextHops {
      var k := IndexOf(r.nextHops, nh);
      assert q.nextHops[if k < i then k else k - 1] == nh;
    }
    LabelsByPosition(q, m);
  }

  lemma SetAfterRemove<K, V>(m: map<K, V>, x: K, v: V)
    ensures (m - {x})[x := v] == m[x := v]
  {
  }

  /** Without a next hop, a tunnel ID or a label nothing is added, and nothing panics. */
  lemma AddPathIgnores(r: Route, nextHop: Address, tunnelId: nat, mplsLabel: nat)
    requires r.Parallel() && (nextHop == NO_ADDRESS || tunnelId == 0 || mplsLabel == 0)
    ensures PathAdded(r, nextHop, tunnelId, mplsLabel) == Edited(r)
  {
  }

  /** Adding a path keeps the shape and sets the label of that next hop alone. */
  lemma AddPathMeaning(r: Route, nextHop: Address, tunnelId: nat, mplsLabel: nat)
    requires r.Parallel() && r.Distinct()
    requires nextHop != NO_ADDRESS && tunnelId != 0 && mplsLabel != 0
    requires PathAdded(r, nextHop, tunnelId, mplsLabel).Edited?
    ensures var q := PathAdded(r, nextHop, tunnelId, mplsLabel).route;
            && q.Shaped() && q.vrf == r.vrf && q.prefix == r.prefix
            && q.Labels() == r.Labels()[nextHop := mplsLabel]
  {
    DelPathMeaning(r, nextHop);
    LabelsAppend(PathDeleted(r, nextHop), nextHop, tunnelId, mplsLabel);
    SetAfterRemove(r.Labels(), nextHop, mplsLabel);
  }

  /** Where the k-th element of a list shortened at i stood before. */
  function Before(i: nat, k: nat): nat {
    if k < i then k else k + 1
  }

  /** The others keep their order, their tunnels and their labels. */
  lemma DelPathShape(r: Route, nextHop: Address)
    requires r.Parallel() && r.Distinct()
    ensures var q, i := PathDeleted(r, nextHop), IndexOf(r.nextHops, nextHop);
            && q.Parallel() && q.Distinct() && nextHop !in q.nextHops
            && |q.nextHops| == |r.nextHops| - (if nextHop in r.nextHops then 1 else 0)
            && (forall k :: 0 <= k < |q.nextHops| ==>
              && q.nextHops[k] == r.nextHops[Before(i, k)]
              && q.tunnelIds[k] == r.tunnelIds[Before(i, k)]
              && q.labels[k] == r.labels[Before(i, k)])
  {
    var i := IndexOf(r.nextHops, nextHop);
    if i < |r.nextHops| {
      WithoutAt(r.nextHops, i);
      WithoutAt(r.tunnelIds, i);
      WithoutAt(r.labels, i);
    }
  }

  lemma WithoutAt<T>(s: seq<T>, i: nat)
    requires i < |s|
    ensures |Without(s, i)| == |s| - 1
    ensures forall k :: 0 <= k < |s| - 1 ==> Without(s, i)[k] == s[Before(i, k)]
  {
  }

  /** The added path is the last one, with its own tunnel and label; before it come the others, in their
      order. */
  lemma AddPathShape(r: Route, nextHop: Address, tunnelId: nat, mplsLabel: nat)
    requires r.Parallel() && r.Distinct() && nextHop != NO_ADDRESS && tunnelId != 0 && mplsLabel != 0
    requires PathAdded(r, nextHop, tunnelId, mplsLabel).Edited?
    ensures var q := PathAdded(r, nextHop, tunnelId, mplsLabel).route;
            var n := if nextHop in r.nextHops then |r.nextHops| - 1 else |r.nextHops|;
            && |q.nextHops| == |q.tunnelIds| == |q.labels| == n + 1
            && q.nextHops[n] == nextHop && q.tunnelIds[n] == tunnelId && q.labels[n] == mplsLabel
            && q.nextHops[..n] == r.nextHops[..n] && q.tunnelIds[..n] == r.tunnelIds[..n]
            && q.labels[..n] == r.labels[..n]
  {
  }

  /** Deleting a path removes that next hop alone. */
  lemma DelPathMeaning(r: Route, nextHop: Address)
    requires r.Parallel() && r.Distinct()
    ensures var q := PathDeleted(r, nextHop);
            && q.vrf == r.vrf && q.prefix == r.prefix
            && q.Parallel() && q.Distinct() && nextHop !in q.nextHops
            && q.Labels() == r.Labels() - {nextHop}
  {
    DelPathShape(r, nextHop);
    var i := IndexOf(r.nextHops, nextHop);
    if i < |r.nextHops| {
      LabelsDrop(r, PathDeleted(r, nextHop), i);
    } else {
      assert r.Labels() - {nextHop} == r.Labels();
    }
  }

  /** Deleting a freshly added path restores the route. */
  lemma DelUndoesAdd(r: Route, nextHop: Address, tunnelId: nat, mplsLabel: nat)
    requires r.Parallel() && nextHop !in r.nextHops
    requires nextHop != NO_ADDRESS && tunnelId != 0 && mplsLabel != 0
    ensures PathAdded(r, nextHop, tunnelId, mplsLabel).Edited?
    ensures PathDeleted(PathAdded(r, nextHop, tunnelId, mplsLabel).route, nextHop) == r
  {
    var n := |r.nextHops|;
    var q := PathAdded(r, nextHop, tunnelId, mplsLabel).route;
    assert q.nextHops[n] == nextHop;
    assert forall j :: 0 <= j < n ==> q.nextHops[j] == r.nextHops[j];
    assert IndexOf(q.nextHops, nextHop) == n;
    var d := PathDeleted(q, nextHop);
    assert d.nextHops == r.nextHops && d.tunnelIds == r.tunnelIds && d.labels == r.labels;
  }
}
