/** Clearing VPP at start (internal/repository/vpp/initialize/clear_config.go:55-109): floating-IP
    routes are dumped and deleted, and so are UDP tunnels, with tunnel IDs that come back through
    a lossy decoding (internal/repository/vpp/vpp.go:821-848). */
module ClearConfig {
  import opened Routes

  type Key = (nat, Address)

  /** Routing table and prefix to the UDP-encap paths of the entry, in dump order. */
  type Fib = map<Key, seq<Path>>

  /** `model.VPPIPRoute` as a dump makes it. */
  datatype Record = Record(key: Key, paths: seq<Path>)

  // ---- Tunnel IDs in a dump ---------------------------------------------------------------

  /** The object ID comes in the other byte order. */
  function ByteSwap(x: nat): nat {
    x % 0x100 * 0x100_0000 + UpperBytesSwapped(x)
  }

  function UpperBytesSwapped(x: nat): nat {
    x / 0x100 % 0x100 * 0x1_0000 + x / 0x1_0000 % 0x100 * 0x100 + x / 0x100_0000 % 0x100
  }

  function DumpedId(id: nat): nat {
    ByteSwap(id) / 0x100_0000
  }

  /** Dividing by 2^24 recovers the lowest byte of the ID, so exactly the IDs below 256. */
  lemma DumpedIdIsLowByte(id: nat)
    ensures DumpedId(id) == id % 256
    ensures DumpedId(id) == id <==> id < 256
  {
    assert UpperBytesSwapped(id) < 0x100_0000;
  }

  function Dumped(p: Path): Path {
    p.(tunnelId := DumpedId(p.tunnelId))
  }

  function DumpedPaths(ps: seq<Path>): seq<Path> {
    seq(|ps|, i requires 0 <= i < |ps| => Dumped(ps[i]))
  }

  // ---- Deleting from the FIB --------------------------------------------------------------

  function Entry(fib: Fib, key: Key): seq<Path> {
    if key in fib then fib[key] else []
  }

  function WithEntry(fib: Fib, key: Key, ps: seq<Path>): Fib {
    if ps == [] then fib - {key} else fib[key := ps]
  }

  function Except(ps: seq<Path>, gone: seq<Path>): seq<Path> {
    if ps == [] then []
    else Except(ps[..|ps|-1], gone) + if ps[|ps|-1] in gone then [] else [ps[|ps|-1]]
  }

  /** What is left of an entry: with `IsMultipath` the named paths go, otherwise all of them. */
  function Remaining(ps: seq<Path>, named: seq<Path>): seq<Path> {
    if |named| > 1 then Except(ps, named) else []
  }

  function Delete(fib: Fib, r: Record): Fib {
    WithEntry(fib, r.key, Remaining(Entry(fib, r.key), r.paths))
  }

  function DeleteAll(fib: Fib, rs: seq<Record>): Fib {
    if rs == [] then fib else Delete(DeleteAll(fib, rs[..|rs|-1]), rs[|rs|-1])
  }

  ghost predicate NoEmptyEntry(fib: Fib) {
    forall key :: key in fib ==> fib[key] != []
  }

  ghost predicate DistinctRecords(rs: seq<Record>) {
    forall i, j :: 0 <= i < j < |rs| ==> rs[i].key != rs[j].key
  }

  ghost predicate IsDump(rs: seq<Record>, fib: Fib) {
    && DistinctRecords(rs)
    && (forall i :: 0 <= i < |rs| ==> rs[i].key in fib && rs[i].paths == DumpedPaths(fib[rs[i].key]))
    && (forall key :: key in fib ==> exists i :: 0 <= i < |rs| && rs[i].key == key)
  }

  lemma {:induction false} ExceptMembers(ps: seq<Path>, gone: seq<Path>)
    ensures forall p :: p in Except(ps, gone) <==> p in ps && p !in gone
  {
    if ps != [] {
      var n := |ps| - 1;
      ExceptMembers(ps[..n], gone);
      assert ps == ps[..n] + [ps[n]];
    }
  }

  lemma {:induction false} ExceptNone(ps: seq<Path>, gone: seq<Path>)
    requires forall p :: p in ps ==> p !in gone
    ensures Except(ps, gone) == ps
  {
    if ps != [] {
      ExceptNone(ps[..|ps|-1], gone);
    }
  }

  lemma DeleteTwice(fib: Fib, r: Record)
    ensures Delete(Delete(fib, r), r) == Delete(fib, r)
  {
    var ps := Entry(fib, r.key);
    ExceptMembers(ps, r.paths);
    ExceptNone(Except(ps, r.paths), r.paths);
  }

  lemma DeleteAt(fib: Fib, r: Record, key: Key)
    requires NoEmptyEntry(fib)
    ensures NoEmptyEntry(Delete(fib, r))
    ensures Entry(Delete(fib, r), key) == if key == r.key then Remaining(Entry(fib, key), r.paths) else Entry(fib, key)
  {
  }

  /** Records for other keys leave an entry alone. */
  lemma {:induction false} DeleteAllElsewhere(fib: Fib, rs: seq<Record>, key: Key)
    requires NoEmptyEntry(fib) && forall i :: 0 <= i < |rs| ==> rs[i].key != key
    ensures NoEmptyEntry(DeleteAll(fib, rs)) && Entry(DeleteAll(fib, rs), key) == Entry(fib, key)
  {
    if rs != [] {
      DeleteAllElsewhere(fib, rs[..|rs|-1], key);
      DeleteAt(DeleteAll(fib, rs[..|rs|-1]), rs[|rs|-1], key);
    }
  }

  /** Of records with keys of their own, one changes the entry. */
  lemma {:induction false} DeleteAllAt(fib: Fib, rs: seq<Record>, k: nat)
    requires DistinctRecords(rs) && NoEmptyEntry(fib) && k < |rs|
    ensures NoEmptyEntry(DeleteAll(fib, rs))
    ensures Entry(DeleteAll(fib, rs), rs[k].key) == Remaining(Entry(fib, rs[k].key), rs[k].paths)
  {
    var n := |rs| - 1;
    if k < n {
      DeleteAllAt(fib, rs[..n], k);
    } else {
      DeleteAllElsewhere(fib, rs[..n], rs[n].key);
    }
    DeleteAt(DeleteAll(fib, rs[..n]), rs[n], rs[k].key);
  }

  // ---- What clearing leaves ---------------------------------------------------------------

  /** Deleting an entry by its own dump. */
  function Stripped(ps: seq<Path>): seq<Path> {
    Remaining(ps, DumpedPaths(ps))
  }

  /** Some dumped tunnel carries one of the dumped IDs of the entry. */
  predicate Linked(dumped: seq<Path>, ids: set<nat>) {
    exists i :: 0 <= i < |dumped| && dumped[i].tunnelId in ids
  }

  /** The records that the first pass deletes. */
  function LinkedRecords(rs: seq<Record>, ids: set<nat>): seq<Record> {
    if rs == [] then []
    else LinkedRecords(rs[..|rs|-1], ids) + if Linked(rs[|rs|-1].paths, ids) then [rs[|rs|-1]] else []
  }

  /** An entry is deleted by its dump twice when some tunnel was linked to it, else once. */
  function Survives(ps: seq<Path>, ids: set<nat>): seq<Path> {
    Stripped(if Linked(DumpedPaths(ps), ids) then Stripped(ps) else ps)
  }

  ghost predicate Cleared(before: Fib, ids: set<nat>, after: Fib) {
    && NoEmptyEntry(after)
    && forall key :: Entry(after, key) == Survives(Entry(before, key), ids)
  }

  lemma {:induction false} LinkedRecordsAre(rs: seq<Record>, ids: set<nat>)
    ensures forall r :: r in LinkedRecords(rs, ids) <==> r in rs && Linked(r.paths, ids)
    ensures DistinctRecords(rs) ==> DistinctRecords(LinkedRecords(rs, ids))
  {
    if rs != [] {
      var n := |rs| - 1;
      LinkedRecordsAre(rs[..n], ids);
      assert rs == rs[..n] + [rs[n]];
      if DistinctRecords(rs) {
        assert forall r :: r in rs[..n] ==> r.key != rs[n].key;
      }
    }
  }

  lemma FirstPassAt(fib: Fib, rs: seq<Record>, ids: set<nat>, key: Key)
    requires NoEmptyEntry(fib) && IsDump(rs, fib)
    ensures var middle := DeleteAll(fib, LinkedRecords(rs, ids)); var ps := Entry(fib, key);
            NoEmptyEntry(middle)
            && Entry(middle, key) == if Linked(DumpedPaths(ps), ids) then Stripped(ps) else ps
  {
    var some := LinkedRecords(rs, ids);
    LinkedRecordsAre(rs, ids);
    if Linked(DumpedPaths(Entry(fib, key)), ids) {
      var i :| 0 <= i < |rs| && rs[i].key == key;
      assert rs[i] in some;
      var k :| 0 <= k < |some| && some[k] == rs[i];
      DeleteAllAt(fib, some, k);
    } else {
      forall k | 0 <= k < |some|
        ensures some[k].key != key
      {
        assert some[k] in rs;
      }
      DeleteAllElsewhere(fib, some, key);
    }
  }

  lemma LastPassAt(fib: Fib, rs: seq<Record>, key: Key)
    requires NoEmptyEntry(fib) && IsDump(rs, fib)
    ensures NoEmptyEntry(DeleteAll(fib, rs)) && Entry(DeleteAll(fib, rs), key) == Stripped(Entry(fib, key))
  {
    if key in fib {
      var i :| 0 <= i < |rs| && rs[i].key == key;
      DeleteAllAt(fib, rs, i);
    } else {
      DeleteAllElsewhere(fib, rs, key);
    }
  }

  lemma BothPasses(fib: Fib, first: seq<Record>, ids: set<nat>, last: seq<Record>)
    requires NoEmptyEntry(fib) && IsDump(first, fib)
    requires IsDump(last, DeleteAll(fib, LinkedRecords(first, ids)))
    ensures Cleared(fib, ids, DeleteAll(DeleteAll(fib, LinkedRecords(first, ids)), last))
  {
    var middle := DeleteAll(fib, LinkedRecords(first, ids));
    FirstPassAt(fib, first, ids, (0, 0));
    LastPassAt(middle, last, (0, 0));
    forall key
      ensures Entry(DeleteAll(middle, last), key) == Survives(Entry(fib, key), ids)
    {
      BothPassesAt(fib, first, ids, last, key);
    }
  }

  lemma BothPassesAt(fib: Fib, first: seq<Record>, ids: set<nat>, last: seq<Record>, key: Key)
    requires NoEmptyEntry(fib) && IsDump(first, fib)
    requires IsDump(last, DeleteAll(fib, LinkedRecords(first, ids)))
    ensures Entry(DeleteAll(DeleteAll(fib, LinkedRecords(first, ids)), last), key) == Survives(Entry(fib, key), ids)
  {
    FirstPassAt(fib, first, ids, key);
    LastPassAt(DeleteAll(fib, LinkedRecords(first, ids)), last, key);
  }

  // ---- When nothing is left ---------------------------------------------------------------

  /** The paths whose ID does not survive the dump. */
  function High(ps: seq<Path>): seq<Path> {
    if ps == [] then []
    else High(ps[..|ps|-1]) + if ps[|ps|-1].tunnelId >= 256 then [ps[|ps|-1]] else []
  }

  ghost predicate DistinctHops(ps: seq<Path>) {
    forall i, j :: 0 <= i < j < |ps| ==> ps[i].nextHop != ps[j].nextHop
  }

  lemma {:induction false} ExceptIsHigh(ps: seq<Path>, part: seq<Path>)
    requires DistinctHops(ps) && part <= ps
    ensures Except(part, DumpedPaths(ps)) == High(part)
  {
    if part != [] {
      var n := |part| - 1;
      var p := ps[n];
      ExceptIsHigh(ps, part[..n]);
      DumpedIdIsLowByte(p.tunnelId);
      assert DumpedPaths(ps)[n] == Dumped(p);
      if p in DumpedPaths(ps) {
        var i :| 0 <= i < |ps| && DumpedPaths(ps)[i] == p;
        assert Dumped(ps[i]) == p;
      }
    }
  }

  lemma {:induction false} HighDistinct(ps: seq<Path>)
    requires DistinctHops(ps)
    ensures DistinctHops(High(ps))
    ensures forall p :: p in High(ps) ==> p in ps && p.tunnelId >= 256
    ensures |High(ps)| <= |ps|
  {
    if ps != [] {
      var n := |ps| - 1;
      HighDistinct(ps[..n]);
      assert forall p :: p in ps[..n] ==> p.nextHop != ps[n].nextHop;
    }
  }

  lemma {:induction false} HighAll(ps: seq<Path>)
    requires forall i :: 0 <= i < |ps| ==> ps[i].tunnelId >= 256
    ensures High(ps) == ps
  {
    if ps != [] {
      var n := |ps| - 1;
      HighAll(ps[..n]);
      assert High(ps) == ps[..n] + [ps[n]];
    }
  }

  lemma HighTwice(ps: seq<Path>)
    requires DistinctHops(ps)
    ensures DistinctHops(High(ps)) && High(High(ps)) == High(ps) && |High(ps)| <= |ps|
  {
    HighDistinct(ps);
    var kept := High(ps);
    forall i | 0 <= i < |kept|
      ensures kept[i].tunnelId >= 256
    {
      assert kept[i] in kept;
    }
    HighAll(kept);
  }

  lemma StrippedIsHigh(ps: seq<Path>)
    requires DistinctHops(ps)
    ensures Stripped(ps) == if |ps| <= 1 then [] else High(ps)
  {
    ExceptIsHigh(ps, ps);
  }

  /** An entry with one path always goes. One with several, to different next hops, keeps exactly
      the paths with IDs of 256 and more, unless that is a single path and a tunnel was linked. */
  lemma SurvivesExactly(ps: seq<Path>, ids: set<nat>)
    requires DistinctHops(ps)
    ensures var kept := High(ps);
            Survives(ps, ids)
            == if |ps| <= 1 || (|kept| == 1 && Linked(DumpedPaths(ps), ids)) then [] else kept
  {
    HighTwice(ps);
    StrippedIsHigh(ps);
    StrippedIsHigh(High(ps));
    StrippedIsHigh([]);
  }

  ghost predicate SmallIds(fib: Fib) {
    forall key, i :: key in fib && 0 <= i < |fib[key]| ==> fib[key][i].tunnelId < 256
  }

  lemma {:induction false} ExceptAll(ps: seq<Path>, gone: seq<Path>)
    requires forall p :: p in ps ==> p in gone
    ensures Except(ps, gone) == []
  {
    if ps != [] {
      ExceptAll(ps[..|ps|-1], gone);
    }
  }

  /** With all IDs below 256 nothing survives, whatever routes share tunnels. */
  lemma SmallIdsClear(before: Fib, ids: set<nat>, after: Fib)
    requires SmallIds(before) && Cleared(before, ids, after)
    ensures after == map[]
  {
    forall key
      ensures Entry(after, key) == []
    {
      SmallIdsGo(before, key, ids);
    }
    SameEntries(after, map[]);
  }

  lemma SmallIdsGo(before: Fib, key: Key, ids: set<nat>)
    requires SmallIds(before)
    ensures Survives(Entry(before, key), ids) == []
  {
    var ps := Entry(before, key);
    forall i | 0 <= i < |ps|
      ensures DumpedPaths(ps)[i] == ps[i]
    {
      DumpedIdIsLowByte(ps[i].tunnelId);
    }
    assert DumpedPaths(ps) == ps;
    ExceptAll(ps, ps);
  }

  /** A route over two tunnels with IDs 256 and 257 is left behind by a run without errors. */
  lemma LargeIdsStay(key: Key, ids: set<nat>, after: Fib)
    requires Cleared(map[key := [Path(1, 256, 7), Path(2, 257, 7)]], ids, after)
    ensures after == map[key := [Path(1, 256, 7), Path(2, 257, 7)]]
  {
    var ps := [Path(1, 256, 7), Path(2, 257, 7)];
    var before: Fib := map[key := ps];
    SurvivesExactly(ps, ids);
    assert ps[..1] == [ps[0]] && ps[..1][..0] == [];
    assert High(ps[..1]) == [ps[0]];
    assert High(ps) == ps;
    forall k
      ensures Entry(after, k) == Entry(before, k)
    {
      assert Entry(after, k) == Survives(Entry(before, k), ids);
    }
    SameEntries(before, after);
  }

  lemma SameEntries(a: Fib, b: Fib)
    requires NoEmptyEntry(a) && NoEmptyEntry(b) && forall k :: Entry(b, k) == Entry(a, k)
    ensures a == b
  {
    forall k
      ensures k in a <==> k in b
      ensures k in a ==> a[k] == b[k]
    {
      assert Entry(b, k) == Entry(a, k);
    }
  }

  // ---- The program ------------------------------------------------------------------------

  ghost predicate Willing(answers: seq<bool>) {
    forall i :: 0 <= i < |answers| ==> answers[i]
  }

  /** An operation reports success exactly when no request that it made was refused; a VPP that refuses
      nothing stays so. */
  ghost predicate Obeys(ok: bool, before: seq<bool>, after: seq<bool>, refusedBefore: nat, refusedAfter: nat) {
    && refusedBefore <= refusedAfter
    && (ok <==> refusedAfter == refusedBefore)
    && (Willing(before) ==> ok && Willing(after))
  }

  /** VPP as the clearing sees it. `answers` says which requests fail; a failed one changes
      nothing, and deleting what is not there may succeed or fail. `refusals` counts the failed ones. */
  class Vpp {
    var tunnels: set<nat>
    var fib: Fib
    var answers: seq<bool>
    var refusals: nat

    constructor (tunnels: set<nat>, fib: Fib, answers: seq<bool>)
      ensures this.tunnels == tunnels && this.fib == fib && this.answers == answers && refusals == 0
    {
      this.tunnels, this.fib, this.answers, refusals := tunnels, fib, answers, 0;
    }

    method Answer() returns (ok: bool)
      modifies this`answers, this`refusals
      ensures ok == (old(answers) == [] || old(answers)[0])
      ensures answers == if old(answers) == [] then [] else old(answers)[1..]
      ensures refusals == if ok then old(refusals) else old(refusals) + 1
    {
      ok := true;
      if answers != [] {
        ok, answers := answers[0], answers[1..];
      }
      if !ok {
        refusals := refusals + 1;
      }
    }

    method DumpUdpTunnels() returns (ok: bool, ids: seq<nat>)
      modifies this`answers, this`refusals
      ensures Obeys(ok, old(answers), answers, old(refusals), refusals)
      ensures ok ==> forall id :: id in ids <==> id in tunnels
    {
      ok := Answer();
      ids := [];
      var rest := tunnels;
      while rest != {}
        invariant rest <= tunnels
        invariant forall id :: id in ids <==> id in tunnels - rest
        decreases |rest|
      {
        var id :| id in rest;
        ids, rest := ids + [id], rest - {id};
      }
    }

    method DumpFipRoutes() returns (ok: bool, records: seq<Record>)
      modifies this`answers, this`refusals
      ensures Obeys(ok, old(answers), answers, old(refusals), refusals)
      ensures ok ==> IsDump(records, fib)
    {
      ok := Answer();
      records := Records();
    }

    method Records() returns (records: seq<Record>)
      ensures IsDump(records, fib)
    {
      records := [];
      var rest := fib.Keys;
      while rest != {}
        invariant rest <= fib.Keys
        invariant IsDump(records, fib - rest)
        decreases |rest|
      {
        var key :| key in rest;
        DumpMore(records, fib, rest, key);
        records := records + [Record(key, DumpedPaths(fib[key]))];
        rest := rest - {key};
      }
      assert fib - {} == fib;
    }

    method DelFipRoute(r: Record) returns (ok: bool)
      modifies this`answers, this`refusals, this`fib
      ensures Obeys(ok, old(answers), answers, old(refusals), refusals)
      ensures fib == if ok then Delete(old(fib), r) else old(fib)
    {
      ok := Answer();
      if ok {
        fib := Delete(fib, r);
      }
    }

    method DelUdpTunnel(id: nat) returns (ok: bool)
      modifies this`answers, this`refusals, this`tunnels
      ensures Obeys(ok, old(answers), answers, old(refusals), refusals)
      ensures tunnels == if ok then old(tunnels) - {id} else old(tunnels)
    {
      ok := Answer();
      if ok {
        tunnels := tunnels - {id};
      }
    }
  }

  lemma DumpMore(rs: seq<Record>, fib: Fib, rest: set<Key>, key: Key)
    requires key in rest && rest <= fib.Keys && IsDump(rs, fib - rest)
    ensures IsDump(rs + [Record(key, DumpedPaths(fib[key]))], fib - (rest - {key}))
  {
    var more := rs + [Record(key, DumpedPaths(fib[key]))];
    var part := fib - (rest - {key});
    forall k | k in part
      ensures exists i :: 0 <= i < |more| && more[i].key == k
    {
      if k == key {
        assert more[|rs|].key == k;
      } else {
        assert k in fib - rest;
        var i :| 0 <= i < |rs| && rs[i].key == k;
        assert more[i].key == k;
      }
    }
  }

  ghost function Members(ids: seq<nat>): set<nat> {
    set id | id in ids
  }

  /** The inner loop: the route goes once more for every tunnel it is linked to, and so do these, none
      before the route. */
  method ClearLinked(vpp: Vpp, r: Record, ids: seq<nat>) returns (ok: bool)
    modifies vpp
    ensures Obeys(ok, old(vpp.answers), vpp.answers, old(vpp.refusals), vpp.refusals)
    ensures ok ==> vpp.fib == if Linked(r.paths, Members(ids)) then Delete(old(vpp.fib), r) else old(vpp.fib)
    ensures ok ==> vpp.tunnels == old(vpp.tunnels) - LinkedIds(r.paths, ids)
    ensures !ok ==> vpp.fib == old(vpp.fib) || (Linked(r.paths, Members(ids)) && vpp.fib == Delete(old(vpp.fib), r))
    ensures vpp.tunnels <= old(vpp.tunnels)
    ensures vpp.tunnels == old(vpp.tunnels) || (Linked(r.paths, Members(ids)) && vpp.fib == Delete(old(vpp.fib), r))
  {
    ok := true;
    ghost var linked := false;
    for j := 0 to |ids|
      invariant ok && Obeys(ok, old(vpp.answers), vpp.answers, old(vpp.refusals), vpp.refusals)
      invariant linked == Linked(r.paths, Members(ids[..j]))
      invariant vpp.fib == if linked then Delete(old(vpp.fib), r) else old(vpp.fib)
      invariant vpp.tunnels == old(vpp.tunnels) - LinkedIds(r.paths, ids[..j])
    {
      LinkedMore(r.paths, ids, j);
      LinkedPrefix(r.paths, ids, j + 1);
      var found := HasTunnel(r.paths, ids[j]);
      if found {
        DeleteTwice(old(vpp.fib), r);
        ok := vpp.DelFipRoute(r);
        if !ok {
          return;
        }
        linked := true;
        ok := vpp.DelUdpTunnel(ids[j]);
        if !ok {
          return;
        }
      }
    }
    assert ids[..|ids|] == ids;
  }

  /** The tunnels in a list that carry one of the dumped IDs. */
  ghost function LinkedIds(dumped: seq<Path>, ids: seq<nat>): set<nat> {
    set id | id in ids && exists i :: 0 <= i < |dumped| && dumped[i].tunnelId == id
  }

  lemma LinkedPrefix(dumped: seq<Path>, ids: seq<nat>, j: nat)
    requires j <= |ids|
    ensures Linked(dumped, Members(ids[..j])) ==> Linked(dumped, Members(ids))
  {
    if Linked(dumped, Members(ids[..j])) {
      var i :| 0 <= i < |dumped| && dumped[i].tunnelId in Members(ids[..j]);
      assert dumped[i].tunnelId in Members(ids);
    }
  }

  lemma LinkedMore(dumped: seq<Path>, ids: seq<nat>, j: nat)
    requires j < |ids|
    ensures Linked(dumped, Members(ids[..j+1])) <==>
            Linked(dumped, Members(ids[..j])) || exists i :: 0 <= i < |dumped| && dumped[i].tunnelId == ids[j]
    ensures LinkedIds(dumped, ids[..j+1]) == LinkedIds(dumped, ids[..j])
            + (if exists i :: 0 <= i < |dumped| && dumped[i].tunnelId == ids[j] then {ids[j]} else {})
  {
    assert ids[..j+1] == ids[..j] + [ids[j]];
  }

  /** `contains`. */
  method HasTunnel(dumped: seq<Path>, id: nat) returns (found: bool)
    ensures found <==> exists i :: 0 <= i < |dumped| && dumped[i].tunnelId == id
  {
    for i := 0 to |dumped|
      invariant forall j :: 0 <= j < i ==> dumped[j].tunnelId != id
    {
      if dumped[i].tunnelId == id {
        return true;
      }
    }
    return false;
  }

  method FirstPass(vpp: Vpp, records: seq<Record>, ids: seq<nat>) returns (ok: bool)
    modifies vpp
    ensures Obeys(ok, old(vpp.answers), vpp.answers, old(vpp.refusals), vpp.refusals)
    ensures ok ==> vpp.fib == DeleteAll(old(vpp.fib), LinkedRecords(records, Members(ids)))
    ensures exists n :: 0 <= n <= |records| && vpp.fib == DeleteAll(old(vpp.fib), LinkedRecords(records[..n], Members(ids)))
    ensures vpp.tunnels <= old(vpp.tunnels)
  {
    ghost var before := vpp.fib;
    ok := true;
    for n := 0 to |records|
      invariant ok && Obeys(ok, old(vpp.answers), vpp.answers, old(vpp.refusals), vpp.refusals)
      invariant vpp.fib == DeleteAll(before, LinkedRecords(records[..n], Members(ids)))
      invariant vpp.tunnels <= old(vpp.tunnels)
    {
      FirstPassMore(before, records, n, Members(ids));
      ok := ClearLinked(vpp, records[n], ids);
      if !ok {
        assert vpp.fib == DeleteAll(before, LinkedRecords(records[..n], Members(ids)))
            || vpp.fib == DeleteAll(before, LinkedRecords(records[..n+1], Members(ids)));
        return;
      }
    }
    assert records[..|records|] == records;
  }

  lemma FirstPassMore(fib: Fib, rs: seq<Record>, n: nat, ids: set<nat>)
    requires n < |rs|
    ensures var before := DeleteAll(fib, LinkedRecords(rs[..n], ids));
            DeleteAll(fib, LinkedRecords(rs[..n+1], ids))
            == if Linked(rs[n].paths, ids) then Delete(before, rs[n]) else before
  {
    assert rs[..n+1][..n] == rs[..n];
    var some := LinkedRecords(rs[..n], ids);
    if Linked(rs[n].paths, ids) {
      assert LinkedRecords(rs[..n+1], ids) == some + [rs[n]];
      assert (some + [rs[n]])[..|some|] == some;
    } else {
      assert LinkedRecords(rs[..n+1], ids) == some;
    }
  }

  method ClearTunnels(vpp: Vpp, ids: seq<nat>) returns (ok: bool)
    modifies vpp`tunnels, vpp`answers, vpp`refusals
    ensures Obeys(ok, old(vpp.answers), vpp.answers, old(vpp.refusals), vpp.refusals)
    ensures ok ==> forall id :: id in vpp.tunnels <==> id in old(vpp.tunnels) && id !in ids
    ensures vpp.tunnels <= old(vpp.tunnels)
  {
    ok := true;
    for n := 0 to |ids|
      invariant ok && Obeys(ok, old(vpp.answers), vpp.answers, old(vpp.refusals), vpp.refusals)
      invariant forall id :: id in vpp.tunnels <==> id in old(vpp.tunnels) && id !in ids[..n]
    {
      ok := vpp.DelUdpTunnel(ids[n]);
      if !ok {
        return;
      }
    }
  }

  method LastPass(vpp: Vpp, records: seq<Record>) returns (ok: bool)
    modifies vpp`fib, vpp`answers, vpp`refusals
    ensures Obeys(ok, old(vpp.answers), vpp.answers, old(vpp.refusals), vpp.refusals)
    ensures ok ==> vpp.fib == DeleteAll(old(vpp.fib), records)
    ensures exists n :: 0 <= n <= |records| && vpp.fib == DeleteAll(old(vpp.fib), records[..n])
  {
    ok := true;
    for n := 0 to |records|
      invariant ok && Obeys(ok, old(vpp.answers), vpp.answers, old(vpp.refusals), vpp.refusals)
      invariant vpp.fib == DeleteAll(old(vpp.fib), records[..n])
    {
      ok := vpp.DelFipRoute(records[n]);
      if !ok {
        return;
      }
      assert records[..n+1][..n] == records[..n];
    }
    assert records[..|records|] == records;
  }

  // ---- Stopping early ---------------------------------------------------------------------

  /** An entry after the first pass, if that got to it. */
  function Once(ps: seq<Path>, ids: set<nat>): seq<Path> {
    if Linked(DumpedPaths(ps), ids) then Stripped(ps) else ps
  }

  /** Each entry is as it was, as the first pass leaves it, or as both leave it. */
  ghost predicate PartlyCleared(before: Fib, ids: set<nat>, after: Fib) {
    && NoEmptyEntry(after)
    && forall key ::
         || Entry(after, key) == Entry(before, key)
         || Entry(after, key) == Once(Entry(before, key), ids)
         || Entry(after, key) == Survives(Entry(before, key), ids)
  }

  /** Records of a dump, but perhaps not all. */
  ghost predicate PartOfDump(rs: seq<Record>, fib: Fib) {
    && DistinctRecords(rs)
    && forall i :: 0 <= i < |rs| ==> rs[i].key in fib && rs[i].paths == DumpedPaths(fib[rs[i].key])
  }

  lemma DeletePart(fib: Fib, rs: seq<Record>, key: Key)
    requires NoEmptyEntry(fib) && PartOfDump(rs, fib)
    ensures NoEmptyEntry(DeleteAll(fib, rs))
    ensures Entry(DeleteAll(fib, rs), key) ==
            if exists i :: 0 <= i < |rs| && rs[i].key == key then Stripped(Entry(fib, key)) else Entry(fib, key)
  {
    if i :| 0 <= i < |rs| && rs[i].key == key {
      DeleteAllAt(fib, rs, i);
    } else {
      DeleteAllElsewhere(fib, rs, key);
    }
  }

  /** Stopped in the first pass. */
  lemma FirstPassStopped(fib: Fib, rs: seq<Record>, ids: set<nat>, n: nat)
    requires NoEmptyEntry(fib) && IsDump(rs, fib) && n <= |rs|
    ensures PartlyCleared(fib, ids, DeleteAll(fib, LinkedRecords(rs[..n], ids)))
  {
    var some := LinkedRecords(rs[..n], ids);
    LinkedRecordsAre(rs[..n], ids);
    assert PartOfDump(some, fib) by {
      forall i | 0 <= i < |some|
        ensures some[i].key in fib && some[i].paths == DumpedPaths(fib[some[i].key])
      {
        assert some[i] in rs[..n];
      }
    }
    DeletePart(fib, some, (0, 0));
    forall key
      ensures Entry(DeleteAll(fib, some), key) == Entry(fib, key)
           || Entry(DeleteAll(fib, some), key) == Once(Entry(fib, key), ids)
    {
      DeletePart(fib, some, key);
      if i :| 0 <= i < |some| && some[i].key == key {
        assert some[i] in some && Linked(some[i].paths, ids);
      }
    }
  }

  /** Stopped in the last pass. */
  lemma LastPassStopped(fib: Fib, first: seq<Record>, ids: set<nat>, last: seq<Record>, n: nat)
    requires NoEmptyEntry(fib) && IsDump(first, fib) && n <= |last|
    requires IsDump(last, DeleteAll(fib, LinkedRecords(first, ids)))
    ensures PartlyCleared(fib, ids, DeleteAll(DeleteAll(fib, LinkedRecords(first, ids)), last[..n]))
  {
    var middle := DeleteAll(fib, LinkedRecords(first, ids));
    FirstPassAt(fib, first, ids, (0, 0));
    DeletePart(middle, last[..n], (0, 0));
    forall key
      ensures Entry(DeleteAll(middle, last[..n]), key) == Once(Entry(fib, key), ids)
           || Entry(DeleteAll(middle, last[..n]), key) == Survives(Entry(fib, key), ids)
    {
      FirstPassAt(fib, first, ids, key);
      DeletePart(middle, last[..n], key);
    }
  }

  /** Untouched, or cleared by the first pass alone. */
  lemma NotStarted(fib: Fib, ids: set<nat>)
    requires NoEmptyEntry(fib)
    ensures PartlyCleared(fib, ids, fib)
  {
  }

  /** Success is reported exactly when no request was refused. Then no tunnel is left, and of each route
      what survives its dumps; with tunnel IDs below 256 that is nothing. Otherwise no tunnel has come,
      and each route is untouched, stripped once or stripped twice. */
  method ClearTunnelsAndRoutes(vpp: Vpp) returns (ok: bool)
    requires NoEmptyEntry(vpp.fib)
    modifies vpp
    ensures ok <==> vpp.refusals == old(vpp.refusals)
    ensures (forall i :: 0 <= i < |old(vpp.answers)| ==> old(vpp.answers)[i]) ==> ok
    ensures ok ==> vpp.tunnels == {}
    ensures ok ==> Cleared(old(vpp.fib), old(vpp.tunnels), vpp.fib)
    ensures ok && SmallIds(old(vpp.fib)) ==> vpp.fib == map[]
    ensures vpp.tunnels <= old(vpp.tunnels) && PartlyCleared(old(vpp.fib), old(vpp.tunnels), vpp.fib)
  {
    var ids, first;
    NotStarted(vpp.fib, vpp.tunnels);
    ok, ids := vpp.DumpUdpTunnels();
    if !ok {
      return;
    }
    assert Members(ids) == old(vpp.tunnels);
    ok, first := vpp.DumpFipRoutes();
    if !ok {
      return;
    }
    ok := FirstPass(vpp, first, ids);
    if !ok {
      ghost var n :| 0 <= n <= |first| && vpp.fib == DeleteAll(old(vpp.fib), LinkedRecords(first[..n], Members(ids)));
      FirstPassStopped(old(vpp.fib), first, old(vpp.tunnels), n);
      return;
    }
    ok := ClearOrphans(vpp, old(vpp.fib), first, old(vpp.tunnels));
    if ok && SmallIds(old(vpp.fib)) {
      SmallIdsClear(old(vpp.fib), old(vpp.tunnels), vpp.fib);
    }
  }

  /** What is left after the first pass: tunnels without routes, and routes without tunnels. */
  method ClearOrphans(vpp: Vpp, ghost start: Fib, ghost first: seq<Record>, ghost ids: set<nat>) returns (ok: bool)
    requires NoEmptyEntry(start) && IsDump(first, start) && vpp.fib == DeleteAll(start, LinkedRecords(first, ids))
    modifies vpp
    ensures Obeys(ok, old(vpp.answers), vpp.answers, old(vpp.refusals), vpp.refusals)
    ensures ok ==> vpp.tunnels == {} && Cleared(start, ids, vpp.fib)
    ensures vpp.tunnels <= old(vpp.tunnels) && PartlyCleared(start, ids, vpp.fib)
  {
    var orphans, last;
    assert first[..|first|] == first;
    FirstPassStopped(start, first, ids, |first|);
    ok, orphans := vpp.DumpUdpTunnels();
    if !ok {
      return;
    }
    ok := ClearTunnels(vpp, orphans);
    if !ok {
      return;
    }
    ok, last := vpp.DumpFipRoutes();
    if !ok {
      return;
    }
    ok := LastPass(vpp, last);
    ghost var n :| 0 <= n <= |last| && vpp.fib == DeleteAll(old(vpp.fib), last[..n]);
    LastPassStopped(start, first, ids, last, n);
    if ok {
      BothPasses(start, first, ids, last);
    }
  }
}
