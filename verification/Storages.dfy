/** The in-memory tables (internal/repository/imdb). A table hands out the stored objects
    themselves, and the counters are changed through those objects. `Contents` is what the
    table says, kept in step by `Valid`. */
module Storages {
  import opened Routes
  import opened GatewayState

  class UdpTunnel {
    const dstIp: Address
    const id: nat
    var served: nat

    constructor (dstIp: Address, id: nat)
      ensures this.dstIp == dstIp && this.id == id && served == 0
    {
      this.dstIp, this.id := dstIp, id;
      served := 0;
    }
  }

  class UdpTunnelStorage {
    var table: map<Address, UdpTunnel>
    ghost var Contents: map<Address, Tunnel>
    ghost var Repr: set<object>

    ghost predicate Valid()
      reads this, Repr
      ensures Valid() ==> this in Repr
    {
      && this in Repr
      && table.Keys == Contents.Keys
      && (forall nh :: nh in table ==> table[nh] in Repr && table[nh].dstIp == nh)
      && (forall nh :: nh in table ==> Contents[nh] == Tunnel(table[nh].id, table[nh].served))
    }

    constructor ()
      ensures Valid() && fresh(Repr) && Contents == map[]
    {
      table, Contents := map[], map[];
      Repr := {this};
    }

    method AddUDPTunnel(t: UdpTunnel)
      requires Valid()
      modifies this
      ensures Valid() && Repr == old(Repr) + {t}
      ensures Contents == old(Contents)[t.dstIp := Tunnel(t.id, t.served)]
    {
      table := table[t.dstIp := t];
      Contents := Contents[t.dstIp := Tunnel(t.id, t.served)];
      Repr := Repr + {t};
    }

    method DelUDPTunnel(nh: Address)
      requires Valid()
      modifies this
      ensures Valid() && Repr == old(Repr) && Contents == old(Contents) - {nh}
    {
      table := table - {nh};
      Contents := Contents - {nh};
    }

    method GetUDPTunnel(nh: Address) returns (t: UdpTunnel?)
      requires Valid()
      ensures t == null <==> nh !in Contents
      ensures t != null ==> t.id == Contents[nh].id
    {
      t := if nh in table then table[nh] else null;
    }

    method IncFIPServed(nh: Address)
      requires Valid()
      modifies Repr
      ensures Valid() && Repr == old(Repr) && Contents == TunnelInc(old(Contents), nh)
    {
      if nh in table {
        var t := table[nh];
        t.served := t.served + 1;
        Contents := TunnelInc(Contents, nh);
      }
    }

    method DecFIPServed(nh: Address)
      requires Valid()
      modifies Repr
      ensures Valid() && Repr == old(Repr) && Contents == TunnelDec(old(Contents), nh)
    {
      if nh in table {
        var t := table[nh];
        if t.served == 0 {
          return;
        }
        t.served := t.served - 1;
        Contents := TunnelDec(Contents, nh);
      }
    }

    method GetFIPServed(nh: Address) returns (n: nat)
      requires Valid()
      ensures n == TunnelServed(Contents, nh)
    {
      n := if nh in table then table[nh].served else 0;
    }
  }

  class VrfRecord {
    const id: nat
    const aggregates: seq<Address>
    var served: nat

    constructor (id: nat, aggregates: seq<Address>)
      ensures this.id == id && this.aggregates == aggregates && served == 0
    {
      this.id, this.aggregates := id, aggregates;
      served := 0;
    }
  }

  class VrfStorage {
    var table: map<nat, VrfRecord>
    ghost var Contents: map<nat, Vrf>
    ghost var Repr: set<object>

    ghost predicate Valid()
      reads this, Repr
      ensures Valid() ==> this in Repr
    {
      && this in Repr
      && table.Keys == Contents.Keys
      && (forall v :: v in table ==> table[v] in Repr && table[v].id == v)
      && (forall v :: v in table ==> Contents[v] == Vrf(table[v].aggregates, table[v].served))
    }

    constructor ()
      ensures Valid() && fresh(Repr) && Contents == map[]
    {
      table, Contents := map[], map[];
      Repr := {this};
    }

    method AddVRF(v: VrfRecord)
      requires Valid()
      modifies this
      ensures Valid() && Repr == old(Repr) + {v}
      ensures Contents == old(Contents)[v.id := Vrf(v.aggregates, v.served)]
    {
      table := table[v.id := v];
      Contents := Contents[v.id := Vrf(v.aggregates, v.served)];
      Repr := Repr + {v};
    }

    method GetVRF(id: nat) returns (v: VrfRecord?)
      requires Valid()
      ensures v == null <==> id !in Contents
      ensures v != null ==> v.aggregates == Contents[id].aggregates
    {
      v := if id in table then table[id] else null;
    }

    /** The source inserts the changed record in a read-only transaction, which fails; the change
        lasts because it was made on the stored object. */
    method IncFIPServed(id: nat)
      requires Valid()
      modifies Repr
      ensures Valid() && Repr == old(Repr) && Contents == VrfInc(old(Contents), id)
    {
      if id in table {
        var v := table[id];
        v.served := v.served + 1;
        Contents := VrfInc(Contents, id);
      }
    }

    method DecFIPServed(id: nat)
      requires Valid()
      modifies Repr
      ensures Valid() && Repr == old(Repr) && Contents == VrfDec(old(Contents), id)
    {
      if id in table {
        var v := table[id];
        if v.served == 0 {
          return;
        }
        v.served := v.served - 1;
        Contents := VrfDec(Contents, id);
      }
    }

    method GetFIPServed(id: nat) returns (n: nat)
      requires Valid()
      ensures n == VrfServed(Contents, id)
    {
      n := if id in table then table[id].served else 0;
    }
  }

  class FipRouteStorage {
    var table: map<Address, FipRoute>
    ghost var Contents: map<Address, Route>
    ghost var Repr: set<object>

    ghost predicate Valid()
      reads this, Repr
      ensures Valid() ==> this in Repr
    {
      && this in Repr
      && table.Keys == Contents.Keys
      && (forall p :: p in table ==> table[p] in Repr && table[p].prefix == p)
      && (forall p :: p in table ==> Contents[p] == table[p].Value())
    }

    constructor ()
      ensures Valid() && fresh(Repr) && Contents == map[]
    {
      table, Contents := map[], map[];
      Repr := {this};
    }

    method AddFIPRoute(r: FipRoute)
      requires Valid()
      modifies this
      ensures Valid() && Repr == old(Repr) + {r}
      ensures Contents == old(Contents)[r.prefix := r.Value()]
    {
      table := table[r.prefix := r];
      Contents := Contents[r.prefix := r.Value()];
      Repr := Repr + {r};
    }

    method DelFIPRoute(prefix: Address)
      requires Valid()
      modifies this
      ensures Valid() && Repr == old(Repr) && table == old(table) - {prefix} && Contents == old(Contents) - {prefix}
    {
      table := table - {prefix};
      Contents := Contents - {prefix};
    }

    /** The stored object itself, not a copy. */
    method GetFIPRoute(prefix: Address) returns (r: FipRoute?)
      requires Valid()
      ensures r == null <==> prefix !in Contents
      ensures r != null ==> r in Repr && r.prefix == prefix && r.Value() == Contents[prefix]
    {
      r := if prefix in table then table[prefix] else null;
    }

    method IsFIPWithNHAndLabelExist(prefix: Address, nextHop: Address, mplsLabel: nat) returns (found: bool)
      requires Valid() && (prefix in Contents ==> Contents[prefix].Parallel())
      ensures found <==> Stored(Contents, prefix, nextHop, mplsLabel)
    {
      if prefix !in table {
        return false;
      }
      var route := table[prefix];
      if |route.labels| == 0 {
        return false;
      }
      for i := 0 to |route.nextHops|
        invariant forall j :: 0 <= j < i ==> !(route.nextHops[j] == nextHop && route.labels[j] == mplsLabel)
      {
        if route.nextHops[i] == nextHop && route.labels[i] == mplsLabel {
          assert Contents[prefix].nextHops[i] == nextHop && Contents[prefix].labels[i] == mplsLabel;
          return true;
        }
      }
      return false;
    }
  }
}
