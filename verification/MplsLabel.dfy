/** The MPLS label of a VRF (pkg/netutils/mpls_label.go): the last four digits of its address,
    written without dots, above a fixed base. */
module MplsLabel {
  import opened Options

  const BASE: nat := 1_000_000

  type Octet = x: nat | x < 256

  /** `net.ParseCIDR` as it ends: an error, an IPv6 address, or an IPv4 one. */
  datatype Parsed = Invalid | V6 | V4(a: Octet, b: Octet, c: Octet, d: Octet)

  type Digit = x: nat | x < 10

  /** Decimal digits, most significant first, without leading zeros. */
  function Decimal(n: nat): seq<Digit> {
    if n < 10 then [n] else Decimal(n / 10) + [n % 10]
  }

  /** The value of a digit string. */
  function Number(ds: seq<Digit>): nat {
    if ds == [] then 0 else 10 * Number(ds[..|ds|-1]) + ds[|ds|-1]
  }

  /** The address as it is printed, without its dots. */
  function Dotless(p: Parsed): seq<Digit>
    requires p.V4?
  {
    Decimal(p.a) + Decimal(p.b) + Decimal(p.c) + Decimal(p.d)
  }

  /** A colon in an IPv6 address stops the conversion to a number. */
  function MplsLabel(p: Parsed): Option<nat> {
    if p.V4? then Some(BASE + Number(Dotless(p)) % 10_000) else None
  }

  /** The digits spell the number, and begin with zero only for zero itself. */
  lemma {:induction false} DecimalSpells(n: nat)
    ensures Number(Decimal(n)) == n
    ensures Decimal(n) != [] && (Decimal(n)[0] == 0 <==> n == 0)
    ensures |Decimal(n)| == 1 <==> n < 10
  {
    if n >= 10 {
      DecimalSpells(n / 10);
      var ds := Decimal(n / 10);
      assert (ds + [n % 10])[..|ds|] == ds;
    } else {
      assert [n][..0] == [];
    }
  }

  /** No other digits do: writing a number without leading zeros is unambiguous. */
  lemma {:induction false} DecimalUnique(ds: seq<Digit>)
    requires ds != [] && (ds[0] != 0 || |ds| == 1)
    ensures ds == Decimal(Number(ds))
  {
    var n := |ds| - 1;
    if n == 0 {
      assert ds[..0] == [];
      assert ds == [ds[0]];
    } else {
      DecimalUnique(ds[..n]);
      LeadingDigit(ds[..n]);
      assert ds == ds[..n] + [ds[n]];
    }
  }

  lemma {:induction false} LeadingDigit(ds: seq<Digit>)
    requires ds != [] && ds[0] != 0
    ensures Number(ds) > 0
  {
    if |ds| > 1 {
      LeadingDigit(ds[..|ds|-1]);
    }
  }

  function Scale(n: Octet): nat {
    if n < 10 then 10 else if n < 100 then 100 else 1000
  }

  /** The number that the address without its dots spells, by arithmetic alone. */
  lemma {:induction false} DotlessSpells(p: Parsed)
    requires p.V4?
    ensures Number(Dotless(p)) == ((p.a * Scale(p.b) + p.b) * Scale(p.c) + p.c) * Scale(p.d) + p.d
  {
    OctetAppends(Decimal(p.a), p.b);
    OctetAppends(Decimal(p.a) + Decimal(p.b), p.c);
    OctetAppends(Decimal(p.a) + Decimal(p.b) + Decimal(p.c), p.d);
    DecimalSpells(p.a);
  }

  lemma NumberSnoc(ds: seq<Digit>, d: Digit)
    ensures Number(ds + [d]) == 10 * Number(ds) + d
  {
    assert (ds + [d])[..|ds|] == ds;
  }

  /** Appending an octet shifts by its digits. */
  lemma OctetAppends(ds: seq<Digit>, n: Octet)
    ensures Number(ds + Decimal(n)) == Number(ds) * Scale(n) + n
  {
    if n < 10 {
      NumberSnoc(ds, n);
    } else if n < 100 {
      TwoDigits(ds, n);
    } else {
      assert 10 <= n / 10 < 100;
      TwoDigits(ds, n / 10);
      NumberSnoc(ds + Decimal(n / 10), n % 10);
      assert ds + Decimal(n) == ds + Decimal(n / 10) + [n % 10];
    }
  }

  lemma TwoDigits(ds: seq<Digit>, n: nat)
    requires 10 <= n < 100
    ensures Number(ds + Decimal(n)) == 100 * Number(ds) + n
  {
    assert Decimal(n) == [n / 10, n % 10];
    NumberSnoc(ds, n / 10);
    NumberSnoc(ds + [n / 10], n % 10);
    assert ds + Decimal(n) == ds + [n / 10] + [n % 10];
  }

  function LastFour(ds: seq<Digit>): seq<Digit>
    requires |ds| >= 4
  {
    ds[|ds|-4..]
  }

  function Spelled(a: nat, b: nat, c: nat, d: nat): nat {
    1000 * a + 100 * b + 10 * c + d
  }

  lemma {:induction false} NumberSplits(ds: seq<Digit>)
    requires |ds| >= 4
    ensures Number(ds) == 10_000 * Number(ds[..|ds|-4]) + Number(LastFour(ds))
  {
    var n := |ds|;
    NumberOfFour(LastFour(ds));
    assert ds[..n-1][..n-2] == ds[..n-2] && ds[..n-2][..n-3] == ds[..n-3] && ds[..n-3][..n-4] == ds[..n-4];
    assert Number(ds) == 10 * Number(ds[..n-1]) + ds[n-1];
    assert Number(ds[..n-1]) == 10 * Number(ds[..n-2]) + ds[n-2];
    assert Number(ds[..n-2]) == 10 * Number(ds[..n-3]) + ds[n-3];
    assert Number(ds[..n-3]) == 10 * Number(ds[..n-4]) + ds[n-4];
  }

  lemma {:induction false} NumberOfFour(ds: seq<Digit>)
    requires |ds| == 4
    ensures Number(ds) == Spelled(ds[0], ds[1], ds[2], ds[3]) < 10_000
  {
    assert ds[..3][..2] == ds[..2] && ds[..2][..1] == ds[..1] && ds[..1][..0] == [];
    assert Number(ds[..1]) == 10 * Number([]) + ds[0];
    assert Number(ds[..2]) == 10 * Number(ds[..1]) + ds[1];
    assert Number(ds[..3]) == 10 * Number(ds[..2]) + ds[2];
  }

  lemma RemainderIsLastFour(ds: seq<Digit>)
    requires |ds| >= 4
    ensures Number(ds) % 10_000 == Number(LastFour(ds))
  {
    NumberSplits(ds);
    NumberOfFour(LastFour(ds));
    SmallRemainder(Number(ds[..|ds|-4]), Number(LastFour(ds)));
  }

  lemma SmallRemainder(q: nat, r: nat)
    requires r < 10_000
    ensures (10_000 * q + r) % 10_000 == r
  {
  }

  /** The label is the base plus the number spelled by the last four digits of the address. */
  lemma LabelSpellsLastFour(p: Parsed)
    requires p.V4?
    ensures |Dotless(p)| >= 4
    ensures MplsLabel(p) == Some(BASE + Number(LastFour(Dotless(p))))
  {
    RemainderIsLastFour(Dotless(p));
  }

  /** The same without digits. */
  lemma LabelByArithmetic(p: Parsed)
    requires p.V4?
    ensures MplsLabel(p) ==
            Some(1_000_000 + (((p.a * Scale(p.b) + p.b) * Scale(p.c) + p.c) * Scale(p.d) + p.d) % 10_000)
  {
    DotlessSpells(p);
  }

  /** 128.192.224.240 has the label 1004240. */
  lemma LabelExample(p: Parsed)
    requires p == V4(128, 192, 224, 240)
    ensures MplsLabel(p) == Some(1_004_240)
  {
    LabelByArithmetic(p);
    assert ((128 * 1000 + 192) * 1000 + 224) * 1000 + 240 == 128_192_224_240;
  }

  /** Every label fits the 20-bit field of section 2.1 of RFC 3032 and is above its reserved values. */
  lemma LabelFits(p: Parsed)
    ensures MplsLabel(p).Some? <==> p.V4?
    ensures MplsLabel(p).Some? ==> 16 <= MplsLabel(p).value < 0x10_0000
  {
  }

  lemma FoursDiffer(s: seq<Digit>, t: seq<Digit>)
    requires |s| == |t| == 4
    ensures Number(s) == Number(t) <==> s == t
  {
    NumberOfFour(s);
    NumberOfFour(t);
    if Number(s) == Number(t) {
      assert s[0] == t[0] && s[1] == t[1] && s[2] == t[2] && s[3] == t[3];
    }
  }

  /** Two addresses share a label exactly when they end in the same four digits, dots aside. */
  lemma LabelsEqualExactly(p: Parsed, q: Parsed)
    requires p.V4? && q.V4?
    ensures |Dotless(p)| >= 4 && |Dotless(q)| >= 4
    ensures MplsLabel(p) == MplsLabel(q) <==> LastFour(Dotless(p)) == LastFour(Dotless(q))
  {
    LabelSpellsLastFour(p);
    LabelSpellsLastFour(q);
    FoursDiffer(LastFour(Dotless(p)), LastFour(Dotless(q)));
  }

  /** 10.0.1.11 and 10.0.11.1 have the same label. */
  lemma LabelsCollide()
    ensures MplsLabel(V4(10, 0, 1, 11)) == MplsLabel(V4(10, 0, 11, 1)) == Some(1_000_111)
  {
    assert Decimal(10) == [1, 0] && Decimal(11) == [1, 1];
    var ds: seq<Digit> := [1, 0, 0, 1, 1, 1];
    assert Dotless(V4(10, 0, 1, 11)) == ds == Dotless(V4(10, 0, 11, 1));
    NumberSplits(ds);
    NumberOfFour(LastFour(ds));
  }
}
