/**
 Packing digits into bit fields, a group at a time: the common shape of the numeric, alphanumeric and
 byte modes. A group of k digits is written as one number in a field of `widths[k - 1]` bits; only the
 last group may be short.
 */
module DigitGroups {
  import opened BinaryNumbers
  import opened BitStrings
  import opened Sequences

  datatype Grouping = Grouping(base: nat, widths: seq<nat>) {
    /** The digits in a full group. */
    function Size(): nat {
      |widths|
    }

    /** Every group of digits fits its field. */
    ghost predicate Valid() {
      && base >= 1
      && Size() >= 1
      && forall k | 0 <= k < Size() :: Power(base, k + 1) <= Pow2(widths[k])
    }
  }

  function Power(base: nat, n: nat): nat {
    if n == 0 then 1 else base * Power(base, n - 1)
  }

  type Digits = seq<nat>

  predicate Below(ds: Digits, base: nat) {
    forall i | 0 <= i < |ds| :: ds[i] < base
  }

  /** The number with the given digits, most significant first. */
  function Value(ds: Digits, base: nat): nat {
    if |ds| == 0 then 0 else base * Value(ds[..|ds| - 1], base) + ds[|ds| - 1]
  }

  function DigitsOf(v: nat, base: nat, n: nat): (ds: Digits)
    requires base >= 1
    ensures |ds| == n && Below(ds, base)
    decreases n
  {
    if n == 0 then [] else Quotient(v, base); DigitsOf(v / base, base, n - 1) + [v % base]
  }

  lemma Quotient(v: nat, base: nat)
    requires base >= 1
    ensures v / base >= 0
  {}

  lemma DivideExactly(base: nat, h: nat, d: nat)
    requires d < base
    ensures (base * h + d) / base == h && (base * h + d) % base == d
  {
    var v := base * h + d;
    var e := v / base - h;
    assert base * e == d - v % base by {
      assert v == base * (v / base) + v % base;
      assert base * (v / base) - base * h == base * (v / base - h);
    }
    if e >= 1 {
      MultipleAtLeast(base, e);
    } else if e <= -1 {
      NegativeMultiple(base, e);
    }
  }

  lemma MultipleAtLeast(base: int, e: int)
    requires base >= 0 && e >= 1
    ensures base * e >= base
  {}

  lemma NegativeMultiple(base: int, e: int)
    requires base >= 0 && e <= -1
    ensures base * e <= -base
  {
    MultipleAtLeast(base, -e);
  }

  lemma {:induction false} DigitsOfValue(ds: Digits, base: nat)
    requires base >= 1 && Below(ds, base)
    ensures DigitsOf(Value(ds, base), base, |ds|) == ds
  {
    if |ds| > 0 {
      var n := |ds| - 1;
      DigitsOfValue(ds[..n], base);
      DivideExactly(base, Value(ds[..n], base), ds[n]);
      assert ds == ds[..n] + [ds[n]];
    }
  }

  lemma MultiplyBound(base: nat, v: nat, d: nat, p: nat)
    requires v < p && d < base
    ensures base * v + d < base * p
  {
    MultipleAtLeast(base, p - v);
    assert base * p == base * v + base * (p - v);
  }

  lemma {:induction false} ValueBound(ds: Digits, base: nat)
    requires base >= 1 && Below(ds, base)
    ensures Value(ds, base) < Power(base, |ds|)
  {
    if |ds| > 0 {
      var n := |ds| - 1;
      var v, p := Value(ds[..n], base), Power(base, n);
      ValueBound(ds[..n], base);
      MultiplyBound(base, v, ds[n], p);
    }
  }

  // A text as a sequence of groups

  function GroupSize(n: nat, g: Grouping): nat {
    if n < g.Size() then n else g.Size()
  }

  function Encode(ds: Digits, g: Grouping): seq<bool>
    requires g.Size() >= 1
  {
    if |ds| == 0 then []
    else
      var k := GroupSize(|ds|, g);
      ToBits(Value(ds[..k], g.base), g.widths[k - 1]) + Encode(ds[k..], g)
  }

  /** The number of bits of `n` encoded digits. */
  function BitLength(n: nat, g: Grouping): nat
    requires g.Size() >= 1
  {
    if n == 0 then 0
    else var k := GroupSize(n, g); g.widths[k - 1] + BitLength(n - k, g)
  }

  function Decode(bits: seq<bool>, n: nat, g: Grouping): (ds: Digits)
    requires g.Size() >= 1 && g.base >= 1
    requires |bits| == BitLength(n, g)
    ensures |ds| == n && Below(ds, g.base)
    decreases n
  {
    if n == 0 then []
    else
      var k := GroupSize(n, g);
      var w := g.widths[k - 1];
      DigitsOf(FromBits(bits[..w]), g.base, k) + Decode(bits[w..], n - k, g)
  }

  lemma {:induction false} EncodeLength(ds: Digits, g: Grouping)
    requires g.Size() >= 1
    ensures |Encode(ds, g)| == BitLength(|ds|, g)
  {
    if |ds| > 0 {
      EncodeLength(ds[GroupSize(|ds|, g)..], g);
    }
  }

  /** A group's number fits its field. */
  lemma GroupFits(group: Digits, g: Grouping)
    requires g.Valid() && Below(group, g.base) && 1 <= |group| <= g.Size()
    ensures Value(group, g.base) < Pow2(g.widths[|group| - 1])
  {
    ValueBound(group, g.base);
    assert Power(g.base, |group| - 1 + 1) <= Pow2(g.widths[|group| - 1]);
  }

  lemma {:induction false} DecodeEncode(ds: Digits, g: Grouping)
    requires g.Valid() && Below(ds, g.base)
    ensures |Encode(ds, g)| == BitLength(|ds|, g)
    ensures Decode(Encode(ds, g), |ds|, g) == ds
  {
    EncodeLength(ds, g);
    if |ds| > 0 {
      hide Value, Power, Pow2, ToBits, FromBits, DigitsOf;
      var k := GroupSize(|ds|, g);
      var group, w, v := ds[..k], g.widths[k - 1], Value(ds[..k], g.base);
      var rest := Encode(ds[k..], g);
      GroupFits(group, g);
      FromToBits(v, w);
      DigitsOfValue(group, g.base);
      DecodeEncode(ds[k..], g);
      assert Encode(ds, g)[..w] == ToBits(v, w) && Encode(ds, g)[w..] == rest;
      assert ds == group + ds[k..];
    }
  }

  /** `n` digits make full groups only. */
  ghost predicate FullGroups(n: nat, g: Grouping)
    requires g.Size() >= 1
  {
    n == 0 || (n >= g.Size() && FullGroups(n - g.Size(), g))
  }

  lemma FullGroupsNext(n: nat, g: Grouping)
    requires g.Size() >= 1 && n > 0 && FullGroups(n, g)
    ensures n >= g.Size() && FullGroups(n - g.Size(), g)
  {}

  /** Full groups may be followed by anything. */
  lemma {:induction false} EncodeAppend(ds: Digits, es: Digits, g: Grouping)
    requires g.Size() >= 1 && FullGroups(|ds|, g)
    ensures Encode(ds + es, g) == Encode(ds, g) + Encode(es, g)
    decreases |ds|
  {
    if |ds| == 0 {
      assert ds + es == es;
    } else {
      hide Encode, Value, ToBits, FullGroups;
      var k := g.Size();
      FullGroupsNext(|ds|, g);
      EncodeAppend(ds[k..], es, g);
      EncodeFirst(ds, g);
      EncodeFirst(ds + es, g);
      SliceAppend(ds, es, k);
      var first := ToBits(Value(ds[..k], g.base), g.widths[k - 1]);
      AppendAssociates(first, Encode(ds[k..], g), Encode(es, g));
    }
  }

  lemma EncodeFirst(ds: Digits, g: Grouping)
    requires |ds| >= g.Size() >= 1
    ensures Encode(ds, g) == ToBits(Value(ds[..g.Size()], g.base), g.widths[g.Size() - 1]) + Encode(ds[g.Size()..], g)
  {
    hide Value, ToBits;
  }

  lemma EncodeGroup(group: Digits, g: Grouping)
    requires 1 <= |group| <= g.Size()
    ensures Encode(group, g) == ToBits(Value(group, g.base), g.widths[|group| - 1])
  {
    assert group[..|group|] == group && group[|group|..] == [];
  }
}
