/**
 What the error correction bytes are for. A word with d vanishing syndromes and at most d non-zero
 bytes is zero, so two codewords of at most 255 bytes with the same d error correction bytes each
 differ in more than d places: any d wrong bytes are noticed, and a word at distance at most d/2 from
 a codeword is that near to no other.
 */
module MinimumDistance {
  import opened GaloisField
  import opened Polynomials
  import opened PrimitiveElement
  import opened ReedSolomon

  function Pow(x: Byte, k: nat): Byte {
    if k == 0 then 1 else Mul(Pow(x, k - 1), x)
  }

  /** The sum of c * x^k over the terms. */
  function PowerSum(cs: seq<Byte>, xs: seq<Byte>, k: nat): Byte
    requires |cs| == |xs|
  {
    if |cs| == 0 then 0
    else var n := |cs| - 1; Add(PowerSum(cs[..n], xs[..n], k), Mul(cs[n], Pow(xs[n], k)))
  }

  /** Each coefficient times (x - y). */
  function Weighted(cs: seq<Byte>, xs: seq<Byte>, y: Byte): seq<Byte>
    requires |cs| == |xs|
  {
    seq(|cs|, i requires 0 <= i < |cs| => Mul(cs[i], Add(xs[i], y)))
  }

  lemma WeightedTerm(c: Byte, x: Byte, y: Byte, k: nat)
    ensures Mul(Mul(c, Add(x, y)), Pow(x, k)) == Add(Mul(c, Pow(x, k + 1)), Mul(Mul(c, Pow(x, k)), y))
  {
    hide Mul;
    var p := Pow(x, k);
    MulAssociates(c, Add(x, y), p);
    MulCommutes(Add(x, y), p);
    MulAddRight(p, x, y);
    MulAddRight(c, Mul(p, x), Mul(p, y));
    MulAssociates(c, p, y);
  }

  lemma {:induction false} WeightedSum(cs: seq<Byte>, xs: seq<Byte>, y: Byte, k: nat)
    requires |cs| == |xs|
    ensures PowerSum(Weighted(cs, xs, y), xs, k) == Add(PowerSum(cs, xs, k + 1), Mul(PowerSum(cs, xs, k), y))
  {
    hide Add, Mul, Pow;
    if |cs| == 0 {
      MulZero(y);
      AddZero(0);
    } else {
      var n := |cs| - 1;
      var c, x := cs[n], xs[n];
      var s, s' := PowerSum(cs[..n], xs[..n], k), PowerSum(cs[..n], xs[..n], k + 1);
      WeightedSum(cs[..n], xs[..n], y, k);
      assert Weighted(cs, xs, y)[..n] == Weighted(cs[..n], xs[..n], y);
      WeightedTerm(c, x, y, k);
      MulAddLeft(s, Mul(c, Pow(x, k)), y);
      AddSwap(s', Mul(s, y), Mul(c, Pow(x, k + 1)), Mul(Mul(c, Pow(x, k)), y));
    }
  }

  ghost predicate Distinct(xs: seq<Byte>) {
    forall i, j | 0 <= i < j < |xs| :: xs[i] != xs[j]
  }

  ghost predicate AllZero(p: Poly) {
    forall i | 0 <= i < |p| :: p[i] == 0
  }

  /** As many vanishing power sums as terms, at distinct points: every coefficient vanishes. */
  lemma {:induction false} Vandermonde(cs: seq<Byte>, xs: seq<Byte>)
    requires |cs| == |xs| && Distinct(xs)
    requires forall k | 0 <= k < |cs| :: PowerSum(cs, xs, k) == 0
    ensures AllZero(cs)
    decreases |cs|
  {
    hide Add, Mul, Pow;
    if |cs| > 0 {
      var n := |cs| - 1;
      var y := xs[n];
      var w := Weighted(cs, xs, y);
      assert w[n] == 0 by {
        AddCancels(y, y);
        ProductIsZero(cs[n], 0);
      }
      forall k | 0 <= k < n
        ensures PowerSum(w[..n], xs[..n], k) == 0
      {
        WeightedSum(cs, xs, y, k);
        MulZero(y);
        AddZero(0);
        MulZero(Pow(y, k));
        AddZero(PowerSum(w[..n], xs[..n], k));
      }
      Vandermonde(w[..n], xs[..n]);
      forall i | 0 <= i < n
        ensures cs[i] == 0
      {
        assert w[..n][i] == Mul(cs[i], Add(xs[i], y));
        ProductIsZero(cs[i], Add(xs[i], y));
        AddCancels(xs[i], y);
      }
      PowerSumOfZeros(cs[..n], xs[..n], 0);
      MulOne(cs[n]);
      AddZero(cs[n]);
      assert Pow(y, 0) == 1 by { PowZero(y); }
      assert PowerSum(cs, xs, 0) == cs[n];
    }
  }

  lemma PowZero(x: Byte)
    ensures Pow(x, 0) == 1
  {}

  lemma {:induction false} PowerSumOfZeros(cs: seq<Byte>, xs: seq<Byte>, k: nat)
    requires |cs| == |xs| && AllZero(cs)
    ensures PowerSum(cs, xs, k) == 0
  {
    hide Add, Mul, Pow;
    if |cs| > 0 {
      var n := |cs| - 1;
      PowerSumOfZeros(cs[..n], xs[..n], k);
      MulZero(Pow(xs[n], k));
      AddZero(0);
    }
  }

  // A word as a sum over its non-zero bytes

  function Weight(w: Poly): nat {
    if |w| == 0 then 0 else (if w[0] == 0 then 0 else 1) + Weight(w[1..])
  }

  function Coefficients(w: Poly): (cs: seq<Byte>)
    ensures |cs| == Weight(w)
    ensures forall i | 0 <= i < |cs| :: cs[i] != 0
  {
    if |w| == 0 then [] else (if w[0] == 0 then [] else [w[0]]) + Coefficients(w[1..])
  }

  function Points(w: Poly): (xs: seq<Byte>)
    ensures |xs| == Weight(w)
  {
    if |w| == 0 then [] else (if w[0] == 0 then [] else [Exp(|w| - 1)]) + Points(w[1..])
  }

  lemma {:induction false} PowerSumCons(c: Byte, x: Byte, cs: seq<Byte>, xs: seq<Byte>, k: nat)
    requires |cs| == |xs|
    ensures PowerSum([c] + cs, [x] + xs, k) == Add(Mul(c, Pow(x, k)), PowerSum(cs, xs, k))
  {
    hide Add, Mul, Pow;
    var t := Mul(c, Pow(x, k));
    if |cs| == 0 {
      assert [c] + cs == [c] && [x] + xs == [x];
      AddZero(t);
    } else {
      var n := |cs| - 1;
      PowerSumCons(c, x, cs[..n], xs[..n], k);
      assert ([c] + cs)[..n + 1] == [c] + cs[..n] && ([x] + xs)[..n + 1] == [x] + xs[..n];
      AddAssociates(t, PowerSum(cs[..n], xs[..n], k), Mul(cs[n], Pow(xs[n], k)));
    }
  }

  lemma {:induction false} EvalCons(c: Byte, p: Poly, x: Byte)
    ensures Eval([c] + p, x) == Add(Mul(c, Pow(x, |p|)), Eval(p, x))
  {
    hide Add, Mul;
    if |p| == 0 {
      assert [c] + p == [c];
      EvalConstant(c, x);
      MulOne(c);
      AddZero(c);
    } else {
      var n := |p| - 1;
      var q, t := p[..n], Mul(c, Pow(x, n));
      EvalCons(c, q, x);
      assert [c] + p == ([c] + q) + [p[n]];
      EvalSnoc([c] + q, p[n], x);
      MulAddLeft(t, Eval(q, x), x);
      MulAssociates(c, Pow(x, n), x);
      AddAssociates(Mul(t, x), Mul(Eval(q, x), x), p[n]);
    }
  }

  lemma {:induction false} PowExp(e: nat, k: nat)
    ensures Pow(Exp(e), k) == Exp(e * k)
  {
    hide Mul, Exp;
    if k == 0 {
      assert Exp(0) == 1 by { ExpZero(); }
    } else {
      PowExp(e, k - 1);
      assert e * (k - 1) + e == e * k;
      ExpAdd(e * (k - 1), e);
    }
  }

  lemma {:induction false} SyndromeIsPowerSum(w: Poly, k: nat)
    ensures Eval(w, Exp(k)) == PowerSum(Coefficients(w), Points(w), k)
  {
    hide Add, Mul, Pow, Exp;
    if |w| > 0 {
      var c, t := w[0], w[1..];
      SyndromeIsPowerSum(t, k);
      assert w == [c] + t;
      EvalCons(c, t, Exp(k));
      PowExp(k, |t|);
      PowExp(|t|, k);
      assert k * |t| == |t| * k;
      if c == 0 {
        MulZero(Pow(Exp(k), |t|));
        AddZero(Eval(t, Exp(k)));
        assert Coefficients(w) == Coefficients(t) && Points(w) == Points(t);
      } else {
        PowerSumCons(c, Exp(|t|), Coefficients(t), Points(t), k);
      }
    }
  }

  lemma {:induction false} PointsArePowers(w: Poly)
    ensures forall x | x in Points(w) :: IsPowerBelow(x, |w|)
  {
    hide Exp;
    if |w| > 0 {
      PointsArePowers(w[1..]);
    }
  }

  lemma {:induction false} PointsDistinct(w: Poly)
    requires |w| <= 255
    ensures Distinct(Points(w))
  {
    hide Exp;
    if |w| > 0 {
      var t := w[1..];
      PointsDistinct(t);
      PointsArePowers(t);
      forall i | 0 <= i < |Points(t)|
        ensures Points(t)[i] != Exp(|t|)
      {
        assert IsPowerBelow(Points(t)[i], |t|);
        var k :| 0 <= k < |t| && Points(t)[i] == Exp(k);
        PowersDistinct(k, |t|);
      }
    }
  }

  lemma {:induction false} WeightZero(w: Poly)
    requires Weight(w) == 0
    ensures AllZero(w)
  {
    if |w| > 0 {
      WeightZero(w[1..]);
    }
  }

  /** The syndromes 0 .. d-1 of `w` vanish. */
  ghost predicate IsCodeword(w: Poly, d: nat) {
    forall k | 0 <= k < d :: Eval(w, Exp(k)) == 0
  }

  lemma HasNonZero(cs: seq<Byte>)
    requires |cs| > 0 && forall i | 0 <= i < |cs| :: cs[i] != 0
    ensures !AllZero(cs)
  {
    assert cs[0] != 0;
  }

  /** The only codeword of weight at most d is zero. */
  lemma LightCodewordIsZero(w: Poly, d: nat)
    requires |w| <= 255 && IsCodeword(w, d) && Weight(w) <= d
    ensures AllZero(w)
  {
    hide Exp, PowerSum, Coefficients, Points, Eval;
    var cs := Coefficients(w);
    PointsDistinct(w);
    forall k | 0 <= k < |cs|
      ensures PowerSum(cs, Points(w), k) == 0
    {
      SyndromeIsPowerSum(w, k);
      assert Eval(w, Exp(k)) == 0;
    }
    if |cs| > 0 {
      HasNonZero(cs);
      Vandermonde(cs, Points(w));
    } else {
      WeightZero(w);
    }
  }

  // The remainder is what makes the block a codeword

  lemma {:induction false} DivisionExists(data: Poly, divisor: Poly) returns (remainder: Poly, quotient: Poly)
    requires |divisor| > 0
    ensures Divides(data, divisor, remainder, quotient)
  {
    if |data| == 0 {
      remainder, quotient := Zeros(|divisor|), [];
      DivideNothing(divisor);
    } else {
      var n := |data| - 1;
      var rem, quo := DivisionExists(data[..n], divisor);
      var factor := Add(data[n], rem[0]);
      DivisionStep(data[..n], data[n], divisor, rem, quo);
      remainder, quotient := Reduce(rem, divisor, factor), quo + [factor];
      assert data[..n] + [data[n]] == data;
    }
  }

  lemma MultipleIsCodeword(data: Poly, d: nat, remainder: Poly, quotient: Poly)
    requires d >= 1
    requires Divides(data, Generator(d)[1..], remainder, quotient)
    ensures IsCodeword(data + remainder, d)
  {
    hide Add, Mul, Exp, Eval, Generator;
    GeneratorMonic(d);
    var g := Generator(d);
    assert [1] + g[1..] == g;
    forall k | 0 <= k < d
      ensures Eval(data + remainder, Exp(k)) == 0
    {
      EvalProduct(quotient, g, Exp(k));
      GeneratorRoots(d, Exp(k));
      assert IsPowerBelow(Exp(k), d);
      ProductIsZero(Eval(quotient, Exp(k)), 0);
    }
  }

  lemma WeightAtMostLength(w: Poly)
    ensures Weight(w) <= |w|
  {}

  /** Two completions of the same data agree. */
  lemma CompletionUnique(data: Poly, d: nat, r: Poly, s: Poly)
    requires |r| == |s| == d <= 255 && IsCodeword(data + r, d) && IsCodeword(data + s, d)
    ensures r == s
  {
    hide Add, Exp, Eval;
    var t := AddPoly(r, s);
    assert AddPoly(data + r, data + s) == Zeros(|data|) + t by {
      forall i | 0 <= i < |data|
        ensures Add(data[i], data[i]) == 0
      {
        AddCancels(data[i], data[i]);
      }
    }
    SumOfCodewords(data + r, data + s, d);
    forall k | 0 <= k < d
      ensures Eval(t, Exp(k)) == 0
    {
      EvalLeadingZeros(|data|, t, Exp(k));
      assert Eval(AddPoly(data + r, data + s), Exp(k)) == 0;
    }
    WeightAtMostLength(t);
    LightCodewordIsZero(t, d);
    forall i | 0 <= i < d
      ensures r[i] == s[i]
    {
      assert t[i] == Add(r[i], s[i]);
      AddCancels(r[i], s[i]);
    }
  }

  /** `remainder` is the division remainder of `data` exactly when all d syndromes of the block vanish. */
  lemma RemainderIffCodeword(data: Poly, d: nat, remainder: Poly)
    requires 1 <= d <= 255 && |remainder| == d
    ensures IsRemainder(data, Generator(d)[1..], remainder) <==> IsCodeword(data + remainder, d)
  {
    hide IsCodeword, Generator, Divides;
    if IsRemainder(data, Generator(d)[1..], remainder) {
      var q :| Divides(data, Generator(d)[1..], remainder, q);
      MultipleIsCodeword(data, d, remainder, q);
    }
    if IsCodeword(data + remainder, d) {
      var r, q := DivisionExists(data, Generator(d)[1..]);
      assert |r| == d by { DividesLength(data, Generator(d)[1..], r, q); }
      MultipleIsCodeword(data, d, r, q);
      CompletionUnique(data, d, r, remainder);
    }
  }

  lemma DividesLength(data: Poly, divisor: Poly, remainder: Poly, quotient: Poly)
    requires Divides(data, divisor, remainder, quotient)
    ensures |remainder| == |divisor|
  {}

  // Distance between words

  function Distance(u: Poly, v: Poly): nat
    requires |u| == |v|
  {
    if |u| == 0 then 0 else (if u[0] == v[0] then 0 else 1) + Distance(u[1..], v[1..])
  }

  lemma {:induction false} NoDistance(u: Poly)
    ensures Distance(u, u) == 0
  {
    if |u| > 0 {
      NoDistance(u[1..]);
    }
  }

  lemma {:induction false} WeightOfSum(u: Poly, v: Poly)
    requires |u| == |v|
    ensures Weight(AddPoly(u, v)) == Distance(u, v)
  {
    hide Add;
    if |u| > 0 {
      WeightOfSum(u[1..], v[1..]);
      assert AddPoly(u, v)[1..] == AddPoly(u[1..], v[1..]);
      AddCancels(u[0], v[0]);
    }
  }

  lemma {:induction false} Triangle(u: Poly, r: Poly, v: Poly)
    requires |u| == |r| == |v|
    ensures Distance(u, v) <= Distance(u, r) + Distance(v, r)
  {
    if |u| > 0 {
      Triangle(u[1..], r[1..], v[1..]);
    }
  }

  lemma SumOfCodewords(u: Poly, v: Poly, d: nat)
    requires |u| == |v| && IsCodeword(u, d) && IsCodeword(v, d)
    ensures IsCodeword(AddPoly(u, v), d)
  {
    hide Add, Exp, Eval;
    forall k | 0 <= k < d
      ensures Eval(AddPoly(u, v), Exp(k)) == 0
    {
      EvalAdd(u, v, Exp(k));
      assert Eval(u, Exp(k)) == 0 && Eval(v, Exp(k)) == 0;
      AddZero(0);
    }
  }

  /** Distinct codewords differ in more than d bytes: any d wrong bytes are noticed. */
  lemma CodewordsAreFarApart(u: Poly, v: Poly, d: nat)
    requires |u| == |v| <= 255 && IsCodeword(u, d) && IsCodeword(v, d) && u != v
    ensures Distance(u, v) > d
  {
    hide Add, Exp, Eval, IsCodeword;
    if Distance(u, v) <= d {
      SumOfCodewords(u, v, d);
      WeightOfSum(u, v);
      LightCodewordIsZero(AddPoly(u, v), d);
      forall i | 0 <= i < |u|
        ensures u[i] == v[i]
      {
        assert AddPoly(u, v)[i] == Add(u[i], v[i]);
        AddCancels(u[i], v[i]);
      }
    }
  }

  /** A received word is within d/2 wrong bytes of at most one codeword. */
  lemma UniqueDecoding(u: Poly, v: Poly, received: Poly, d: nat)
    requires |u| == |v| == |received| <= 255 && IsCodeword(u, d) && IsCodeword(v, d)
    requires 2 * Distance(u, received) <= d && 2 * Distance(v, received) <= d
    ensures u == v
  {
    hide IsCodeword;
    Triangle(u, received, v);
    if u != v {
      CodewordsAreFarApart(u, v, d);
    }
  }
}
