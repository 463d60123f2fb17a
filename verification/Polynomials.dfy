/** Polynomials over GF(2^8/0x11D), coefficients from the highest power to the lowest. */
module Polynomials {
  import opened GaloisField

  type Poly = seq<Byte>

  function Zeros(n: nat): Poly {
    seq(n, _ => 0)
  }

  function AddPoly(p: Poly, q: Poly): Poly
    requires |p| == |q|
  {
    seq(|p|, i requires 0 <= i < |p| => Add(p[i], q[i]))
  }

  function Scale(p: Poly, c: Byte): Poly {
    seq(|p|, i requires 0 <= i < |p| => Mul(p[i], c))
  }

  /** `p` times (x - r). */
  function TimesLinear(p: Poly, r: Byte): Poly {
    AddPoly(p + [0], [0] + Scale(p, r))
  }

  /** `q` times `g`, one coefficient of `q` at a time. */
  function Product(q: Poly, g: Poly): (r: Poly)
    requires |g| > 0
    ensures |r| == |q| + |g| - 1
  {
    if |q| == 0 then Zeros(|g| - 1)
    else
      var n := |q| - 1;
      AddPoly(Product(q[..n], g) + [0], Zeros(n) + Scale(g, q[n]))
  }

  /** The value at `x`, by Horner's rule. */
  function Eval(p: Poly, x: Byte): Byte {
    if |p| == 0 then 0 else Add(Mul(Eval(p[..|p| - 1], x), x), p[|p| - 1])
  }

  lemma EvalSnoc(p: Poly, c: Byte, x: Byte)
    ensures Eval(p + [c], x) == Add(Mul(Eval(p, x), x), c)
  {
    assert (p + [c])[..|p|] == p;
  }

  lemma {:induction false} EvalZeros(n: nat, x: Byte)
    ensures Eval(Zeros(n), x) == 0
  {
    hide Add, Mul;
    if n > 0 {
      EvalZeros(n - 1, x);
      assert Zeros(n)[..n - 1] == Zeros(n - 1);
      MulZero(x);
      AddZero(0);
    }
  }

  lemma {:induction false} EvalLeadingZeros(n: nat, p: Poly, x: Byte)
    ensures Eval(Zeros(n) + p, x) == Eval(p, x)
  {
    hide Add, Mul;
    if |p| == 0 {
      assert Zeros(n) + p == Zeros(n);
      EvalZeros(n, x);
    } else {
      var m := |p| - 1;
      EvalLeadingZeros(n, p[..m], x);
      assert Zeros(n) + p == (Zeros(n) + p[..m]) + [p[m]];
      EvalSnoc(Zeros(n) + p[..m], p[m], x);
    }
  }

  lemma {:induction false} EvalAdd(p: Poly, q: Poly, x: Byte)
    requires |p| == |q|
    ensures Eval(AddPoly(p, q), x) == Add(Eval(p, x), Eval(q, x))
  {
    hide Add, Mul;
    if |p| == 0 {
      AddZero(0);
    } else {
      var n := |p| - 1;
      var a, b := Eval(p[..n], x), Eval(q[..n], x);
      EvalAdd(p[..n], q[..n], x);
      assert AddPoly(p, q)[..n] == AddPoly(p[..n], q[..n]);
      MulAddLeft(a, b, x);
      AddSwap(Mul(a, x), Mul(b, x), p[n], q[n]);
    }
  }

  lemma {:induction false} EvalScale(p: Poly, c: Byte, x: Byte)
    ensures Eval(Scale(p, c), x) == Mul(Eval(p, x), c)
  {
    hide Add, Mul;
    if |p| == 0 {
      MulZero(c);
    } else {
      var n := |p| - 1;
      var a := Eval(p[..n], x);
      EvalScale(p[..n], c, x);
      assert Scale(p, c)[..n] == Scale(p[..n], c);
      MulAssociates(a, c, x);
      MulCommutes(c, x);
      MulAssociates(a, x, c);
      MulAddLeft(Mul(a, x), p[n], c);
    }
  }

  lemma EvalShift(p: Poly, x: Byte)
    ensures Eval(p + [0], x) == Mul(Eval(p, x), x)
  {
    EvalSnoc(p, 0, x);
    AddZero(Mul(Eval(p, x), x));
  }

  lemma EvalTimesLinear(p: Poly, r: Byte, x: Byte)
    ensures Eval(TimesLinear(p, r), x) == Mul(Eval(p, x), Add(x, r))
  {
    hide Mul;
    EvalAdd(p + [0], [0] + Scale(p, r), x);
    EvalShift(p, x);
    assert Zeros(1) == [0];
    EvalLeadingZeros(1, Scale(p, r), x);
    EvalScale(p, r, x);
    MulAddRight(Eval(p, x), x, r);
  }

  lemma {:induction false} EvalProduct(q: Poly, g: Poly, x: Byte)
    requires |g| > 0
    ensures Eval(Product(q, g), x) == Mul(Eval(q, x), Eval(g, x))
  {
    hide Add, Mul;
    if |q| == 0 {
      EvalZeros(|g| - 1, x);
      MulZero(Eval(g, x));
    } else {
      var n := |q| - 1;
      var a, b := Eval(q[..n], x), Eval(g, x);
      EvalProduct(q[..n], g, x);
      EvalAdd(Product(q[..n], g) + [0], Zeros(n) + Scale(g, q[n]), x);
      EvalShift(Product(q[..n], g), x);
      EvalLeadingZeros(n, Scale(g, q[n]), x);
      EvalScale(g, q[n], x);
      MulAssociates(a, b, x);
      MulCommutes(b, x);
      MulAssociates(a, x, b);
      MulCommutes(b, q[n]);
      MulAddLeft(Mul(a, x), q[n], b);
    }
  }
}
