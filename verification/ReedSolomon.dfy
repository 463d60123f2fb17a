/**
 The Reed-Solomon coder. `ComputeDivisor` builds the generator (x - 2^0)(x - 2^1)...(x - 2^(d-1))
 in place; `ComputeRemainder` divides by it. A block followed by its remainder is a multiple of the
 generator, and that is the case exactly when all its syndromes vanish.
 */
module ReedSolomon {
  import opened GaloisField
  import opened Outcomes
  import opened Polynomials
  import opened PrimitiveElement

  /** (x - 2^0)(x - 2^1)...(x - 2^(n-1)) */
  function Generator(n: nat): (g: Poly)
    ensures |g| == n + 1
  {
    if n == 0 then [1] else TimesLinear(Generator(n - 1), Exp(n - 1))
  }

  lemma {:induction false} GeneratorMonic(n: nat)
    ensures Generator(n)[0] == 1
  {
    if n > 0 {
      GeneratorMonic(n - 1);
      AddZero(1);
    }
  }

  ghost predicate IsPowerBelow(x: Byte, n: nat) {
    exists k | 0 <= k < n :: x == Exp(k)
  }

  lemma IsPowerBelowNext(x: Byte, n: nat)
    ensures IsPowerBelow(x, n + 1) <==> IsPowerBelow(x, n) || x == Exp(n)
  {
    hide Exp;
    if IsPowerBelow(x, n + 1) {
      var k :| 0 <= k < n + 1 && x == Exp(k);
      assert k < n ==> IsPowerBelow(x, n);
    }
  }

  /** The roots of the generator are 2^0 .. 2^(n-1) and nothing else. */
  lemma {:induction false} GeneratorRoots(n: nat, x: Byte)
    ensures Eval(Generator(n), x) == 0 <==> IsPowerBelow(x, n)
  {
    hide Add, Mul, Exp, IsPowerBelow, Eval, TimesLinear;
    if n == 0 {
      EvalConstant(1, x);
      assert !IsPowerBelow(x, 0) by { NoPowerBelowZero(x); }
    } else {
      var p, f := Eval(Generator(n - 1), x), Add(x, Exp(n - 1));
      GeneratorRoots(n - 1, x);
      EvalTimesLinear(Generator(n - 1), Exp(n - 1), x);
      AddCancels(x, Exp(n - 1));
      IsPowerBelowNext(x, n - 1);
      ProductIsZero(p, f);
    }
  }

  lemma NoPowerBelowZero(x: Byte)
    ensures !IsPowerBelow(x, 0)
  {}

  lemma EvalConstant(c: Byte, x: Byte)
    ensures Eval([c], x) == c
  {
    EvalSnoc([], c, x);
    assert [] + [c] == [c];
    MulZero(x);
    AddZero(c);
  }

  lemma ProductIsZero(x: Byte, y: Byte)
    ensures Mul(x, y) == 0 <==> x == 0 || y == 0
  {
    if Mul(x, y) == 0 {
      NoZeroDivisors(x, y);
    }
    MulZero(y);
  }

  // reedSolomonComputeDivisor

  /**
   What the vector holds after `i` rounds: the product of the first `i` factors, right-aligned, its leading 1
   dropped at the end.
   */
  ghost predicate HoldsProduct(v: Poly, i: nat) {
    if i < |v| then v == Zeros(|v| - 1 - i) + Generator(i) else i == |v| && [1] + v == Generator(i)
  }

  /** One round of the inner loop as a whole. */
  ghost function Round(v: Poly, root: Byte): Poly {
    seq(|v|, j requires 0 <= j < |v| => if j + 1 < |v| then Add(Mul(v[j], root), v[j + 1]) else Mul(v[j], root))
  }

  lemma RoundMultiplies(v: Poly, i: nat)
    requires i < |v| && HoldsProduct(v, i)
    ensures HoldsProduct(Round(v, Exp(i)), i + 1)
  {
    hide Add, Mul, Exp, Generator;
    var g, r, z := Generator(i), Exp(i), |v| - 1 - i;
    var h := TimesLinear(g, r);
    assert h == Generator(i + 1) by { GeneratorStep(i); }
    var w := Round(v, r);
    GeneratorMonic(i);
    forall j | 0 <= j < |v|
      ensures w[j] == if j < z - 1 then 0 else h[j - z + 1]
    {
      MulZero(r);
      AddZero(0);
      if j + 1 < |v| {
        AddCommutes(Mul(v[j], r), v[j + 1]);
      }
      AddZero(Mul(v[j], r));
    }
    if i + 1 < |v| {
      assert w == Zeros(z - 1) + h;
    } else {
      AddZero(1);
      assert [1] + w == h;
    }
  }

  lemma GeneratorStep(i: nat)
    ensures Generator(i + 1) == TimesLinear(Generator(i), Exp(i))
  {}

  /** The body of the outer loop: multiplies the current product by (x - root). */
  method MultiplyByLinear(result: array<Byte>, root: Byte)
    modifies result
    ensures result[..] == Round(old(result[..]), root)
  {
    hide Add, Mul;
    ghost var v := result[..];
    ghost var w := Round(v, root);
    for j := 0 to result.Length
      invariant result[..j] == w[..j]
      invariant result[j..] == v[j..]
    {
      assert result[j] == v[j] && (j + 1 < result.Length ==> result[j + 1] == v[j + 1]);
      result[j] := Multiply(result[j], root);
      if j + 1 < result.Length {
        result[j] := Add(result[j], result[j + 1]);
      }
    }
  }

  lemma HoldsStart(v: Poly)
    requires |v| > 0 && v == Zeros(|v| - 1) + [1]
    ensures HoldsProduct(v, 0)
  {}

  lemma HoldsEnd(v: Poly)
    requires HoldsProduct(v, |v|)
    ensures [1] + v == Generator(|v|)
  {}

  /** A vector of the given length holding the monomial x^0. */
  method Monomial(degree: nat) returns (result: array<Byte>)
    requires degree > 0
    ensures fresh(result) && result.Length == degree
    ensures result[..] == Zeros(degree - 1) + [1]
  {
    result := new Byte[degree](_ => 0);
    result[degree - 1] := 1;
    assert forall i | 0 <= i < degree :: result[..][i] == (Zeros(degree - 1) + [1])[i];
  }

  method ComputeDivisor(degree: int) returns (r: Result<Poly>)
    ensures r.Success? <==> 1 <= degree <= 255
    ensures r.Success? ==> [1] + r.value == Generator(degree)
  {
    if degree < 1 || degree > 255 {
      return Failure(DegreeOutOfRange);
    }
    hide Mul, Round, Generator, HoldsProduct, Exp;
    var result := Monomial(degree);
    HoldsStart(result[..]);
    var root: Byte := 1;
    ExpZero();
    for i := 0 to degree
      invariant root == Exp(i)
      invariant HoldsProduct(result[..], i)
    {
      ghost var v := result[..];
      RoundMultiplies(v, i);
      MultiplyByLinear(result, root);
      MulTwo(root);
      ExpNext(i);
      root := Multiply(root, 2);
    }
    HoldsEnd(result[..]);
    r := Success(result[..]);
  }

  // reedSolomonComputeRemainder

  /** `quotient` certifies that `data` followed by `remainder` is a multiple of the monic polynomial [1] + `divisor`. */
  ghost predicate Divides(data: Poly, divisor: Poly, remainder: Poly, quotient: Poly) {
    && |remainder| == |divisor|
    && |quotient| == |data|
    && data + remainder == Product(quotient, [1] + divisor)
  }

  ghost predicate IsRemainder(data: Poly, divisor: Poly, remainder: Poly) {
    exists quotient :: Divides(data, divisor, remainder, quotient)
  }

  /** One step of the division: the next data byte is cancelled by `factor` times the divisor. */
  ghost function Reduce(rem: Poly, divisor: Poly, factor: Byte): Poly
    requires |rem| == |divisor| > 0
  {
    AddPoly(rem[1..] + [0], Scale(divisor, factor))
  }

  lemma DivideNothing(divisor: Poly)
    ensures Divides([], divisor, Zeros(|divisor|), [])
  {}

  lemma DivisionStep(data: Poly, b: Byte, divisor: Poly, rem: Poly, quotient: Poly)
    requires |divisor| > 0
    requires Divides(data, divisor, rem, quotient)
    ensures var factor := Add(b, rem[0]);
            Divides(data + [b], divisor, Reduce(rem, divisor, factor), quotient + [factor])
  {
    hide Add, Mul;
    var factor, g, n := Add(b, rem[0]), [1] + divisor, |data|;
    var q := quotient + [factor];
    var next := Reduce(rem, divisor, factor);
    assert q[..n] == quotient;
    var low, high := data + rem + [0], Zeros(n) + Scale(g, factor);
    assert Product(q, g) == AddPoly(low, high);
    forall i | 0 <= i < n + 1 + |divisor|
      ensures (data + [b] + next)[i] == Add(low[i], high[i])
    {
      if i < n {
        AddZero(data[i]);
      } else if i == n {
        OneMul(factor);
        AddCommutes(b, rem[0]);
        AddAssociates(rem[0], rem[0], b);
        AddCancels(rem[0], rem[0]);
        AddZero(b);
      } else {
        assert high[i] == Mul(divisor[i - n - 1], factor);
      }
    }
    assert data + [b] + next == Product(q, g);
  }

  method ComputeRemainder(data: Poly, divisor: Poly) returns (result: Poly)
    requires |divisor| > 0
    ensures IsRemainder(data, divisor, result)
  {
    hide Add, Mul, Product;
    result := Zeros(|divisor|);
    ghost var quotient := [];
    DivideNothing(divisor);
    for k := 0 to |data|
      invariant Divides(data[..k], divisor, result, quotient)
    {
      var b := data[k];
      var factor := Add(b, result[0]);
      DivisionStep(data[..k], b, divisor, result, quotient);
      assert data[..k] + [b] == data[..k + 1];
      ghost var next := Reduce(result, divisor, factor);
      result := result[1..];
      result := result + [0];
      ghost var shifted := result;
      for i := 0 to |result|
        invariant |result| == |divisor|
        invariant forall j | 0 <= j < i :: result[j] == next[j]
        invariant forall j | i <= j < |result| :: result[j] == shifted[j]
      {
        var m := Multiply(divisor[i], factor);
        result := result[i := Add(result[i], m)];
      }
      assert result == next;
      quotient := quotient + [factor];
    }
    assert data[..|data|] == data;
  }
}
