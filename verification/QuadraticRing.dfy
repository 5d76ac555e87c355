/** Arithmetic in Z[sqrt D], exactly and modulo n. */
module QuadraticRing {
  import opened Outcomes
  import opened Congruence
  import opened Primes
  import opened Bits

  /** e + f sqrt D */
  datatype Elt = Elt(e: int, f: int)

  const ONE := Elt(1, 0)

  function Mul(x: Elt, y: Elt, d: int): Elt {
    Elt(x.e * y.e + x.f * y.f * d, x.e * y.f + x.f * y.e)
  }

  function Power(x: Elt, n: nat, d: int): Elt {
    if n == 0 then ONE else Mul(x, Power(x, n - 1, d), d)
  }

  function Scale(c: int, x: Elt): Elt {
    Elt(c * x.e, c * x.f)
  }

  function Norm(x: Elt, d: int): int {
    x.e * x.e - x.f * x.f * d
  }

  lemma MulOne(x: Elt, d: int)
    ensures Mul(ONE, x, d) == x == Mul(x, ONE, d)
  {
  }

  lemma MulAssociative(x: Elt, y: Elt, z: Elt, d: int)
    ensures Mul(Mul(x, y, d), z, d) == Mul(x, Mul(y, z, d), d)
  {
    AssocRational(x.e, x.f, y.e, y.f, z.e, z.f, d);
    AssocIrrational(x.e, x.f, y.e, y.f, z.e, z.f, d);
  }

  lemma AssocRational(a: int, b: int, c: int, e: int, g: int, h: int, d: int)
    ensures (a * c + b * e * d) * g + (a * e + b * c) * h * d == a * (c * g + e * h * d) + b * (c * h + e * g) * d
  {
  }

  lemma AssocIrrational(a: int, b: int, c: int, e: int, g: int, h: int, d: int)
    ensures (a * c + b * e * d) * h + (a * e + b * c) * g == a * (c * h + e * g) + b * (c * g + e * h * d)
  {
  }

  lemma {:induction false} PowerAdd(x: Elt, m: nat, n: nat, d: int)
    ensures Power(x, m + n, d) == Mul(Power(x, m, d), Power(x, n, d), d)
  {
    if m == 0 {
      MulOne(Power(x, n, d), d);
    } else {
      PowerAdd(x, m - 1, n, d);
      MulAssociative(x, Power(x, m - 1, d), Power(x, n, d), d);
    }
  }

  lemma {:induction false} PowerMul(x: Elt, m: nat, n: nat, d: int)
    ensures m * n >= 0 && Power(Power(x, m, d), n, d) == Power(x, m * n, d)
  {
    if n > 0 {
      PowerMul(x, m, n - 1, d);
      assert m * n == m + m * (n - 1);
      PowerAdd(x, m, m * (n - 1), d);
    }
  }

  // ---- modulo n ------------------------------------------------------------------------

  ghost predicate CongElt(x: Elt, y: Elt, n: int) {
    Cong(x.e, y.e, n) && Cong(x.f, y.f, n)
  }

  function Reduce(x: Elt, n: int): Elt
    requires n > 0
  {
    Elt(x.e % n, x.f % n)
  }

  lemma ReduceCong(x: Elt, n: int)
    requires n > 0
    ensures CongElt(Reduce(x, n), x, n) && CongElt(x, Reduce(x, n), n)
  {
    CongMod(x.e, n);
    CongMod(x.f, n);
  }

  lemma CongEltTrans(x: Elt, y: Elt, z: Elt, n: int)
    requires CongElt(x, y, n) && CongElt(y, z, n)
    ensures CongElt(x, z, n)
  {
    CongTrans(x.e, y.e, z.e, n);
    CongTrans(x.f, y.f, z.f, n);
  }

  lemma CongEltMul(x: Elt, x': Elt, y: Elt, y': Elt, d: int, d': int, n: int)
    requires CongElt(x, x', n) && CongElt(y, y', n) && Cong(d, d', n)
    ensures CongElt(Mul(x, y, d), Mul(x', y', d'), n)
  {
    CongMul(x.e, x'.e, y.e, y'.e, n);
    CongMul(x.f, x'.f, y.f, y'.f, n);
    CongMul(x.f * y.f, x'.f * y'.f, d, d', n);
    CongAdd(x.e * y.e, x'.e * y'.e, x.f * y.f * d, x'.f * y'.f * d', n);
    CongMul(x.e, x'.e, y.f, y'.f, n);
    CongMul(x.f, x'.f, y.e, y'.e, n);
    CongAdd(x.e * y.f, x'.e * y'.f, x.f * y.e, x'.f * y'.e, n);
  }

  lemma {:induction false} CongEltPower(x: Elt, x': Elt, d: int, d': int, k: nat, n: int)
    requires CongElt(x, x', n) && Cong(d, d', n)
    ensures CongElt(Power(x, k, d), Power(x', k, d'), n)
  {
    if k == 0 {
      CongRefl(1, n);
      CongRefl(0, n);
    } else {
      CongEltPower(x, x', d, d', k - 1, n);
      CongEltMul(x, x', Power(x, k - 1, d), Power(x', k - 1, d'), d, d', n);
    }
  }

  /** `ring_mul` */
  function RingMul(x: Elt, y: Elt, d: int, n: int): (r: Elt)
    requires n > 0
    ensures CongElt(r, Mul(x, y, d), n) && 0 <= r.e < n && 0 <= r.f < n
  {
    ReduceCong(Mul(x, y, d), n);
    Reduce(Mul(x, y, d), n)
  }

  /** `ring_inv`: the conjugate over the norm, if the norm is invertible. */
  function RingInv(x: Elt, d: int, n: int): (r: Option<Elt>)
    requires n > 1
    ensures r.Some? <==> Unit(Norm(x, d), n)
    ensures r.Some? ==> CongElt(Mul(x, r.value, d), ONE, n)
  {
    var norm := Norm(x, d) % n;
    NormResidue(x, d, n);
    match Invert(norm, n)
    case None => None
    case Some(inv) =>
      InverseElt(x, inv, d, n);
      Some(Elt((x.e * inv) % n, (-(inv * x.f)) % n))
  }

  lemma NormResidue(x: Elt, d: int, n: int)
    requires n > 1
    ensures Unit(Norm(x, d) % n, n) <==> Unit(Norm(x, d), n)
  {
    CongMod(Norm(x, d), n);
    if Unit(Norm(x, d), n) {
      UnitCong(Norm(x, d), Norm(x, d) % n, n);
    }
    if Unit(Norm(x, d) % n, n) {
      UnitCong(Norm(x, d) % n, Norm(x, d), n);
    }
  }

  lemma InverseElt(x: Elt, inv: int, d: int, n: int)
    requires n > 1 && Cong((Norm(x, d) % n) * inv, 1, n)
    ensures CongElt(Mul(x, Elt((x.e * inv) % n, (-(inv * x.f)) % n), d), ONE, n)
  {
    var exact := Elt(x.e * inv, -(inv * x.f));
    var y := Reduce(exact, n);
    ReduceCong(exact, n);
    CongRefl(x.e, n);
    CongRefl(x.f, n);
    CongRefl(d, n);
    CongEltMul(x, x, y, exact, d, d, n);
    InverseAlgebra(x.e, x.f, inv, d);
    CongMod(Norm(x, d), n);
    CongScale(inv, Norm(x, d), Norm(x, d) % n, n);
    CongTrans(Norm(x, d) * inv, (Norm(x, d) % n) * inv, 1, n);
    CongTrans(Mul(x, y, d).e, Mul(x, exact, d).e, 1, n);
  }

  lemma InverseAlgebra(e: int, f: int, inv: int, d: int)
    ensures e * (e * inv) + f * (-(inv * f)) * d == (e * e - f * f * d) * inv
    ensures e * (-(inv * f)) + f * (e * inv) == 0
  {
    assert f * (-(inv * f)) == -((f * f) * inv);
    assert -((f * f) * inv) * d == -(f * f * d) * inv;
  }

  lemma RingMulPowers(r: Elt, b: Elt, x: Elt, m: nat, k: nat, d: int, n: int)
    requires n > 0 && CongElt(r, Power(x, m, d), n) && CongElt(b, Power(x, k, d), n)
    ensures CongElt(RingMul(r, b, d, n), Power(x, m + k, d), n)
  {
    CongRefl(d, n);
    CongEltMul(r, Power(x, m, d), b, Power(x, k, d), d, d, n);
    PowerAdd(x, m, k, d);
    CongEltTrans(RingMul(r, b, d, n), Mul(r, b, d), Power(x, m + k, d), n);
  }

  predicate InRange(x: Elt, n: int) {
    0 <= x.e < n && 0 <= x.f < n
  }

  lemma ReducedIsUnique(r: Elt, x: Elt, n: int)
    requires n > 0 && InRange(r, n) && CongElt(r, x, n)
    ensures r == Reduce(x, n)
  {
    CongIsRemainder(r.e, x.e, n);
    CongIsRemainder(r.f, x.f, n);
  }

  /** Between two bits of the exponent: the part done, and the weight of the bits to come. */
  ghost predicate PowerState(result: Elt, base: Elt, x: Elt, done: nat, step: nat, exp: nat, i: nat, d: int, n: int)
    requires n > 0
  {
    && done + step * Shift(exp, i) == exp && InRange(result, n)
    && CongElt(result, Power(x, done, d), n) && CongElt(base, Power(x, step, d), n)
  }

  lemma PowerStart(x: Elt, exp: nat, d: int, n: int)
    requires n > 1
    ensures PowerState(ONE, x, x, 0, 1, exp, 0, d, n)
  {
    CongRefl(1, n);
    CongRefl(0, n);
    CongRefl(x.e, n);
    CongRefl(x.f, n);
    MulOne(x, d);
    assert Power(x, 1, d) == Mul(x, Power(x, 0, d), d);
  }

  lemma PowerStep(result: Elt, base: Elt, x: Elt, done: nat, step: nat, exp: nat, i: nat, d: int, n: int)
    requires n > 0 && PowerState(result, base, x, done, step, exp, i, d, n)
    ensures if Bit(exp, i) then
              PowerState(RingMul(result, base, d, n), RingMul(base, base, d, n), x, done + step, 2 * step, exp, i + 1, d, n)
            else PowerState(result, RingMul(base, base, d, n), x, done, 2 * step, exp, i + 1, d, n)
  {
    WeightedBit(exp, i, step);
    RingMulPowers(result, base, x, done, step, d, n);
    RingMulPowers(base, base, x, step, step, d, n);
  }

  lemma PowerEnd(result: Elt, base: Elt, x: Elt, done: nat, step: nat, exp: nat, d: int, n: int)
    requires n > 0 && PowerState(result, base, x, done, step, exp, BitLength(exp), d, n)
    ensures result == Reduce(Power(x, exp, d), n)
  {
    ShiftBeyond(exp, BitLength(exp));
    NothingLeft(done, step, Shift(exp, BitLength(exp)), exp);
    ReducedIsUnique(result, Power(x, exp, d), n);
  }

  lemma NothingLeft(done: nat, step: nat, rest: nat, exp: nat)
    requires done + step * rest == exp && rest == 0
    ensures done == exp
  {
  }

  /** `ring_pow`: square and multiply from the low bit equals the exact power, reduced. */
  method RingPow(x: Elt, exp: nat, d: int, n: int) returns (result: Elt)
    requires n > 1
    ensures result == Reduce(Power(x, exp, d), n)
  {
    result := ONE;
    PowerStart(x, exp, d, n);
    ReducedIsUnique(ONE, ONE, n);
    if exp == 0 {
      return;
    }
    var base := x;
    ghost var done: nat, step: nat := 0, 1;
    for i := 0 to BitLength(exp)
      invariant PowerState(result, base, x, done, step, exp, i, d, n)
    {
      PowerStep(result, base, x, done, step, exp, i, d, n);
      if Bit(exp, i) {
        result := RingMul(result, base, d, n);
        done := done + step;
      }
      base := RingMul(base, base, d, n);
      step := 2 * step;
    }
    PowerEnd(result, base, x, done, step, exp, d, n);
  }
}
