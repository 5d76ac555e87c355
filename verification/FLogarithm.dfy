/** Discrete logarithms in F: peeling base-q digits in Z[sqrt D]/q^k. */
module FLogarithm {
  import opened Outcomes
  import opened Congruence
  import opened Primes
  import opened Residues
  import opened QuadraticRing
  import FormClasses
  import opened UnitPowers
  import opened FSubgroup

  /** Failed covers the inverses that do not exist and the exact divisions of non-multiples;
      LargeMessage is the regime with q^2k > (1 - D)/4. */
  datatype Dlog = Value(m: int) | Failed | LargeMessage

  // ---- from the form back to the parameter --------------------------------------------------

  /** The parameter exposed by a form (q^2j, u q^j, .). */
  function RecoverParam(s: Params, f: FormClasses.Form): (t: Option<nat>)
    requires s.Valid()
  {
    ModulusFacts(s);
    var j := ValQ(f.a, s.q) / 2;
    var qj := QPow(s.q, j);
    if j > s.k || qj <= 1 || f.b % qj != 0 then None
    else
      match Invert(f.b / qj, qj)
      case None => None
      case Some(inv) => Some((QPow(s.q, s.k - j) * inv) % s.M())
  }

  lemma InverseOfInverse(w: int, u: int, x: int, m: int)
    requires Cong(w * u, 1, m) && Cong(u * x, 1, m)
    ensures Cong(x, w, m)
  {
    CongScale(x, w * u, 1, m);
    CongScale(w, u * x, 1, m);
    assert (w * u) * x == w * (u * x);
    CongSym((w * u) * x, 1 * x, m);
    CongTrans(x, (w * u) * x, w * 1, m);
  }

  lemma ShapeGivesParam(q: int, k: nat, v: nat, j: nat, w: int, u: int, x: int, t: nat)
    requires q > 2 && v + j == k && t == QPow(q, v) * w && t < QPow(q, k)
    requires Cong(w * u, 1, QPow(q, j)) && Cong(u * x, 1, QPow(q, j))
    ensures t == (QPow(q, v) * x) % QPow(q, k)
  {
    var qv, qj, n := QPow(q, v), QPow(q, j), QPow(q, k);
    InverseOfInverse(w, u, x, qj);
    var h :| Quotient(x, w, qj, h);
    SplitPower(q, k, v, j);
    assert qv * (w + qj * h) == qv * w + (qj * qv) * h;
    CongBy(qv * x, t, n, h);
    CongSym(qv * x, t, n);
    CongIsRemainder(t, qv * x, n);
  }

  /** The two coefficients the logarithm looks at. */
  lemma ShapeOfRawForm(s: Params, t: nat)
    requires s.Valid() && 0 < t < s.M()
    ensures s.q > 2 && ValQ(t, s.q) < s.k && (t / QPow(s.q, ValQ(t, s.q))) % s.q != 0
    ensures var v := ValQ(t, s.q);
            var j := s.k - v;
            var f, qj := RawForm(s, t), QPow(s.q, j);
            && qj > 1 && f.a > 1 && ValQ(f.a, s.q) == 2 * j
            && f.b % qj == 0 && f.b / qj == OddInverse(s.q, j, t / QPow(s.q, v))
  {
    RawFormExact(s, t);
    var v := ValQ(t, s.q);
    var j := s.k - v;
    var qj, u := QPow(s.q, j), OddInverse(s.q, j, t / QPow(s.q, v));
    CofactorInvertible(s.q, j, t / QPow(s.q, v));
    PowSquare(s.q, j);
    RemainderOfSmall(1, s.q);
    ValQOfProduct(2 * j, 1, s.q);
    assert qj * qj > 1;
    assert u * qj == qj * u;
    ExactDivision(u * qj, qj, u);
  }

  /** Building a form and reading the parameter off it is the identity. */
  lemma ParamRoundTrip(s: Params, t: nat)
    requires s.Valid() && 0 < t < s.M()
    ensures RecoverParam(s, RawForm(s, t)) == Some(t)
  {
    ShapeOfRawForm(s, t);
    ParamSplits(s, t);
    var v := ValQ(t, s.q);
    var j := s.k - v;
    var qj, w := QPow(s.q, j), t / QPow(s.q, v);
    var u := OddInverse(s.q, j, w);
    assert w * u == u * w;
    UnitBy(u, w, qj);
    ShapeGivesParam(s.q, s.k, v, j, w, u, Invert(u, qj).value, t);
  }

  // ---- peeling digits --------------------------------------------------------------------------

  /** The digit of a pass: cur is normalised to 1 + t sqrt D, and t / q^i is taken modulo q. */
  function ReadDigit(s: Params, cur: Elt, i: nat): (r: Option<nat>)
    requires s.Valid()
  {
    ModulusFacts(s);
    var n, qi := s.M(), QPow(s.q, i);
    match Invert(cur.e, n)
    case None => None
    case Some(inv) =>
      var tc := (cur.f * inv) % n;
      if tc % qi != 0 then None else Some((tc / qi) % s.q)
  }

  /** The inverse of alpha^mi. */
  function DigitInverse(s: Params, alpha: Elt, mi: nat): Option<Elt>
    requires s.Valid()
  {
    ModulusFacts(s);
    var dk := s.DeltaK() % s.M();
    RingInv(Reduce(Power(alpha, mi, dk), s.M()), dk, s.M())
  }

  function Times(s: Params, x: Elt, y: Elt): Elt
    requires s.Valid()
  {
    RingMul(x, y, s.DeltaK() % s.M(), s.M())
  }

  /** alpha^e */
  function AlphaTo(s: Params, alpha: Elt, e: nat): Elt
    requires s.Valid()
  {
    Reduce(Power(alpha, e, s.DeltaK() % s.M()), s.M())
  }

  /** The digit loop: cur = 1 + t sqrt D up to a unit, alpha = (1 + sqrt D)^(q^i). */
  function Peel(s: Params, cur: Elt, alpha: Elt, i: nat, acc: int): Dlog
    requires s.Valid() && i <= s.k
    decreases s.k - i
  {
    if i == s.k then Value(acc)
    else
      match ReadDigit(s, cur, i)
      case None => Failed
      case Some(mi) =>
        match DigitInverse(s, alpha, mi)
        case None => Failed
        case Some(y) =>
          Peel(s, Times(s, cur, y), AlphaTo(s, alpha, s.q), i + 1, acc + mi * QPow(s.q, i))
  }

  /** `dlog_in_F` */
  function DlogInF(s: Params, fm: FormClasses.Form): Dlog
    requires s.Valid()
  {
    ModulusFacts(s);
    if fm.a == 1 then Value(0)
    else if !s.SmallMessage() then LargeMessage
    else if s.k == 1 then
      if fm.b % s.q != 0 then Failed
      else
        match Invert(fm.b / s.q, s.q)
        case None => Failed
        case Some(m) => Value(m % s.q)
    else
      match RecoverParam(s, fm)
      case None => Failed
      case Some(t) => Peel(s, Elt(1, t), Elt(1, 1), 0, 0)
  }

  /** The opening of `dlog_in_F_general`: the parameter exposed by the form. */
  method ReadParam(s: Params, fm: FormClasses.Form) returns (t: Option<nat>)
    requires s.Valid()
    ensures t == RecoverParam(s, fm)
  {
    ModulusFacts(s);
    var val := ValuationLoop(fm.a, s.q);
    var j := val / 2;
    var qj := QPow(s.q, j);
    if j > s.k || qj <= 1 || fm.b % qj != 0 {
      return None;
    }
    var inverse := Invert(fm.b / qj, qj);
    if inverse.None? {
      return None;
    }
    t := Some((QPow(s.q, s.k - j) * inverse.value) % s.M());
  }

  /** The digit of one pass. */
  method ReadOneDigit(s: Params, cur: Elt, i: nat, qi: nat) returns (mi: Option<nat>)
    requires s.Valid() && qi == QPow(s.q, i)
    ensures mi == ReadDigit(s, cur, i)
  {
    ModulusFacts(s);
    var eInv := Invert(cur.e, s.M());
    if eInv.None? {
      return None;
    }
    var tc := (cur.f * eInv.value) % s.M();
    if tc % qi != 0 {
      return None;
    }
    mi := Some((tc / qi) % s.q);
  }

  /** `dlog_in_F_general` */
  method DlogInFGeneral(s: Params, fm: FormClasses.Form) returns (r: Dlog)
    requires s.Valid()
    ensures RecoverParam(s, fm) == None ==> r == Failed
    ensures RecoverParam(s, fm).Some? ==> r == Peel(s, Elt(1, RecoverParam(s, fm).value), Elt(1, 1), 0, 0)
  {
    ModulusFacts(s);
    var n := s.M();
    var dk := s.DeltaK() % n;
    var t := ReadParam(s, fm);
    if t.None? {
      return Failed;
    }
    var cur, alpha := Elt(1, t.value), Elt(1, 1);
    ghost var spec := Peel(s, cur, alpha, 0, 0);
    var acc, qi := 0, 1;
    for i := 0 to s.k
      invariant qi == QPow(s.q, i)
      invariant Peel(s, cur, alpha, i, acc) == spec
    {
      var mi := ReadOneDigit(s, cur, i, qi);
      if mi.None? {
        return Failed;
      }
      var digit := RingPow(alpha, mi.value, dk, n);
      var digitInv := RingInv(digit, dk, n);
      if digitInv.None? {
        return Failed;
      }
      cur := RingMul(cur, digitInv.value, dk, n);
      alpha := RingPow(alpha, s.q, dk, n);
      acc := acc + mi.value * qi;
      qi := qi * s.q;
    }
    r := Value(acc);
  }

  // ---- what the loop computes ----------------------------------------------------------------

  /** The levels of q exist: D = 3 modulo 9 when q = 3. */
  predicate Leveled(s: Params) {
    s.q == 3 ==> s.DeltaK() % 9 == 3
  }

  /** cur is (1 + sqrt D)^m up to the unit lam. */
  ghost predicate Tracks(s: Params, lam: int, cur: Elt, m: nat)
    requires s.q >= 1
  {
    Unit(lam, s.M()) && CongElt(cur, Scale(lam, Gen(m, s.DeltaK())), s.M())
  }

  lemma NormalizeParam(t: int, lam: int, ce: int, cf: int, e: int, f: int, inv: int, n: int)
    requires Unit(lam, n) && Cong(ce, lam * e, n) && Cong(cf, lam * f, n) && Cong(ce * inv, 1, n)
    requires Cong(t, cf * inv, n)
    ensures Cong(t * e, f, n)
  {
    CongScale(ce, t, cf * inv, n);
    CongScale(cf, ce * inv, 1, n);
    Regroup(cf, inv, ce);
    CongTrans(t * ce, (cf * inv) * ce, cf * 1, n);
    CongTrans(t * ce, cf, lam * f, n);
    CongScale(t, ce, lam * e, n);
    CongSym(t * ce, t * (lam * e), n);
    CongTrans(t * (lam * e), t * ce, lam * f, n);
    Regroup(t, lam, e);
    Regroup(lam, t, e);
    UnitCancel(lam, t * e, f, n);
  }

  /** Each pass normalises cur exactly and reads the (twisted) digit of c. */
  lemma DigitRead(s: Params, lam: int, cur: Elt, i: nat, c: nat)
    requires s.Valid() && Leveled(s) && i < s.k && Tracks(s, lam, cur, QPow(s.q, i) * c)
    ensures ReadDigit(s, cur, i) == Some(SeenDigit(s.q, i, c))
  {
    ParamsFacts(s);
    var n, m, d := s.M(), QPow(s.q, i) * c, s.DeltaK();
    var x := Gen(m, d);
    RationalUnit(m, d, s.q, s.k);
    UnitMul(lam, x.e, n);
    CongSym(cur.e, lam * x.e, n);
    UnitCong(lam * x.e, cur.e, n);
    var inv := Invert(cur.e, n).value;
    var tc := (cur.f * inv) % n;
    CongMod(cur.f * inv, n);
    NormalizeParam(tc, lam, cur.e, cur.f, x.e, x.f, inv, n);
    LevelHolds(i, d, s.q);
    DigitOfParam(tc, i, c, d, s.q, s.k, Twist(i, s.q));
  }

  /** The norm of a power of 1 + sqrt D is a unit. */
  lemma NormIsUnit(x: Elt, m: nat, s: Params)
    requires s.Valid() && CongElt(x, Gen(m, s.DeltaK()), s.M())
    ensures s.M() > 1 && Unit(Norm(x, s.DeltaK() % s.M()), s.M())
  {
    ParamsFacts(s);
    var d, n := s.DeltaK(), s.M();
    var g := Gen(m, d);
    RationalPart(m, d, s.q);
    CongMul(g.e, 1, g.e, 1, s.q);
    CongScale(g.f * g.f, d, 0, s.q);
    CongSub(g.e * g.e, 1, (g.f * g.f) * d, (g.f * g.f) * 0, s.q);
    CongSym(Norm(g, d), 1, s.q);
    CongRefl(1, s.q);
    UnitBy(1, 1, s.q);
    UnitCong(1, Norm(g, d), s.q);
    UnitPowerModulus(Norm(g, d), s.q, s.k);
    NormCong(x, g, d, n);
    UnitCong(Norm(g, d), Norm(x, d % n), n);
  }

  lemma NormCong(x: Elt, g: Elt, d: int, n: int)
    requires n > 0 && CongElt(x, g, n)
    ensures Cong(Norm(g, d), Norm(x, d % n), n)
  {
    CongMod(d, n);
    CongMul(x.e, g.e, x.e, g.e, n);
    CongMul(x.f, g.f, x.f, g.f, n);
    CongMul(x.f * x.f, g.f * g.f, d % n, d, n);
    CongSub(x.e * x.e, g.e * g.e, (x.f * x.f) * (d % n), (g.f * g.f) * d, n);
    CongSym(Norm(x, d % n), Norm(g, d), n);
  }

  /** Powers of alpha taken with D reduced modulo n. */
  lemma AlphaPower(s: Params, alpha: Elt, i: nat, e: nat)
    requires s.Valid() && CongElt(alpha, Gen(QPow(s.q, i), s.DeltaK()), s.M())
    ensures QPow(s.q, i) * e >= 0
    ensures CongElt(AlphaTo(s, alpha, e), Gen(QPow(s.q, i) * e, s.DeltaK()), s.M())
  {
    var n, d, a := s.M(), s.DeltaK(), QPow(s.q, i);
    CongMod(d, n);
    CongEltPower(alpha, Gen(a, d), d % n, d, e, n);
    PowerMul(ALPHA, a, e, d);
    var p := Power(alpha, e, d % n);
    ReduceCong(p, n);
    CongEltTrans(Reduce(p, n), p, Gen(a * e, d), n);
  }

  /** The digit's power is always invertible. */
  lemma DigitInvertible(s: Params, alpha: Elt, i: nat, mi: nat)
    requires s.Valid() && CongElt(alpha, Gen(QPow(s.q, i), s.DeltaK()), s.M())
    ensures DigitInverse(s, alpha, mi).Some?
    ensures CongElt(Mul(AlphaTo(s, alpha, mi), DigitInverse(s, alpha, mi).value, s.DeltaK() % s.M()), ONE, s.M())
  {
    ModulusFacts(s);
    AlphaPower(s, alpha, i, mi);
    NormIsUnit(AlphaTo(s, alpha, mi), QPow(s.q, i) * mi, s);
  }

  lemma ScaleMul(lam: int, x: Elt, y: Elt, d: int)
    ensures Mul(Scale(lam, x), y, d) == Scale(lam, Mul(x, y, d))
  {
    assert (lam * x.e) * y.e == lam * (x.e * y.e) && (lam * x.f) * y.f == lam * (x.f * y.f);
    assert (lam * (x.f * y.f)) * d == lam * (x.f * y.f * d);
    assert (lam * x.e) * y.f == lam * (x.e * y.f) && (lam * x.f) * y.e == lam * (x.f * y.e);
  }

  /** Multiplying by the inverse of (1 + sqrt D)^b removes b from the exponent. */
  lemma RemovePower(lam: int, cur: Elt, z: Elt, y: Elt, b: nat, rest: nat, d: int, n: int)
    requires n > 1 && CongElt(cur, Scale(lam, Gen(b + rest, d)), n) && CongElt(z, Gen(b, d), n)
    requires CongElt(Mul(z, y, d % n), ONE, n)
    ensures CongElt(RingMul(cur, y, d % n, n), Scale(lam, Gen(rest, d)), n)
  {
    var dk := d % n;
    CongMod(d, n);
    var g, h := Gen(rest, d), Gen(b, d);
    CongEltRefl(y, n);
    CongEltRefl(g, n);
    CongEltMul(cur, Scale(lam, Gen(b + rest, d)), y, y, dk, d, n);
    CongEltSym(z, h, n);
    CongEltMul(h, z, y, y, d, dk, n);
    CongEltTrans(Mul(h, y, d), Mul(z, y, dk), ONE, n);
    CongRefl(d, n);
    CongEltMul(g, g, Mul(h, y, d), ONE, d, d, n);
    MulOne(g, d);
    CongScale(lam, Mul(g, Mul(h, y, d), d).e, g.e, n);
    CongScale(lam, Mul(g, Mul(h, y, d), d).f, g.f, n);
    assert rest + b == b + rest;
    PowerAdd(ALPHA, rest, b, d);
    MulAssociative(g, h, y, d);
    ScaleMul(lam, Gen(b + rest, d), y, d);
    CongEltTrans(Mul(cur, y, dk), Scale(lam, Mul(g, Mul(h, y, d), d)), Scale(lam, g), n);
    CongEltTrans(RingMul(cur, y, dk, n), Mul(cur, y, dk), Scale(lam, g), n);
  }

  lemma CongEltRefl(x: Elt, n: int)
    ensures CongElt(x, x, n)
  {
    CongRefl(x.e, n);
    CongRefl(x.f, n);
  }

  lemma CongEltSym(x: Elt, y: Elt, n: int)
    requires CongElt(x, y, n)
    ensures CongElt(y, x, n)
  {
    CongSym(x.e, y.e, n);
    CongSym(x.f, y.f, n);
  }

  /** A pass that reads the right digit mi keeps the invariant: mi leaves the exponent. */
  lemma PassKeepsInvariant(s: Params, lam: int, cur: Elt, alpha: Elt, i: nat, mi: nat, b: nat, rest: nat)
    requires s.Valid() && b == QPow(s.q, i) * mi && Tracks(s, lam, cur, b + rest)
    requires CongElt(alpha, Gen(QPow(s.q, i), s.DeltaK()), s.M())
    ensures DigitInverse(s, alpha, mi).Some?
    ensures Tracks(s, lam, Times(s, cur, DigitInverse(s, alpha, mi).value), rest)
  {
    ModulusFacts(s);
    DigitInvertible(s, alpha, i, mi);
    AlphaPower(s, alpha, i, mi);
    RemovePower(lam, cur, AlphaTo(s, alpha, mi), DigitInverse(s, alpha, mi).value, b, rest, s.DeltaK(), s.M());
  }

  /** alpha moves to the next power of q. */
  lemma AlphaAdvances(s: Params, alpha: Elt, i: nat)
    requires s.Valid() && CongElt(alpha, Gen(QPow(s.q, i), s.DeltaK()), s.M())
    ensures CongElt(AlphaTo(s, alpha, s.q), Gen(QPow(s.q, i + 1), s.DeltaK()), s.M())
  {
    AlphaPower(s, alpha, i, s.q);
    assert QPow(s.q, i + 1) == s.q * QPow(s.q, i) == QPow(s.q, i) * s.q;
  }

  lemma SplitExponent(a: nat, q: nat, c: nat)
    requires q > 0
    ensures (q * a) * (c / q) >= 0 && a * (c % q) >= 0
    ensures a * c == a * (c % q) + (q * a) * (c / q)
  {
    var h, r := c / q, c % q;
    assert c == q * h + r;
    assert a * (q * h + r) == a * r + (q * a) * h;
    assert (q * a) * h >= 0;
  }

  /** Later passes only add multiples of the current power of q. */
  lemma {:induction false} PeelKeepsAcc(s: Params, cur: Elt, alpha: Elt, i: nat, acc: int)
    requires s.Valid() && i <= s.k && Peel(s, cur, alpha, i, acc).Value?
    ensures Cong(Peel(s, cur, alpha, i, acc).m, acc, QPow(s.q, i))
    decreases s.k - i
  {
    var qi := QPow(s.q, i);
    if i == s.k {
      CongRefl(acc, qi);
    } else {
      var mi := ReadDigit(s, cur, i).value;
      var y := DigitInverse(s, alpha, mi).value;
      PeelKeepsAcc(s, Times(s, cur, y), AlphaTo(s, alpha, s.q), i + 1, acc + mi * qi);
      var v := Peel(s, cur, alpha, i, acc).m;
      assert QPow(s.q, i + 1) == s.q * qi == qi * s.q;
      CongWeaken(v, acc + mi * qi, qi, s.q);
      CongBy(acc + mi * qi, acc, qi, mi);
      CongTrans(v, acc + mi * qi, acc, qi);
    }
  }

  /** The exponents whose digits are all read correctly. */
  predicate Readable(q: int, i: nat, c: nat) {
    q != 3 || c == 0 || (i == 0 && c < 3)
  }

  lemma WrongDigit(v: int, acc: int, qi: nat, q: nat, c: nat, mi: nat)
    requires q > 0 && qi > 0 && mi < q && mi != c % q && Cong(v, acc + mi * qi, q * qi)
    ensures v != acc + qi * c
  {
    if v == acc + qi * c {
      var h :| Quotient(v, acc + mi * qi, q * qi, h);
      assert qi * c == qi * mi + qi * (q * h);
      assert qi * (c - mi - q * h) == 0;
      assert c == mi + q * h;
      CongBy(c, mi, q, h);
      CongSym(c, mi, q);
      CongIsRemainder(mi, c, q);
    }
  }

  lemma FewerDigits(q: nat, k: nat, c: nat)
    requires q > 0 && k >= 1 && c < QPow(q, k)
    ensures c / q < QPow(q, k - 1)
  {
    var w, h := QPow(q, k - 1), c / q;
    assert q * h <= c < q * w;
    assert h >= w ==> q * h >= q * w;
  }

  /** A number is readable when its lowest digit is seen right and the rest is readable. */
  lemma ReadableStep(q: int, i: nat, c: nat)
    requires q >= 3
    ensures Readable(q, i, c) <==> SeenDigit(q, i, c) == c % q && Readable(q, i + 1, c / q)
  {
  }

  lemma WrongDigitFails(s: Params, cur: Elt, alpha: Elt, i: nat, acc: int, c: nat, mi: nat)
    requires s.Valid() && i < s.k && mi < s.q && mi != c % s.q
    ensures Peel(s, cur, alpha, i + 1, Added(acc, mi, s.q, i)) != Value(acc + QPow(s.q, i) * c)
  {
    var qi := QPow(s.q, i);
    var r := Peel(s, cur, alpha, i + 1, acc + mi * qi);
    if r.Value? {
      PeelKeepsAcc(s, cur, alpha, i + 1, acc + mi * qi);
      assert QPow(s.q, i + 1) == s.q * qi;
      WrongDigit(r.m, acc, qi, s.q, c, mi);
    }
  }

  lemma ValueStep(acc: int, qi: nat, q: nat, c: nat)
    requires q > 0
    ensures acc + (c % q) * qi + (q * qi) * (c / q) == acc + qi * c
  {
    SplitExponent(qi, q, c);
  }

  /** The digit a pass reads when the remaining exponent is c. */
  function SeenDigit(q: int, i: nat, c: nat): (mi: nat)
    requires q >= 1
    ensures mi < q
  {
    (Twist(i, q) * c) % q
  }

  /** The accumulator after a pass. */
  function Added(acc: int, mi: int, q: nat, i: nat): int
    requires q >= 1
  {
    acc + mi * QPow(q, i)
  }

  /** One pass on a state that tracks an exponent. */
  lemma PeelPass(s: Params, lam: int, cur: Elt, alpha: Elt, i: nat, acc: int, c: nat, mi: nat)
    requires s.Valid() && Leveled(s) && i < s.k && mi == SeenDigit(s.q, i, c)
    requires Tracks(s, lam, cur, QPow(s.q, i) * c) && CongElt(alpha, Gen(QPow(s.q, i), s.DeltaK()), s.M())
    ensures DigitInverse(s, alpha, mi).Some?
    ensures Peel(s, cur, alpha, i, acc)
            == Peel(s, Times(s, cur, DigitInverse(s, alpha, mi).value), AlphaTo(s, alpha, s.q), i + 1,
                    Added(acc, mi, s.q, i))
  {
    DigitRead(s, lam, cur, i, c);
    DigitInvertible(s, alpha, i, mi);
  }

  /** The digits above the lowest. */
  function RestOf(c: nat, q: int): (rest: nat)
    requires q > 0
    ensures rest == c / q
  {
    c / q
  }

  /** After a pass that read the last digit of c, the state tracks the rest. */
  lemma RightPass(s: Params, lam: int, cur: Elt, alpha: Elt, i: nat, c: nat, mi: nat, rest: nat)
    requires s.Valid() && i < s.k && mi == c % s.q && rest == c / s.q && c < QPow(s.q, s.k - i)
    requires Tracks(s, lam, cur, QPow(s.q, i) * c) && CongElt(alpha, Gen(QPow(s.q, i), s.DeltaK()), s.M())
    ensures DigitInverse(s, alpha, mi).Some? && rest < QPow(s.q, s.k - i - 1)
    ensures Tracks(s, lam, Times(s, cur, DigitInverse(s, alpha, mi).value), QPow(s.q, i + 1) * rest)
    ensures CongElt(AlphaTo(s, alpha, s.q), Gen(QPow(s.q, i + 1), s.DeltaK()), s.M())
  {
    var qi := QPow(s.q, i);
    ModulusFacts(s);
    SplitExponent(qi, s.q, c);
    PassKeepsInvariant(s, lam, cur, alpha, i, mi, qi * mi, (s.q * qi) * rest);
    AlphaAdvances(s, alpha, i);
    FewerDigits(s.q, s.k - i, c);
  }

  /** What the later passes make of the rest, seen from this pass. */
  lemma RightResult(next: Dlog, q: nat, i: nat, acc: int, c: nat, mi: nat, rest: nat)
    requires q >= 3 && mi == SeenDigit(q, i, c) == c % q && rest == c / q
    requires next == Value(Added(acc, mi, q, i) + QPow(q, i + 1) * rest) <==> Readable(q, i + 1, rest)
    ensures next == Value(acc + QPow(q, i) * c) <==> Readable(q, i, c)
  {
    var qi := QPow(q, i);
    assert QPow(q, i + 1) == q * qi;
    ValueStep(acc, qi, q, c);
    ReadableStep(q, i, c);
  }

  /** The loop returns the exponent exactly when it is readable. */
  lemma {:induction false} PeelExact(s: Params, lam: int, cur: Elt, alpha: Elt, i: nat, acc: int, c: nat)
    requires s.Valid() && Leveled(s) && i <= s.k && c < QPow(s.q, s.k - i)
    requires Tracks(s, lam, cur, QPow(s.q, i) * c) && CongElt(alpha, Gen(QPow(s.q, i), s.DeltaK()), s.M())
    ensures Peel(s, cur, alpha, i, acc) == Value(acc + QPow(s.q, i) * c) <==> Readable(s.q, i, c)
    decreases s.k - i
  {
    if i < s.k {
      ModulusFacts(s);
      var mi := SeenDigit(s.q, i, c);
      PeelPass(s, lam, cur, alpha, i, acc, c, mi);
      var cur', alpha' := Times(s, cur, DigitInverse(s, alpha, mi).value), AlphaTo(s, alpha, s.q);
      if mi == c % s.q {
        var rest := RestOf(c, s.q);
        RightPass(s, lam, cur, alpha, i, c, mi, rest);
        PeelExact(s, lam, cur', alpha', i + 1, Added(acc, mi, s.q, i), rest);
        RightResult(Peel(s, cur, alpha, i, acc), s.q, i, acc, c, mi, rest);
      } else {
        ReadableStep(s.q, i, c);
        WrongDigitFails(s, cur', alpha', i, acc, c, mi);
      }
    }
  }

  // ---- the round trip ----------------------------------------------------------------------

  lemma RemainderNine(p: int, d: int)
    requires p % 3 == 2 && d == -(p * 3)
    ensures d % 9 == 3
  {
    var h := p / 3;
    assert d == 9 * (-h - 1) + 3;
  }

  /** In the small-message regime p is not one, so it is a non-residue; for q = 3 it is 2 modulo 3. */
  lemma SmallIsLeveled(s: Params)
    requires s.Valid() && s.SmallMessage()
    ensures Leveled(s)
  {
    LargeDiscriminant(s);
    if s.q == 3 {
      if s.p % 3 == 1 {
        CongBy(1 * 1, s.p, 3, -(s.p / 3));
        assert SquareRootOf(1, s.p, 3);
      }
      RemainderNine(s.p, s.DeltaK());
    }
  }

  lemma TwistKeepsNonzero(i: nat, q: int, c: nat)
    requires q >= 3 && c % q != 0
    ensures (Twist(i, q) * c) % q != 0
  {
  }

  lemma DigitNonzero(t: nat, qi: nat, q: nat)
    requires qi >= 1 && q >= 1 && (t / qi) % q != 0
    ensures t != 0
  {
  }

  lemma NonzeroAt(s: Params, t: nat, i: nat, c: nat)
    requires s.Valid() && Leveled(s) && i < s.k && c % s.q != 0
    requires IsParam(t, QPow(s.q, i) * c, s.DeltaK(), s.M())
    ensures t != 0
  {
    ParamsFacts(s);
    LevelHolds(i, s.DeltaK(), s.q);
    DigitOfParam(t, i, c, s.DeltaK(), s.q, s.k, Twist(i, s.q));
    TwistKeepsNonzero(i, s.q, c);
    DigitNonzero(t, QPow(s.q, i), s.q);
  }

  /** Only the exponents that are multiples of q^k have parameter zero. */
  lemma ParamNonzero(s: Params, m: nat)
    requires s.Valid() && Leveled(s) && 0 < m < s.M()
    ensures RingParam(s, m) != 0
  {
    ModulusFacts(s);
    ValuationBound(s.q, s.k, m);
    var i := ValQ(m, s.q);
    NonzeroAt(s, RingParam(s, m), i, m / QPow(s.q, i));
  }

  /** 1 + t sqrt D tracks the exponent its parameter belongs to. */
  lemma StartTracks(s: Params, t: int, m: nat)
    requires s.Valid() && IsParam(t, m, s.DeltaK(), s.M())
    ensures exists lam: int :: Tracks(s, lam, Elt(1, t), m)
  {
    ParamsFacts(s);
    var x, n := Gen(m, s.DeltaK()), s.M();
    RationalUnit(m, s.DeltaK(), s.q, s.k);
    var lam :| InverseOf(lam, x.e, n);
    StartAlgebra(lam, x.e, x.f, t, n);
    UnitBy(lam, x.e, n);
    assert Tracks(s, lam, Elt(1, t), m);
  }

  lemma StartAlgebra(lam: int, e: int, f: int, t: int, n: int)
    requires Cong(e * lam, 1, n) && Cong(t * e, f, n)
    ensures Cong(1, lam * e, n) && Cong(t, lam * f, n) && Cong(lam * e, 1, n)
  {
    assert lam * e == e * lam;
    CongSym(e * lam, 1, n);
    CongScale(t, e * lam, 1, n);
    CongSym(t * (e * lam), t * 1, n);
    CongScale(lam, t * e, f, n);
    assert t * (e * lam) == lam * (t * e);
    CongTrans(t, lam * (t * e), lam * f, n);
  }

  /** k = 1: the middle coefficient over q is the inverse of the message. */
  lemma DirectBranch(s: Params, m: nat, t: nat)
    requires s.Valid() && s.SmallMessage() && s.k == 1
    requires 0 < m < s.M() && 0 < t < s.M() && IsParam(t, m, s.DeltaK(), s.M())
    ensures DlogInF(s, RawForm(s, t)) == Value(m)
  {
    ParamsFacts(s);
    assert s.M() == s.q * Pow(s.q, 0) == s.q;
    LevelHoldsAtZero(s);
    DigitOfParam(t, 0, m, s.DeltaK(), s.q, s.k, 1);
    RemainderOfSmall(t, s.q);
    RemainderOfSmall(m, s.q);
    ParamRoundTrip(s, t);
    ShapeOfRawForm(s, t);
    assert QPow(s.q, 1) == s.q && QPow(s.q, 0) == 1;
    var inv := Invert(RawForm(s, t).b / s.q, s.q).value;
    RemainderOfSmall(inv, s.q);
    assert 1 * inv == inv;
  }

  lemma LevelHoldsAtZero(s: Params)
    requires s.Valid()
    ensures Level(0, s.DeltaK(), s.q, 1)
  {
    GenNext(0, s.DeltaK());
    CongRefl(1, s.q);
    assert Pow(s.q, 1) == s.q * Pow(s.q, 0) == s.q;
  }

  /** The digit loop started on 1 + t sqrt D. */
  lemma PeelFromStart(s: Params, m: nat, t: nat)
    requires s.Valid() && Leveled(s) && m < s.M() && IsParam(t, m, s.DeltaK(), s.M())
    ensures Peel(s, Elt(1, t), Elt(1, 1), 0, 0) == Value(m) <==> Readable(s.q, 0, m)
  {
    StartTracks(s, t, m);
    var lam :| Tracks(s, lam, Elt(1, t), m);
    GenNext(0, s.DeltaK());
    CongEltRefl(Elt(1, 1), s.M());
    PeelExact(s, lam, Elt(1, t), Elt(1, 1), 0, 0, m);
  }

  /** k > 1: digit recovery from the form. */
  lemma GeneralBranch(s: Params, m: nat, t: nat)
    requires s.Valid() && s.SmallMessage() && s.k > 1
    requires 0 < m < s.M() && 0 < t < s.M() && IsParam(t, m, s.DeltaK(), s.M())
    ensures DlogInF(s, RawForm(s, t)) == Value(m) <==> Readable(s.q, 0, m)
  {
    SmallIsLeveled(s);
    ParamRoundTrip(s, t);
    ShapeOfRawForm(s, t);
    PeelFromStart(s, m, t);
  }

  lemma PowerIsRawForm(s: Params, m: nat)
    requires s.Valid() && s.SmallMessage() && 0 < m < s.M()
    ensures var t := RingParam(s, m);
            0 < t < s.M() && PowerOfF(s, m) == RawForm(s, t)
  {
    SmallIsLeveled(s);
    SmallMessageIff(s);
    ParamNonzero(s, m);
    SmallFormsAreReduced(s, RingParam(s, m));
    RemainderOfSmall(m, s.M());
  }

  lemma DlogOfNonzero(s: Params, m: nat)
    requires s.Valid() && s.SmallMessage() && 0 < m < s.M()
    ensures DlogInF(s, PowerOfF(s, m)) == Value(m) <==> s.q != 3 || m < 3
  {
    PowerIsRawForm(s, m);
    if s.k == 1 {
      DirectBranch(s, m, RingParam(s, m));
      assert s.M() == s.q * Pow(s.q, 0) == s.q;
    } else {
      GeneralBranch(s, m, RingParam(s, m));
    }
  }

  lemma PowerOfRemainder(s: Params, m: int)
    requires s.Valid()
    ensures PowerOfF(s, m) == PowerOfF(s, m % s.M())
  {
    RemainderOfSmall(m % s.M(), s.M());
  }

  lemma {:induction false} PeelEnds(s: Params, cur: Elt, alpha: Elt, i: nat, acc: int)
    requires s.Valid() && i <= s.k
    ensures Peel(s, cur, alpha, i, acc) != LargeMessage
    decreases s.k - i
  {
    if i < s.k && ReadDigit(s, cur, i).Some? {
      var mi := ReadDigit(s, cur, i).value;
      if DigitInverse(s, alpha, mi).Some? {
        PeelEnds(s, Times(s, cur, DigitInverse(s, alpha, mi).value), AlphaTo(s, alpha, s.q), i + 1, acc + mi * QPow(s.q, i));
      }
    }
  }

  /** The regime `dlog_in_F` takes: away from the identity it leaves the small-message path
      exactly when q^2k exceeds (1 + p q)/4. */
  lemma LargeMessageIff(s: Params, f: FormClasses.Form)
    requires s.Valid()
    ensures f.a == 1 ==> DlogInF(s, f) == Value(0)
    ensures f.a != 1 ==> (DlogInF(s, f) == LargeMessage <==> 4 * Pow(s.q, 2 * s.k) > 1 + s.p * s.q)
  {
    SmallMessageIff(s);
    match RecoverParam(s, f)
    case None =>
    case Some(t) => PeelEnds(s, Elt(1, t), Elt(1, 1), 0, 0);
  }

  /** `dlog_in_F` inverts `power_of_f` in the small-message regime: on every exponent when q is
      not three, and for q = 3 exactly on the exponents below three modulo q^k. */
  lemma DlogOfPower(s: Params, m: int)
    requires s.Valid() && 4 * Pow(s.q, 2 * s.k) <= 1 + s.p * s.q
    ensures DlogInF(s, PowerOfF(s, m)) == Value(m % s.M()) <==> s.q != 3 || m % s.M() < 3
  {
    SmallMessageIff(s);
    var mm := m % s.M();
    PowerOfRemainder(s, m);
    if mm == 0 {
      IdentityReduced(s);
    } else {
      DlogOfNonzero(s, mm);
    }
  }

  /** The whole map, and the parameters for which it is a bijection onto its image. */
  lemma DlogInvertsPower(s: Params)
    requires s.Valid() && 4 * Pow(s.q, 2 * s.k) <= 1 + s.p * s.q
    ensures (forall m: int :: DlogInF(s, PowerOfF(s, m)) == Value(m % s.M())) <==> s.q != 3 || s.k == 1
  {
    ModulusFacts(s);
    forall m: int
      ensures DlogInF(s, PowerOfF(s, m)) == Value(m % s.M()) <==> s.q != 3 || m % s.M() < 3
    {
      DlogOfPower(s, m);
    }
    if s.q == 3 {
      assert Pow(3, 1) == 3 * Pow(3, 0) == 3;
      if s.k >= 2 {
        PowMonotone(3, 2, s.k);
        assert Pow(3, 2) == 3 * Pow(3, 1);
        RemainderOfSmall(3, s.M());
        assert DlogInF(s, PowerOfF(s, 3)) != Value(3 % s.M());
      }
    }
  }

  // ---- a parameter set on which digit recovery fails ---------------------------------------

  lemma NonResidueModThree(x: int)
    ensures !Cong(x * x, 113, 3)
  {
    if Cong(x * x, 113, 3) {
      var r, h := x % 3, x / 3;
      assert x == 3 * h + r;
      CongMod(x, 3);
      CongMul(x % 3, x, x % 3, x, 3);
      CongTrans(r * r, x * x, 113, 3);
      CongIsModEq(r * r, 113, 3);
    }
  }

  lemma OddPrimes()
    ensures OddPrime(113) && OddPrime(3)
  {
  }

  /** q = 3, k = 2, p = 113 is accepted by the constructor and is in the small-message regime;
      there the exponent 3 is not recovered. */
  lemma CubeFails(s: Params)
    requires s == Params(3, 2, 113)
    ensures s.Valid() && 4 * Pow(3, 4) <= 1 + 113 * 3 && DlogInF(s, PowerOfF(s, 3)) != Value(3)
  {
    OddPrimes();
    assert Pow(3, 2) == 3 * Pow(3, 1) && Pow(3, 1) == 3 * Pow(3, 0);
    assert Pow(3, 4) == 3 * Pow(3, 3) && Pow(3, 3) == 3 * Pow(3, 2);
    assert s.M() == 9 && s.Quarter() == 85;
    forall x: int
      ensures !SquareRootOf(x, 113, 3)
    {
      NonResidueModThree(x);
    }
    DlogOfPower(s, 3);
  }
}
