/** The powers of 1 + sqrt D modulo powers of q: their ring parameters and digits. */
module UnitPowers {
  import opened Congruence
  import opened Primes
  import opened QuadraticRing
  import Lucas
  import opened Bits

  const ALPHA := Elt(1, 1)

  /** (1 + sqrt D)^m */
  function Gen(m: nat, d: int): Elt {
    Power(ALPHA, m, d)
  }

  lemma GenNext(m: nat, d: int)
    ensures Gen(m + 1, d) == Elt(Gen(m, d).e + Gen(m, d).f * d, Gen(m, d).e + Gen(m, d).f)
  {
    assert Mul(ALPHA, Gen(m, d), d) == Elt(Gen(m, d).e + Gen(m, d).f * d, Gen(m, d).f + Gen(m, d).e);
  }

  /** 2 (1 + sqrt D)^m = 2^m (V_m + U_m sqrt D) for P = 1, Q = (1 - D)/4. */
  lemma {:induction false} LucasLink(m: nat, d: int, q: int)
    requires d == 1 - 4 * q
    ensures 2 * Gen(m, d).e == TwoPow(m) * Lucas.V(1, q, m)
    ensures 2 * Gen(m, d).f == TwoPow(m) * Lucas.U(1, q, m)
  {
    if m > 0 {
      LucasLink(m - 1, d, q);
      GenNext(m - 1, d);
      Lucas.Increment(1, q, d, m - 1);
      LinkAlgebra(Gen(m - 1, d).e, Gen(m - 1, d).f, d, TwoPow(m - 1), Lucas.U(1, q, m - 1),
                  Lucas.V(1, q, m - 1), Lucas.U(1, q, m), Lucas.V(1, q, m));
    }
  }

  lemma LinkAlgebra(e: int, f: int, d: int, w: int, u: int, v: int, u': int, v': int)
    requires 2 * e == w * v && 2 * f == w * u && 2 * u' == u + v && 2 * v' == d * u + v
    ensures 2 * (e + f * d) == 2 * w * v' && 2 * (e + f) == 2 * w * u'
  {
    assert 2 * (f * d) == (w * u) * d == w * (d * u);
    assert w * (d * u + v) == w * (d * u) + w * v;
    assert w * (u + v) == w * u + w * v;
    assert w * (2 * v') == 2 * w * v' && w * (2 * u') == 2 * w * u';
  }

  /** The rational coordinate is 1 modulo q, hence invertible modulo every power of q. */
  lemma {:induction false} RationalPart(m: nat, d: int, q: int)
    requires Cong(d, 0, q)
    ensures Cong(Gen(m, d).e, 1, q)
  {
    if m == 0 {
      CongRefl(1, q);
    } else {
      RationalPart(m - 1, d, q);
      GenNext(m - 1, d);
      CongScale(Gen(m - 1, d).f, d, 0, q);
      CongAdd(Gen(m - 1, d).e, 1, Gen(m - 1, d).f * d, Gen(m - 1, d).f * 0, q);
    }
  }

  lemma RationalUnit(m: nat, d: int, q: int, k: nat)
    requires Cong(d, 0, q)
    ensures Unit(Gen(m, d).e, Pow(q, k))
  {
    RationalPart(m, d, q);
    CongSym(Gen(m, d).e, 1, q);
    CongRefl(1, q);
    UnitBy(1, 1, q);
    UnitCong(1, Gen(m, d).e, q);
    UnitPowerModulus(Gen(m, d).e, q, k);
  }

  lemma TwoIsUnit(n: int)
    requires n % 2 == 1
    ensures Unit(2, n)
  {
    CongBy(2 * ((n + 1) / 2), 1, n, 1);
    UnitBy(2, (n + 1) / 2, n);
  }

  lemma {:induction false} OddPower(q: int, k: nat)
    requires q % 2 == 1
    ensures Pow(q, k) % 2 == 1
  {
    if k > 0 {
      OddPower(q, k - 1);
      OddProduct(q, Pow(q, k - 1));
    }
  }

  lemma OddProduct(x: int, y: int)
    requires x % 2 == 1 && y % 2 == 1
    ensures (x * y) % 2 == 1
  {
    var a, b := x / 2, y / 2;
    OddExpand(a, b);
    OddBy(x * y, 2 * (a * b) + a + b);
  }

  lemma OddExpand(a: int, b: int)
    ensures (2 * a + 1) * (2 * b + 1) == 2 * (2 * (a * b) + a + b) + 1
  {
  }

  lemma OddBy(z: int, h: int)
    requires z == 2 * h + 1
    ensures z % 2 == 1
  {
  }

  /** V_m is always invertible modulo q^k. */
  lemma LucasVUnit(m: nat, d: int, lq: int, q: int, k: nat)
    requires d == 1 - 4 * lq && Cong(d, 0, q) && q % 2 == 1
    ensures Unit(Lucas.V(1, lq, m), Pow(q, k))
  {
    var n := Pow(q, k);
    LucasLink(m, d, lq);
    RationalUnit(m, d, q, k);
    OddPower(q, k);
    TwoIsUnit(n);
    UnitMul(2, Gen(m, d).e, n);
    UnitFactor(TwoPow(m), Lucas.V(1, lq, m), n);
  }

  /** t is the ring parameter of exponent m: (1 + sqrt D)^m is proportional to 1 + t sqrt D. */
  ghost predicate IsParam(t: int, m: nat, d: int, n: int) {
    Cong(t * Gen(m, d).e, Gen(m, d).f, n)
  }

  /** U_m V_m^{-1} is the ring parameter. */
  lemma LucasQuotientIsParam(t: int, inv: int, m: nat, d: int, lq: int, n: int)
    requires d == 1 - 4 * lq && n % 2 == 1
    requires Cong(Lucas.V(1, lq, m) * inv, 1, n) && Cong(t, Lucas.U(1, lq, m) * inv, n)
    ensures IsParam(t, m, d, n)
  {
    var u, v, e, f, w := Lucas.U(1, lq, m), Lucas.V(1, lq, m), Gen(m, d).e, Gen(m, d).f, TwoPow(m);
    LucasLink(m, d, lq);
    TwoIsUnit(n);
    QuotientCong(t, inv, u, v, w, n);
    DoubledTerms(t, w, v, e, u, f);
    UnitCancel(2, t * e, f, n);
  }

  lemma QuotientCong(t: int, inv: int, u: int, v: int, w: int, n: int)
    requires Cong(v * inv, 1, n) && Cong(t, u * inv, n)
    ensures Cong(t * (w * v), (w * u) * 1, n)
  {
    CongScale(w * v, t, u * inv, n);
    CongScale(w * u, v * inv, 1, n);
    QuotientAlgebra(w, u, v, inv);
    CongTrans(t * (w * v), (u * inv) * (w * v), (w * u) * 1, n);
  }

  lemma DoubledTerms(t: int, w: int, v: int, e: int, u: int, f: int)
    requires 2 * e == w * v && 2 * f == w * u
    ensures t * (w * v) == 2 * (t * e) && (w * u) * 1 == 2 * f
  {
    Regroup(t, 2, e);
  }

  lemma QuotientAlgebra(w: int, u: int, v: int, inv: int)
    ensures (u * inv) * (w * v) == (w * u) * (v * inv)
  {
  }

  // ---- first-order behaviour of powers ------------------------------------------------------

  /** f_c = F * g_c: the quotient of the irrational coordinate of (E + F sqrt D)^c. */
  function Slope(x: Elt, c: nat, d: int): int {
    if c == 0 then 0 else x.e * Slope(x, c - 1, d) + Power(x, c - 1, d).e
  }

  lemma {:induction false} SlopeCorrect(x: Elt, c: nat, d: int)
    ensures Power(x, c, d).f == x.f * Slope(x, c, d)
  {
    if c > 0 {
      SlopeCorrect(x, c - 1, d);
      var g, y := Slope(x, c - 1, d), Power(x, c - 1, d);
      Scaled(x.e, y.f, x.f * g);
      SlopeStep(x.e, x.f, g, y.e);
    }
  }

  lemma SlopeStep(e: int, f: int, g: int, w: int)
    ensures e * (f * g) + f * w == f * (e * g + w)
  {
  }

  lemma FirstOrderStep(e: int, f: int, d: int, m: int, ye: int, yf: int, g: int, w: int, c: int)
    requires yf == f * g && Cong(f * f * d, 0, m) && Cong(ye, w, m) && Cong(e * g, (c - 1) * w, m)
    ensures Cong(e * ye + f * yf * d, e * w, m)
    ensures Cong(e * (e * g + ye), c * (e * w), m)
  {
    CongScale(e, ye, w, m);
    CongScale(g, f * f * d, 0, m);
    FirstOrderTerms(e, f, d, g, ye, w, c);
    CongAdd(e * ye, e * w, (f * f * d) * g, 0 * g, m);
    CongScale(e, e * g, (c - 1) * w, m);
    CongAdd(e * (e * g), e * ((c - 1) * w), e * ye, e * w, m);
  }

  lemma FirstOrderTerms(e: int, f: int, d: int, g: int, ye: int, w: int, c: int)
    ensures f * (f * g) * d == (f * f * d) * g
    ensures e * (e * g + ye) == e * (e * g) + e * ye
    ensures e * ((c - 1) * w) + e * w == c * (e * w)
  {
  }

  /** When F^2 D vanishes modulo m: E_c = E^c and E F_c = c E^c F. */
  lemma {:induction false} FirstOrder(x: Elt, c: nat, d: int, m: int)
    requires Cong(x.f * x.f * d, 0, m)
    ensures Cong(Power(x, c, d).e, Pow(x.e, c), m)
    ensures Cong(x.e * Slope(x, c, d), c * Pow(x.e, c), m)
  {
    if c == 0 {
      CongRefl(1, m);
      CongRefl(0, m);
    } else {
      FirstOrder(x, c - 1, d, m);
      SlopeCorrect(x, c - 1, d);
      var y := Power(x, c - 1, d);
      FirstOrderStep(x.e, x.f, d, m, y.e, y.f, Slope(x, c - 1, d), Pow(x.e, c - 1), c);
    }
  }

  /** c(c-1)/2 and c(c-1)(c-2)/6 by their recurrences. */
  function Tri(c: nat): nat {
    if c == 0 then 0 else Tri(c - 1) + (c - 1)
  }

  function Tet(c: nat): nat {
    if c == 0 then 0 else Tet(c - 1) + Tri(c - 1)
  }

  lemma TriStep(c: int)
    ensures (c - 1) * (c - 2) + 2 * (c - 1) == c * (c - 1)
  {
  }

  lemma TetStep(c: int)
    ensures (c - 1) * ((c - 2) * (c - 3)) + 3 * ((c - 1) * (c - 2)) == c * ((c - 1) * (c - 2))
  {
  }

  lemma {:induction false} TriTet(c: nat)
    ensures 2 * Tri(c) == c * (c - 1)
    ensures 6 * Tet(c) == c * ((c - 1) * (c - 2))
  {
    if c > 0 {
      TriTet(c - 1);
      TriStep(c);
      TetStep(c);
    }
  }

  lemma SecondOrderStep(xe: int, xf: int, d: int, m: int, b: int, tri: int, tet: int)
    requires Cong(d * d, 0, m) && Cong(xe, 1 + tri * d, m) && Cong(xf, b + tet * d, m)
    ensures Cong(xe + xf * d, 1 + (tri + b) * d, m)
    ensures Cong(xe + xf, (b + 1) + (tet + tri) * d, m)
  {
    CongScale(d, xf, b + tet * d, m);
    CongScale(tet, d * d, 0, m);
    CongRefl(b * d, m);
    CongAdd(b * d, b * d, tet * (d * d), tet * 0, m);
    SecondOrderTerms(b, tet, tri, d);
    CongTrans(xf * d, (b + tet * d) * d, b * d + tet * 0, m);
    CongAdd(xe, 1 + tri * d, xf * d, b * d, m);
    CongAdd(xe, 1 + tri * d, xf, b + tet * d, m);
  }

  lemma SecondOrderTerms(b: int, tet: int, tri: int, d: int)
    ensures (b + tet * d) * d == b * d + tet * (d * d)
    ensures 1 + tri * d + b * d == 1 + (tri + b) * d
    ensures 1 + tri * d + (b + tet * d) == (b + 1) + (tet + tri) * d
  {
  }

  /** When D^2 vanishes modulo m: (1 + sqrt D)^c = 1 + Tri(c) D + (c + Tet(c) D) sqrt D. */
  lemma {:induction false} SecondOrder(c: nat, d: int, m: int)
    requires Cong(d * d, 0, m)
    ensures Cong(Gen(c, d).e, 1 + Tri(c) * d, m)
    ensures Cong(Gen(c, d).f, c + Tet(c) * d, m)
  {
    if c == 0 {
      CongRefl(1, m);
      CongRefl(0, m);
    } else {
      SecondOrder(c - 1, d, m);
      GenNext(c - 1, d);
      SecondOrderStep(Gen(c - 1, d).e, Gen(c - 1, d).f, d, m, c - 1, Tri(c - 1), Tet(c - 1));
    }
  }

  lemma ProductVanishes(x: int, y: int, q: int)
    requires Cong(x, 0, q) && Cong(y, 0, q)
    ensures Cong(x * y, 0, q * q)
  {
    var a :| Quotient(x, 0, q, a);
    var b :| Quotient(y, 0, q, b);
    assert (q * a) * (q * b) == (q * q) * (a * b);
    CongBy(x * y, 0, q * q, a * b);
  }

  lemma TriTetVanish(q: int)
    requires IsPrime(q) && q >= 5
    ensures Cong(Tri(q), 0, q) && Cong(Tet(q), 0, q)
  {
    TriTet(q);
    CongZeroMultiple(q, q - 1);
    CongZeroMultiple(q, (q - 1) * (q - 2));
    DivisibleIsCongZero(q * (q - 1), q);
    DivisibleIsCongZero(q * ((q - 1) * (q - 2)), q);
    MultipleOfPrime(2, Tri(q), q * (q - 1), q);
    MultipleOfPrime(6, Tet(q), q * ((q - 1) * (q - 2)), q);
  }

  lemma DropVanishing(x: int, y: int, z: int, m: int)
    requires Cong(x, y + z, m) && Cong(z, 0, m)
    ensures Cong(x, y, m)
  {
    CongRefl(y, m);
    CongAdd(y, y, z, 0, m);
    CongTrans(x, y + z, y, m);
  }

  /** Modulo q^2 the q-th power has parameter q, for every prime q above three. */
  lemma QthPowerBase(d: int, q: int)
    requires IsPrime(q) && q >= 5 && Cong(d, 0, q)
    ensures Cong(Gen(q, d).f, q * Gen(q, d).e, q * q)
  {
    var e, f, m := Gen(q, d).e, Gen(q, d).f, q * q;
    ProductVanishes(d, d, q);
    SecondOrder(q, d, m);
    TriTetVanish(q);
    ProductVanishes(Tri(q), d, q);
    ProductVanishes(Tet(q), d, q);
    DropVanishing(e, 1, Tri(q) * d, m);
    DropVanishing(f, q, Tet(q) * d, m);
    CongScale(q, e, 1, m);
    CongSym(q * e, q * 1, m);
    CongTrans(f, q, q * e, m);
  }

  /** c x divisible by a prime above three, with c = 2 or 6, makes x divisible. */
  lemma MultipleOfPrime(c: int, x: int, y: int, q: int)
    requires IsPrime(q) && q >= 5 && (c == 2 || c == 6) && c * x == y && y % q == 0
    ensures Cong(x, 0, q)
  {
    SmallNotDivisible(c, q);
    PrimeDividesProduct(c, x, q);
    DivisibleIsCongZero(x, q);
  }

  lemma SmallNotDivisible(c: int, q: int)
    requires IsPrime(q) && q >= 5 && (c == 2 || c == 6)
    ensures c % q != 0
  {
    RemainderOfSmall(2, q);
    RemainderOfSmall(3, q);
    if 6 % q == 0 {
      PrimeDividesProduct(2, 3, q);
    }
  }

  // ---- reading base-q digits of the exponent ----------------------------------------------

  function QPow(q: nat, i: nat): (r: nat)
    requires q >= 1
    ensures r == Pow(q, i) && r >= 1
  {
    PowPositive(q, i);
    Pow(q, i)
  }

  /** The exponent m has ring parameter t, written as a ratio on the irrational side. */
  ghost predicate HasParam(t: int, m: nat, d: int, n: int) {
    Cong(Gen(m, d).f, t * Gen(m, d).e, n)
  }

  /** At level i the parameter of q^i is r q^i modulo q^(i+1). */
  ghost predicate Level(i: nat, d: int, q: nat, r: int)
    requires q >= 1
  {
    HasParam(r * QPow(q, i), QPow(q, i), d, QPow(q, i + 1))
  }

  /** The factor by which a digit at level i is seen: two for q = 3 above the lowest digit. */
  function Twist(i: nat, q: nat): int {
    if q == 3 && i >= 1 then 2 else 1
  }

  lemma LevelVanish(a: int, e: int, s: int, f: int, d: int, l: int, q: int, a': int)
    requires f == a * e + (q * a) * s && d == q * l && a == q * a'
    ensures Cong(f * f * d, 0, q * (q * a))
  {
    var t := e + q * s;
    assert f == a * t;
    assert (a * t) * (a * t) == (a * a) * (t * t);
    assert (a * a) * (t * t) * (q * l) == (q * (q * a)) * (a' * (t * t) * l);
    CongBy(f * f * d, 0, q * (q * a), a' * (t * t) * l);
  }

  lemma LevelAlgebra(a: int, ra: int, e: int, s: int, f: int, q: int, g: int, w: int, ye: int, yf: int)
    requires f == ra * e + (q * a) * s && yf == f * g
    requires Cong(e * g, q * w, q * (q * a)) && Cong(ye, w, q * (q * a))
    requires Unit(e, q * (q * a))
    ensures Cong(yf, (q * ra) * ye, q * (q * a))
  {
    var b, c := q * ra, q * (q * a);
    CongScale(f, e * g, q * w, c);
    assert f * (e * g) == e * yf;
    assert f * (q * w) == e * (b * w) + c * (s * w);
    CongBy(f * (q * w), e * (b * w), c, s * w);
    CongTrans(e * yf, f * (q * w), e * (b * w), c);
    CongScale(e * b, ye, w, c);
    assert (e * b) * ye == e * (b * ye) && (e * b) * w == e * (b * w);
    CongSym(e * (b * ye), e * (b * w), c);
    CongTrans(e * yf, e * (b * w), e * (b * ye), c);
    UnitCancel(e, yf, b * ye, c);
  }

  lemma LevelStep(i: nat, d: int, q: nat, r: int)
    requires q >= 1 && Cong(d, 0, q) && i > 1 && Level(i - 1, d, q, r)
    ensures Level(i, d, q, r)
  {
    var a, a' := QPow(q, i - 1), QPow(q, i - 2);
    var x := Gen(a, d);
    assert QPow(q, i) == q * a && QPow(q, i + 1) == q * (q * a) && a == q * a';
    var s :| Quotient(x.f, (r * a) * x.e, q * a, s);
    var l :| Quotient(d, 0, q, l);
    Regroup(a, r, x.e);
    LevelVanish(a, r * x.e, s, x.f, d, l, q, a');
    FirstOrder(x, q, d, q * (q * a));
    SlopeCorrect(x, q, d);
    RationalUnit(a, d, q, i + 1);
    LevelAlgebra(a, r * a, x.e, s, x.f, q, Slope(x, q, d), Pow(x.e, q), Power(x, q, d).e, Power(x, q, d).f);
    PowerMul(ALPHA, a, q, d);
    assert a * q == q * a;
    Regroup(q, r, a);
  }

  /** From level one on, the factor r is inherited by every higher level. */
  lemma {:induction false} LevelInherited(i: nat, d: int, q: nat, r: int)
    requires q >= 1 && Cong(d, 0, q) && i >= 1 && Level(1, d, q, r)
    ensures Level(i, d, q, r)
  {
    if i > 1 {
      LevelInherited(i - 1, d, q, r);
      LevelStep(i, d, q, r);
    }
  }

  /** Modulo nine the cube has parameter six when D = 3 modulo 9. */
  lemma CubeBase(d: int)
    requires d % 9 == 3
    ensures Level(1, d, 3, 2)
  {
    assert Gen(0, d) == ONE;
    GenNext(0, d);
    GenNext(1, d);
    GenNext(2, d);
    assert Gen(3, d) == Elt(1 + 3 * d, 3 + d);
    assert Pow(3, 1) == 3 * Pow(3, 0) == 3 && Pow(3, 2) == 3 * Pow(3, 1) == 9;
    var h := d / 9;
    assert d == 9 * h + 3;
    assert 3 + d == 6 * (1 + 3 * d) + 9 * (h - 2 * d);
    CongBy(3 + d, (2 * 3) * (1 + 3 * d), 9, h - 2 * d);
  }

  /** Every prime divisor of D has its levels, with the twist at three. */
  lemma LevelHolds(i: nat, d: int, q: nat)
    requires IsPrime(q) && q >= 3 && Cong(d, 0, q) && (q == 3 ==> d % 9 == 3)
    ensures Level(i, d, q, Twist(i, q))
  {
    if i == 0 {
      GenNext(0, d);
      CongRefl(1, q);
      assert Pow(q, 1) == q * Pow(q, 0) == q;
    } else {
      if q == 3 {
        CubeBase(d);
      } else {
        NotFour(q);
        QthPowerBase(d, q);
        assert Pow(q, 2) == q * Pow(q, 1) && Pow(q, 1) == q * Pow(q, 0) == q;
      }
      LevelInherited(i, d, q, Twist(i, q));
    }
  }

  lemma NotFour(q: int)
    requires IsPrime(q)
    ensures q != 4
  {
    assert q == 4 ==> Divides(2, q);
  }

  lemma AdditiveStep(e1: int, f1: int, a1: int, e2: int, f2: int, a2: int, d: int, n: int)
    requires Cong(f1, a1 * e1, n) && Cong(f2, a2 * e2, n) && Cong(a1 * a2 * d, 0, n)
    ensures Cong(e1 * f2 + f1 * e2, (a1 + a2) * (e1 * e2 + f1 * f2 * d), n)
  {
    var p := e1 * e2;
    CongMul(f1, a1 * e1, f2, a2 * e2, n);
    CongScale(d, f1 * f2, (a1 * e1) * (a2 * e2), n);
    CongScale(p, a1 * a2 * d, 0, n);
    AdditiveTerms(e1, a1, e2, a2, d);
    CongTrans(f1 * f2 * d, (a1 * a2 * d) * p, 0, n);
    CongRefl(p, n);
    CongAdd(p, p, f1 * f2 * d, 0, n);
    CongScale(a1 + a2, p + f1 * f2 * d, p, n);
    CongScale(e1, f2, a2 * e2, n);
    CongScale(e2, f1, a1 * e1, n);
    CongAdd(e1 * f2, e1 * (a2 * e2), f1 * e2, (a1 * e1) * e2, n);
    CongSym((a1 + a2) * (p + f1 * f2 * d), (a1 + a2) * p, n);
    CongTrans(e1 * f2 + f1 * e2, (a1 + a2) * p, (a1 + a2) * (p + f1 * f2 * d), n);
  }

  lemma AdditiveTerms(e1: int, a1: int, e2: int, a2: int, d: int)
    ensures (a1 * e1) * (a2 * e2) * d == (a1 * a2 * d) * (e1 * e2)
    ensures e1 * (a2 * e2) + (a1 * e1) * e2 == (a1 + a2) * (e1 * e2)
  {
    assert (a1 * e1) * (a2 * e2) == (a1 * a2) * (e1 * e2);
  }

  lemma MultipleVanish(r: int, a: int, c: int, d: int, l: int, q: int)
    requires d == q * l
    ensures Cong((r * a) * (r * (a * c)) * d, 0, q * a)
  {
    var z := r * (r * (a * c));
    assert (r * a) * (r * (a * c)) == a * z;
    assert (a * z) * (q * l) == (q * a) * (z * l);
    CongBy((r * a) * (r * (a * c)) * d, 0, q * a, z * l);
  }

  /** Parameters whose product with D vanishes add up as exponents do. */
  lemma ParametersAdd(s: int, t: int, a: nat, b: nat, d: int, n: int)
    requires HasParam(s, a, d, n) && HasParam(t, b, d, n) && Cong(s * t * d, 0, n)
    ensures HasParam(s + t, a + b, d, n)
  {
    var x, y := Gen(a, d), Gen(b, d);
    PowerAdd(ALPHA, a, b, d);
    AdditiveStep(x.e, x.f, s, y.e, y.f, t, d, n);
  }

  /** The parameter of q^i c is r q^i c modulo q^(i+1). */
  lemma {:induction false} MultiplesOfLevel(i: nat, c: nat, d: int, q: nat, r: int)
    requires q >= 1 && Cong(d, 0, q) && Level(i, d, q, r)
    ensures QPow(q, i) * c >= 0 && HasParam(r * (QPow(q, i) * c), QPow(q, i) * c, d, QPow(q, i + 1))
  {
    var a := QPow(q, i);
    if c == 0 {
      CongRefl(0, QPow(q, i + 1));
    } else {
      MultiplesOfLevel(i, c - 1, d, q, r);
      var m := a * (c - 1);
      Distribute(a, 1, c - 1);
      var l :| Quotient(d, 0, q, l);
      MultipleVanish(r, a, c - 1, d, l, q);
      assert QPow(q, i + 1) == q * a;
      ParametersAdd(r * a, r * m, a, m, d, q * a);
      Distribute(r, a, m);
    }
  }

  /** The parameter t of q^i c, known modulo q^k with k > i, is q^i times a number whose last
      base-q digit is that of r c. */
  lemma DigitOfParam(t: nat, i: nat, c: nat, d: int, q: nat, k: nat, r: nat)
    requires q >= 1 && Cong(d, 0, q) && i < k && Level(i, d, q, r)
    requires IsParam(t, QPow(q, i) * c, d, QPow(q, k))
    ensures t % QPow(q, i) == 0 && (t / QPow(q, i)) % q == (r * c) % q
  {
    var a, b := QPow(q, i), QPow(q, i + 1);
    var m := a * c;
    var x := Gen(m, d);
    PowAdd(q, i + 1, k - i - 1);
    assert i + 1 + (k - i - 1) == k;
    CongWeaken(t * x.e, x.f, b, Pow(q, k - i - 1));
    MultiplesOfLevel(i, c, d, q, r);
    CongTrans(t * x.e, x.f, (r * m) * x.e, b);
    RationalUnit(m, d, q, i + 1);
    assert t * x.e == x.e * t && (r * m) * x.e == x.e * (r * m);
    UnitCancel(x.e, t, r * m, b);
    var l :| Quotient(t, r * m, b, l);
    assert b == q * a && r * m == a * (r * c);
    LastDigit(t, a, r * c, q, l);
  }

  lemma LastDigit(t: nat, a: nat, c: nat, q: nat, l: int)
    requires a >= 1 && q >= 1 && t == a * c + (q * a) * l
    ensures t % a == 0 && (t / a) % q == c % q
  {
    assert t == a * (c + q * l);
    CongBy(t, 0, a, c + q * l);
    DivisibleIsCongZero(t, a);
    var h := t / a;
    assert t == a * h;
    assert h == c + q * l;
    CongBy(h, c, q, l);
    CongIsModEq(h, c, q);
  }

  /** The addition law of ring parameters: t(m+n) (1 + t(m) t(n) D) = t(m) + t(n). */
  lemma ParamAddition(s: int, t: int, r: int, m: nat, n: nat, d: int, q: nat, k: nat)
    requires Cong(d, 0, q) && q >= 1
    requires IsParam(s, m, d, QPow(q, k)) && IsParam(t, n, d, QPow(q, k))
    requires IsParam(r, m + n, d, QPow(q, k))
    ensures Cong(r * (1 + s * t * d), s + t, QPow(q, k))
  {
    var mod := QPow(q, k);
    var x, y := Gen(m, d), Gen(n, d);
    PowerAdd(ALPHA, m, n, d);
    RationalUnit(m, d, q, k);
    RationalUnit(n, d, q, k);
    UnitMul(x.e, y.e, mod);
    ProductRational(s, t, x.e, x.f, y.e, y.f, d, mod);
    ProductIrrational(s, t, x.e, x.f, y.e, y.f, mod);
    DivideOut(x.e * y.e, r, 1 + s * t * d, s + t, Gen(m + n, d).e, Gen(m + n, d).f, mod);
  }

  lemma ProductRational(s: int, t: int, xe: int, xf: int, ye: int, yf: int, d: int, mod: int)
    requires Cong(s * xe, xf, mod) && Cong(t * ye, yf, mod)
    ensures Cong((xe * ye) * (1 + s * t * d), xe * ye + xf * yf * d, mod)
  {
    CongMul(s * xe, xf, t * ye, yf, mod);
    CongScale(d, (s * xe) * (t * ye), xf * yf, mod);
    CongRefl(xe * ye, mod);
    CongAdd(xe * ye, xe * ye, (s * xe) * (t * ye) * d, xf * yf * d, mod);
    ParamTerms(xe, ye, s, t, d);
  }

  lemma ProductIrrational(s: int, t: int, xe: int, xf: int, ye: int, yf: int, mod: int)
    requires Cong(s * xe, xf, mod) && Cong(t * ye, yf, mod)
    ensures Cong((xe * ye) * (s + t), xe * yf + xf * ye, mod)
  {
    CongScale(xe, t * ye, yf, mod);
    CongScale(ye, s * xe, xf, mod);
    CongAdd(xe * (t * ye), xe * yf, (s * xe) * ye, xf * ye, mod);
    ParamTerms(xe, ye, s, t, 0);
  }

  lemma DivideOut(p: int, r: int, e: int, f: int, ze: int, zf: int, mod: int)
    requires Unit(p, mod) && Cong(p * e, ze, mod) && Cong(p * f, zf, mod) && Cong(r * ze, zf, mod)
    ensures Cong(r * e, f, mod)
  {
    CongScale(r, p * e, ze, mod);
    CongTrans(r * (p * e), r * ze, zf, mod);
    CongSym(p * f, zf, mod);
    CongTrans(r * (p * e), zf, p * f, mod);
    assert r * (p * e) == p * (r * e);
    UnitCancel(p, r * e, f, mod);
  }

  lemma ParamTerms(x: int, y: int, s: int, t: int, d: int)
    ensures x * y + (s * x) * (t * y) * d == (x * y) * (1 + s * t * d)
    ensures x * (t * y) + (s * x) * y == (x * y) * (s + t)
  {
    assert (s * x) * (t * y) == (x * y) * (s * t);
    assert (x * y) * (s * t) * d == (x * y) * (s * t * d);
    assert x * (t * y) == (x * y) * t && (s * x) * y == (x * y) * s;
  }
}
