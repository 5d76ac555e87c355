/** The subgroup F: from an exponent m to the reduced form of f^m. */
module FSubgroup {
  import opened Congruence
  import opened Primes
  import opened Residues
  import opened FormClasses
  import opened FormReduction
  import opened UnitPowers
  import Lucas

  /** The explicit parameters of an instance. */
  datatype Params = Params(q: int, k: nat, p: int) {
    /** The fundamental discriminant. */
    function DeltaK(): int {
      -(p * q)
    }

    /** Q of the Lucas sequence, and the bound that separates small from large messages. */
    function Quarter(): int {
      (1 - DeltaK()) / 4
    }

    /** What the constructor accepts. */
    ghost predicate Valid() {
      && k >= 1 && OddPrime(q) && (p == 1 || OddPrime(p))
      && (p * q) % 4 == 3 && (p != 1 ==> Legendre(p, q) == -1)
    }

    /** M = q^k, the order of f. */
    function M(): (m: nat)
      requires q >= 1
      ensures m >= 1
    {
      QPow(q, k)
    }

    /** q^(2k) <= (1 - D)/4 */
    predicate SmallMessage()
      requires q >= 1
    {
      QPow(q, 2 * k) <= Quarter()
    }
  }

  lemma NegatedMod4(x: int)
    requires x % 4 == 3
    ensures (-x) % 4 == 1 && -x == 1 - 4 * ((1 - -x) / 4)
  {
    var h := x / 4;
    assert -x == 4 * (-h - 1) + 1;
  }

  lemma ParamsFacts(s: Params)
    requires s.Valid()
    ensures s.q >= 3 && s.M() % 2 == 1 && s.M() >= s.q && s.M() > 2
    ensures s.DeltaK() < 0 && s.DeltaK() % 4 == 1 && Cong(s.DeltaK(), 0, s.q)
    ensures s.DeltaK() == 1 - 4 * s.Quarter()
  {
    OddPower(s.q, s.k);
    PowerAtLeast(s.q, s.k);
    DiscriminantFacts(s.q, s.p);
  }

  lemma PowerAtLeast(q: int, k: nat)
    requires q >= 1 && k >= 1
    ensures Pow(q, k) >= q
  {
    PowMonotone(q, 1, k);
    assert Pow(q, 1) == q * Pow(q, 0) == q;
  }

  lemma DiscriminantFacts(q: int, p: int)
    requires q >= 1 && p >= 1 && (p * q) % 4 == 3
    ensures var d := -(p * q); d < 0 && d % 4 == 1 && Cong(d, 0, q) && d == 1 - 4 * ((1 - d) / 4)
  {
    MultipleOf(p, q);
    PositiveProduct(p, q);
    NegatedMod4(p * q);
  }

  lemma MultipleOf(p: int, q: int)
    ensures Cong(-(p * q), 0, q)
  {
    Regroup(q, p, -1);
    CongBy(-(p * q), 0, q, -p);
  }

  /** The conditions that the constructor checks. */
  lemma AcceptedIsValid(q: int, k: nat, p: int)
    requires k >= 1 && IsPrime(q) && q % 2 == 1 && (p == 1 || (IsPrime(p) && p % 2 == 1))
    requires (p * q) % 4 == 3 && (p != 1 ==> Legendre(p, q) == -1)
    ensures Params(q, k, p).Valid() && Params(q, k, p).M() == Pow(q, k) && Params(q, k, p).DeltaK() == -(p * q)
  {
  }

  /** The threshold between the regimes, for D = -p q. */
  lemma SmallMessageIff(s: Params)
    requires s.Valid()
    ensures s.SmallMessage() <==> 4 * Pow(s.q, 2 * s.k) <= 1 + s.p * s.q
  {
    ParamsFacts(s);
  }

  lemma ModulusFacts(s: Params)
    requires s.Valid()
    ensures s.q >= 3 && s.M() > 2
  {
    ParamsFacts(s);
  }

  // ---- the ring parameter --------------------------------------------------------------------

  /** V_m is invertible, so the parameter always exists. */
  lemma LucasVInvertible(s: Params, m: nat)
    requires s.Valid()
    ensures s.M() > 1 && Invert(Lucas.V(1, s.Quarter(), m) % s.M(), s.M()).Some?
  {
    ParamsFacts(s);
    var v, n := Lucas.V(1, s.Quarter(), m), s.M();
    LucasVUnit(m, s.DeltaK(), s.Quarter(), s.q, s.k);
    CongMod(v, n);
    UnitCong(v, v % n, n);
  }

  /** `ring_param_from_exponent`: U_m V_m^-1 modulo M. */
  function RingParam(s: Params, m: nat): (t: nat)
    requires s.Valid()
    ensures t < s.M() && IsParam(t, m, s.DeltaK(), s.M())
  {
    LucasVInvertible(s, m);
    var n, u, v := s.M(), Lucas.U(1, s.Quarter(), m), Lucas.V(1, s.Quarter(), m);
    var inv := Invert(v % n, n).value;
    QuotientResidue(u, v, inv, n);
    ParamsFacts(s);
    LucasQuotientIsParam(((u % n) * inv) % n, inv, m, s.DeltaK(), s.Quarter(), n);
    ((u % n) * inv) % n
  }

  lemma QuotientResidue(u: int, v: int, inv: int, n: int)
    requires n > 0 && Cong((v % n) * inv, 1, n)
    ensures Cong(v * inv, 1, n) && Cong(((u % n) * inv) % n, u * inv, n)
  {
    CongMod(v, n);
    CongScale(inv, v, v % n, n);
    CongTrans(v * inv, (v % n) * inv, 1, n);
    CongMod(u, n);
    CongScale(inv, u % n, u, n);
    CongMod((u % n) * inv, n);
    CongTrans(((u % n) * inv) % n, (u % n) * inv, u * inv, n);
  }

  method RingParamFromExponent(s: Params, m: nat) returns (t: nat)
    requires s.Valid()
    ensures t == RingParam(s, m)
  {
    ParamsFacts(s);
    LucasVInvertible(s, m);
    var u, v := Lucas.LucasUV(1, s.Quarter(), m, s.M(), s.DeltaK());
    t := (u * Invert(v, s.M()).value) % s.M();
  }

  // ---- valuations, centering -------------------------------------------------------------------

  /** `val_q` */
  function ValQ(x: int, q: int): nat
    requires q > 1
    decreases Abs(x)
  {
    if x == 0 || x % q != 0 then 0
    else
      QuotientSmaller(x, q);
      1 + ValQ(x / q, q)
  }

  lemma QuotientSmaller(x: int, q: int)
    requires q > 1 && x != 0 && x % q == 0
    ensures x == q * (x / q) && Abs(x / q) < Abs(x) && x / q != 0
  {
    FactorSmaller(x, q, x / q);
  }

  lemma FactorSmaller(x: int, q: int, h: int)
    requires q > 1 && x != 0 && x == q * h
    ensures Abs(h) < Abs(x) && h != 0
  {
    assert h > 0 ==> (q - 1) * h > 0;
    assert h < 0 ==> (q - 1) * h < 0;
    assert x == h + (q - 1) * h;
  }

  /** `val_q` is the exponent of the largest power of q that divides x. */
  lemma {:induction false} ValQCorrect(x: int, q: int)
    requires q > 1 && x != 0
    ensures var v := ValQ(x, q);
            Pow(q, v) > 0 && x % Pow(q, v) == 0 && x == Pow(q, v) * (x / Pow(q, v)) && (x / Pow(q, v)) % q != 0
    decreases Abs(x)
  {
    if x % q == 0 {
      QuotientSmaller(x, q);
      ValQCorrect(x / q, q);
      PowPositive(q, ValQ(x / q, q));
      QuotientOfProduct(x, q, Pow(q, ValQ(x / q, q)), x / q);
    }
  }

  lemma QuotientOfProduct(x: int, q: int, w: int, h: int)
    requires q > 0 && w > 0 && x == q * h && h == w * (h / w)
    ensures q * w > 0 && x == (q * w) * (h / w) && x % (q * w) == 0 && x / (q * w) == h / w
  {
    var g := h / w;
    assert x == (q * w) * g;
    ExactDivision(x, q * w, g);
  }

  /** The quotient and the remainder of an exact multiple. */
  lemma ExactDivision(x: int, d: int, g: int)
    requires d > 0 && x == d * g
    ensures x % d == 0 && x / d == g
  {
    CongBy(x, 0, d, g);
    DivisibleIsCongZero(x, d);
    var h := x / d;
    assert x == d * h;
    assert h > g ==> d * h > d * g;
    assert h < g ==> d * h < d * g;
  }

  method ValuationLoop(x: int, q: int) returns (v: nat)
    requires q > 1
    ensures v == ValQ(x, q)
  {
    if x == 0 {
      return 0;
    }
    v := 0;
    var t := x;
    while t % q == 0
      invariant t != 0 && v + ValQ(t, q) == ValQ(x, q)
      decreases Abs(t)
    {
      QuotientSmaller(t, q);
      t := t / q;
      v := v + 1;
    }
  }

  /** The valuation of q^e w, for w prime to q, is e. */
  lemma {:induction false} ValQOfProduct(e: nat, w: int, q: int)
    requires q > 1 && w % q != 0
    ensures ValQ(Pow(q, e) * w, q) == e
  {
    if e == 0 {
      assert Pow(q, 0) * w == w;
    } else {
      var y := Pow(q, e - 1) * w;
      ValQOfProduct(e - 1, w, q);
      assert Pow(q, e) * w == q * y;
      ExactDivision(q * y, q, y);
      PowPositive(q, e - 1);
      assert w != 0;
      assert y != 0;
    }
  }

  /** `center` */
  function Center(x: int, modulus: int, half: int): int {
    if x > half then x - modulus else x
  }

  // ---- the form of a parameter ----------------------------------------------------------------

  /** `identity` of the class group of discriminant d. */
  function Identity(d: int): Form {
    if d % 4 == 1 then Form(1, 1, (1 - d) / 4) else Form(1, 0, -d / 4)
  }

  /** How a non-zero parameter splits: t = q^v w with w prime to q, and j = k - v. */
  ghost predicate Splits(s: Params, t: int, v: nat, j: nat, w: int)
    requires s.q >= 1
  {
    v + j == s.k && j >= 1 && t == QPow(s.q, v) * w && w % s.q != 0
  }

  lemma ParamSplits(s: Params, t: nat)
    requires s.Valid() && 0 < t < s.M()
    ensures s.q > 2 && ValQ(t, s.q) < s.k
    ensures var v := ValQ(t, s.q);
            t % QPow(s.q, v) == 0 && Splits(s, t, v, s.k - v, t / QPow(s.q, v))
  {
    ParamsFacts(s);
    ValuationBound(s.q, s.k, t);
  }

  lemma ValuationBound(q: int, k: nat, t: nat)
    requires q > 1 && 0 < t < QPow(q, k)
    ensures var v := ValQ(t, q);
            v < k && t % QPow(q, v) == 0 && t == QPow(q, v) * (t / QPow(q, v)) && (t / QPow(q, v)) % q != 0
  {
    ValQCorrect(t, q);
    var v := ValQ(t, q);
    DivisorBound(QPow(q, v), t);
    if v >= k {
      PowMonotone(q, k, v);
    }
  }

  lemma CofactorInvertible(q: int, j: nat, w: int)
    requires IsPrime(q) && q > 2 && j >= 1 && w % q != 0
    ensures QPow(q, j) > 1 && Invert(w % QPow(q, j), QPow(q, j)).Some?
  {
    var n := QPow(q, j);
    PowMonotone(q, 1, j);
    assert Pow(q, 1) == q * Pow(q, 0);
    PrimeUnit(w, q);
    UnitPowerModulus(w, q, j);
    CongMod(w, n);
    UnitCong(w, w % n, n);
  }

  /** The odd representative in (-q^j, q^j) of the inverse of w modulo q^j. */
  function OddInverse(q: int, j: nat, w: int): (u: int)
    requires OddPrime(q) && q > 2 && j >= 1 && w % q != 0
    ensures Abs(u) < QPow(q, j) && u % 2 == 1 && Cong(w * u, 1, QPow(q, j))
  {
    CofactorInvertible(q, j, w);
    var qj := QPow(q, j);
    var inv := Invert(w % qj, qj).value;
    var pos := if inv % 2 == 1 then inv else inv + qj;
    OddPower(q, j);
    OddInverseCorrect(w, inv, pos, qj);
    Center(pos, 2 * qj, qj)
  }

  lemma OddInverseCorrect(w: int, inv: int, pos: int, qj: int)
    requires qj % 2 == 1 && 0 < inv < qj && Cong((w % qj) * inv, 1, qj)
    requires pos == if inv % 2 == 1 then inv else inv + qj
    ensures var u := Center(pos, 2 * qj, qj);
            Abs(u) < qj && u % 2 == 1 && Cong(w * u, 1, qj)
  {
    var u := Center(pos, 2 * qj, qj);
    QuotientResidue(0, w, inv, qj);
    OddRepresentative(inv, pos, qj);
    CongScale(w, u, inv, qj);
    CongTrans(w * u, w * inv, 1, qj);
  }

  lemma OddRepresentative(inv: int, pos: int, qj: int)
    requires qj % 2 == 1 && 0 < inv < qj && pos == if inv % 2 == 1 then inv else inv + qj
    ensures var u := Center(pos, 2 * qj, qj);
            Abs(u) < qj && u % 2 == 1 && Cong(u, inv, qj)
  {
    if inv % 2 == 1 {
      CongRefl(inv, qj);
    } else {
      OddBy(inv - qj, inv / 2 - qj / 2 - 1);
      CongBy(inv - qj, inv, qj, -1);
    }
  }

  /** The form of t before the final reduction: (q^2j, u q^j, (u^2 - q^2v D)/4). */
  function RawForm(s: Params, t: nat): Form
    requires s.Valid() && 0 < t < s.M()
  {
    ParamSplits(s, t);
    var v := ValQ(t, s.q);
    var j := s.k - v;
    var qj, qv := QPow(s.q, j), QPow(s.q, v);
    var u := OddInverse(s.q, j, t / qv);
    Form(qj * qj, u * qj, (u * u - qv * qv * s.DeltaK()) / 4)
  }

  lemma OddSquare(x: int)
    requires x % 2 == 1
    ensures (x * x) % 4 == 1
  {
    var h := x / 2;
    OddSquareExpand(h);
    FourBy(x * x, h * h + h, 1);
  }

  lemma OddSquareExpand(h: int)
    ensures (2 * h + 1) * (2 * h + 1) == 4 * (h * h + h) + 1
  {
  }

  lemma FourBy(z: int, h: int, r: int)
    requires z == 4 * h + r && 0 <= r < 4
    ensures z % 4 == r
  {
  }

  lemma ProductMod4(x: int, y: int)
    requires x % 4 == 1 && y % 4 == 1
    ensures (x * y) % 4 == 1
  {
    var a, b := x / 4, y / 4;
    FourExpand(a, b);
    FourBy(x * y, 4 * (a * b) + a + b, 1);
  }

  lemma FourExpand(a: int, b: int)
    ensures (4 * a + 1) * (4 * b + 1) == 4 * (4 * (a * b) + a + b) + 1
  {
  }

  lemma DifferenceMod4(x: int, y: int)
    requires x % 4 == 1 && y % 4 == 1
    ensures (x - y) % 4 == 0
  {
    FourBy(x - y, x / 4 - y / 4, 0);
  }

  /** The division by four is exact. */
  lemma FourDivides(u: int, qv: int, d: int)
    requires u % 2 == 1 && qv % 2 == 1 && d % 4 == 1
    ensures (u * u - qv * qv * d) % 4 == 0
  {
    OddSquare(u);
    OddSquare(qv);
    ProductMod4(qv * qv, d);
    DifferenceMod4(u * u, qv * qv * d);
  }

  lemma RawDiscriminant(u: int, qj: int, qv: int, d: int, c: int)
    requires 4 * c == u * u - qv * qv * d
    ensures (u * qj) * (u * qj) - 4 * (qj * qj) * c == ((qj * qv) * (qj * qv)) * d
  {
    var jj := qj * qj;
    assert (u * qj) * (u * qj) == jj * (u * u);
    assert 4 * jj * c == jj * (4 * c) == jj * (u * u) - jj * (qv * qv * d);
    assert (qj * qv) * (qj * qv) == jj * (qv * qv);
    assert jj * (qv * qv) * d == jj * (qv * qv * d);
  }

  lemma RawShape(u: int, qj: int, qv: int, d: int, n: int)
    requires u % 2 == 1 && qv % 2 == 1 && d % 4 == 1 && d < 0 && qj >= 1 && n > 0
    requires n == (qj * qv) * (qj * qv)
    ensures (u * u - qv * qv * d) % 4 == 0
    ensures var f := Form(qj * qj, u * qj, (u * u - qv * qv * d) / 4);
            Disc(f) == n * d && PositiveDefinite(f)
  {
    FourDivides(u, qv, d);
    var f := Form(qj * qj, u * qj, (u * u - qv * qv * d) / 4);
    RawDiscriminant(u, qj, qv, d, f.c);
    NegativeProduct(n, d);
    assert f.a > 0;
    PositiveByDisc(f);
  }

  lemma SplitPower(q: int, k: nat, v: nat, j: nat)
    requires q >= 1 && v + j == k
    ensures QPow(q, j) * QPow(q, v) == QPow(q, k)
    ensures (QPow(q, j) * QPow(q, v)) * (QPow(q, j) * QPow(q, v)) == QPow(q, 2 * k)
    ensures QPow(q, k) * QPow(q, k) == QPow(q, 2 * k)
  {
    PowAdd(q, j, v);
    PowSquare(q, k);
  }

  /** All divisions of the raw form are exact. */
  lemma RawFormExact(s: Params, t: nat)
    requires s.Valid() && 0 < t < s.M()
    ensures s.q > 2 && ValQ(t, s.q) < s.k && (t / QPow(s.q, ValQ(t, s.q))) % s.q != 0
    ensures var v := ValQ(t, s.q);
            var qv, u := QPow(s.q, v), OddInverse(s.q, s.k - v, t / QPow(s.q, v));
            t % qv == 0 && (u * u - qv * qv * s.DeltaK()) % 4 == 0
  {
    ParamsFacts(s);
    ParamSplits(s, t);
    var v := ValQ(t, s.q);
    OddPower(s.q, v);
    FourDivides(OddInverse(s.q, s.k - v, t / QPow(s.q, v)), QPow(s.q, v), s.DeltaK());
  }

  /** The raw form is a positive-definite form of discriminant exactly q^2k D. */
  lemma RawFormCorrect(s: Params, t: nat)
    requires s.Valid() && 0 < t < s.M()
    ensures PositiveDefinite(RawForm(s, t))
    ensures Disc(RawForm(s, t)) == QPow(s.q, 2 * s.k) * s.DeltaK()
  {
    ParamsFacts(s);
    ParamSplits(s, t);
    var v := ValQ(t, s.q);
    OddPower(s.q, v);
    SplitPower(s.q, s.k, v, s.k - v);
    RawShape(OddInverse(s.q, s.k - v, t / QPow(s.q, v)), QPow(s.q, s.k - v), QPow(s.q, v), s.DeltaK(),
             QPow(s.q, 2 * s.k));
  }

  /** The raw form of t = q^v w, with w not divisible by q and j = k - v: its first coefficient
      is q^2j, and its second is q^j times an odd number below q^j that is inverse to w. */
  lemma RawFormMeaning(s: Params, t: nat, v: nat, w: int)
    requires s.Valid() && 0 < t < s.M() && v < s.k && t == Pow(s.q, v) * w && w % s.q != 0
    ensures var f, qj := RawForm(s, t), Pow(s.q, s.k - v);
            && qj > 0 && f.a == qj * qj && f.b % qj == 0
            && (f.b / qj) % 2 == 1 && -qj < f.b / qj < qj && Cong(w * (f.b / qj), 1, qj)
  {
    ParamSplits(s, t);
    ValQOfProduct(v, w, s.q);
    CofactorIs(t, Pow(s.q, v), w);
    var qj := QPow(s.q, s.k - v);
    var u := OddInverse(s.q, s.k - v, w);
    ExactDivision(u * qj, qj, u);
    Regroup(u, qj, 1);
  }

  lemma CofactorIs(t: int, qv: int, w: int)
    requires qv > 0 && t == qv * w
    ensures t / qv == w
  {
    ExactDivision(t, qv, w);
  }

  lemma NegativeProduct(x: int, d: int)
    requires x > 0 && d < 0
    ensures x * d < 0
  {
  }

  /** `form_from_ring_param` */
  function FormFromRingParam(s: Params, t: nat): Form
    requires s.Valid() && t < s.M()
  {
    if t == 0 then Identity(QPow(s.q, 2 * s.k) * s.DeltaK())
    else
      RawFormCorrect(s, t);
      Reduced(RawForm(s, t))
  }

  /** `power_of_f` */
  function PowerOfF(s: Params, m: int): Form
    requires s.Valid()
  {
    var mm := m % s.M();
    if mm == 0 then Identity(QPow(s.q, 2 * s.k) * s.DeltaK())
    else FormFromRingParam(s, RingParam(s, mm))
  }

  /** The ring parameter of f^m, 0 for the identity. */
  function ParamOf(s: Params, m: int): nat
    requires s.Valid()
  {
    var mm := m % s.M();
    if mm == 0 then 0 else RingParam(s, mm)
  }

  /** Every form built is the reduced form, of the discriminant of the group, in the class of the
      raw form of its ring parameter, in both regimes. */
  lemma PowerOfFIsReduced(s: Params, m: int)
    requires s.Valid()
    ensures var f, t := PowerOfF(s, m), ParamOf(s, m);
            && IsReduced(f) && PositiveDefinite(f) && Disc(f) == QPow(s.q, 2 * s.k) * s.DeltaK()
            && t < s.M() && (if t == 0 then f.a == 1 else Equivalent(RawForm(s, t), f))
  {
    var t := ParamOf(s, m);
    if t == 0 {
      IdentityReduced(s);
    } else {
      RawFormCorrect(s, t);
      ReducedCorrect(RawForm(s, t));
    }
  }

  lemma IdentityReduced(s: Params)
    requires s.Valid()
    ensures var f, d := Identity(QPow(s.q, 2 * s.k) * s.DeltaK()), QPow(s.q, 2 * s.k) * s.DeltaK();
            IsReduced(f) && PositiveDefinite(f) && Disc(f) == d && f.a == 1
  {
    ParamsFacts(s);
    SplitPower(s.q, s.k, 0, s.k);
    OddPower(s.q, s.k);
    OddSquare(s.M());
    ProductMod4(QPow(s.q, 2 * s.k), s.DeltaK());
    NegativeProduct(QPow(s.q, 2 * s.k), s.DeltaK());
    PrincipalForm(QPow(s.q, 2 * s.k) * s.DeltaK());
  }

  lemma PrincipalForm(d: int)
    requires d < 0 && d % 4 == 1
    ensures var f := Identity(d); IsReduced(f) && PositiveDefinite(f) && Disc(f) == d && f.a == 1
  {
    var h := -(d / 4);
    assert d == 1 - 4 * h && (1 - d) / 4 == h;
  }

  // ---- the small-message regime ---------------------------------------------------------------

  lemma LargeDiscriminant(s: Params)
    requires s.Valid() && s.SmallMessage()
    ensures -s.DeltaK() >= 4 * QPow(s.q, 2 * s.k) && s.p != 1
  {
    ParamsFacts(s);
    LargeProduct(s.q, s.p, Pow(s.q, 2 * s.k - 1), s.Quarter());
    PowerAtLeast(s.q, 2 * s.k);
  }

  lemma LargeProduct(q: int, p: int, n: int, quarter: int)
    requires q > 1 && -(p * q) == 1 - 4 * quarter && q * n <= quarter
    ensures p * q >= 4 * (q * n)
  {
    Regroup(q, n, 4);
    Regroup(q, p, 1);
    NotOneLess(q, p, 4 * n);
  }

  lemma NotOneLess(q: int, x: int, y: int)
    requires q > 1 && q * x + 1 >= q * y
    ensures q * x >= q * y
  {
    if x < y {
      PositiveProduct(q, y - x);
      Distribute(q, x, y - x);
    }
  }

  lemma StrictlyReduced(u: int, qj: int, qv: int, e: int, c: int)
    requires Abs(u) < qj && u % 2 == 1 && qj >= 1 && qv >= 1
    requires 4 * c == u * u + (qv * qv) * e && e >= 4 * ((qj * qv) * (qj * qv))
    ensures Abs(u * qj) < qj * qj < c
  {
    var jj, vv := qj * qj, qv * qv;
    MiddleBound(u, qj);
    OddSquare(u);
    assert u * u >= 0;
    assert (qj * qv) * (qj * qv) == jj * vv;
    PositiveProducts(jj, vv, e);
  }

  lemma MiddleBound(u: int, qj: int)
    requires Abs(u) < qj
    ensures Abs(u * qj) < qj * qj
  {
    assert (qj - u) * qj > 0;
    assert (qj + u) * qj > 0;
    assert u * qj == qj * qj - (qj - u) * qj == (qj + u) * qj - qj * qj;
  }

  lemma PositiveProducts(jj: int, vv: int, e: int)
    requires jj >= 0 && vv >= 1 && e >= 4 * (jj * vv)
    ensures vv * e >= 4 * jj
  {
    assert jj * (vv - 1) >= 0;
    assert jj * vv == jj * (vv - 1) + jj;
    assert e >= 0;
    assert (vv - 1) * e >= 0;
    assert vv * e == (vv - 1) * e + e;
  }

  /** In the small-message regime the raw form is strictly reduced: |b| < a < c, so the final
      reduction does nothing and the parameter can be read off. */
  lemma SmallFormsAreReduced(s: Params, t: nat)
    requires s.Valid() && 4 * Pow(s.q, 2 * s.k) <= 1 + s.p * s.q && 0 < t < s.M()
    ensures var f := RawForm(s, t);
            Abs(f.b) < f.a < f.c && FormFromRingParam(s, t) == f
  {
    SmallMessageIff(s);
    ParamSplits(s, t);
    RawFormExact(s, t);
    RawFormCorrect(s, t);
    LargeDiscriminant(s);
    var v := ValQ(t, s.q);
    var qj, qv := QPow(s.q, s.k - v), QPow(s.q, v);
    SplitPower(s.q, s.k, v, s.k - v);
    var u := OddInverse(s.q, s.k - v, t / qv);
    assert (qv * qv) * -s.DeltaK() == -(qv * qv * s.DeltaK());
    StrictlyReduced(u, qj, qv, -s.DeltaK(), RawForm(s, t).c);
    ReducedCorrect(RawForm(s, t));
  }
}
