/** Reduction of definite forms, alone and carrying the generator of the ideal. */
module FormReduction {
  import opened Congruence
  import opened FormClasses

  function Normalized(f: Form): Form
    requires f.a > 0
  {
    var r := (f.a - f.b) / (2 * f.a);
    Form(f.a, f.b + 2 * f.a * r, f.c + r * (f.b + f.a * r))
  }

  function Rho(f: Form): Form
    requires f.c > 0
  {
    var s := (f.c + f.b) / (2 * f.c);
    Form(f.c, 2 * (s * f.c) - f.b, f.a + s * (s * f.c - f.b))
  }

  lemma FloorBounds(x: int, d: int)
    requires d > 0
    ensures d * (x / d) <= x < d * (x / d) + d
  {
  }

  lemma ShiftKeepsDisc(a: int, b: int, c: int, r: int)
    ensures Disc(Form(a, b + 2 * a * r, c + r * (b + a * r))) == Disc(Form(a, b, c))
  {
    var x := a * r;
    assert 4 * a * (c + r * (b + x)) == 4 * a * c + 4 * x * b + 4 * x * x;
    assert (b + 2 * x) * (b + 2 * x) == b * b + 4 * x * b + 4 * x * x;
  }

  lemma PositiveByDisc(f: Form)
    requires f.a > 0 && Disc(f) < 0
    ensures f.c > 0
  {
    assert f.b * f.b >= 0;
    assert f.c <= 0 ==> f.a * f.c <= 0;
  }

  lemma NormalizedCorrect(f: Form)
    requires PositiveDefinite(f)
    ensures PositiveDefinite(Normalized(f)) && IsNormal(Normalized(f))
    ensures Disc(Normalized(f)) == Disc(f) && Normalized(f).a == f.a
  {
    var r := (f.a - f.b) / (2 * f.a);
    FloorBounds(f.a - f.b, 2 * f.a);
    ShiftKeepsDisc(f.a, f.b, f.c, r);
    PositiveByDisc(Normalized(f));
  }

  lemma RhoAlgebra(a: int, b: int, c: int, s: int)
    ensures Disc(Form(c, 2 * (s * c) - b, a + s * (s * c - b))) == Disc(Form(a, b, c))
  {
    var x := s * c;
    assert 4 * c * (a + s * (x - b)) == 4 * a * c + 4 * x * (x - b);
    assert (2 * x - b) * (2 * x - b) == 4 * x * (x - b) + b * b;
  }

  lemma RhoCorrect(f: Form)
    requires PositiveDefinite(f)
    ensures PositiveDefinite(Rho(f)) && IsNormal(Rho(f))
    ensures Disc(Rho(f)) == Disc(f) && Rho(f).a == f.c
  {
    var s := (f.c + f.b) / (2 * f.c);
    FloorBounds(f.c + f.b, 2 * f.c);
    assert 2 * (s * f.c) == 2 * f.c * s;
    RhoAlgebra(f.a, f.b, f.c, s);
    PositiveByDisc(Rho(f));
  }

  /** The rho loop: steps while a > c. */
  function Descend(f: Form): (g: Form)
    requires PositiveDefinite(f)
    decreases f.a
  {
    if f.a > f.c then
      RhoCorrect(f);
      Descend(Rho(f))
    else f
  }

  /** The tie-break: on a == c the middle coefficient is made non-negative. */
  function Reduced(f: Form): Form
    requires PositiveDefinite(f)
  {
    NormalizedCorrect(f);
    var g := Descend(Normalized(f));
    if g.a == g.c && g.b < 0 then Form(g.a, -g.b, g.c) else g
  }

  lemma {:induction false} DescendCorrect(f: Form)
    requires PositiveDefinite(f) && IsNormal(f)
    ensures var g := Descend(f);
            PositiveDefinite(g) && IsNormal(g) && g.a <= g.c && Disc(g) == Disc(f)
    decreases f.a
  {
    if f.a > f.c {
      RhoCorrect(f);
      DescendCorrect(Rho(f));
    }
  }

  // ---- reduction stays in the class --------------------------------------------------------

  lemma NormalizedStays(f: Form)
    requires f.a > 0
    ensures Equivalent(f, Normalized(f))
  {
    var r := (f.a - f.b) / (2 * f.a);
    ShiftStays(f, r);
  }

  lemma ShiftStays(f: Form, r: int)
    ensures Equivalent(f, Form(f.a, f.b + 2 * f.a * r, f.c + r * (f.b + f.a * r)))
  {
    var m := Matrix(1, r, 0, 1);
    assert At(f, Second(m)) == f.a * (r * r) + f.b * r + f.c == f.c + r * (f.b + f.a * r);
    assert Cross(f, First(m), Second(m)) == 2 * (f.a * r) + f.b;
    EquivalentBy(f, Form(f.a, f.b + 2 * f.a * r, f.c + r * (f.b + f.a * r)), m);
  }

  /** Turning by a quarter and then shifting by s. */
  lemma TurnStays(f: Form, s: int)
    ensures Equivalent(f, Form(f.c, 2 * (s * f.c) - f.b, f.a + s * (s * f.c - f.b)))
  {
    var m := Matrix(0, -1, 1, s);
    assert At(f, Second(m)) == f.a - f.b * s + f.c * (s * s) == f.a + s * (s * f.c - f.b);
    assert Cross(f, First(m), Second(m)) == -f.b + 2 * (f.c * s);
    EquivalentBy(f, Form(f.c, 2 * (s * f.c) - f.b, f.a + s * (s * f.c - f.b)), m);
  }

  lemma {:induction false} DescendStays(f: Form)
    requires PositiveDefinite(f)
    ensures Equivalent(f, Descend(f))
    decreases f.a
  {
    if f.a > f.c {
      RhoCorrect(f);
      TurnStays(f, (f.c + f.b) / (2 * f.c));
      DescendStays(Rho(f));
      EquivalentTrans(f, Rho(f), Descend(f));
    } else {
      EquivalentSelf(f);
    }
  }

  /** The tie-break is a quarter turn. */
  lemma FlipStays(g: Form)
    ensures g.a == g.c ==> Equivalent(g, Form(g.a, -g.b, g.c))
  {
    TurnStays(g, 0);
  }

  lemma ReducedStays(f: Form)
    requires PositiveDefinite(f)
    ensures Equivalent(f, Reduced(f))
  {
    NormalizedCorrect(f);
    NormalizedStays(f);
    var g := Descend(Normalized(f));
    DescendStays(Normalized(f));
    EquivalentTrans(f, Normalized(f), g);
    FlipStays(g);
    if g.a == g.c && g.b < 0 {
      EquivalentTrans(f, g, Reduced(f));
    }
  }

  /** `reduce` ends in the reduced form of the class of its input: a reduced form of the same
      discriminant, equivalent to the input. */
  lemma ReducedCorrect(f: Form)
    requires PositiveDefinite(f)
    ensures IsReduced(Reduced(f)) && PositiveDefinite(Reduced(f)) && Disc(Reduced(f)) == Disc(f)
    ensures Equivalent(f, Reduced(f))
    ensures IsReduced(f) ==> Reduced(f) == f
  {
    ReducedStays(f);
    NormalizedCorrect(f);
    DescendCorrect(Normalized(f));
    FlipKeeps(Descend(Normalized(f)));
    if IsReduced(f) {
      NormalIsFixed(f);
      assert Descend(f) == f;
    }
  }

  /** The reduced form is canonical: two forms are in the same class exactly when they reduce to
      the same form, so equality of reduced forms is equality of classes. */
  lemma SameClassIff(f: Form, g: Form)
    requires PositiveDefinite(f) && PositiveDefinite(g)
    ensures Equivalent(f, g) <==> Reduced(f) == Reduced(g)
  {
    var r, s := Reduced(f), Reduced(g);
    ReducedCorrect(f);
    ReducedCorrect(g);
    EquivalentSym(g, s);
    if Equivalent(f, g) {
      EquivalentSym(f, r);
      EquivalentTrans(r, f, g);
      EquivalentTrans(r, g, s);
      ReducedUnique(r, s);
    } else if r == s {
      EquivalentTrans(f, r, g);
    }
  }

  lemma FlipKeeps(g: Form)
    requires PositiveDefinite(g)
    ensures Disc(Form(g.a, -g.b, g.c)) == Disc(g) && PositiveDefinite(Form(g.a, -g.b, g.c))
  {
    NegatedSquare(g.b);
  }

  lemma NegatedSquare(b: int)
    ensures -b * -b == b * b
  {
  }

  lemma ZeroQuotient(x: int, d: int)
    requires 0 <= x < d
    ensures x / d == 0
  {
  }

  lemma NormalIsFixed(f: Form)
    requires f.a > 0 && IsNormal(f)
    ensures Normalized(f) == f
  {
    ZeroQuotient(f.a - f.b, 2 * f.a);
    NoShift(f, (f.a - f.b) / (2 * f.a));
  }

  lemma NoShift(f: Form, r: int)
    requires r == 0
    ensures Form(f.a, f.b + 2 * f.a * r, f.c + r * (f.b + f.a * r)) == f
  {
    assert 2 * f.a * 0 == 0 && 0 * (f.b + f.a * 0) == 0;
  }

  // ---- carrying the generator ------------------------------------------------------------

  /** e + w * sqrt(D), the numerator of the generator. */
  datatype Numerator = Numerator(e: int, w: int)

  /** Multiplying by b + sqrt(D). */
  function Advance(n: Numerator, b: int, d: int): Numerator {
    Numerator(n.e * b + n.w * d, n.e + n.w * b)
  }

  /** The numerator after the whole rho loop. */
  function Track(f: Form, n: Numerator, d: int): Numerator
    requires PositiveDefinite(f)
    decreases f.a
  {
    if f.a > f.c then
      RhoCorrect(f);
      Track(Rho(f), Advance(n, f.b, d), d)
    else n
  }

  /** The product of the 2c over the rho steps. */
  function Denominators(f: Form): int
    requires PositiveDefinite(f)
    decreases f.a
  {
    if f.a > f.c then
      RhoCorrect(f);
      2 * f.c * Denominators(Rho(f))
    else 1
  }

  function Norm(n: Numerator, d: int): int {
    n.e * n.e - d * (n.w * n.w)
  }

  lemma AdvanceNorm(n: Numerator, b: int, d: int)
    ensures Norm(Advance(n, b, d), d) == Norm(n, d) * (b * b - d)
  {
    var e, w := n.e, n.w;
    SquareOfSum(e * b, w * d);
    SquareOfSum(e, w * b);
    SwapInner(e, b, e, b);
    SwapInner(w, d, w, d);
    SwapInner(w, b, w, b);
    NormExpand(e * e, w * w, b * b, d, (e * b) * (w * d), e * (w * b));
    assert d * (e * (w * b)) == (e * b) * (w * d);
  }

  lemma NormExpand(ee: int, ww: int, bb: int, d: int, x: int, y: int)
    requires d * y == x
    ensures ee * bb + 2 * x + ww * (d * d) - d * (ee + 2 * y + ww * bb) == (ee - d * ww) * (bb - d)
  {
    assert (ee - d * ww) * (bb - d) == ee * bb - ee * d - (d * ww) * bb + (d * ww) * d;
    assert d * (ee + 2 * y + ww * bb) == d * ee + 2 * x + d * (ww * bb);
  }

  /** Norms along the loop: (e^2 - D w^2) a grows by the square of the denominators. */
  lemma {:induction false} TrackNorm(f: Form, n: Numerator)
    requires PositiveDefinite(f) && IsNormal(f)
    ensures var d, p := Disc(f), Denominators(f);
            Norm(Track(f, n, d), d) * Descend(f).a == (Norm(n, d) * f.a) * (p * p)
    decreases f.a
  {
    if f.a > f.c {
      RhoCorrect(f);
      var d := Disc(f);
      var n' := Advance(n, f.b, d);
      TrackNorm(Rho(f), n');
      AdvanceNorm(n, f.b, d);
      assert f.b * f.b - d == 4 * f.a * f.c;
      NormStep(Norm(n, d), f.a, f.c, Denominators(Rho(f)));
    }
  }

  lemma NormStep(m: int, a: int, c: int, p: int)
    ensures ((m * (4 * a * c)) * c) * (p * p) == (m * a) * ((2 * c * p) * (2 * c * p))
  {
    assert ((m * (4 * a * c)) * c) * (p * p) == 4 * (m * a) * (c * c) * (p * p);
    assert (2 * c * p) * (2 * c * p) == 4 * (c * c) * (p * p);
  }

  // The ideal of (a, b, c) is Z a + Z (b + sqrt D)/2; doubled, it is Z A + Z B with A = 2a and
  // B = b + sqrt D.

  function Times(x: Numerator, y: Numerator, d: int): Numerator {
    Numerator(x.e * y.e + d * (x.w * y.w), x.e * y.w + x.w * y.e)
  }

  function Combine(p: int, x: Numerator, q: int, y: Numerator): Numerator {
    Numerator(p * x.e + q * y.e, p * x.w + q * y.w)
  }

  function FirstGen(f: Form): Numerator {
    Numerator(2 * f.a, 0)
  }

  function SecondGen(f: Form): Numerator {
    Numerator(f.b, 1)
  }

  /** k * ideal(f) = n * ideal(g): the scaled bases differ by a unimodular change m. */
  predicate SameIdeal(k: int, f: Form, n: Numerator, g: Form, d: int, m: Matrix) {
    var x, y := Times(n, FirstGen(g), d), Times(n, SecondGen(g), d);
    && Unimodular(m)
    && Combine(k, FirstGen(f), 0, FirstGen(f)) == Combine(m.p, x, m.q, y)
    && Combine(k, SecondGen(f), 0, SecondGen(f)) == Combine(m.r, x, m.s, y)
  }

  ghost predicate Generates(k: int, f: Form, n: Numerator, g: Form, d: int) {
    exists m: Matrix :: SameIdeal(k, f, n, g, d, m)
  }

  /** One rho step, basis vector by basis vector: 2c B = n' A' and 2c A = s n' A' - n' B'. */
  lemma StepBasis(n: Numerator, f: Form, s: int)
    ensures var d := Disc(f);
            var f' := Form(f.c, 2 * (s * f.c) - f.b, f.a + s * (s * f.c - f.b));
            var n' := Advance(n, f.b, d);
            var x, y := Times(n, FirstGen(f), d), Times(n, SecondGen(f), d);
            var x', y' := Times(n', FirstGen(f'), d), Times(n', SecondGen(f'), d);
            && Combine(2 * f.c, y, 0, y) == x'
            && Combine(2 * f.c, x, 0, x) == Combine(s, x', -1, y')
  {
    var d, c, e, w, b := Disc(f), f.c, n.e, n.w, f.b;
    var n' := Advance(n, b, d);
    assert n' == Times(n, SecondGen(f), d);
    var sc := s * c;
    StepScalar(e, w, b, d, f.a, c, n'.e, n'.w, sc);
    assert s * (n'.e * (2 * c)) == 2 * sc * n'.e;
    assert s * (n'.w * (2 * c)) == 2 * sc * n'.w;
  }

  lemma StepScalar(e: int, w: int, b: int, d: int, a: int, c: int, e': int, w': int, sc: int)
    requires e' == e * b + w * d && w' == e + w * b && b * b - d == 4 * a * c
    ensures 2 * c * (e * (2 * a)) == 2 * sc * e' - (e' * (2 * sc - b) + d * w')
    ensures 2 * c * (w * (2 * a)) == 2 * sc * w' - (e' + w' * (2 * sc - b))
  {
    assert e' * (2 * sc - b) == 2 * sc * e' - e' * b;
    assert w' * (2 * sc - b) == 2 * sc * w' - w' * b;
    assert e' * b - d * w' == e * (b * b - d);
    assert w' * b - e' == w * (b * b - d);
    assert e * (4 * a * c) == 2 * c * (e * (2 * a));
    assert w * (4 * a * c) == 2 * c * (w * (2 * a));
  }

  lemma CombineStep(k: int, f: Numerator, p: int, q: int, x: Numerator, y: Numerator, c2: int, s: int,
                    x': Numerator, y': Numerator)
    requires Combine(k, f, 0, f) == Combine(p, x, q, y)
    requires Combine(c2, y, 0, y) == x' && Combine(c2, x, 0, x) == Combine(s, x', -1, y')
    ensures Combine(c2 * k, f, 0, f) == Combine(p * s + q, x', -p, y')
  {
    ScalarStep(k, f.e, p, q, x.e, y.e, c2, s, x'.e, y'.e);
    ScalarStep(k, f.w, p, q, x.w, y.w, c2, s, x'.w, y'.w);
  }

  lemma ScalarStep(k: int, f: int, p: int, q: int, x: int, y: int, c2: int, s: int, x': int, y': int)
    requires k * f == p * x + q * y && c2 * y == x' && c2 * x == s * x' - y'
    ensures c2 * k * f == (p * s + q) * x' + -p * y'
  {
    assert c2 * k * f == c2 * (p * x + q * y) == p * (c2 * x) + q * (c2 * y);
    assert p * (s * x' - y') == p * s * x' - p * y';
  }

  lemma StepGenerates(k: int, f0: Form, n: Numerator, f: Form)
    requires PositiveDefinite(f) && Generates(k, f0, n, f, Disc(f))
    ensures Generates(2 * f.c * k, f0, Advance(n, f.b, Disc(f)), Rho(f), Disc(f))
  {
    var d, f', n' := Disc(f), Rho(f), Advance(n, f.b, Disc(f));
    var m: Matrix :| SameIdeal(k, f0, n, f, d, m);
    var s := (f.c + f.b) / (2 * f.c);
    StepBasis(n, f, s);
    var x, y := Times(n, FirstGen(f), d), Times(n, SecondGen(f), d);
    var x', y' := Times(n', FirstGen(f'), d), Times(n', SecondGen(f'), d);
    CombineStep(k, FirstGen(f0), m.p, m.q, x, y, 2 * f.c, s, x', y');
    CombineStep(k, SecondGen(f0), m.r, m.s, x, y, 2 * f.c, s, x', y');
    StepDeterminant(m, s);
    assert SameIdeal(2 * f.c * k, f0, n', f', d, Matrix(m.p * s + m.q, -m.p, m.r * s + m.s, -m.r));
  }

  lemma ReorderProduct(k: int, c2: int, p: int)
    ensures (c2 * k) * p == k * (c2 * p)
  {
  }

  /** The loop keeps k * ideal(f0) = n * ideal(f), with k the product of the denominators. */
  lemma {:induction false} TrackGenerates(k: int, f0: Form, n: Numerator, f: Form)
    requires PositiveDefinite(f) && Generates(k, f0, n, f, Disc(f))
    ensures Generates(k * Denominators(f), f0, Track(f, n, Disc(f)), Descend(f), Disc(f))
    decreases f.a
  {
    if f.a > f.c {
      RhoCorrect(f);
      StepGenerates(k, f0, n, f);
      TrackGenerates(2 * f.c * k, f0, Advance(n, f.b, Disc(f)), Rho(f));
      ReorderProduct(k, 2 * f.c, Denominators(Rho(f)));
    }
  }

  lemma StepDeterminant(m: Matrix, s: int)
    requires Unimodular(m)
    ensures Unimodular(Matrix(m.p * s + m.q, -m.p, m.r * s + m.s, -m.r))
  {
    assert (m.p * s + m.q) * -m.r - -m.p * (m.r * s + m.s) == m.p * m.s - m.q * m.r;
  }

  /** Normalization only rewrites the basis. */
  lemma NormalizeGenerates(f: Form)
    requires PositiveDefinite(f)
    ensures Generates(1, f, Numerator(1, 0), Normalized(f), Disc(f))
  {
    var r := (f.a - f.b) / (2 * f.a);
    var m := Matrix(1, 0, -r, 1);
    assert -r * (2 * f.a) == -(2 * f.a * r);
    assert SameIdeal(1, f, Numerator(1, 0), Normalized(f), Disc(f), m);
  }

  /** `reduce_track_generator_exact`: the numerator for a form of discriminant d. */
  function TrackedExact(f: Form): Numerator
    requires PositiveDefinite(f)
  {
    NormalizedCorrect(f);
    Track(Normalized(f), Numerator(1, 0), Disc(f))
  }

  /** The tracked numerator carries the ideal of f to the ideal of its reduction, and its norm
      is a0 * (product of the 2c)^2 over the final a. */
  lemma TrackedExactCorrect(f: Form)
    requires PositiveDefinite(f)
    ensures var g, p := Descend(Normalized(f)), Denominators(Normalized(f));
            && IsNormal(g) && g.a <= g.c && Disc(g) == Disc(f)
            && Generates(p, f, TrackedExact(f), g, Disc(f))
            && Norm(TrackedExact(f), Disc(f)) * g.a == f.a * (p * p)
  {
    NormalizedCorrect(f);
    var f1 := Normalized(f);
    DescendCorrect(f1);
    NormalizeGenerates(f);
    TrackGenerates(1, f, Numerator(1, 0), f1);
    TrackNorm(f1, Numerator(1, 0));
    assert Norm(Numerator(1, 0), Disc(f)) == 1;
  }

  /** The fast variant, modulo q: the square of sqrt(D) is dropped. */
  function TrackMod(f: Form, n: Numerator, q: int): Numerator
    requires PositiveDefinite(f) && q > 0
    decreases f.a
  {
    if f.a > f.c then
      RhoCorrect(f);
      TrackMod(Rho(f), Numerator((n.e * f.b) % q, (n.e + n.w * f.b) % q), q)
    else n
  }

  /** When q divides the discriminant the fast variant is the exact one modulo q. */
  lemma {:induction false} TrackModExact(f: Form, n: Numerator, n': Numerator, q: int)
    requires PositiveDefinite(f) && q > 0 && Disc(f) % q == 0
    requires 0 <= n'.e < q && 0 <= n'.w < q && Cong(n'.e, n.e, q) && Cong(n'.w, n.w, q)
    ensures var t := Track(f, n, Disc(f));
            TrackMod(f, n', q) == Numerator(t.e % q, t.w % q)
    decreases f.a
  {
    if f.a > f.c {
      RhoCorrect(f);
      var d := Disc(f);
      AdvanceMod(n, n', f.b, d, q);
      TrackModExact(Rho(f), Advance(n, f.b, d), Numerator((n'.e * f.b) % q, (n'.e + n'.w * f.b) % q), q);
    } else {
      CongIsRemainder(n'.e, n.e, q);
      CongIsRemainder(n'.w, n.w, q);
    }
  }

  lemma AdvanceMod(n: Numerator, n': Numerator, b: int, d: int, q: int)
    requires q > 0 && d % q == 0 && Cong(n'.e, n.e, q) && Cong(n'.w, n.w, q)
    ensures Cong((n'.e * b) % q, Advance(n, b, d).e, q)
    ensures Cong((n'.e + n'.w * b) % q, Advance(n, b, d).w, q)
  {
    CongScale(b, n'.e, n.e, q);
    CongScale(b, n'.w, n.w, q);
    DivisibleIsCongZero(d, q);
    CongScale(n.w, d, 0, q);
    CongSym(n.w * d, 0, q);
    CongAdd(n'.e * b, n.e * b, 0, n.w * d, q);
    CongMod(n'.e * b, q);
    CongTrans((n'.e * b) % q, n'.e * b, n.e * b + n.w * d, q);
    CongAdd(n'.e, n.e, n'.w * b, n.w * b, q);
    CongMod(n'.e + n'.w * b, q);
    CongTrans((n'.e + n'.w * b) % q, n'.e + n'.w * b, n.e + n.w * b, q);
  }

  // ---- the in-place form -------------------------------------------------------------------

  /** A form whose coefficients `normalize`, `rho` and `reduce` rewrite in place. */
  class MutableForm {
    var a: int
    var b: int
    var c: int

    function Value(): Form
      reads this
    {
      Form(a, b, c)
    }

    constructor (f: Form)
      ensures Value() == f
    {
      a, b, c := f.a, f.b, f.c;
    }

    method Normalize()
      requires a > 0
      modifies this
      ensures Value() == Normalized(old(Value()))
    {
      var twoA := 2 * a;
      var r := (a - b) / twoA;
      c := c + r * (b + a * r);
      b := b + twoA * r;
    }

    method RhoStep()
      requires c > 0
      modifies this
      ensures Value() == Rho(old(Value()))
    {
      var s := (c + b) / (2 * c);
      var sc := s * c;
      var newC := a + s * (sc - b);
      var newB := 2 * sc - b;
      a, b, c := c, newB, newC;
    }

    method Reduce()
      requires PositiveDefinite(Value())
      modifies this
      ensures Value() == Reduced(old(Value()))
      ensures IsReduced(Value()) && Disc(Value()) == Disc(old(Value())) && Equivalent(old(Value()), Value())
    {
      ReducedCorrect(Value());
      NormalizedCorrect(Value());
      Normalize();
      while a > c
        invariant PositiveDefinite(Value())
        invariant Descend(Value()) == Descend(Normalized(old(Value())))
        decreases a
      {
        RhoCorrect(Value());
        RhoStep();
      }
      if a == c && b < 0 {
        b := -b;
      }
    }
  }

  method AdvanceInPlace(e: int, w: int, b: int, d: int) returns (e': int, w': int)
    ensures Numerator(e', w') == Advance(Numerator(e, w), b, d)
  {
    e' := e * b + w * d;
    w' := e + w * b;
  }

  /** `reduce_track_generator_exact` */
  method ReduceTrackExact(g: Form, d: int) returns (n: Numerator)
    requires PositiveDefinite(g) && Disc(g) == d
    ensures n == TrackedExact(g)
  {
    NormalizedCorrect(g);
    var f := new MutableForm(g);
    var e, w := 1, 0;
    f.Normalize();
    while f.a > f.c
      invariant PositiveDefinite(f.Value())
      invariant Track(f.Value(), Numerator(e, w), d) == TrackedExact(g)
      decreases f.a
    {
      RhoCorrect(f.Value());
      e, w := AdvanceInPlace(e, w, f.b, d);
      f.RhoStep();
    }
    n := Numerator(e, w);
  }

  /** `reduce_track_generator`: the same loop modulo q. */
  method ReduceTrackMod(g: Form, q: int) returns (n: Numerator)
    requires PositiveDefinite(g) && q > 1
    ensures Disc(g) % q == 0 ==> n == Numerator(TrackedExact(g).e % q, TrackedExact(g).w % q)
  {
    NormalizedCorrect(g);
    var f := new MutableForm(g);
    var e, w := 1, 0;
    f.Normalize();
    if Disc(g) % q == 0 {
      CongRefl(1, q);
      CongRefl(0, q);
      TrackModExact(f.Value(), Numerator(1, 0), Numerator(1, 0), q);
    }
    while f.a > f.c
      invariant PositiveDefinite(f.Value())
      invariant TrackMod(f.Value(), Numerator(e, w), q) == TrackMod(Normalized(g), Numerator(1, 0), q)
      decreases f.a
    {
      RhoCorrect(f.Value());
      e, w := (e * f.b) % q, (e + w * f.b) % q;
      f.RhoStep();
    }
    n := Numerator(e, w);
  }
}
