/** Binary quadratic forms under integer substitutions of determinant one. Values and the bilinear
    form transform as they should, the discriminant is kept, substitutions compose and can be
    undone, and a reduced form takes its two least values at the obvious places, from which two
    reduced forms of one class are equal. */
module FormClasses {
  import opened Congruence

  /** The form a x^2 + b x y + c y^2. */
  datatype Form = Form(a: int, b: int, c: int)

  function Disc(f: Form): int {
    f.b * f.b - 4 * f.a * f.c
  }

  predicate PositiveDefinite(f: Form) {
    f.a > 0 && f.c > 0 && Disc(f) < 0
  }

  /** -a < b <= a: what `normalize` and every rho step leave behind. */
  predicate IsNormal(f: Form) {
    -f.a < f.b <= f.a
  }

  /** The shape of a reduced form. */
  predicate IsReduced(f: Form) {
    IsNormal(f) && f.a <= f.c && (f.a == f.c ==> f.b >= 0)
  }

  // ---- substitutions -----------------------------------------------------------------------

  datatype Vector = Vector(x: int, y: int)

  datatype Matrix = Matrix(p: int, q: int, r: int, s: int)

  function Det(m: Matrix): int {
    m.p * m.s - m.q * m.r
  }

  predicate Unimodular(m: Matrix) {
    Det(m) == 1
  }

  function First(m: Matrix): Vector {
    Vector(m.p, m.r)
  }

  function Second(m: Matrix): Vector {
    Vector(m.q, m.s)
  }

  /** The value of the form. */
  function At(f: Form, u: Vector): int {
    f.a * (u.x * u.x) + f.b * (u.x * u.y) + f.c * (u.y * u.y)
  }

  /** Twice the bilinear form of f. */
  function Cross(f: Form, u: Vector, v: Vector): int {
    2 * (f.a * (u.x * v.x)) + f.b * (u.x * v.y + u.y * v.x) + 2 * (f.c * (u.y * v.y))
  }

  /** f(p x + q y, r x + s y) */
  function Substituted(f: Form, m: Matrix): Form {
    Form(At(f, First(m)), Cross(f, First(m), Second(m)), At(f, Second(m)))
  }

  /** g is f after a substitution of determinant one: the forms are in the same class. */
  ghost predicate Equivalent(f: Form, g: Form) {
    exists m: Matrix :: Unimodular(m) && g == Substituted(f, m)
  }

  lemma EquivalentBy(f: Form, g: Form, m: Matrix)
    requires Unimodular(m) && g == Substituted(f, m)
    ensures Equivalent(f, g)
  {
  }

  lemma Spread(a: int, p: int, x: int, q: int, x': int, z: int)
    ensures a * ((p * x + q * x') * z) == p * (a * (x * z)) + q * (a * (x' * z))
  {
  }

  lemma Parts(p: int, x: int, y: int, y': int, z: int)
    ensures p * (2 * x + (y + y') + 2 * z) == 2 * (p * x) + (p * y + p * y') + 2 * (p * z)
  {
  }

  function Sum(p: int, u: Vector, q: int, v: Vector): Vector {
    Vector(p * u.x + q * v.x, p * u.y + q * v.y)
  }

  lemma CrossSymmetric(f: Form, u: Vector, v: Vector)
    ensures Cross(f, u, v) == Cross(f, v, u) && Cross(f, u, u) == 2 * At(f, u)
  {
  }

  lemma CrossLinear(f: Form, p: int, u: Vector, q: int, v: Vector, z: Vector)
    ensures Cross(f, Sum(p, u, q, v), z) == p * Cross(f, u, z) + q * Cross(f, v, z)
  {
    Spread(f.a, p, u.x, q, v.x, z.x);
    Spread(f.b, p, u.x, q, v.x, z.y);
    Spread(f.b, p, u.y, q, v.y, z.x);
    Spread(f.c, p, u.y, q, v.y, z.y);
    var w := Sum(p, u, q, v);
    Distribute(f.b, w.x * z.y, w.y * z.x);
    Distribute(f.b, u.x * z.y, u.y * z.x);
    Distribute(f.b, v.x * z.y, v.y * z.x);
    Parts(p, f.a * (u.x * z.x), f.b * (u.x * z.y), f.b * (u.y * z.x), f.c * (u.y * z.y));
    Parts(q, f.a * (v.x * z.x), f.b * (v.x * z.y), f.b * (v.y * z.x), f.c * (v.y * z.y));
  }

  function Image(m: Matrix, u: Vector): Vector {
    Sum(u.x, First(m), u.y, Second(m))
  }

  lemma Quadratic(x: int, y: int, z: int, w: int, a: int, b: int, c: int)
    ensures x * (z * (2 * a) + w * b) + y * (z * b + w * (2 * c))
            == 2 * (a * (x * z)) + b * (x * w + y * z) + 2 * (c * (y * w))
  {
  }

  /** The bilinear form of a substituted form. */
  lemma SubstitutedCross(f: Form, m: Matrix, u: Vector, v: Vector)
    ensures Cross(Substituted(f, m), u, v) == Cross(f, Image(m, u), Image(m, v))
  {
    var c1, c2 := First(m), Second(m);
    var g := Substituted(f, m);
    CrossLinear(f, u.x, c1, u.y, c2, Image(m, v));
    CrossSymmetric(f, c1, Image(m, v));
    CrossSymmetric(f, c2, Image(m, v));
    CrossLinear(f, v.x, c1, v.y, c2, c1);
    CrossLinear(f, v.x, c1, v.y, c2, c2);
    CrossSymmetric(f, c1, c2);
    CrossSymmetric(f, c1, c1);
    CrossSymmetric(f, c2, c2);
    Quadratic(u.x, u.y, v.x, v.y, g.a, g.b, g.c);
  }

  lemma SubstitutedAt(f: Form, m: Matrix, u: Vector)
    ensures At(Substituted(f, m), u) == At(f, Image(m, u))
  {
    SubstitutedCross(f, m, u, u);
    CrossSymmetric(Substituted(f, m), u, u);
    CrossSymmetric(f, Image(m, u), Image(m, u));
  }

  function Composed(m: Matrix, n: Matrix): Matrix {
    var u, v := Image(m, First(n)), Image(m, Second(n));
    Matrix(u.x, v.x, u.y, v.y)
  }

  /** Substitutions compose. */
  lemma SubstitutedTwice(f: Form, m: Matrix, n: Matrix)
    ensures Substituted(Substituted(f, m), n) == Substituted(f, Composed(m, n))
  {
    SubstitutedAt(f, m, First(n));
    SubstitutedAt(f, m, Second(n));
    SubstitutedCross(f, m, First(n), Second(n));
  }

  lemma DetAlgebra(p: int, q: int, r: int, s: int, p': int, q': int, r': int, s': int)
    ensures (p' * p + r' * q) * (q' * r + s' * s) - (q' * p + s' * q) * (p' * r + r' * s)
            == (p * s - q * r) * (p' * s' - q' * r')
  {
  }

  lemma DetComposed(m: Matrix, n: Matrix)
    ensures Det(Composed(m, n)) == Det(m) * Det(n)
  {
    DetAlgebra(m.p, m.q, m.r, m.s, n.p, n.q, n.r, n.s);
  }

  // ---- the discriminant --------------------------------------------------------------------

  lemma Monomials(a: int, b: int, x: int, y: int, z: int, w: int)
    ensures (a * (x * y)) * (b * (z * w)) == (a * b) * ((x * z) * (y * w))
  {
  }

  lemma Nine(x: int, y: int, z: int, x': int, y': int, z': int)
    ensures (x + y + z) * (x' + y' + z') == x * x' + x * y' + x * z' + y * x' + y * y' + y * z' + z * x' + z * y' + z * z'
  {
  }

  lemma AtProduct(f: Form, u: Vector, v: Vector)
    ensures var a, b, c := f.a, f.b, f.c;
            var k, l, m, n := u.x * v.x, u.x * v.y, u.y * v.x, u.y * v.y;
            At(f, u) * At(f, v)
            == (a * a) * (k * k) + (a * b) * (k * l) + (a * c) * (l * l) + (b * a) * (k * m) + (b * b) * (k * n)
             + (b * c) * (l * n) + (c * a) * (m * m) + (c * b) * (m * n) + (c * c) * (n * n)
  {
    var a, b, c, x, y, z, w := f.a, f.b, f.c, u.x, u.y, v.x, v.y;
    Nine(a * (x * x), b * (x * y), c * (y * y), a * (z * z), b * (z * w), c * (w * w));
    Monomials(a, a, x, x, z, z);
    Monomials(a, b, x, x, z, w);
    Monomials(a, c, x, x, w, w);
    Monomials(b, a, x, y, z, z);
    Monomials(b, b, x, y, z, w);
    Monomials(b, c, x, y, w, w);
    Monomials(c, a, y, y, z, z);
    Monomials(c, b, y, y, z, w);
    Monomials(c, c, y, y, w, w);
  }

  lemma SquareOfSum(x: int, y: int)
    ensures (x + y) * (x + y) == x * x + 2 * (x * y) + y * y
  {
  }

  lemma CrossTerms(x: int, w: int, y: int, z: int)
    ensures (2 * (x + w)) * (y + z) == 2 * (x * y) + 2 * (x * z) + 2 * (y * w) + 2 * (z * w)
    ensures (2 * (x + w)) * (2 * (x + w)) == 4 * ((x + w) * (x + w))
  {
  }

  lemma FourSquare(x: int, y: int, z: int, w: int)
    ensures (2 * x + (y + z) + 2 * w) * (2 * x + (y + z) + 2 * w)
            == 4 * (x * x) + 4 * (x * y) + 4 * (x * z) + 8 * (x * w) + y * y + 2 * (y * z) + z * z
               + 4 * (y * w) + 4 * (z * w) + 4 * (w * w)
  {
    SquareOfSum(2 * (x + w), y + z);
    SquareOfSum(x, w);
    SquareOfSum(y, z);
    CrossTerms(x, w, y, z);
  }

  lemma CrossSquare(a: int, b: int, c: int, k: int, l: int, m: int, n: int)
    ensures var t := 2 * (a * k) + b * (l + m) + 2 * (c * n);
            t * t == 4 * ((a * a) * (k * k)) + 4 * ((a * b) * (k * l)) + 4 * ((a * b) * (k * m)) + 8 * ((a * c) * (k * n))
                   + (b * b) * (l * l) + 2 * ((b * b) * (l * m)) + (b * b) * (m * m)
                   + 4 * ((b * c) * (l * n)) + 4 * ((b * c) * (m * n)) + 4 * ((c * c) * (n * n))
  {
    Distribute(b, l, m);
    FourSquare(a * k, b * l, b * m, c * n);
    SwapInner(a, k, a, k);
    SwapInner(a, k, b, l);
    SwapInner(a, k, b, m);
    SwapInner(a, k, c, n);
    SwapInner(b, l, b, l);
    SwapInner(b, l, b, m);
    SwapInner(b, m, b, m);
    SwapInner(b, l, c, n);
    SwapInner(b, m, c, n);
    SwapInner(c, n, c, n);
  }

  lemma Gather(ac: int, bb: int, ll: int, lm: int, mm: int)
    ensures bb * ll + 2 * (bb * lm) + bb * mm + 8 * (ac * lm) - 4 * (ac * ll) - 4 * (bb * lm) - 4 * (ac * mm)
            == (bb - 4 * ac) * (ll + mm - 2 * lm)
  {
  }

  lemma SquareOfDifference(l: int, m: int)
    ensures (l - m) * (l - m) == l * l + m * m - 2 * (l * m)
  {
  }

  lemma Commuted(a: int, b: int, c: int)
    ensures b * a == a * b && c * a == a * c && c * b == b * c && 4 * a * c == 4 * (a * c)
  {
  }

  /** The discriminant is multiplied by the square of the determinant. */
  lemma SubstitutedDisc(f: Form, m: Matrix)
    ensures Disc(Substituted(f, m)) == Disc(f) * (Det(m) * Det(m))
  {
    var u, v := First(m), Second(m);
    var a, b, c := f.a, f.b, f.c;
    var k, l, n, o := u.x * v.x, u.x * v.y, u.y * v.x, u.y * v.y;
    AtProduct(f, u, v);
    CrossSquare(a, b, c, k, l, n, o);
    Commuted(a, b, c);
    SwapInner(u.x, v.x, u.y, v.y);
    SwapInner(u.x, v.y, u.y, v.x);
    Commuted(v.x, v.y, 0);
    assert k * o == l * n;
    Gather(a * c, b * b, l * l, l * n, n * n);
    SquareOfDifference(l, n);
    Commuted(m.q, m.r, 0);
    Commuted(At(f, u), 0, At(f, v));
  }

  // ---- equivalence -------------------------------------------------------------------------

  lemma EquivalentSelf(f: Form)
    ensures Equivalent(f, f)
  {
    var m := Matrix(1, 0, 0, 1);
    assert Substituted(f, m) == f;
  }

  lemma EquivalentTrans(f: Form, g: Form, h: Form)
    requires Equivalent(f, g) && Equivalent(g, h)
    ensures Equivalent(f, h)
  {
    var m: Matrix :| Unimodular(m) && g == Substituted(f, m);
    var n: Matrix :| Unimodular(n) && h == Substituted(g, n);
    SubstitutedTwice(f, m, n);
    DetComposed(m, n);
    assert Unimodular(Composed(m, n));
  }

  function Inverse(m: Matrix): Matrix {
    Matrix(m.s, -m.q, -m.r, m.p)
  }

  lemma InverseEntries(p: int, q: int, r: int, s: int)
    ensures s * p + -r * q == p * s - q * r == s * p - -q * -r
    ensures -q * p + p * q == 0 && s * r + -r * s == 0 && -q * r + p * s == p * s - q * r
  {
  }

  lemma InverseUndoes(f: Form, m: Matrix)
    requires Unimodular(m)
    ensures Unimodular(Inverse(m)) && Substituted(Substituted(f, m), Inverse(m)) == f
  {
    SubstitutedTwice(f, m, Inverse(m));
    InverseEntries(m.p, m.q, m.r, m.s);
    assert Composed(m, Inverse(m)) == Matrix(1, 0, 0, 1);
    assert Substituted(f, Matrix(1, 0, 0, 1)) == f;
  }

  lemma EquivalentSym(f: Form, g: Form)
    requires Equivalent(f, g)
    ensures Equivalent(g, f)
  {
    var m: Matrix :| Unimodular(m) && g == Substituted(f, m);
    InverseUndoes(f, m);
  }

  // ---- reduced forms -----------------------------------------------------------------------

  lemma AbsProduct(x: int, y: int)
    ensures Abs(x) * Abs(y) == Abs(x * y) && Abs(x) * Abs(x) == x * x
  {
  }

  lemma Scale(k: int, x: int, y: int)
    requires k >= 0 && x >= y
    ensures k * x >= k * y && x * k >= y * k
  {
    assert k * (x - y) >= 0;
  }

  lemma BoundedBy(a: int, b: int, t: int)
    requires -a <= b <= a
    ensures b * t >= -(a * Abs(t))
  {
    if t >= 0 {
      Scale(t, b + a, 0);
      Distribute(t, b, a);
    } else {
      Scale(-t, a - b, 0);
      Distribute(-t, a, -b);
    }
  }

  lemma Bounded(a: int, b: int, x: int, y: int)
    requires -a <= b <= a
    ensures b * (x * y) >= -(a * (Abs(x) * Abs(y)))
  {
     AbsProduct(x, y);
    BoundedBy(a, b, x * y);
  }

  lemma MinimumFar(a: int, c: int, xx: int, xy: int, yy: int)
    requires 0 < a <= c && xx >= xy && yy >= 1
    ensures a * xx - a * xy + c * yy >= c
  {
    Scale(a, xx, xy);
    Scale(c, yy, 1);
  }

  lemma MinimumNear(a: int, c: int, xx: int, xy: int, yy: int)
    requires 0 < a <= c && xx >= 0 && xy >= 0 && yy - xy >= 1
    ensures a * xx - a * xy + c * yy >= c
  {
    Scale(a, xx, 0);
    Scale(xy, c, a);
    Scale(c, yy, xy + 1);
    Distribute(c, xy, 1);
  }

  lemma MinimumAlgebra(a: int, c: int, x: nat, y: nat)
    requires 0 < a <= c && y >= 1
    ensures a * (x * x) - a * (x * y) + c * (y * y) >= c
  {
    if x >= y {
      Scale(x, x, y);
      Scale(y, y, 1);
      MinimumFar(a, c, x * x, x * y, y * y);
    } else {
      Scale(x, y, 0);
      Scale(x, x, 0);
      Scale(y, y, x + 1);
      Distribute(y, x, 1);
      MinimumNear(a, c, x * x, x * y, y * y);
    }
  }

  /** Off the axis y = 0 a reduced form takes no value below c. */
  lemma Minimum(f: Form, u: Vector)
    requires f.a > 0 && IsReduced(f) && u.y != 0
    ensures At(f, u) >= f.c
  {
    var x, y := Abs(u.x), Abs(u.y);
    AbsProduct(u.x, u.x);
    AbsProduct(u.y, u.y);
    Bounded(f.a, f.b, u.x, u.y);
    MinimumAlgebra(f.a, f.c, x, y);
  }

  lemma UnitProduct(p: int, s: int)
    requires p * s == 1
    ensures p == s && (p == 1 || p == -1)
  {
    if p > 1 {
      if s >= 1 {
        Scale(s, p, 2);
      } else {
        Scale(p, 0, s);
      }
    } else if p < -1 {
      if s <= -1 {
        Scale(-s, -p, 2);
      } else {
        Scale(-p, s, 0);
      }
    }
  }

  lemma ShearCoefficients(f: Form, m: Matrix)
    requires m.r == 0 && m.p == m.s && (m.p == 1 || m.p == -1)
    ensures Substituted(f, m).a == f.a && Substituted(f, m).b == f.b + 2 * (f.a * (m.p * m.q))
    ensures m.q == 0 ==> Substituted(f, m) == f
  {
  }

  /** A shear that takes a reduced form to a reduced form leaves it alone. */
  lemma ShearIsTrivial(f: Form, m: Matrix)
    requires f.a > 0 && IsReduced(f) && Unimodular(m) && m.r == 0 && IsReduced(Substituted(f, m))
    ensures Substituted(f, m) == f
  {
    UnitProduct(m.p, m.s);
    ShearCoefficients(f, m);
    var k := m.p * m.q;
    if k >= 1 {
      Scale(f.a, k, 1);
    } else if k <= -1 {
      Scale(f.a, -1, k);
    }
    assert m.q == 0;
  }

  lemma EqualSquares(x: int, y: int)
    requires x * x == y * y && x >= 0 && y >= 0
    ensures x == y
  {
    assert (x - y) * (x + y) == x * x - y * y;
  }

  /** Two reduced forms of one class are equal. */
  lemma ReducedUnique(f: Form, g: Form)
    requires f.a > 0 && g.a > 0 && IsReduced(f) && IsReduced(g) && Equivalent(f, g)
    ensures f == g
  {
    var m: Matrix :| Unimodular(m) && g == Substituted(f, m);
    if m.r == 0 {
      ShearIsTrivial(f, m);
    } else {
      InverseUndoes(f, m);
      Minimum(f, First(m));
      Minimum(g, First(Inverse(m)));
      assert f.a == f.c == g.a == g.c;
      SubstitutedDisc(f, m);
      assert Disc(g) == Disc(f);
      EqualSquares(f.b, g.b);
    }
  }
}
