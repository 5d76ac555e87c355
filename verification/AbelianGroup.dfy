/** The class group as an abstract commutative group: integer powers, multi-exponentiation,
    and elements written as h^x * k^y * f^z. */
module AbelianGroup {
  import opened Lagrange

  datatype Group<!G> = Group(mul: (G, G) -> G, inv: G -> G, one: G)

  // Each law is a named predicate, so that it is used only where a proof mentions it.
  predicate Associative<G(==)>(g: Group<G>, a: G, b: G, c: G) {
    g.mul(g.mul(a, b), c) == g.mul(a, g.mul(b, c))
  }

  predicate Commutative<G(==)>(g: Group<G>, a: G, b: G) {
    g.mul(a, b) == g.mul(b, a)
  }

  predicate Unital<G(==)>(g: Group<G>, a: G) {
    g.mul(a, g.one) == a && g.mul(a, g.inv(a)) == g.one
  }

  ghost predicate IsAbelian<G(!new)>(g: Group<G>) {
    && (forall a, b, c :: Associative(g, a, b, c))
    && (forall a, b :: Commutative(g, a, b))
    && (forall a :: Unital(g, a))
  }

  lemma Assoc<G(!new)>(g: Group<G>, a: G, b: G, c: G)
    requires IsAbelian(g)
    ensures g.mul(g.mul(a, b), c) == g.mul(a, g.mul(b, c))
  {
    assert Associative(g, a, b, c);
  }

  lemma Comm<G(!new)>(g: Group<G>, a: G, b: G)
    requires IsAbelian(g)
    ensures g.mul(a, b) == g.mul(b, a)
  {
    assert Commutative(g, a, b);
  }

  lemma Identity<G(!new)>(g: Group<G>, a: G)
    requires IsAbelian(g)
    ensures g.mul(a, g.one) == a == g.mul(g.one, a)
    ensures g.mul(a, g.inv(a)) == g.one == g.mul(g.inv(a), a)
  {
    assert Unital(g, a);
    Comm(g, a, g.one);
    Comm(g, a, g.inv(a));
  }

  /** (ab)(cd) = (ac)(bd) */
  lemma Exchange<G(!new)>(g: Group<G>, a: G, b: G, c: G, d: G)
    requires IsAbelian(g)
    ensures g.mul(g.mul(a, b), g.mul(c, d)) == g.mul(g.mul(a, c), g.mul(b, d))
  {
    Assoc(g, a, b, g.mul(c, d));
    Assoc(g, b, c, d);
    Comm(g, b, c);
    Assoc(g, c, b, d);
    Assoc(g, a, c, g.mul(b, d));
  }

  lemma InverseUnique<G(!new)>(g: Group<G>, a: G, b: G)
    requires IsAbelian(g) && g.mul(a, b) == g.one
    ensures b == g.inv(a)
  {
    Identity(g, a);
    Identity(g, b);
    Identity(g, g.inv(a));
    Assoc(g, g.inv(a), a, b);
  }

  // ---- integer powers ------------------------------------------------------------------

  /** a^n for every integer n. */
  function Power<G>(g: Group<G>, a: G, n: int): G
    decreases if n < 0 then -n else n
  {
    if n == 0 then g.one
    else if n > 0 then g.mul(a, Power(g, a, n - 1))
    else g.mul(g.inv(a), Power(g, a, n + 1))
  }

  lemma PowerNext<G(!new)>(g: Group<G>, a: G, n: int)
    requires IsAbelian(g)
    ensures Power(g, a, n + 1) == g.mul(a, Power(g, a, n))
    ensures Power(g, a, n - 1) == g.mul(g.inv(a), Power(g, a, n))
  {
    Identity(g, a);
    Assoc(g, a, g.inv(a), Power(g, a, n + 1));
    Assoc(g, g.inv(a), a, Power(g, a, n - 1));
    Identity(g, Power(g, a, n + 1));
    Identity(g, Power(g, a, n - 1));
  }

  lemma {:induction false} PowerAdd<G(!new)>(g: Group<G>, a: G, m: int, n: int)
    requires IsAbelian(g)
    ensures Power(g, a, m + n) == g.mul(Power(g, a, m), Power(g, a, n))
    decreases if m < 0 then -m else m
  {
    if m == 0 {
      Identity(g, Power(g, a, n));
    } else if m > 0 {
      PowerAdd(g, a, m - 1, n);
      PowerNext(g, a, m - 1 + n);
      Assoc(g, a, Power(g, a, m - 1), Power(g, a, n));
    } else {
      PowerAdd(g, a, m + 1, n);
      PowerNext(g, a, m + 1 + n);
      Assoc(g, g.inv(a), Power(g, a, m + 1), Power(g, a, n));
    }
  }

  lemma PowerNeg<G(!new)>(g: Group<G>, a: G, n: int)
    requires IsAbelian(g)
    ensures g.inv(Power(g, a, n)) == Power(g, a, -n)
  {
    PowerAdd(g, a, n, -n);
    InverseUnique(g, Power(g, a, n), Power(g, a, -n));
  }

  lemma {:induction false} PowerPower<G(!new)>(g: Group<G>, a: G, m: int, n: int)
    requires IsAbelian(g)
    ensures Power(g, Power(g, a, m), n) == Power(g, a, m * n)
    decreases if n < 0 then -n else n
  {
    if n == 0 {
    } else if n > 0 {
      PowerPower(g, a, m, n - 1);
      PowerAdd(g, a, m, m * (n - 1));
      assert m * n == m + m * (n - 1);
    } else {
      PowerPower(g, a, m, n + 1);
      PowerNeg(g, a, m);
      PowerAdd(g, a, -m, m * (n + 1));
      assert m * n == -m + m * (n + 1);
    }
  }

  lemma {:induction false} PowerProduct<G(!new)>(g: Group<G>, a: G, b: G, n: int)
    requires IsAbelian(g)
    ensures Power(g, g.mul(a, b), n) == g.mul(Power(g, a, n), Power(g, b, n))
    decreases if n < 0 then -n else n
  {
    if n == 0 {
      Identity(g, g.one);
    } else if n > 0 {
      PowerProduct(g, a, b, n - 1);
      Exchange(g, a, b, Power(g, a, n - 1), Power(g, b, n - 1));
    } else {
      PowerProduct(g, a, b, n + 1);
      Exchange(g, a, b, g.inv(a), g.inv(b));
      Identity(g, a);
      Identity(g, b);
      Identity(g, g.one);
      InverseUnique(g, g.mul(a, b), g.mul(g.inv(a), g.inv(b)));
      Exchange(g, g.inv(a), g.inv(b), Power(g, a, n + 1), Power(g, b, n + 1));
    }
  }

  /** `multiexp`: the product of bases[i]^exps[i]. */
  function MultiPower<G>(g: Group<G>, bases: seq<G>, exps: seq<int>): G
    requires |bases| == |exps|
  {
    if bases == [] then g.one
    else g.mul(Power(g, bases[0], exps[0]), MultiPower(g, bases[1..], exps[1..]))
  }

  // ---- elements over three generators ---------------------------------------------------

  datatype Basis<!G> = Basis(h: G, k: G, f: G)

  /** h^x * k^y * f^z */
  function Elem<G>(g: Group<G>, b: Basis<G>, x: int, y: int, z: int): G {
    g.mul(g.mul(Power(g, b.h, x), Power(g, b.k, y)), Power(g, b.f, z))
  }

  lemma ElemMul<G(!new)>(g: Group<G>, b: Basis<G>, x: int, y: int, z: int, x': int, y': int, z': int)
    requires IsAbelian(g)
    ensures g.mul(Elem(g, b, x, y, z), Elem(g, b, x', y', z')) == Elem(g, b, x + x', y + y', z + z')
  {
    var hk, hk' := g.mul(Power(g, b.h, x), Power(g, b.k, y)), g.mul(Power(g, b.h, x'), Power(g, b.k, y'));
    Exchange(g, hk, Power(g, b.f, z), hk', Power(g, b.f, z'));
    Exchange(g, Power(g, b.h, x), Power(g, b.k, y), Power(g, b.h, x'), Power(g, b.k, y'));
    PowerAdd(g, b.h, x, x');
    PowerAdd(g, b.k, y, y');
    PowerAdd(g, b.f, z, z');
  }

  lemma ElemPower<G(!new)>(g: Group<G>, b: Basis<G>, x: int, y: int, z: int, n: int)
    requires IsAbelian(g)
    ensures Power(g, Elem(g, b, x, y, z), n) == Elem(g, b, x * n, y * n, z * n)
  {
    PowerProduct(g, g.mul(Power(g, b.h, x), Power(g, b.k, y)), Power(g, b.f, z), n);
    PowerProduct(g, Power(g, b.h, x), Power(g, b.k, y), n);
    PowerPower(g, b.h, x, n);
    PowerPower(g, b.k, y, n);
    PowerPower(g, b.f, z, n);
  }

  lemma ElemUnits<G(!new)>(g: Group<G>, b: Basis<G>, n: int)
    requires IsAbelian(g)
    ensures Elem(g, b, n, 0, 0) == Power(g, b.h, n)
    ensures Elem(g, b, 0, n, 0) == Power(g, b.k, n)
    ensures Elem(g, b, 0, 0, n) == Power(g, b.f, n)
    ensures Elem(g, b, 0, 0, 0) == g.one
  {
    Identity(g, Power(g, b.h, n));
    Identity(g, Power(g, b.k, n));
    Identity(g, Power(g, b.f, n));
    Identity(g, g.one);
  }

  lemma ElemInverse<G(!new)>(g: Group<G>, b: Basis<G>, x: int, y: int, z: int)
    requires IsAbelian(g)
    ensures g.inv(Elem(g, b, x, y, z)) == Elem(g, b, -x, -y, -z)
  {
    ElemMul(g, b, x, y, z, -x, -y, -z);
    ElemUnits(g, b, 0);
    InverseUnique(g, Elem(g, b, x, y, z), Elem(g, b, -x, -y, -z));
  }

  lemma MultiPowerStep<G(!new)>(g: Group<G>, b: Basis<G>, base: G, rest: G, e: int, x: int, y: int, z: int,
                                xs: int, ys: int, zs: int)
    requires IsAbelian(g) && base == Elem(g, b, x, y, z) && rest == Elem(g, b, xs, ys, zs)
    ensures g.mul(Power(g, base, e), rest) == Elem(g, b, e * x + xs, e * y + ys, e * z + zs)
  {
    ElemPower(g, b, x, y, z, e);
    ElemMul(g, b, x * e, y * e, z * e, xs, ys, zs);
    assert x * e == e * x && y * e == e * y && z * e == e * z;
  }

  /** A multi-exponentiation of elements adds up their exponents. */
  lemma {:induction false} MultiPowerElems<G(!new)>(g: Group<G>, b: Basis<G>, bases: seq<G>, es: seq<int>,
                                                   xs: seq<int>, ys: seq<int>, zs: seq<int>)
    requires IsAbelian(g) && |bases| == |es| == |xs| == |ys| == |zs|
    requires forall i :: 0 <= i < |bases| ==> bases[i] == Elem(g, b, xs[i], ys[i], zs[i])
    ensures MultiPower(g, bases, es) == Elem(g, b, Dot(es, xs), Dot(es, ys), Dot(es, zs))
  {
    if bases == [] {
      ElemUnits(g, b, 0);
    } else {
      MultiPowerElems(g, b, bases[1..], es[1..], xs[1..], ys[1..], zs[1..]);
      MultiPowerStep(g, b, bases[0], MultiPower(g, bases[1..], es[1..]), es[0], xs[0], ys[0], zs[0],
                     Dot(es[1..], xs[1..]), Dot(es[1..], ys[1..]), Dot(es[1..], zs[1..]));
    }
  }
}
