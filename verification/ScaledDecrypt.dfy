/** Scaled decryption: all parties' contributions multiply to f^(a*b). */
module ScaledDecrypt {
  import opened Congruence
  import opened Lagrange
  import opened AbelianGroup
  import opened ClScheme

  datatype PartyInput = PartyInput(alpha: int, beta: int, b: int)

  datatype Public<!G> = Public(a1: G, a2: G, bAgg: G)

  /** `compute_f_share`: a2^{b_i} * a1^{beta_i} * bAgg^{-alpha_i}. */
  function FShare<G>(cl: Setup<G>, p: PartyInput, pub: Public<G>): G {
    MultiPower(cl.grp, [pub.a2, pub.a1, pub.bAgg], [p.b, p.beta, -p.alpha])
  }

  /** Product of a list of elements, as the aggregation loops build it. */
  function Product<G>(g: Group<G>, xs: seq<G>): G {
    if xs == [] then g.one else g.mul(Product(g, xs[..|xs| - 1]), xs[|xs| - 1])
  }

  method Aggregate<G>(g: Group<G>, xs: seq<G>) returns (r: G)
    ensures r == Product(g, xs)
  {
    r := g.one;
    for i := 0 to |xs|
      invariant r == Product(g, xs[..i])
    {
      assert xs[..i + 1][..i] == xs[..i];
      r := g.mul(r, xs[i]);
    }
    assert xs[..|xs|] == xs;
  }

  function Firsts<G>(cts: seq<(G, G)>): (s: seq<G>)
    ensures |s| == |cts| && forall j :: 0 <= j < |s| ==> s[j] == cts[j].0
  {
    seq(|cts|, j requires 0 <= j < |cts| => cts[j].0)
  }

  function Seconds<G>(cts: seq<(G, G)>): (s: seq<G>)
    ensures |s| == |cts| && forall j :: 0 <= j < |s| ==> s[j] == cts[j].1
  {
    seq(|cts|, j requires 0 <= j < |cts| => cts[j].1)
  }

  /** `aggregate_ciphertext_components` */
  method AggregateComponents<G>(g: Group<G>, cts: seq<(G, G)>) returns (a1: G, a2: G)
    ensures a1 == Product(g, Firsts(cts)) && a2 == Product(g, Seconds(cts))
  {
    a1, a2 := g.one, g.one;
    for i := 0 to |cts|
      invariant a1 == Product(g, Firsts(cts)[..i]) && a2 == Product(g, Seconds(cts)[..i])
    {
      assert Firsts(cts)[..i + 1][..i] == Firsts(cts)[..i];
      assert Seconds(cts)[..i + 1][..i] == Seconds(cts)[..i];
      a1, a2 := g.mul(a1, cts[i].0), g.mul(a2, cts[i].1);
    }
    assert Firsts(cts)[..|cts|] == Firsts(cts) && Seconds(cts)[..|cts|] == Seconds(cts);
  }

  function FShares<G>(cl: Setup<G>, inputs: seq<PartyInput>, pub: Public<G>): (s: seq<G>)
    ensures |s| == |inputs| && forall j :: 0 <= j < |s| ==> s[j] == FShare(cl, inputs[j], pub)
  {
    seq(|inputs|, j requires 0 <= j < |inputs| => FShare(cl, inputs[j], pub))
  }

  /** `scaled_decrypt_local`: collect every F_i, multiply them, solve in F. */
  method ScaledDecryptLocal<G>(cl: Setup<G>, inputs: seq<PartyInput>, pub: Public<G>) returns (c: int)
    ensures c == cl.dlog(Product(cl.grp, FShares(cl, inputs, pub)))
  {
    var agg := Aggregate(cl.grp, FShares(cl, inputs, pub));
    c := cl.dlog(agg);
  }

  // ---- correctness -----------------------------------------------------------------------

  /** Products of elements add up their exponents. */
  lemma {:induction false} ProductElems<G(!new)>(g: Group<G>, b: Basis<G>, es: seq<G>, xs: seq<int>,
                                                ys: seq<int>, zs: seq<int>)
    requires IsAbelian(g) && |es| == |xs| == |ys| == |zs|
    requires forall j :: 0 <= j < |es| ==> es[j] == Elem(g, b, xs[j], ys[j], zs[j])
    ensures Product(g, es) == Elem(g, b, Sum(xs), Sum(ys), Sum(zs))
  {
    if es == [] {
      ElemUnits(g, b, 0);
    } else {
      var t := |es| - 1;
      ProductElems(g, b, es[..t], xs[..t], ys[..t], zs[..t]);
      SumSnoc(xs);
      SumSnoc(ys);
      SumSnoc(zs);
      OneMoreElem(g, b, es, Sum(xs[..t]), Sum(ys[..t]), Sum(zs[..t]), xs[t], ys[t], zs[t]);
    }
  }

  lemma OneMoreElem<G(!new)>(g: Group<G>, b: Basis<G>, es: seq<G>, x: int, y: int, z: int, x': int, y': int, z': int)
    requires IsAbelian(g) && es != [] && es[|es| - 1] == Elem(g, b, x', y', z')
    requires Product(g, es[..|es| - 1]) == Elem(g, b, x, y, z)
    ensures Product(g, es) == Elem(g, b, x + x', y + y', z + z')
  {
    ElemMul(g, b, x, y, z, x', y', z');
  }

  function Alphas(ps: seq<PartyInput>): (s: seq<int>)
    ensures |s| == |ps| && forall j :: 0 <= j < |s| ==> s[j] == ps[j].alpha
  {
    seq(|ps|, j requires 0 <= j < |ps| => ps[j].alpha)
  }

  function Betas(ps: seq<PartyInput>): (s: seq<int>)
    ensures |s| == |ps| && forall j :: 0 <= j < |s| ==> s[j] == ps[j].beta
  {
    seq(|ps|, j requires 0 <= j < |ps| => ps[j].beta)
  }

  function Bs(ps: seq<PartyInput>): (s: seq<int>)
    ensures |s| == |ps| && forall j :: 0 <= j < |s| ==> s[j] == ps[j].b
  {
    seq(|ps|, j requires 0 <= j < |ps| => ps[j].b)
  }

  /** Honest publications: (h^alpha_j, pk^alpha_j * f^a_j) and h^beta_j * pk^b_j. */
  ghost predicate Honest<G(!new)>(cl: Setup<G>, pk: G, ps: seq<PartyInput>, as_: seq<int>,
                                 cts: seq<(G, G)>, coms: seq<G>)
  {
    && |ps| == |as_| == |cts| == |coms|
    && forall j :: 0 <= j < |ps| ==>
         && cts[j].0 == Power(cl.grp, cl.h, ps[j].alpha)
         && cts[j].1 == cl.grp.mul(Power(cl.grp, pk, ps[j].alpha), Power(cl.grp, cl.f, as_[j]))
         && coms[j] == cl.grp.mul(Power(cl.grp, cl.h, ps[j].beta), Power(cl.grp, pk, ps[j].b))
  }

  function Zeros(k: nat): (z: seq<int>)
    ensures |z| == k && forall i :: 0 <= i < k ==> z[i] == 0
  {
    seq(k, _ => 0)
  }

  lemma {:induction false} SumZeros(xs: seq<int>)
    requires forall i :: 0 <= i < |xs| ==> xs[i] == 0
    ensures Sum(xs) == 0
  {
    if xs != [] {
      SumZeros(xs[1..]);
    }
  }

  /** The terms c * y_j - d * z_j. */
  function Cross(c: int, ys: seq<int>, d: int, zs: seq<int>): (xs: seq<int>)
    requires |ys| == |zs|
    ensures |xs| == |ys| && forall j :: 0 <= j < |xs| ==> xs[j] == c * ys[j] - d * zs[j]
  {
    if ys == [] then [] else [c * ys[0] - d * zs[0]] + Cross(c, ys[1..], d, zs[1..])
  }

  lemma {:induction false} SumCross(c: int, ys: seq<int>, d: int, zs: seq<int>)
    requires |ys| == |zs|
    ensures Sum(Cross(c, ys, d, zs)) == c * Sum(ys) - d * Sum(zs)
  {
    if ys != [] {
      SumCross(c, ys[1..], d, zs[1..]);
      assert Cross(c, ys, d, zs)[1..] == Cross(c, ys[1..], d, zs[1..]);
      Distribute(c, ys[0], Sum(ys[1..]));
      Distribute(d, zs[0], Sum(zs[1..]));
    }
  }

  lemma ElemPairs<G(!new)>(g: Group<G>, b: Basis<G>, x: int, y: int)
    requires IsAbelian(g)
    ensures g.mul(Power(g, b.h, x), Power(g, b.k, y)) == Elem(g, b, x, y, 0)
    ensures g.mul(Power(g, b.k, x), Power(g, b.f, y)) == Elem(g, b, 0, x, y)
  {
    ElemUnits(g, b, x);
    ElemUnits(g, b, y);
    ElemMul(g, b, x, 0, 0, 0, y, 0);
    ElemMul(g, b, 0, x, 0, 0, 0, y);
  }

  /** The aggregated public part. */
  lemma PublicElems<G(!new)>(cl: Setup<G>, pk: G, ps: seq<PartyInput>, as_: seq<int>,
                            cts: seq<(G, G)>, coms: seq<G>)
    requires IsAbelian(cl.grp) && Honest(cl, pk, ps, as_, cts, coms)
    ensures var g, b := cl.grp, Basis(cl.h, pk, cl.f);
            && Product(g, Firsts(cts)) == Elem(g, b, Sum(Alphas(ps)), 0, 0)
            && Product(g, Seconds(cts)) == Elem(g, b, 0, Sum(Alphas(ps)), Sum(as_))
            && Product(g, coms) == Elem(g, b, Sum(Betas(ps)), Sum(Bs(ps)), 0)
  {
    var g, b, zs := cl.grp, Basis(cl.h, pk, cl.f), Zeros(|ps|);
    forall j | 0 <= j < |ps|
      ensures Firsts(cts)[j] == Elem(g, b, Alphas(ps)[j], zs[j], zs[j])
      ensures Seconds(cts)[j] == Elem(g, b, zs[j], Alphas(ps)[j], as_[j])
      ensures coms[j] == Elem(g, b, Betas(ps)[j], Bs(ps)[j], zs[j])
    {
      ElemUnits(g, b, ps[j].alpha);
      ElemPairs(g, b, ps[j].alpha, as_[j]);
      ElemPairs(g, b, ps[j].beta, ps[j].b);
    }
    SumZeros(zs);
    ProductElems(g, b, Firsts(cts), Alphas(ps), zs, zs);
    ProductElems(g, b, Seconds(cts), zs, Alphas(ps), as_);
    ProductElems(g, b, coms, Betas(ps), Bs(ps), zs);
  }

  lemma FShareElem<G(!new)>(cl: Setup<G>, bs: Basis<G>, p: PartyInput, pub: Public<G>,
                           alpha: int, a: int, beta: int, b: int)
    requires IsAbelian(cl.grp)
    requires pub.a1 == Elem(cl.grp, bs, alpha, 0, 0) && pub.a2 == Elem(cl.grp, bs, 0, alpha, a)
    requires pub.bAgg == Elem(cl.grp, bs, beta, b, 0)
    ensures FShare(cl, p, pub)
            == Elem(cl.grp, bs, alpha * p.beta - beta * p.alpha, alpha * p.b - b * p.alpha, a * p.b)
  {
    MultiPowerElems(cl.grp, bs, [pub.a2, pub.a1, pub.bAgg], [p.b, p.beta, -p.alpha], [0, alpha, beta], [alpha, 0, b],
                    [a, 0, 0]);
    MaskExponents(p.b, p.beta, p.alpha, alpha, beta, a, b);
  }

  lemma MaskExponents(pb: int, pbeta: int, palpha: int, alpha: int, beta: int, a: int, b: int)
    ensures Dot([pb, pbeta, -palpha], [0, alpha, beta]) == alpha * pbeta - beta * palpha
    ensures Dot([pb, pbeta, -palpha], [alpha, 0, b]) == alpha * pb - b * palpha
    ensures Dot([pb, pbeta, -palpha], [a, 0, 0]) == a * pb
  {
    var es := [pb, pbeta, -palpha];
    ThreeTerms(es, [0, alpha, beta]);
    ThreeTerms(es, [alpha, 0, b]);
    ThreeTerms(es, [a, 0, 0]);
    DotSigns(pb, pbeta, palpha, alpha, beta, a, b);
  }

  lemma DotSigns(pb: int, pbeta: int, palpha: int, alpha: int, beta: int, a: int, b: int)
    ensures pb * 0 + pbeta * alpha + -palpha * beta == alpha * pbeta - beta * palpha
    ensures pb * alpha + pbeta * 0 + -palpha * b == alpha * pb - b * palpha
    ensures pb * a + pbeta * 0 + -palpha * 0 == a * pb
  {
  }

  lemma ThreeTerms(es: seq<int>, xs: seq<int>)
    requires |es| == |xs| == 3
    ensures Dot(es, xs) == es[0] * xs[0] + es[1] * xs[1] + es[2] * xs[2]
  {
    assert Dot(es[1..][1..], xs[1..][1..]) == es[2] * xs[2] + Dot(es[1..][1..][1..], xs[1..][1..][1..]);
  }

  lemma ShareAt<G(!new)>(cl: Setup<G>, bs: Basis<G>, ps: seq<PartyInput>, pub: Public<G>, j: nat,
                         alpha: int, a: int, beta: int, b: int)
    requires IsAbelian(cl.grp) && j < |ps|
    requires pub.a1 == Elem(cl.grp, bs, alpha, 0, 0) && pub.a2 == Elem(cl.grp, bs, 0, alpha, a)
    requires pub.bAgg == Elem(cl.grp, bs, beta, b, 0)
    ensures FShares(cl, ps, pub)[j]
            == Elem(cl.grp, bs, Cross(alpha, Betas(ps), beta, Alphas(ps))[j], Cross(alpha, Bs(ps), b, Alphas(ps))[j],
                    Cross(a, Bs(ps), 0, Bs(ps))[j])
  {
    FShareElem(cl, bs, ps[j], pub, alpha, a, beta, b);
    ShareExponents(ps, j, alpha, a, beta, b);
  }

  lemma ShareExponents(ps: seq<PartyInput>, j: nat, alpha: int, a: int, beta: int, b: int)
    requires j < |ps|
    ensures Cross(alpha, Betas(ps), beta, Alphas(ps))[j] == alpha * ps[j].beta - beta * ps[j].alpha
    ensures Cross(alpha, Bs(ps), b, Alphas(ps))[j] == alpha * ps[j].b - b * ps[j].alpha
    ensures Cross(a, Bs(ps), 0, Bs(ps))[j] == a * ps[j].b
  {
  }

  lemma AllShares<G(!new)>(cl: Setup<G>, bs: Basis<G>, ps: seq<PartyInput>, pub: Public<G>,
                           alpha: int, a: int, beta: int, b: int)
    requires IsAbelian(cl.grp)
    requires pub.a1 == Elem(cl.grp, bs, alpha, 0, 0) && pub.a2 == Elem(cl.grp, bs, 0, alpha, a)
    requires pub.bAgg == Elem(cl.grp, bs, beta, b, 0)
    ensures Product(cl.grp, FShares(cl, ps, pub))
            == Elem(cl.grp, bs, Sum(Cross(alpha, Betas(ps), beta, Alphas(ps))),
                    Sum(Cross(alpha, Bs(ps), b, Alphas(ps))), Sum(Cross(a, Bs(ps), 0, Bs(ps))))
  {
    var xs, ys, zs := Cross(alpha, Betas(ps), beta, Alphas(ps)), Cross(alpha, Bs(ps), b, Alphas(ps)),
                      Cross(a, Bs(ps), 0, Bs(ps));
    forall j | 0 <= j < |ps|
      ensures FShares(cl, ps, pub)[j] == Elem(cl.grp, bs, xs[j], ys[j], zs[j])
    {
      ShareAt(cl, bs, ps, pub, j, alpha, a, beta, b);
    }
    ProductElems(cl.grp, bs, FShares(cl, ps, pub), xs, ys, zs);
  }

  /** All powers of h and pk cancel across the parties: the shares multiply to f^(ab). */
  lemma SharesMultiplyToProduct<G(!new)>(cl: Setup<G>, pk: G, ps: seq<PartyInput>, as_: seq<int>,
                                        cts: seq<(G, G)>, coms: seq<G>, pub: Public<G>)
    requires IsAbelian(cl.grp) && Honest(cl, pk, ps, as_, cts, coms)
    requires pub == Public(Product(cl.grp, Firsts(cts)), Product(cl.grp, Seconds(cts)),
                           Product(cl.grp, coms))
    ensures Product(cl.grp, FShares(cl, ps, pub)) == Power(cl.grp, cl.f, Sum(as_) * Sum(Bs(ps)))
  {
    var alpha, a, beta, b := Sum(Alphas(ps)), Sum(as_), Sum(Betas(ps)), Sum(Bs(ps));
    var bs := Basis(cl.h, pk, cl.f);
    PublicElems(cl, pk, ps, as_, cts, coms);
    AllShares(cl, bs, ps, pub, alpha, a, beta, b);
    SumCross(alpha, Betas(ps), beta, Alphas(ps));
    SumCross(alpha, Bs(ps), b, Alphas(ps));
    SumCross(a, Bs(ps), 0, Bs(ps));
    ElemUnits(cl.grp, bs, a * b);
  }

  /** For any number of honest parties the solver returns the product of the sums. */
  lemma ScaledDecryptCorrect<G(!new)>(cl: Setup<G>, pk: G, ps: seq<PartyInput>, as_: seq<int>,
                                     cts: seq<(G, G)>, coms: seq<G>, pub: Public<G>)
    requires ValidSetup(cl) && Honest(cl, pk, ps, as_, cts, coms)
    requires pub == Public(Product(cl.grp, Firsts(cts)), Product(cl.grp, Seconds(cts)),
                           Product(cl.grp, coms))
    ensures cl.dlog(Product(cl.grp, FShares(cl, ps, pub))) == (Sum(as_) * Sum(Bs(ps))) % cl.Order()
  {
    SharesMultiplyToProduct(cl, pk, ps, as_, cts, coms, pub);
    Dlog(cl, Sum(as_) * Sum(Bs(ps)));
  }
}
