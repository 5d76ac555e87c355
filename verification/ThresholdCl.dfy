/** Threshold decryption, from partial decryptions to the plaintext. */
module ThresholdCl {
  import opened Congruence
  import opened Primes
  import opened Polynomials
  import opened Lagrange
  import opened AbelianGroup
  import opened ClScheme

  datatype PartialDecryption<!G> = PartialDecryption(index: int, share: G)

  /** `partial_decrypt`: c1^{sk_i}. */
  function PartialDecrypt<G>(cl: Setup<G>, ct: Ciphertext<G>, index: int, key: int): PartialDecryption<G> {
    PartialDecryption(index, Power(cl.grp, ct.c1, key))
  }

  function Indices<G>(pds: seq<PartialDecryption<G>>): (idx: seq<int>)
    ensures |idx| == |pds| && forall i :: 0 <= i < |pds| ==> idx[i] == pds[i].index
  {
    seq(|pds|, i requires 0 <= i < |pds| => pds[i].index)
  }

  function Shares<G>(pds: seq<PartialDecryption<G>>): (s: seq<G>)
    ensures |s| == |pds| && forall i :: 0 <= i < |pds| ==> s[i] == pds[i].share
  {
    seq(|pds|, i requires 0 <= i < |pds| => pds[i].share)
  }

  /** c2^{delta^2} * (prod pd_i^{lambda_i})^-1 */
  function PlaintextElement<G>(cl: Setup<G>, ct: Ciphertext<G>, n: nat, pds: seq<PartialDecryption<G>>): G
    requires PartyIndices(Indices(pds), n)
  {
    var g, delta := cl.grp, Factorial(n);
    g.mul(Power(g, ct.c2, delta * delta),
          g.inv(MultiPower(g, Shares(pds), Weights(Indices(pds), n))))
  }

  /** m_scaled * (delta^2)^(q-2) mod q */
  function Unscale(scaled: int, delta2: int, q: int): int
    requires q >= 2
  {
    (scaled * (Pow(delta2, q - 2) % q)) % q
  }

  /** The value `final_decrypt` returns on any distinct partial decryptions. */
  function DecryptedValue<G>(cl: Setup<G>, ct: Ciphertext<G>, n: nat, pds: seq<PartialDecryption<G>>): int
    requires cl.q >= 2 && PartyIndices(Indices(pds), n)
  {
    Unscale(cl.dlog(PlaintextElement(cl, ct, n, pds)), Factorial(n) * Factorial(n), cl.q)
  }

  /** The first partial decryption with the given index. */
  method FindShare<G>(pds: seq<PartialDecryption<G>>, index: int) returns (s: G)
    requires index in Indices(pds)
    ensures exists i :: 0 <= i < |pds| && pds[i] == PartialDecryption(index, s)
  {
    var i := 0;
    while pds[i].index != index
      invariant 0 <= i < |pds| && index !in Indices(pds)[..i]
      decreases |pds| - i
    {
      i := i + 1;
    }
    s := pds[i].share;
  }

  /** `final_decrypt`: what the loops compute from any distinct partial decryptions. */
  method FinalDecrypt<G>(cl: Setup<G>, ct: Ciphertext<G>, n: nat, pds: seq<PartialDecryption<G>>)
    returns (m: int)
    requires cl.q >= 2 && PartyIndices(Indices(pds), n)
    ensures m == DecryptedValue(cl, ct, n, pds)
  {
    var g := cl.grp;
    var delta := ComputeFactorial(n);
    var indices := Indices(pds);
    var coeffs := LagrangeCoefficients(indices, n, delta);
    var bases: seq<G> := [];
    var exps: seq<int> := [];
    for k := 0 to |coeffs|
      invariant |bases| == |exps| == k
      invariant bases == Shares(pds)[..k] && exps == Weights(indices, n)[..k]
    {
      var (idx, lambda) := coeffs[k];
      assert indices[k] in indices;
      var s := FindShare(pds, idx);
      bases := bases + [s];
      exps := exps + [lambda];
    }
    var combined := MultiPower(g, bases, exps);
    assert bases == Shares(pds) && exps == Weights(indices, n);
    var delta2 := delta * delta;
    var element := g.mul(Power(g, ct.c2, delta2), g.inv(combined));
    var scaled := cl.dlog(element);
    m := (scaled * (Pow(delta2, cl.q - 2) % cl.q)) % cl.q;
  }

  // ---- correctness ---------------------------------------------------------------------

  /** ct encrypts m under sk: c2 = c1^sk * f^m, for any first component. */
  ghost predicate Encrypts<G(!new)>(cl: Setup<G>, ct: Ciphertext<G>, sk: int, m: int) {
    ct.c2 == cl.grp.mul(Power(cl.grp, ct.c1, sk), Power(cl.grp, cl.f, m))
  }

  /** Partial decryptions made with the shares of a polynomial whose constant term is n! * sk. */
  ghost predicate HonestPartials<G(!new)>(cl: Setup<G>, ct: Ciphertext<G>, n: nat, sk: int, poly: seq<int>,
                                         pds: seq<PartialDecryption<G>>)
  {
    && PartyIndices(Indices(pds), n) && pds != [] && |poly| <= |pds|
    && Eval(poly, 0) == Factorial(n) * sk
    && forall i :: 0 <= i < |pds| ==>
         pds[i] == PartialDecrypt(cl, ct, pds[i].index, Eval(poly, pds[i].index))
  }

  /** The combined shares are c1^{delta^2 * sk}. */
  lemma CombinedShares<G(!new)>(cl: Setup<G>, ct: Ciphertext<G>, n: nat, sk: int, poly: seq<int>,
                               pds: seq<PartialDecryption<G>>)
    requires IsAbelian(cl.grp) && HonestPartials(cl, ct, n, sk, poly, pds)
    ensures MultiPower(cl.grp, Shares(pds), Weights(Indices(pds), n))
            == Elem(cl.grp, Basis(ct.c1, cl.grp.one, cl.f), Factorial(n) * (Factorial(n) * sk), 0, 0)
  {
    var g, idx := cl.grp, Indices(pds);
    var b := Basis(ct.c1, g.one, cl.f);
    var ws, vs := Weights(idx, n), Values(idx, poly);
    var zs := seq(|pds|, _ => 0);
    forall i | 0 <= i < |pds|
      ensures Shares(pds)[i] == Elem(g, b, vs[i], zs[i], zs[i])
    {
      ElemUnits(g, b, vs[i]);
    }
    MultiPowerElems(g, b, Shares(pds), ws, vs, zs, zs);
    DotWithZeros(ws, zs);
    Interpolation(idx, n, poly);
  }

  lemma ScaledElem<G(!new)>(g: Group<G>, b: Basis<G>, sk: int, m: int, d2: int)
    requires IsAbelian(g)
    ensures Power(g, g.mul(Power(g, b.h, sk), Power(g, b.f, m)), d2) == Elem(g, b, sk * d2, 0, m * d2)
  {
    ElemUnits(g, b, sk);
    ElemUnits(g, b, m);
    ElemMul(g, b, sk, 0, 0, 0, 0, m);
    ElemPower(g, b, sk, 0, m, d2);
  }

  lemma ElemCancel<G(!new)>(g: Group<G>, b: Basis<G>, x: int, z: int)
    requires IsAbelian(g)
    ensures g.mul(Elem(g, b, x, 0, z), g.inv(Elem(g, b, x, 0, 0))) == Power(g, b.f, z)
  {
    ElemInverse(g, b, x, 0, 0);
    ElemMul(g, b, x, 0, z, -x, 0, 0);
    ElemUnits(g, b, z);
  }

  lemma ScaledCiphertext<G(!new)>(g: Group<G>, b: Basis<G>, sk: int, m: int, d2: int, x: int)
    requires IsAbelian(g) && x == sk * d2
    ensures g.mul(Power(g, g.mul(Power(g, b.h, sk), Power(g, b.f, m)), d2), g.inv(Elem(g, b, x, 0, 0)))
            == Power(g, b.f, m * d2)
  {
    ScaledElem(g, b, sk, m, d2);
    ElemCancel(g, b, x, m * d2);
  }

  /** The exponents of c1 cancel: what is left is f^{m * delta^2}. */
  lemma MaskCancels<G(!new)>(cl: Setup<G>, ct: Ciphertext<G>, n: nat, sk: int, m: int, poly: seq<int>,
                            pds: seq<PartialDecryption<G>>)
    requires ValidSetup(cl) && Encrypts(cl, ct, sk, m) && HonestPartials(cl, ct, n, sk, poly, pds)
    ensures PlaintextElement(cl, ct, n, pds)
            == Power(cl.grp, cl.f, m * (Factorial(n) * Factorial(n)))
  {
    var delta := Factorial(n);
    CombinedShares(cl, ct, n, sk, poly, pds);
    SameMask(sk, delta);
    ScaledCiphertext(cl.grp, Basis(ct.c1, cl.grp.one, cl.f), sk, m, delta * delta, delta * (delta * sk));
  }

  lemma SameMask(sk: int, delta: int)
    ensures sk * (delta * delta) == delta * (delta * sk)
  {
  }

  /** Dividing by delta^2 through Fermat's little theorem recovers m modulo q. */
  lemma UnscaleCorrect(m: int, delta: int, q: int, order: int, rest: int)
    requires IsPrime(q) && order == q * rest && order > 0 && delta % q != 0
    ensures Unscale((m * (delta * delta)) % order, delta * delta, q) == m % q
  {
    var d2 := delta * delta;
    var scaled := (m * d2) % order;
    CongMod(m * d2, order);
    CongWeaken(scaled, m * d2, q, rest);
    if d2 % q == 0 {
      PrimeDividesProduct(delta, delta, q);
    }
    FermatInverse(d2, q);
    var inv := Pow(d2, q - 2) % q;
    CongMod(Pow(d2, q - 2), q);
    CongMul(scaled, m * d2, inv, Pow(d2, q - 2), q);
    UnscaleAlgebra(m, d2, Pow(d2, q - 2), q);
    CongTrans(scaled * inv, (m * d2) * Pow(d2, q - 2), m, q);
    CongIsModEq(scaled * inv, m, q);
  }

  lemma UnscaleAlgebra(m: int, d: int, i: int, q: int)
    requires Cong(d * i, 1, q)
    ensures Cong((m * d) * i, m, q)
  {
    CongScale(m, d * i, 1, q);
    assert (m * d) * i == m * (d * i);
  }

  /** When q divides delta everything is scaled to zero. */
  lemma UnscaleDegenerate(scaled: int, delta: int, q: int)
    requires IsPrime(q) && q > 2 && delta % q == 0
    ensures Unscale(scaled, delta * delta, q) == 0
  {
    DivisibleIsCongZero(delta, q);
    CongScale(delta, delta, 0, q);
    CongScale(Pow(delta * delta, q - 3), delta * delta, 0, q);
    assert Pow(delta * delta, q - 2) == (delta * delta) * Pow(delta * delta, q - 3);
    DivisibleIsCongZero(Pow(delta * delta, q - 2), q);
    RemainderOfSmall(0, q);
  }

  lemma {:induction false} FactorialDivisible(n: nat, q: int)
    requires q >= 1 && n >= q
    ensures Factorial(n) % q == 0
  {
    if n == q {
      CongZeroMultiple(q, Factorial(n - 1));
    } else {
      FactorialDivisible(n - 1, q);
      DivisibleIsCongZero(Factorial(n - 1), q);
      CongScale(n, Factorial(n - 1), 0, q);
    }
    DivisibleIsCongZero(Factorial(n), q);
  }

  /** Any t or more distinct honest partial decryptions give back m modulo q, whenever n < q.
      With q or more parties q divides delta and the answer is always zero. */
  lemma FinalDecryptCorrect<G(!new)>(cl: Setup<G>, ct: Ciphertext<G>, n: nat, sk: int, m: int,
                                    poly: seq<int>, pds: seq<PartialDecryption<G>>)
    requires ValidSetup(cl) && cl.q > 2
    requires Encrypts(cl, ct, sk, m) && HonestPartials(cl, ct, n, sk, poly, pds)
    ensures DecryptedValue(cl, ct, n, pds) == if n < cl.q then m % cl.q else 0
    ensures DecryptedValue(cl, ct, n, pds) == m <==> 0 <= m < cl.q && (n < cl.q || m == 0)
  {
    DecryptedIs(cl, ct, n, sk, m, poly, pds);
    if 0 <= m < cl.q {
      RemainderOfSmall(m, cl.q);
    }
  }

  /** The solved exponent is m * delta^2 modulo the order of f. */
  lemma SolvedExponent<G(!new)>(cl: Setup<G>, ct: Ciphertext<G>, n: nat, sk: int, m: int,
                                poly: seq<int>, pds: seq<PartialDecryption<G>>)
    requires ValidSetup(cl) && Encrypts(cl, ct, sk, m) && HonestPartials(cl, ct, n, sk, poly, pds)
    ensures cl.dlog(PlaintextElement(cl, ct, n, pds)) == (m * (Factorial(n) * Factorial(n))) % cl.Order()
  {
    MaskCancels(cl, ct, n, sk, m, poly, pds);
    Dlog(cl, m * (Factorial(n) * Factorial(n)));
  }

  lemma DecryptedBelow<G(!new)>(cl: Setup<G>, ct: Ciphertext<G>, n: nat, sk: int, m: int,
                                poly: seq<int>, pds: seq<PartialDecryption<G>>)
    requires ValidSetup(cl) && cl.q > 2 && n < cl.q
    requires Encrypts(cl, ct, sk, m) && HonestPartials(cl, ct, n, sk, poly, pds)
    ensures DecryptedValue(cl, ct, n, pds) == m % cl.q
  {
    SolvedExponent(cl, ct, n, sk, m, poly, pds);
    PrimeFactorial(cl.q, n);
    UnscaleCorrect(m, Factorial(n), cl.q, cl.Order(), Pow(cl.q, cl.k - 1));
  }

  lemma DecryptedAbove<G(!new)>(cl: Setup<G>, ct: Ciphertext<G>, n: nat, pds: seq<PartialDecryption<G>>)
    requires IsPrime(cl.q) && 2 < cl.q <= n && PartyIndices(Indices(pds), n)
    ensures DecryptedValue(cl, ct, n, pds) == 0
  {
    FactorialDivisible(n, cl.q);
    UnscaleDegenerate(cl.dlog(PlaintextElement(cl, ct, n, pds)), Factorial(n), cl.q);
  }

  lemma DecryptedIs<G(!new)>(cl: Setup<G>, ct: Ciphertext<G>, n: nat, sk: int, m: int,
                             poly: seq<int>, pds: seq<PartialDecryption<G>>)
    requires ValidSetup(cl) && cl.q > 2
    requires Encrypts(cl, ct, sk, m) && HonestPartials(cl, ct, n, sk, poly, pds)
    ensures DecryptedValue(cl, ct, n, pds) == if n < cl.q then m % cl.q else 0
  {
    if n < cl.q {
      DecryptedBelow(cl, ct, n, sk, m, poly, pds);
    } else {
      DecryptedAbove(cl, ct, n, pds);
    }
  }

  /** In particular for a ciphertext made by `encrypt` with k = 1 and a plaintext in [0, q). */
  lemma FinalDecryptOfEncrypt<G(!new)>(cl: Setup<G>, n: nat, sk: int, m: int, r: int,
                                      poly: seq<int>, pds: seq<PartialDecryption<G>>)
    requires ValidSetup(cl) && 2 < cl.q && n < cl.q && 0 <= m < cl.q
    requires HonestPartials(cl, Encrypt(cl, Power(cl.grp, cl.h, sk), m, r), n, sk, poly, pds)
    ensures DecryptedValue(cl, Encrypt(cl, Power(cl.grp, cl.h, sk), m, r), n, pds) == m
  {
    var g := cl.grp;
    var ct := Encrypt(cl, Power(g, cl.h, sk), m, r);
    PowerPower(g, cl.h, sk, r);
    PowerPower(g, cl.h, r, sk);
    assert sk * r == r * sk;
    Comm(g, Power(g, cl.f, m), Power(g, ct.c1, sk));
    FinalDecryptCorrect(cl, ct, n, sk, m, poly, pds);
  }
}
