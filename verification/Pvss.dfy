/** Publicly verifiable sharing: evaluation and interpolation modulo q. */
module Pvss {
  import opened Congruence
  import opened Primes
  import opened Polynomials
  import opened Lagrange

  /** rug's `%`: the remainder of truncating division. */
  function TruncRem(a: int, b: int): int
    requires b > 0
  {
    if a >= 0 then a % b else -((-a) % b)
  }

  lemma TruncRemCong(a: int, q: int)
    requires q > 0
    ensures Cong(TruncRem(a, q), a, q)
    ensures a >= 0 ==> 0 <= TruncRem(a, q) < q
  {
    CongMod(a, q);
    CongMod(-a, q);
    CongRefl(0, q);
    CongSub(0, 0, (-a) % q, -a, q);
  }

  predicate NonNegative(c: seq<int>) {
    forall i :: 0 <= i < |c| ==> c[i] >= 0
  }

  /** The share loop of `deal`: values at 1..n modulo q. */
  method DealShares(coeffs: seq<int>, n: nat, q: int) returns (shares: seq<int>)
    requires q > 0
    ensures |shares| == n
    ensures forall i :: 1 <= i <= n ==> Cong(shares[i - 1], Eval(coeffs, i), q)
    ensures NonNegative(coeffs) ==> forall i :: 0 <= i < n ==> 0 <= shares[i] < q
  {
    shares := [];
    for i := 1 to n + 1
      invariant |shares| == i - 1
      invariant forall k :: 1 <= k < i ==> Cong(shares[k - 1], Eval(coeffs, k), q)
      invariant NonNegative(coeffs) ==> forall k :: 0 <= k < |shares| ==> 0 <= shares[k] < q
    {
      var val, power := 0, 1;
      CongRefl(0, q);
      CongRefl(1, q);
      for j := 0 to |coeffs|
        invariant Cong(val, Eval(coeffs[..j], i), q) && Cong(power, Pow(i, j), q) && power >= 0
        invariant NonNegative(coeffs) ==> 0 <= val < q
      {
        var c := coeffs[j];
        EvalSnoc(coeffs[..j], c, i);
        assert coeffs[..j + 1] == coeffs[..j] + [c];
        ShareStep(val, Eval(coeffs[..j], i), c, power, Pow(i, j), i, q);
        assert c >= 0 ==> c * power >= 0;
        assert power * i >= 0;
        val := TruncRem(val + c * power, q);
        power := TruncRem(power * i, q);
      }
      assert coeffs[..|coeffs|] == coeffs;
      shares := shares + [val];
    }
  }

  lemma ShareStep(val: int, e: int, c: int, power: int, w: int, x: int, q: int)
    requires q > 0 && Cong(val, e, q) && Cong(power, w, q)
    ensures Cong(TruncRem(val + c * power, q), e + c * w, q)
    ensures Cong(TruncRem(power * x, q), x * w, q)
    ensures val + c * power >= 0 ==> 0 <= TruncRem(val + c * power, q) < q
    ensures power * x >= 0 ==> 0 <= TruncRem(power * x, q)
  {
    CongScale(c, power, w, q);
    CongAdd(val, e, c * power, c * w, q);
    TruncRemCong(val + c * power, q);
    CongTrans(TruncRem(val + c * power, q), val + c * power, e + c * w, q);
    CongScale(x, power, w, q);
    TruncRemCong(power * x, q);
    CongTrans(TruncRem(power * x, q), power * x, x * w, q);
  }

  /** lambda_k = num * den^(q-2), all modulo q. */
  function Lambda(idx: seq<int>, k: nat, q: int): (l: int)
    requires k < |idx| && q >= 2
    ensures 0 <= l < q
  {
    ((Num(idx, k, |idx|) % q) * (Pow(Den(idx, k, |idx|) % q, q - 2) % q)) % q
  }

  function Lambdas(idx: seq<int>, q: int): (ls: seq<int>)
    requires q >= 2
    ensures |ls| == |idx| && forall k :: 0 <= k < |ls| ==> ls[k] == Lambda(idx, k, q)
  {
    seq(|idx|, k requires 0 <= k < |idx| => Lambda(idx, k, q))
  }

  /** The inner loop of `reconstruct`. */
  method ComputeLambda(idx: seq<int>, k: nat, q: int) returns (lambda: int)
    requires q >= 2 && k < |idx|
    ensures lambda == Lambda(idx, k, q)
  {
    var num, den := 1, 1;
    for j := 0 to |idx|
      invariant num == Num(idx, k, j) && den == Den(idx, k, j)
    {
      if j != k {
        num := num * -idx[j];
        den := den * (idx[k] - idx[j]);
      }
    }
    lambda := ((num % q) * (Pow(den % q, q - 2) % q)) % q;
  }

  lemma WeightedStep(secret: int, d: int, s: int, l: int, q: int)
    requires q > 0 && Cong(secret, d, q) && 0 <= l
    ensures Cong(TruncRem(secret + s * l, q), d + l * s, q)
    ensures secret >= 0 && s >= 0 ==> 0 <= TruncRem(secret + s * l, q) < q
  {
    CongRefl(s * l, q);
    CongAdd(secret, d, s * l, l * s, q);
    TruncRemCong(secret + s * l, q);
    CongTrans(TruncRem(secret + s * l, q), secret + s * l, d + l * s, q);
    assert s >= 0 ==> s * l >= 0;
  }

  /** `reconstruct`: the weighted sum of the shares modulo q. */
  method Reconstruct(idx: seq<int>, shares: seq<int>, q: int) returns (secret: int)
    requires q >= 2 && |idx| == |shares|
    ensures Cong(secret, Dot(Lambdas(idx, q), shares), q)
    ensures NonNegative(shares) ==> 0 <= secret < q
  {
    secret := 0;
    CongRefl(0, q);
    ghost var ls := Lambdas(idx, q);
    for k := 0 to |shares|
      invariant Cong(secret, Dot(ls[..k], shares[..k]), q)
      invariant NonNegative(shares) ==> 0 <= secret < q
    {
      var lambda := ComputeLambda(idx, k, q);
      DotSnoc(ls[..k + 1], shares[..k + 1]);
      assert ls[..k + 1][..k] == ls[..k] && shares[..k + 1][..k] == shares[..k];
      WeightedStep(secret, Dot(ls[..k], shares[..k]), shares[k], lambda, q);
      secret := TruncRem(secret + shares[k] * lambda, q);
    }
    assert ls[..|shares|] == ls && shares[..|shares|] == shares;
  }

  // ---- correctness -----------------------------------------------------------------------

  /** With n below the prime q, every denominator is invertible. */
  lemma DenominatorInvertible(idx: seq<int>, k: nat, n: nat, q: int)
    requires IsPrime(q) && n < q && PartyIndices(idx, n) && k < |idx|
    ensures Den(idx, k, |idx|) % q != 0 && Unit(Den(idx, k, |idx|), q) && Unit(Factorial(n), q)
  {
    var e := DenDividesFactorial(idx, k, n);
    PrimeFactorial(q, n);
    PrimeUnit(Factorial(n), q);
    UnitFactor(Den(idx, k, |idx|), e, q);
    PrimeUnit(Den(idx, k, |idx|), q);
  }

  lemma LambdaRatio(idx: seq<int>, k: nat, q: int)
    requires IsPrime(q) && k < |idx| && Den(idx, k, |idx|) % q != 0
    ensures Cong(Lambda(idx, k, q) * Den(idx, k, |idx|), Num(idx, k, |idx|), q)
  {
    var num, den := Num(idx, k, |idx|), Den(idx, k, |idx|);
    var p := Pow(den % q, q - 2);
    CongMod(num, q);
    CongMod(den, q);
    RemainderOfSmall(den % q, q);
    FermatInverse(den % q, q);
    CongMod(p, q);
    CongMul(num % q, num, p % q, p, q);
    var x := (num % q) * (p % q);
    CongMod(x, q);
    CongTrans(x % q, x, num * p, q);
    CongMul(x % q, num * p, den, den % q, q);
    CongScale(num, (den % q) * p, 1, q);
    ThreeFactors(num, p, den % q);
    CongTrans((x % q) * den, num * ((den % q) * p), num * 1, q);
  }

  lemma ThreeFactors(a: int, b: int, c: int)
    ensures (a * b) * c == a * (c * b)
  {
  }

  /** n! * lambda_k is the integer Lagrange coefficient modulo q. */
  lemma LambdaIsCoefficient(idx: seq<int>, k: nat, n: nat, q: int)
    requires IsPrime(q) && n < q && PartyIndices(idx, n) && k < |idx|
    ensures Cong(Factorial(n) * Lambda(idx, k, q), Coefficient(idx, k, n), q)
  {
    var num, den, l := Num(idx, k, |idx|), Den(idx, k, |idx|), Lambda(idx, k, q);
    DenominatorInvertible(idx, k, n, q);
    LambdaRatio(idx, k, q);
    CoefficientRatio(idx, k, n);
    ScaledRatio(Factorial(n), l, Coefficient(idx, k, n), num, den, q);
  }

  lemma ScaledRatio(f: int, l: int, c: int, num: int, den: int, q: int)
    requires Unit(den, q) && Cong(l * den, num, q) && c * den == f * num
    ensures Cong(f * l, c, q)
  {
    CongScale(f, l * den, num, q);
    assert f * (l * den) == den * (f * l) && c * den == den * c;
    UnitCancel(den, f * l, c, q);
  }

  lemma {:induction false} DotCong(f: int, ls: seq<int>, ss: seq<int>, ws: seq<int>, vs: seq<int>, q: int)
    requires |ls| == |ss| == |ws| == |vs|
    requires forall k :: 0 <= k < |ls| ==> Cong(f * ls[k], ws[k], q) && Cong(ss[k], vs[k], q)
    ensures Cong(f * Dot(ls, ss), Dot(ws, vs), q)
  {
    if ls == [] {
      CongRefl(0, q);
    } else {
      DotCong(f, ls[1..], ss[1..], ws[1..], vs[1..], q);
      CongMul(f * ls[0], ws[0], ss[0], vs[0], q);
      Regroup(f, ls[0], ss[0]);
      Distribute(f, ls[0] * ss[0], Dot(ls[1..], ss[1..]));
      CongAdd((f * ls[0]) * ss[0], ws[0] * vs[0], f * Dot(ls[1..], ss[1..]), Dot(ws[1..], vs[1..]), q);
    }
  }

  /** Shares of a polynomial, at distinct indices and at least as many as its coefficients,
      determine its constant term modulo q. */
  lemma SharesDetermineSecret(idx: seq<int>, shares: seq<int>, f: seq<int>, n: nat, q: int)
    requires IsPrime(q) && n < q && PartyIndices(idx, n) && idx != []
    requires |shares| == |idx| >= |f|
    requires forall k :: 0 <= k < |idx| ==> Cong(shares[k], Eval(f, idx[k]), q)
    ensures Cong(Dot(Lambdas(idx, q), shares), Eval(f, 0), q)
  {
    var ls, ws, vs := Lambdas(idx, q), Weights(idx, n), Values(idx, f);
    forall k | 0 <= k < |idx|
      ensures Cong(Factorial(n) * ls[k], ws[k], q)
    {
      LambdaIsCoefficient(idx, k, n, q);
    }
    DotCong(Factorial(n), ls, shares, ws, vs, q);
    Interpolation(idx, n, f);
    DenominatorInvertible(idx, 0, n, q);
    UnitCancel(Factorial(n), Dot(ls, shares), Eval(f, 0), q);
  }

  /** Deal, keep any t or more shares, reconstruct: the secret in [0, q) comes back. */
  method DealThenReconstruct(secret: int, random: seq<int>, n: nat, q: int, idx: seq<int>)
    returns (result: int)
    requires IsPrime(q) && n < q && 0 <= secret < q && NonNegative(random)
    requires PartyIndices(idx, n) && |idx| >= 1 + |random|
    ensures result == secret
  {
    var coeffs := [secret] + random;
    var shares := DealShares(coeffs, n, q);
    var chosen := seq(|idx|, k requires 0 <= k < |idx| => shares[idx[k] - 1]);
    result := Reconstruct(idx, chosen, q);
    SharesDetermineSecret(idx, chosen, coeffs, n, q);
    assert Eval(coeffs, 0) == secret + 0 * Eval(coeffs[1..], 0);
    CongTrans(result, Dot(Lambdas(idx, q), chosen), secret, q);
    CongSmallIsEq(result, secret, q);
  }
}
