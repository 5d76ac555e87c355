/** Chunked distributed key generation over the class group, end to end. */
module DkgCl {
  import opened Congruence
  import opened Primes
  import opened Polynomials
  import opened Lagrange
  import opened AbelianGroup
  import opened ClScheme
  import opened Outcomes

  // ---- base-q chunks -------------------------------------------------------------------

  /** Little-endian base-q digits without leading zeros. A chunk list denotes `Eval(chunks, q)`. */
  function Digits(v: nat, q: nat): (ds: seq<int>)
    requires q >= 2
    ensures forall i :: 0 <= i < |ds| ==> 0 <= ds[i] < q
  {
    if v == 0 then [] else
      QuotientDrops(v, q);
      [v % q] + Digits(v / q, q)
  }

  lemma QuotientDrops(v: nat, q: nat)
    requires v > 0 && q >= 2
    ensures 0 <= v / q < v
  {
    assert v == q * (v / q) + v % q;
    assert v / q >= 0;
    assert q * (v / q) >= 2 * (v / q);
  }

  lemma {:induction false} DigitsValue(v: nat, q: nat)
    requires q >= 2
    ensures Eval(Digits(v, q), q) == v
  {
    if v > 0 {
      QuotientDrops(v, q);
      DigitsValue(v / q, q);
      EvalCons(v % q, Digits(v / q, q), q);
      QuotientAndRemainder(v, q);
    }
  }

  lemma EvalCons(d: int, ds: seq<int>, q: int)
    ensures Eval([d] + ds, q) == d + q * Eval(ds, q)
  {
    assert ([d] + ds)[1..] == ds;
  }

  lemma QuotientAndRemainder(v: int, q: int)
    requires q > 0
    ensures v == v % q + q * (v / q)
  {
  }

  lemma QuotientBelow(v: nat, q: nat, p: int)
    requires q >= 2
    ensures v / q < p <==> v < q * p
  {
    var d, r := v / q, v % q;
    assert v == q * d + r;
    if d < p {
      assert q * (d + 1) <= q * p;
    } else {
      assert q * d >= q * p;
    }
  }

  /** c digits suffice exactly for the values below q^c. */
  lemma {:induction false} DigitCount(v: nat, q: nat, c: nat)
    requires q >= 2
    ensures |Digits(v, q)| <= c <==> v < Pow(q, c)
  {
    PowPositive(q, c);
    if v > 0 {
      QuotientDrops(v, q);
      if c > 0 {
        DigitCount(v / q, q, c - 1);
        QuotientBelow(v, q, Pow(q, c - 1));
      }
    }
  }

  /** `decompose_q_ary` */
  method DecomposeQAry(value: nat, q: nat) returns (chunks: seq<int>)
    requires q >= 2
    ensures chunks == if value == 0 then [0] else Digits(value, q)
  {
    chunks := [];
    var remaining: nat := value;
    while remaining > 0
      invariant chunks + Digits(remaining, q) == Digits(value, q)
      decreases remaining
    {
      QuotientDrops(remaining, q);
      var chunk := remaining % q;
      assert chunks + Digits(remaining, q) == chunks + [chunk] + Digits(remaining / q, q);
      chunks := chunks + [chunk];
      remaining := remaining / q;
    }
    assert chunks + [] == chunks;
    if chunks == [] {
      chunks := [0];
    }
  }

  /** `recompose_q_ary` */
  method RecomposeQAry(chunks: seq<int>, q: int) returns (result: int)
    ensures result == Eval(chunks, q)
  {
    result := 0;
    var power := 1;
    for i := 0 to |chunks|
      invariant result == Eval(chunks[..i], q) && power == Pow(q, i)
    {
      EvalSnoc(chunks[..i], chunks[i], q);
      assert chunks[..i + 1] == chunks[..i] + [chunks[i]];
      result := result + power * chunks[i];
      power := power * q;
    }
    assert chunks[..|chunks|] == chunks;
  }

  /** `num_chunks_for_bound`: the least number of digits that holds every value up to bound. */
  method NumChunksForBound(bound: nat, q: nat) returns (count: nat)
    requires q >= 2
    ensures count >= 1 && bound < Pow(q, count)
    ensures count > 1 ==> bound >= Pow(q, count - 1)
  {
    if bound == 0 {
      return 1;
    }
    count := 0;
    var remaining: nat := bound;
    while remaining > 0
      invariant |Digits(remaining, q)| + count == |Digits(bound, q)|
      decreases remaining
    {
      QuotientDrops(remaining, q);
      remaining := remaining / q;
      count := count + 1;
    }
    DigitCount(bound, q, count);
    DigitCount(bound, q, count - 1);
    count := if count > 1 then count else 1;
  }

  // ---- the share bound -------------------------------------------------------------------

  /** n + n^2 + ... + n^(t-1) */
  function GeometricSum(n: nat, t: nat): nat {
    if t <= 1 then 0 else
      PowNonNegative(n, t - 1);
      GeometricSum(n, t - 1) + Pow(n, t - 1)
  }

  lemma {:induction false} PowNonNegative(n: nat, e: nat)
    ensures Pow(n, e) >= 0
  {
    if e > 0 {
      PowNonNegative(n, e - 1);
    }
  }

  /** The closed form's division by n - 1 is exact. */
  lemma {:induction false} GeometricClosedForm(n: nat, t: nat)
    requires t >= 1
    ensures (n - 1) * GeometricSum(n, t) == Pow(n, t) - n
  {
    if t == 1 {
      assert Pow(n, 1) == n * Pow(n, 0);
    } else {
      GeometricClosedForm(n, t - 1);
      var p := Pow(n, t - 1);
      assert (n - 1) * (GeometricSum(n, t - 1) + p) == (n - 1) * GeometricSum(n, t - 1) + n * p - p;
    }
  }

  /** n! + n + ... + n^(t-1) */
  function BoundPoly(n: nat, t: nat): nat {
    Factorial(n) + GeometricSum(n, t)
  }

  /** `share_magnitude_bound`; with fewer than two parties the code leaves the sum out, which
      is right for the thresholds t <= n it is called with. */
  method ShareMagnitudeBound(skBound: nat, n: nat, t: nat) returns (bound: int)
    ensures n >= 2 || t <= 1 ==> bound == BoundPoly(n, t) * skBound
    ensures n >= 2 && t >= 1 ==> (n - 1) * (bound - Factorial(n) * skBound) == (Pow(n, t) - n) * skBound
    ensures n < 2 || t <= 1 ==> bound == Factorial(n) * skBound
  {
    var poly := ComputeFactorial(n);
    if n >= 2 && t >= 2 {
      var numer, denom := Pow(n, t) - n, n - 1;
      GeometricClosedForm(n, t);
      ExactQuotient(GeometricSum(n, t), n - 1);
      assert numer == GeometricSum(n, t) * denom;
      assert numer % denom == 0;
      poly := poly + numer / denom;
    }
    bound := poly * skBound;
    if n >= 2 && t >= 1 {
      GeometricClosedForm(n, t);
      BoundInClosedForm(Factorial(n), GeometricSum(n, t), n - 1, Pow(n, t) - n, skBound);
    }
  }

  lemma BoundInClosedForm(d: int, g: int, m: int, x: int, b: int)
    requires m * g == x
    ensures m * ((d + g) * b - d * b) == x * b
  {
    Distribute(b, d, g);
    Regroup(m, g, b);
  }

  /** 1 + n + ... + n^(m-1), Horner-wise. */
  function Repunit(m: nat, n: nat): nat {
    if m == 0 then 0 else 1 + n * Repunit(m - 1, n)
  }

  lemma {:induction false} RepunitIsSum(m: nat, n: nat)
    ensures n * Repunit(m, n) == GeometricSum(n, m + 1)
    ensures Repunit(m + 1, n) == 1 + GeometricSum(n, m + 1)
  {
    if m == 0 {
      assert Repunit(1, n) == 1 + n * 0;
    } else {
      RepunitIsSum(m - 1, n);
      RepunitPower(m - 1, n);
      assert n * (Repunit(m - 1, n) + Pow(n, m - 1)) == n * Repunit(m - 1, n) + Pow(n, m);
    }
  }

  lemma {:induction false} RepunitPower(m: nat, n: nat)
    ensures Repunit(m + 1, n) == Repunit(m, n) + Pow(n, m)
  {
    if m > 0 {
      RepunitPower(m - 1, n);
      assert n * (Repunit(m - 1, n) + Pow(n, m - 1)) == n * Repunit(m - 1, n) + Pow(n, m);
    } else {
      assert Repunit(1, n) == 1 + n * 0;
    }
  }

  predicate InRange(c: seq<int>, b: int) {
    forall i :: 0 <= i < |c| ==> 0 <= c[i] < b
  }

  /** A polynomial with coefficients in [0, b) at a point in [0, n]. */
  lemma {:induction false} EvalBound(c: seq<int>, b: int, x: int, n: nat)
    requires InRange(c, b) && 0 <= x <= n && b >= 1
    ensures 0 <= Eval(c, x) <= (b - 1) * Repunit(|c|, n)
  {
    if c != [] {
      EvalBound(c[1..], b, x, n);
      HornerBound(x, n, Eval(c[1..], x), b - 1, Repunit(|c| - 1, n), c[0]);
    }
  }

  lemma HornerBound(x: int, n: int, e: int, b: int, r: int, c: int)
    requires 0 <= x <= n && 0 <= e <= b * r && 0 <= c <= b
    ensures 0 <= c + x * e <= b * (1 + n * r)
  {
    assert x * e >= 0;
    assert (n - x) * e >= 0;
    assert n * (b * r - e) >= 0;
    assert n * (b * r) == b * (n * r);
  }

  /** The sharing polynomials: constant term n! * s, every coefficient drawn below b. */
  predicate SharingPoly(f: seq<int>, n: nat, t: nat, s: int, b: int) {
    |f| == t >= 1 && 0 <= s < b && f[0] == Factorial(n) * s && InRange(f[1..], b)
  }

  /** Every share stays below the bound. */
  lemma ShareBelowBound(f: seq<int>, n: nat, t: nat, s: int, b: int, x: int)
    requires SharingPoly(f, n, t, s, b) && 0 <= x <= n
    ensures 0 <= Eval(f, x) <= BoundPoly(n, t) * (b - 1)
  {
    EvalBound(f[1..], b, x, n);
    RepunitIsSum(t - 1, n);
    BoundAlgebra(x, n, Eval(f[1..], x), b - 1, Repunit(t - 1, n), Factorial(n), s, GeometricSum(n, t));
  }

  /** The polynomial with the largest secret and coefficients. */
  function LargestPoly(n: nat, t: nat, b: int): seq<int>
    requires t >= 1
  {
    [Factorial(n) * (b - 1)] + seq(t - 1, _ => b - 1)
  }

  lemma {:induction false} ConstantEval(c: seq<int>, b: int, x: int)
    requires forall i :: 0 <= i < |c| ==> c[i] == b
    ensures x >= 0 ==> Eval(c, x) == b * Repunit(|c|, x)
  {
    if c != [] && x >= 0 {
      ConstantEval(c[1..], b, x);
      Regroup(x, b, Repunit(|c| - 1, x));
      Distribute(b, 1, x * Repunit(|c| - 1, x));
    }
  }

  /** The bound is tight: some sharing polynomial takes it at the last party's point. */
  lemma BoundAttained(n: nat, t: nat, b: int)
    requires t >= 1 && b >= 1
    ensures SharingPoly(LargestPoly(n, t, b), n, t, b - 1, b)
    ensures Eval(LargestPoly(n, t, b), n) == BoundPoly(n, t) * (b - 1)
  {
    var f := LargestPoly(n, t, b);
    var rest := seq(t - 1, _ => b - 1);
    assert f[1..] == rest;
    ConstantEval(rest, b - 1, n);
    RepunitIsSum(t - 1, n);
    Regroup(n, b - 1, Repunit(t - 1, n));
    Distribute(b - 1, Factorial(n), GeometricSum(n, t));
  }

  lemma BoundAlgebra(x: int, n: int, e: int, b: int, r: int, d: int, s: int, g: int)
    requires 0 <= x <= n && 0 <= e <= b * r && 0 <= s <= b && d >= 1 && g == n * r
    ensures 0 <= d * s + x * e <= (d + g) * b
  {
    HornerBound(x, n, e, b, r, 0);
    assert d * s >= 0 && d * (b - s) >= 0;
    assert b * (1 + n * r) == b + b * g;
    TightHorner(x, n, e, b, r);
    assert (d + g) * b == d * b + b * g;
  }

  lemma TightHorner(x: int, n: int, e: int, b: int, r: int)
    requires 0 <= x <= n && 0 <= e <= b * r
    ensures 0 <= x * e <= b * (n * r)
  {
    assert x * e >= 0;
    assert (n - x) * e >= 0;
    assert n * (b * r - e) >= 0;
    assert n * (b * r) == b * (n * r);
  }

  // ---- sharing ---------------------------------------------------------------------------

  /** `shamir_share_delta_signed` after its coefficients are drawn: values at 1..n. */
  method ShamirShares(s: int, random: seq<int>, n: nat) returns (shares: seq<int>)
    ensures |shares| == n
    ensures forall i :: 1 <= i <= n ==> shares[i - 1] == Eval([Factorial(n) * s] + random, i)
  {
    var delta := ComputeFactorial(n);
    var coeffs := [delta * s] + random;
    shares := [];
    for i := 1 to n + 1
      invariant |shares| == i - 1
      invariant forall k :: 1 <= k < i ==> shares[k - 1] == Eval(coeffs, k)
    {
      var val, power := 0, 1;
      for j := 0 to |coeffs|
        invariant val == Eval(coeffs[..j], i) && power == Pow(i, j)
      {
        EvalSnoc(coeffs[..j], coeffs[j], i);
        assert coeffs[..j + 1] == coeffs[..j] + [coeffs[j]];
        val := val + coeffs[j] * power;
        power := power * i;
      }
      assert coeffs[..|coeffs|] == coeffs;
      shares := shares + [val];
    }
  }

  function Zeros(k: nat): (z: seq<int>)
    ensures |z| == k && forall i :: 0 <= i < k ==> z[i] == 0
  {
    seq(k, _ => 0)
  }

  lemma {:induction false} EvalPadded(c: seq<int>, k: nat, x: int)
    ensures Eval(c + Zeros(k), x) == Eval(c, x)
    decreases k
  {
    if k == 0 {
      assert c + Zeros(0) == c;
    } else {
      EvalPadded(c, k - 1, x);
      assert c + Zeros(k) == (c + Zeros(k - 1)) + [0];
      EvalSnoc(c + Zeros(k - 1), 0, x);
    }
  }

  /** The chunks sent for a share: exactly `numChunks` digits of its magnitude. */
  function Chunks(share: int, q: nat, numChunks: nat): (c: seq<int>)
    requires q >= 2 && |Digits(Abs(share), q)| <= numChunks
    ensures |c| == numChunks && InRange(c, q)
  {
    Digits(Abs(share), q) + Zeros(numChunks - |Digits(Abs(share), q)|)
  }

  /** The chunking step of `dkg_cl_gen`: refuses exactly the shares that do not fit. */
  method ChunkShare(share: int, q: nat, numChunks: nat) returns (r: Option<seq<int>>)
    requires q >= 2 && numChunks >= 1
    ensures r.Some? <==> Abs(share) < Pow(q, numChunks)
    ensures r.Some? ==> |Digits(Abs(share), q)| <= numChunks && r.value == Chunks(share, q, numChunks)
    ensures r.Some? ==> Eval(r.value, q) == Abs(share)
  {
    var chunks := DecomposeQAry(Abs(share), q);
    DigitCount(Abs(share), q, numChunks);
    if |chunks| > numChunks {
      return None;
    }
    DigitsValue(Abs(share), q);
    EvalPadded(Digits(Abs(share), q), numChunks - |Digits(Abs(share), q)|, q);
    chunks := chunks + Zeros(numChunks - |chunks|);
    assert share == 0 ==> chunks == Chunks(share, q, numChunks);
    r := Some(chunks);
  }

  predicate Fits(share: int, q: nat, numChunks: nat)
    requires q >= 2
  {
    |Digits(Abs(share), q)| <= numChunks
  }

  /** The chunk count covers the share bound, as `num_chunks_for_bound` makes it. */
  predicate EnoughChunks(q: nat, n: nat, t: nat, b: int, numChunks: nat) {
    BoundPoly(n, t) * b < Pow(q, numChunks)
  }

  /** Every share of a sharing polynomial fits. */
  lemma ShareFits(f: seq<int>, n: nat, t: nat, s: int, b: int, q: nat, x: int, numChunks: nat)
    requires q >= 2 && 0 <= x <= n && SharingPoly(f, n, t, s, b) && EnoughChunks(q, n, t, b, numChunks)
    ensures Eval(f, x) >= 0 && Fits(Eval(f, x), q, numChunks)
  {
    ShareBelowBound(f, n, t, s, b, x);
    Distribute(BoundPoly(n, t), b, -1);
    DigitCount(Eval(f, x), q, numChunks);
  }

  /** The refusal is unreachable: every share of a sharing polynomial fits the chunk count
      computed from the bound, and its chunks recompose to the share itself. */
  method GenChunks(f: seq<int>, n: nat, t: nat, s: int, skBound: nat, q: nat, x: nat)
    returns (r: Option<seq<int>>)
    requires q >= 2 && 1 <= t <= n && 1 <= x <= n && SharingPoly(f, n, t, s, skBound)
    ensures r.Some? && Eval(r.value, q) == Eval(f, x) && InRange(r.value, q)
  {
    var bound := ShareMagnitudeBound(skBound, n, t);
    var numChunks := NumChunksForBound(bound, q);
    ShareFits(f, n, t, s, skBound, q, x, numChunks);
    DigitCount(Eval(f, x), q, numChunks);
    r := ChunkShare(Eval(f, x), q, numChunks);
  }

  // ---- encrypting and revealing chunks ----------------------------------------------------

  /** One ciphertext per chunk, chunk l with randomness rs[l]. */
  function EncryptChunks<G>(cl: Setup<G>, pk: G, chunks: seq<int>, rs: seq<int>): (cts: seq<Ciphertext<G>>)
    requires |chunks| == |rs|
    ensures |cts| == |chunks|
    ensures forall l :: 0 <= l < |cts| ==> cts[l] == Encrypt(cl, pk, chunks[l], rs[l])
  {
    seq(|chunks|, l requires 0 <= l < |chunks| => Encrypt(cl, pk, chunks[l], rs[l]))
  }

  function DecryptChunks<G>(cl: Setup<G>, sk: int, cts: seq<Ciphertext<G>>): (ms: seq<int>)
    ensures |ms| == |cts| && forall l :: 0 <= l < |ms| ==> ms[l] == Decrypt(cl, sk, cts[l])
  {
    seq(|cts|, l requires 0 <= l < |cts| => Decrypt(cl, sk, cts[l]))
  }

  /** What one dealer's chunk ciphertexts are worth to the holder of sk. */
  function DealerShare<G>(cl: Setup<G>, sk: int, cts: seq<Ciphertext<G>>): int {
    Eval(DecryptChunks(cl, sk, cts), cl.q)
  }

  function DealerShares<G>(cl: Setup<G>, sk: int, received: seq<seq<Ciphertext<G>>>): (s: seq<int>)
    ensures |s| == |received|
    ensures forall j :: 0 <= j < |s| ==> s[j] == DealerShare(cl, sk, received[j])
  {
    seq(|received|, j requires 0 <= j < |received| => DealerShare(cl, sk, received[j]))
  }

  /** Digits survive encryption and decryption, so a dealer's share arrives unchanged. */
  lemma DealtShareArrives<G(!new)>(cl: Setup<G>, sk: int, chunks: seq<int>, rs: seq<int>)
    requires ValidSetup(cl) && |chunks| == |rs| && InRange(chunks, cl.q)
    ensures DealerShare(cl, sk, EncryptChunks(cl, Power(cl.grp, cl.h, sk), chunks, rs))
            == Eval(chunks, cl.q)
  {
    var cts := EncryptChunks(cl, Power(cl.grp, cl.h, sk), chunks, rs);
    PowMonotone(cl.q, 1, cl.k);
    assert Pow(cl.q, 1) == cl.q * Pow(cl.q, 0) == cl.q;
    forall l | 0 <= l < |cts|
      ensures DecryptChunks(cl, sk, cts)[l] == chunks[l]
    {
      DecryptEncrypt(cl, sk, chunks[l], rs[l]);
      RemainderOfSmall(chunks[l], cl.Order());
    }
    assert DecryptChunks(cl, sk, cts) == chunks;
  }

  // ---- aggregation -------------------------------------------------------------------------

  method Position(indices: seq<int>, index: int) returns (p: nat)
    requires index in indices
    ensures p < |indices| && indices[p] == index
  {
    p := 0;
    while indices[p] != index
      invariant p < |indices| && index !in indices[..p]
      decreases |indices| - p
    {
      p := p + 1;
    }
  }

  /** `dkg_cl_aggregate` */
  method Aggregate<G>(cl: Setup<G>, shares: seq<G>, indices: seq<int>, n: nat) returns (agg: G)
    requires |shares| == |indices| && PartyIndices(indices, n)
    ensures agg == MultiPower(cl.grp, shares, Weights(indices, n))
  {
    var delta := ComputeFactorial(n);
    var coeffs := LagrangeCoefficients(indices, n, delta);
    var bases: seq<G>, exps: seq<int> := [], [];
    for k := 0 to |coeffs|
      invariant |bases| == |exps| == k
      invariant bases == shares[..k] && exps == Weights(indices, n)[..k]
    {
      var (idx, lambda) := coeffs[k];
      assert indices[k] in indices;
      var p := Position(indices, idx);
      assert p == k;
      bases := bases + [shares[p]];
      exps := exps + [lambda];
    }
    assert bases == shares && exps == Weights(indices, n);
    agg := MultiPower(cl.grp, bases, exps);
  }

  /** The dealers' polynomials, all with t coefficients. */
  predicate SameLength(polys: seq<seq<int>>, t: nat) {
    forall j :: 0 <= j < |polys| ==> |polys[j]| == t
  }

  function SumPolys(polys: seq<seq<int>>, t: nat): (f: seq<int>)
    requires SameLength(polys, t)
    ensures |f| == t
  {
    if polys == [] then Zeros(t) else AddPoly(polys[0], SumPolys(polys[1..], t))
  }

  function EvalAll(polys: seq<seq<int>>, x: int): (s: seq<int>)
    ensures |s| == |polys| && forall j :: 0 <= j < |s| ==> s[j] == Eval(polys[j], x)
  {
    if polys == [] then [] else [Eval(polys[0], x)] + EvalAll(polys[1..], x)
  }

  lemma {:induction false} EvalSumPolys(polys: seq<seq<int>>, t: nat, x: int)
    requires SameLength(polys, t)
    ensures Eval(SumPolys(polys, t), x) == Sum(EvalAll(polys, x))
  {
    if polys == [] {
      EvalPadded([], t, x);
      assert [] + Zeros(t) == Zeros(t);
    } else {
      EvalSumPolys(polys[1..], t, x);
      EvalAddPoly(polys[0], SumPolys(polys[1..], t), x);
      assert EvalAll(polys, x)[1..] == EvalAll(polys[1..], x);
    }
  }

  lemma {:induction false} SumScaled(xs: seq<int>, ys: seq<int>, c: int)
    requires |xs| == |ys| && forall j :: 0 <= j < |xs| ==> xs[j] == c * ys[j]
    ensures Sum(xs) == c * Sum(ys)
  {
    if xs != [] {
      SumScaled(xs[1..], ys[1..], c);
      Distribute(c, ys[0], Sum(ys[1..]));
    }
  }

  lemma ConstantTerms(polys: seq<seq<int>>, n: nat, t: nat, secrets: seq<int>, b: int)
    requires |polys| == |secrets|
    requires forall j :: 0 <= j < |polys| ==> SharingPoly(polys[j], n, t, secrets[j], b)
    ensures Sum(EvalAll(polys, 0)) == Factorial(n) * Sum(secrets)
  {
    var es := EvalAll(polys, 0);
    forall j | 0 <= j < |es|
      ensures es[j] == Factorial(n) * secrets[j]
    {
      assert SharingPoly(polys[j], n, t, secrets[j], b);
      assert Eval(polys[j], 0) == polys[j][0] + 0 * Eval(polys[j][1..], 0);
    }
    SumScaled(es, secrets, Factorial(n));
  }

  /** Aggregating any t or more of the revealed h^{X_i} gives h^{(n!)^2 * (sum of secrets)}. */
  lemma AggregateKey<G(!new)>(cl: Setup<G>, shares: seq<G>, indices: seq<int>, n: nat, t: nat,
                             polys: seq<seq<int>>, secrets: seq<int>, b: int)
    requires ValidSetup(cl) && PartyIndices(indices, n) && |shares| == |indices| >= t >= 1
    requires |polys| == |secrets|
    requires forall j :: 0 <= j < |polys| ==> SharingPoly(polys[j], n, t, secrets[j], b)
    requires forall i :: 0 <= i < |shares| ==>
               shares[i] == Power(cl.grp, cl.h, Sum(EvalAll(polys, indices[i])))
    ensures MultiPower(cl.grp, shares, Weights(indices, n))
            == Power(cl.grp, cl.h, Factorial(n) * Factorial(n) * Sum(secrets))
  {
    var g, f := cl.grp, SumPolys(polys, t);
    var basis := Basis(cl.h, g.one, cl.f);
    var ws, vs, zs := Weights(indices, n), Values(indices, f), Zeros(|indices|);
    forall i | 0 <= i < |shares|
      ensures shares[i] == Elem(g, basis, vs[i], zs[i], zs[i])
    {
      EvalSumPolys(polys, t, indices[i]);
      ElemUnits(g, basis, vs[i]);
    }
    MultiPowerElems(g, basis, shares, ws, vs, zs, zs);
    DotWithZeros(ws, zs);
    KeyExponent(indices, n, t, polys, secrets, b);
    ElemUnits(g, basis, Dot(ws, vs));
  }

  /** The exponent of the aggregated key. */
  lemma KeyExponent(indices: seq<int>, n: nat, t: nat, polys: seq<seq<int>>, secrets: seq<int>, b: int)
    requires PartyIndices(indices, n) && |indices| >= t >= 1 && |polys| == |secrets|
    requires forall j :: 0 <= j < |polys| ==> SharingPoly(polys[j], n, t, secrets[j], b)
    ensures SameLength(polys, t)
    ensures Dot(Weights(indices, n), Values(indices, SumPolys(polys, t))) == Factorial(n) * Factorial(n) * Sum(secrets)
  {
    var d := Factorial(n);
    Interpolation(indices, n, SumPolys(polys, t));
    EvalSumPolys(polys, t, 0);
    ConstantTerms(polys, n, t, secrets, b);
    Regroup(d, d, Sum(secrets));
  }

  /** What dealer j sends to the recipient at point x with key sk. */
  function Dealt<G>(cl: Setup<G>, sk: int, share: int, numChunks: nat, rs: seq<int>): seq<Ciphertext<G>>
    requires cl.q >= 2 && Fits(share, cl.q, numChunks) && |rs| == numChunks
  {
    EncryptChunks(cl, Power(cl.grp, cl.h, sk), Chunks(share, cl.q, numChunks), rs)
  }

  /** Every dealer sends the recipient its share, provided that the share fits. */
  ghost predicate HonestDealing<G(!new)>(cl: Setup<G>, sk: int, x: int, numChunks: nat,
                                        polys: seq<seq<int>>, rs: seq<seq<int>>,
                                        received: seq<seq<Ciphertext<G>>>)
  {
    && cl.q >= 2 && |received| == |polys| == |rs|
    && forall j :: 0 <= j < |polys| ==>
         && |rs[j]| == numChunks
         && (Fits(Eval(polys[j], x), cl.q, numChunks) ==>
               received[j] == Dealt(cl, sk, Eval(polys[j], x), numChunks, rs[j]))
  }

  lemma OneDealer<G(!new)>(cl: Setup<G>, sk: int, share: nat, numChunks: nat, rs: seq<int>)
    requires ValidSetup(cl) && Fits(share, cl.q, numChunks) && |rs| == numChunks
    ensures DealerShare(cl, sk, Dealt(cl, sk, share, numChunks, rs)) == share
  {
    DealtShareArrives(cl, sk, Chunks(share, cl.q, numChunks), rs);
    DigitsValue(share, cl.q);
    EvalPadded(Digits(share, cl.q), numChunks - |Digits(share, cl.q)|, cl.q);
  }

  /** Each recipient reveals the sum of the dealers' polynomials at its own point. */
  lemma RevealedShare<G(!new)>(cl: Setup<G>, sk: int, x: int, numChunks: nat, n: nat, t: nat, b: int,
                              polys: seq<seq<int>>, secrets: seq<int>, rs: seq<seq<int>>,
                              received: seq<seq<Ciphertext<G>>>)
    requires ValidSetup(cl) && 0 <= x <= n && |polys| == |secrets| && EnoughChunks(cl.q, n, t, b, numChunks)
    requires forall j :: 0 <= j < |polys| ==> SharingPoly(polys[j], n, t, secrets[j], b)
    requires HonestDealing(cl, sk, x, numChunks, polys, rs, received)
    ensures Sum(DealerShares(cl, sk, received)) == Sum(EvalAll(polys, x))
  {
    forall j | 0 <= j < |polys|
      ensures DealerShares(cl, sk, received)[j] == EvalAll(polys, x)[j]
    {
      assert SharingPoly(polys[j], n, t, secrets[j], b);
      ShareFits(polys[j], n, t, secrets[j], b, cl.q, x, numChunks);
      OneDealer(cl, sk, Eval(polys[j], x), numChunks, rs[j]);
    }
    assert DealerShares(cl, sk, received) == EvalAll(polys, x);
  }

  /** Key generation end to end: every party's revealed element is h to its own combined share,
      and any t or more of them aggregate to h^{(n!)^2 * (sum of the dealt secrets)}. */
  lemma DkgEndToEnd<G(!new)>(cl: Setup<G>, n: nat, t: nat, b: int, numChunks: nat,
                            polys: seq<seq<int>>, secrets: seq<int>,
                            indices: seq<int>, sks: seq<int>, rs: seq<seq<seq<int>>>,
                            received: seq<seq<seq<Ciphertext<G>>>>, shares: seq<G>)
    requires ValidSetup(cl) && PartyIndices(indices, n) && |indices| >= t >= 1
    requires |shares| == |sks| == |rs| == |received| == |indices| && |polys| == |secrets|
    requires EnoughChunks(cl.q, n, t, b, numChunks)
    requires forall j :: 0 <= j < |polys| ==> SharingPoly(polys[j], n, t, secrets[j], b)
    requires forall i :: 0 <= i < |indices| ==>
               HonestDealing(cl, sks[i], indices[i], numChunks, polys, rs[i], received[i])
    requires forall i :: 0 <= i < |indices| ==>
               shares[i] == Power(cl.grp, cl.h, Sum(DealerShares(cl, sks[i], received[i])))
    ensures MultiPower(cl.grp, shares, Weights(indices, n))
            == Power(cl.grp, cl.h, Factorial(n) * Factorial(n) * Sum(secrets))
  {
    forall i | 0 <= i < |indices|
      ensures shares[i] == Power(cl.grp, cl.h, Sum(EvalAll(polys, indices[i])))
    {
      assert HonestDealing(cl, sks[i], indices[i], numChunks, polys, rs[i], received[i]);
      RevealedShare(cl, sks[i], indices[i], numChunks, n, t, b, polys, secrets, rs[i], received[i]);
    }
    AggregateKey(cl, shares, indices, n, t, polys, secrets, b);
  }
}
