/** Delta-scaled Lagrange interpolation over the integers, exact at every step. */
module Lagrange {
  import opened Congruence
  import opened Primes
  import opened Polynomials

  /** Party indices: distinct, in 1..n. */
  predicate PartyIndices(idx: seq<int>, n: nat) {
    && (forall i :: 0 <= i < |idx| ==> 1 <= idx[i] <= n)
    && (forall i, j :: 0 <= i < j < |idx| ==> idx[i] != idx[j])
  }

  /** rug's `/`: division truncating toward zero. */
  function TruncDiv(a: int, b: int): int
    requires b != 0
  {
    if a >= 0 then a / b else -((-a) / b)
  }

  lemma ExactQuotient(q: int, b: int)
    requires b != 0
    ensures (q * b) / b == q && (q * b) % b == 0
  {
    var d := q - (q * b) / b;
    assert d * b == (q * b) % b;
    assert b > 0 && d >= 1 ==> d * b >= b;
    assert b > 0 && d <= -1 ==> d * b <= -b;
    assert b < 0 && d >= 1 ==> d * b <= b;
    assert b < 0 && d <= -1 ==> d * b >= -b;
  }

  lemma TruncDivExact(q: int, b: int)
    requires b != 0
    ensures TruncDiv(q * b, b) == q
  {
    ExactQuotient(q, b);
    ExactQuotient(-q, b);
    assert (-q) * b == -(q * b);
  }

  // ---- the loop, value by value -------------------------------------------------------

  /** The factor -i_j / (i_k - i_j) of index j, as numerator and denominator. */
  function NumFactor(idx: seq<int>, k: nat, j: nat): int
    requires k < |idx| && j < |idx|
  {
    if j == k then 1 else -idx[j]
  }

  function DenFactor(idx: seq<int>, k: nat, j: nat): int
    requires k < |idx| && j < |idx|
  {
    if j == k then 1 else idx[k] - idx[j]
  }

  /** The coefficient of index k after the first m passes of the inner loop. */
  function Partial(idx: seq<int>, k: nat, delta: int, m: nat): int
    requires k < |idx| && m <= |idx|
    requires forall j :: 0 <= j < |idx| && j != k ==> idx[j] != idx[k]
  {
    if m == 0 then delta
    else if m - 1 == k then Partial(idx, k, delta, m - 1)
    else TruncDiv(Partial(idx, k, delta, m - 1), idx[k] - idx[m - 1]) * -idx[m - 1]
  }

  /** Numerator and denominator of the first m factors. */
  function Num(idx: seq<int>, k: nat, m: nat): int
    requires k < |idx| && m <= |idx|
  {
    if m == 0 then 1 else Num(idx, k, m - 1) * NumFactor(idx, k, m - 1)
  }

  function Den(idx: seq<int>, k: nat, m: nat): int
    requires k < |idx| && m <= |idx|
  {
    if m == 0 then 1 else Den(idx, k, m - 1) * DenFactor(idx, k, m - 1)
  }

  /** The denominators still to come from pass m on. */
  function Rest(idx: seq<int>, k: nat, m: nat): int
    requires k < |idx| && m <= |idx|
    decreases |idx| - m
  {
    if m == |idx| then 1 else DenFactor(idx, k, m) * Rest(idx, k, m + 1)
  }

  lemma {:induction false} DenSplit(idx: seq<int>, k: nat, m: nat)
    requires k < |idx| && m <= |idx|
    ensures Den(idx, k, m) * Rest(idx, k, m) == Den(idx, k, |idx|)
    decreases |idx| - m
  {
    if m < |idx| {
      DenSplit(idx, k, m + 1);
      Regroup(Den(idx, k, m), DenFactor(idx, k, m), Rest(idx, k, m + 1));
    }
  }

  lemma {:induction false} DenNonZero(idx: seq<int>, k: nat, m: nat)
    requires k < |idx| && m <= |idx|
    requires forall j :: 0 <= j < |idx| && j != k ==> idx[j] != idx[k]
    ensures Den(idx, k, m) != 0
  {
    if m > 0 {
      DenNonZero(idx, k, m - 1);
    }
  }

  lemma ExactStep(p: int, num: int, d: int, rest: int, e: int, w: int)
    requires d != 0 && p == num * ((d * rest) * e)
    ensures p % d == 0 && TruncDiv(p, d) * w == (num * w) * (rest * e)
  {
    var q := num * (rest * e);
    MoveFactor(num, d, rest, e);
    ExactDivisor(p, q, d);
    Regroup(num, rest * e, w);
  }

  lemma MoveFactor(num: int, d: int, rest: int, e: int)
    ensures num * ((d * rest) * e) == (num * (rest * e)) * d
  {
  }

  lemma ExactDivisor(p: int, q: int, d: int)
    requires d != 0 && p == q * d
    ensures p % d == 0 && TruncDiv(p, d) == q
  {
    ExactQuotient(q, d);
    TruncDivExact(q, d);
  }

  /** Closed form of every intermediate value, when the full denominator divides delta. */
  lemma {:induction false} PartialClosed(idx: seq<int>, k: nat, delta: int, e: int, m: nat)
    requires k < |idx| && m <= |idx|
    requires forall j :: 0 <= j < |idx| && j != k ==> idx[j] != idx[k]
    requires delta == Den(idx, k, |idx|) * e
    ensures Partial(idx, k, delta, m) == Num(idx, k, m) * (Rest(idx, k, m) * e)
  {
    if m == 0 {
      DenSplit(idx, k, 0);
    } else {
      PartialClosed(idx, k, delta, e, m - 1);
      if m - 1 != k {
        ExactStep(Partial(idx, k, delta, m - 1), Num(idx, k, m - 1), idx[k] - idx[m - 1],
                  Rest(idx, k, m), e, -idx[m - 1]);
      }
    }
  }

  // ---- the denominators divide n! ------------------------------------------------------

  /** The factor of n in the product of differences. */
  function DifferenceFactor(c: int, s: set<int>, n: int): int {
    if n in s && n != c then c - n else 1
  }

  /** Product of c - v over the v in s with 1 <= v <= n, v != c. */
  function Differences(c: int, s: set<int>, n: nat): int {
    if n == 0 then 1 else Differences(c, s, n - 1) * DifferenceFactor(c, s, n)
  }

  /** The factor that a new element v brings to the product up to n. */
  function NewFactor(c: int, v: int, n: nat): int {
    if 1 <= v <= n then c - v else 1
  }

  lemma FactorAdd(c: int, s: set<int>, v: int, n: nat)
    requires v !in s && v != c && n > 0
    ensures if n == v then
              && DifferenceFactor(c, s + {v}, n) == NewFactor(c, v, n) && DifferenceFactor(c, s, n) == 1
              && NewFactor(c, v, n - 1) == 1
            else
              && DifferenceFactor(c, s + {v}, n) == DifferenceFactor(c, s, n)
              && NewFactor(c, v, n) == NewFactor(c, v, n - 1)
  {
  }

  /** p' = p g, then p' f' = (p f) g' for either change of the factors. */
  lemma FactorsCommute(p: int, p': int, f: int, f': int, g: int, g': int)
    requires p' == p * g && ((f' == g' && f == 1 && g == 1) || (f' == f && g' == g))
    ensures p' * f' == (p * f) * g'
  {
    Regroup(p, g, f);
  }

  lemma {:induction false} DifferencesAdd(c: int, s: set<int>, v: int, n: nat)
    requires v !in s && v != c
    ensures Differences(c, s + {v}, n) == Differences(c, s, n) * NewFactor(c, v, n)
  {
    if n > 0 {
      DifferencesAdd(c, s, v, n - 1);
      FactorAdd(c, s, v, n);
      FactorsCommute(Differences(c, s, n - 1), Differences(c, s + {v}, n - 1), DifferenceFactor(c, s, n),
                     DifferenceFactor(c, s + {v}, n), NewFactor(c, v, n - 1), NewFactor(c, v, n));
    }
  }

  /** The set of the first m indices other than index k. */
  function Others(idx: seq<int>, k: nat, m: nat): set<int>
    requires k < |idx| && m <= |idx|
  {
    set j | 0 <= j < m && j != k :: idx[j]
  }

  lemma {:induction false} DenIsDifferences(idx: seq<int>, k: nat, m: nat, n: nat)
    requires PartyIndices(idx, n) && k < |idx| && m <= |idx|
    ensures Den(idx, k, m) == Differences(idx[k], Others(idx, k, m), n)
  {
    if m == 0 {
      assert Others(idx, k, 0) == {};
      DifferencesEmpty(idx[k], n);
    } else {
      DenIsDifferences(idx, k, m - 1, n);
      if m - 1 == k {
        assert Others(idx, k, m) == Others(idx, k, m - 1);
      } else {
        assert Others(idx, k, m) == Others(idx, k, m - 1) + {idx[m - 1]};
        DifferencesAdd(idx[k], Others(idx, k, m - 1), idx[m - 1], n);
      }
    }
  }

  lemma {:induction false} DifferencesEmpty(c: int, n: nat)
    ensures Differences(c, {}, n) == 1
  {
    if n > 0 {
      DifferencesEmpty(c, n - 1);
    }
  }

  /** The differences to all of 1..n. */
  function AllDifferences(c: int, n: nat): int {
    if n == 0 then 1 else AllDifferences(c, n - 1) * if n == c then 1 else c - n
  }

  lemma {:induction false} DifferencesDivide(c: int, s: set<int>, n: nat) returns (e: int)
    ensures AllDifferences(c, n) == Differences(c, s, n) * e
  {
    if n == 0 {
      e := 1;
    } else {
      var e' := DifferencesDivide(c, s, n - 1);
      var f := if n == c then 1 else c - n;
      var p := Differences(c, s, n - 1);
      Regroup(p, e', f);
      e := if n in s then e' else e' * f;
    }
  }

  /** (-1)^m m! */
  function SignedFactorial(m: nat): int {
    if m == 0 then 1 else SignedFactorial(m - 1) * (0 - m)
  }

  lemma {:induction false} SignedFactorialAbs(m: nat) returns (s: int)
    ensures s * s == 1 && SignedFactorial(m) == s * Factorial(m)
  {
    if m == 0 {
      s := 1;
    } else {
      var s' := SignedFactorialAbs(m - 1);
      s := -s';
      assert (s' * Factorial(m - 1)) * (0 - m) == -s' * (m * Factorial(m - 1));
    }
  }

  lemma {:induction false} LowerDifferences(c: nat, n: nat)
    requires n < c
    ensures AllDifferences(c, n) * Factorial(c - 1 - n) == Factorial(c - 1)
  {
    if n > 0 {
      LowerDifferences(c, n - 1);
      assert Factorial(c - n) == (c - n) * Factorial(c - n - 1);
      Regroup(AllDifferences(c, n - 1), c - n, Factorial(c - n - 1));
    }
  }

  lemma {:induction false} UpperDifferences(c: nat, n: nat)
    requires 1 <= c <= n
    ensures AllDifferences(c, n) == Factorial(c - 1) * SignedFactorial(n - c)
  {
    if n == c {
      LowerDifferences(c, c - 1);
    } else {
      UpperDifferences(c, n - 1);
      var s := SignedFactorial(n - 1 - c);
      assert SignedFactorial(n - c) == s * (c - n);
      Regroup(Factorial(c - 1), s, c - n);
    }
  }

  lemma FiveFactors(x: int, y: int, b: int, s: int, n: int)
    requires s * s == 1
    ensures (x * (s * y)) * (n * (b * s)) == n * (b * (x * y))
  {
    assert (x * (s * y)) * (n * (b * s)) == (n * (b * (x * y))) * (s * s);
  }

  /** n! is a multiple of the differences from c to any set of indices in 1..n. */
  lemma AllDifferencesDivideFactorial(c: nat, n: nat) returns (e: int)
    requires 1 <= c <= n
    ensures Factorial(n) == AllDifferences(c, n) * e
  {
    UpperDifferences(c, n);
    var s := SignedFactorialAbs(n - c);
    ChooseFactorial(n - 1, c - 1);
    var x, y, b := Factorial(c - 1), Factorial(n - c), Choose(n - 1, c - 1);
    e := n * (b * s);
    FiveFactors(x, y, b, s, n);
  }

  lemma DenDividesFactorial(idx: seq<int>, k: nat, n: nat) returns (e: int)
    requires PartyIndices(idx, n) && k < |idx|
    ensures Factorial(n) == Den(idx, k, |idx|) * e
  {
    var c := idx[k];
    DenIsDifferences(idx, k, |idx|, n);
    var e1 := DifferencesDivide(c, Others(idx, k, |idx|), n);
    var e2 := AllDifferencesDivideFactorial(c, n);
    e := e1 * e2;
    Regroup(Differences(c, Others(idx, k, |idx|), n), e1, e2);
  }

  // ---- main results ------------------------------------------------------------------

  /** Every division of the loop is exact, in any order of distinct indices from 1..n. */
  lemma EveryStepExact(idx: seq<int>, k: nat, n: nat, m: nat)
    requires PartyIndices(idx, n) && k < |idx| && m < |idx| && m != k
    ensures Partial(idx, k, Factorial(n), m) % (idx[k] - idx[m]) == 0
  {
    var e := DenDividesFactorial(idx, k, n);
    PartialClosed(idx, k, Factorial(n), e, m);
    ExactStep(Partial(idx, k, Factorial(n), m), Num(idx, k, m), idx[k] - idx[m],
              Rest(idx, k, m + 1), e, 1);
  }

  /** The finished coefficient of index k. */
  function Coefficient(idx: seq<int>, k: nat, n: nat): int
    requires PartyIndices(idx, n) && k < |idx|
  {
    Partial(idx, k, Factorial(n), |idx|)
  }

  lemma RatioFromClosed(c: int, num: int, rest: int, e: int, den: int, fact: int)
    requires rest == 1 && c == num * (rest * e) && fact == den * e
    ensures c * den == fact * num
  {
    Regroup(num, e, den);
    Regroup(den, e, num);
  }

  /** It is n! times the product of the -i_j / (i_k - i_j), as an equation of integers. */
  lemma CoefficientRatio(idx: seq<int>, k: nat, n: nat)
    requires PartyIndices(idx, n) && k < |idx|
    ensures Coefficient(idx, k, n) * Den(idx, k, |idx|) == Factorial(n) * Num(idx, k, |idx|)
    ensures Den(idx, k, |idx|) != 0
  {
    var e := DenDividesFactorial(idx, k, n);
    PartialClosed(idx, k, Factorial(n), e, |idx|);
    DenNonZero(idx, k, |idx|);
    RatioFromClosed(Coefficient(idx, k, n), Num(idx, k, |idx|), Rest(idx, k, |idx|), e, Den(idx, k, |idx|), Factorial(n));
  }

  lemma {:induction false} PrefixProducts(idx: seq<int>, k: nat, m: nat)
    requires k < |idx| - 1 && m < |idx|
    ensures Num(idx[..|idx| - 1], k, m) == Num(idx, k, m)
    ensures Den(idx[..|idx| - 1], k, m) == Den(idx, k, m)
  {
    if m > 0 {
      PrefixProducts(idx, k, m - 1);
    }
  }

  lemma {:induction false} SuffixProducts(idx: seq<int>, k: nat, m: nat)
    requires 0 < k < |idx| && 0 < m <= |idx|
    ensures Num(idx, k, m) == Num(idx[1..], k - 1, m - 1) * -idx[0]
    ensures Den(idx, k, m) == Den(idx[1..], k - 1, m - 1) * (idx[k] - idx[0])
  {
    if m > 1 {
      SuffixProducts(idx, k, m - 1);
      Regroup(Num(idx[1..], k - 1, m - 2), -idx[0], NumFactor(idx, k, m - 1));
      Regroup(Den(idx[1..], k - 1, m - 2), idx[k] - idx[0], DenFactor(idx, k, m - 1));
    } else {
      assert Num(idx, k, 0) == 1 && Den(idx, k, 0) == 1;
    }
  }

  lemma CancelFactor(a: int, b: int, d: int)
    requires d != 0 && a * d == b * d
    ensures a == b
  {
  }

  lemma DropAlgebra(l: int, l': int, d: int, u: int, f: int, x: int, b: int)
    requires d != 0 && l * (d * (x - b)) == f * (u * -b) && l' * d == f * u
    ensures l * (x - b) == -b * l'
  {
    assert (l * (x - b)) * d == l * (d * (x - b));
    assert (-b * l') * d == -b * (f * u) == f * (u * -b);
    CancelFactor(l * (x - b), -b * l', d);
  }

  /** Dropping the last index b turns the coefficient's factor x_k - b into -b. */
  lemma DropLast(idx: seq<int>, k: nat, n: nat)
    requires PartyIndices(idx, n) && k < |idx| - 1
    ensures var t := |idx| - 1;
            Coefficient(idx, k, n) * (idx[k] - idx[t]) == -idx[t] * Coefficient(idx[..t], k, n)
  {
    var t := |idx| - 1;
    CoefficientRatio(idx, k, n);
    CoefficientRatio(idx[..t], k, n);
    PrefixProducts(idx, k, t);
    DropAlgebra(Coefficient(idx, k, n), Coefficient(idx[..t], k, n), Den(idx, k, t),
                Num(idx, k, t), Factorial(n), idx[k], idx[t]);
  }

  lemma DropFirst(idx: seq<int>, k: nat, n: nat)
    requires PartyIndices(idx, n) && 0 < k < |idx|
    ensures Coefficient(idx, k, n) * (idx[k] - idx[0]) == -idx[0] * Coefficient(idx[1..], k - 1, n)
  {
    CoefficientRatio(idx, k, n);
    CoefficientRatio(idx[1..], k - 1, n);
    SuffixProducts(idx, k, |idx|);
    DropAlgebra(Coefficient(idx, k, n), Coefficient(idx[1..], k - 1, n),
                Den(idx[1..], k - 1, |idx| - 1), Num(idx[1..], k - 1, |idx| - 1),
                Factorial(n), idx[k], idx[0]);
  }

  // ---- weighted sums -------------------------------------------------------------------

  function Sum(xs: seq<int>): int {
    if xs == [] then 0 else xs[0] + Sum(xs[1..])
  }

  lemma {:induction false} SumSnoc(xs: seq<int>)
    requires xs != []
    ensures Sum(xs) == Sum(xs[..|xs| - 1]) + xs[|xs| - 1]
  {
    if |xs| == 1 {
      assert xs[1..] == [] && xs[..0] == [];
    } else {
      SumSnoc(xs[1..]);
      assert xs[1..][..|xs| - 2] == xs[..|xs| - 1][1..];
    }
  }

  function Dot(ls: seq<int>, vs: seq<int>): int
    requires |ls| == |vs|
  {
    if ls == [] then 0 else ls[0] * vs[0] + Dot(ls[1..], vs[1..])
  }

  lemma SplitTerm(l: int, fx: int, fb: int, d: int, g: int, b: int, l': int)
    requires fx == fb + d * g && l * d == -b * l'
    ensures l * fx == fb * l + -b * (l' * g)
  {
    assert l * (fb + d * g) == fb * l + (l * d) * g;
    assert (-b * l') * g == -b * (l' * g);
  }

  /** Weight l loses its factor x - b to become -b times weight l'. */
  predicate Sheds(l: int, x: int, b: int, l': int) {
    l * (x - b) == -b * l'
  }

  predicate Divided(fx: int, fb: int, x: int, b: int, gx: int) {
    fx == fb + (x - b) * gx
  }

  /** With F(x) = F(b) + (x - b) G(x) and weights l(x - b) = -b l', the weighted sum splits. */
  lemma {:induction false} SplitPrefix(xs: seq<int>, ls: seq<int>, fs: seq<int>, ls': seq<int>,
                                       gs: seq<int>, fb: int, b: int)
    requires |xs| == |ls| == |fs| == |ls'| == |gs|
    requires forall k :: 0 <= k < |xs| ==> Sheds(ls[k], xs[k], b, ls'[k])
    requires forall k :: 0 <= k < |xs| ==> Divided(fs[k], fb, xs[k], b, gs[k])
    ensures Dot(ls, fs) == fb * Sum(ls) + -b * Dot(ls', gs)
  {
    if xs != [] {
      SplitPrefix(xs[1..], ls[1..], fs[1..], ls'[1..], gs[1..], fb, b);
      SplitTerm(ls[0], fs[0], fb, xs[0] - b, gs[0], b, ls'[0]);
      Distribute(fb, ls[0], Sum(ls[1..]));
      Distribute(-b, ls'[0] * gs[0], Dot(ls'[1..], gs[1..]));
    }
  }

  lemma {:induction false} DotSnoc(ls: seq<int>, vs: seq<int>)
    requires |ls| == |vs| > 0
    ensures var t := |ls| - 1; Dot(ls, vs) == Dot(ls[..t], vs[..t]) + ls[t] * vs[t]
  {
    var t := |ls| - 1;
    if t == 0 {
      assert ls[1..] == [] && vs[1..] == [];
    } else {
      DotSnoc(ls[1..], vs[1..]);
      assert ls[1..][..t - 1] == ls[..t][1..] && vs[1..][..t - 1] == vs[..t][1..];
    }
  }

  lemma SplitSum(xs: seq<int>, ls: seq<int>, fs: seq<int>, ls': seq<int>, gs: seq<int>, fb: int, b: int)
    requires |xs| == |ls| == |fs| == |ls'| + 1 && |gs| == |ls'|
    requires forall k :: 0 <= k < |gs| ==> Sheds(ls[k], xs[k], b, ls'[k])
    requires forall k :: 0 <= k < |gs| ==> Divided(fs[k], fb, xs[k], b, gs[k])
    requires fs[|gs|] == fb
    ensures Dot(ls, fs) == fb * Sum(ls) + -b * Dot(ls', gs)
  {
    var t := |gs|;
    SplitPrefix(xs[..t], ls[..t], fs[..t], ls', gs, fb, b);
    DotSnoc(ls, fs);
    SumSnoc(ls);
    SplitLast(fb, Sum(ls[..t]), ls[t], Sum(ls), Dot(ls[..t], fs[..t]), Dot(ls, fs), -b * Dot(ls', gs));
  }

  lemma SplitLast(fb: int, s: int, l: int, total: int, d: int, dot: int, rest: int)
    requires total == s + l && dot == d + l * fb && d == fb * s + rest
    ensures dot == fb * total + rest
  {
    Distribute(fb, s, l);
  }

  /** A weighted sum of x - b, with weights adding up to s, against the sum of the shed weights. */
  predicate ShedTotal(dot: int, b: int, s: int, s': int) {
    dot - b * s == -b * s'
  }

  /** A weighted sum taken apart at either end. */
  predicate EndsMeet(l0: int, a: int, d1: int, d2: int, lt: int, b: int) {
    l0 * a + d1 == d2 + lt * b
  }

  /** Shedding b: the weighted sum of x - b is -b times the sum of the shed weights. */
  lemma {:induction false} ShedSum(xs: seq<int>, ls: seq<int>, ls': seq<int>, b: int)
    requires |xs| == |ls| == |ls'| && forall k :: 0 <= k < |xs| ==> Sheds(ls[k], xs[k], b, ls'[k])
    ensures ShedTotal(Dot(ls, xs), b, Sum(ls), Sum(ls'))
  {
    if xs != [] {
      ShedSum(xs[1..], ls[1..], ls'[1..], b);
      Distribute(b, ls[0], Sum(ls[1..]));
      Distribute(-b, ls'[0], Sum(ls'[1..]));
      Distribute(ls[0], xs[0], -b);
    }
  }

  lemma DotFromEnds(xs: seq<int>, ls: seq<int>, a: int, b: int)
    requires |xs| == |ls| > 0 && xs[0] == a && xs[|xs| - 1] == b
    ensures var t := |xs| - 1;
            EndsMeet(ls[0], a, Dot(ls[1..], xs[1..]), Dot(ls[..t], xs[..t]), ls[t], b)
  {
    var t := |xs| - 1;
    DotSnoc(ls, xs);
    Scaled(ls[0], xs[0], a);
    Scaled(ls[t], xs[t], b);
  }

  /** Weights that shed either end point have a sum determined by the two shorter sums. */
  lemma SumFromEnds(xs: seq<int>, ls: seq<int>, la: seq<int>, lb: seq<int>, a: int, b: int)
    requires |xs| == |ls| == |la| + 1 && |lb| == |la|
    requires xs[0] == a && xs[|la|] == b
    requires forall k :: 0 <= k < |la| ==> Sheds(ls[k + 1], xs[k + 1], a, la[k])
    requires forall k :: 0 <= k < |la| ==> Sheds(ls[k], xs[k], b, lb[k])
    ensures (b - a) * Sum(ls) == -a * Sum(la) + b * Sum(lb)
  {
    var t := |la|;
    ShedSum(xs[1..], ls[1..], la, a);
    ShedSum(xs[..t], ls[..t], lb, b);
    DotFromEnds(xs, ls, a, b);
    SumSnoc(ls);
    EndsCombine(Dot(ls[1..], xs[1..]), Dot(ls[..t], xs[..t]), ls[0], ls[t],
                Sum(ls[1..]), Sum(ls[..t]), Sum(la), Sum(lb), a, b, Sum(ls));
  }

  lemma EndsCombine(d1: int, d2: int, l0: int, lt: int, s1: int, s2: int, sa: int, sb: int, a: int, b: int, s: int)
    requires EndsMeet(l0, a, d1, d2, lt, b) && s == l0 + s1 == s2 + lt
    requires ShedTotal(d1, a, s1, sa) && ShedTotal(d2, b, s2, sb)
    ensures (b - a) * s == -a * sa + b * sb
  {
    Scaled(b, l0 + s1, s2 + lt);
    Expand(a, b, l0, s1);
    Distribute(b, s2, lt);
  }

  lemma Expand(a: int, b: int, x: int, y: int)
    ensures (b - a) * (x + y) == b * (x + y) - a * x - a * y
  {
  }

  // ---- interpolation -------------------------------------------------------------------

  /** All coefficients of an index set. */
  function Weights(idx: seq<int>, n: nat): (ls: seq<int>)
    requires PartyIndices(idx, n)
    ensures |ls| == |idx| && forall k :: 0 <= k < |ls| ==> ls[k] == Coefficient(idx, k, n)
  {
    seq(|idx|, k requires 0 <= k < |idx| => Coefficient(idx, k, n))
  }

  /** The values of a polynomial at the indices. */
  function Values(idx: seq<int>, f: seq<int>): (vs: seq<int>)
    ensures |vs| == |idx| && forall k :: 0 <= k < |vs| ==> vs[k] == Eval(f, idx[k])
  {
    seq(|idx|, k requires 0 <= k < |idx| => Eval(f, idx[k]))
  }

  lemma ShedLast(idx: seq<int>, n: nat)
    requires PartyIndices(idx, n) && |idx| > 1
    ensures var t := |idx| - 1; var ls, ls' := Weights(idx, n), Weights(idx[..t], n);
            forall k :: 0 <= k < t ==> Sheds(ls[k], idx[k], idx[t], ls'[k])
  {
    var t := |idx| - 1;
    var ls, ls' := Weights(idx, n), Weights(idx[..t], n);
    forall k | 0 <= k < t
      ensures Sheds(ls[k], idx[k], idx[t], ls'[k])
    {
      DropLast(idx, k, n);
    }
  }

  lemma ShedFirst(idx: seq<int>, n: nat)
    requires PartyIndices(idx, n) && |idx| > 1
    ensures var ls, ls' := Weights(idx, n), Weights(idx[1..], n);
            forall k :: 0 <= k < |idx| - 1 ==> Sheds(ls[k + 1], idx[k + 1], idx[0], ls'[k])
  {
    var ls, ls' := Weights(idx, n), Weights(idx[1..], n);
    forall k | 0 <= k < |idx| - 1
      ensures Sheds(ls[k + 1], idx[k + 1], idx[0], ls'[k])
    {
      DropFirst(idx, k + 1, n);
    }
  }

  lemma SingleWeight(idx: seq<int>, n: nat)
    requires PartyIndices(idx, n) && |idx| == 1
    ensures Weights(idx, n) == [Factorial(n)]
  {
    assert Partial(idx, 0, Factorial(n), 0) == Factorial(n);
    assert Partial(idx, 0, Factorial(n), 1) == Factorial(n);
  }

  lemma EndsAlgebra(s: int, f: int, a: int, b: int)
    requires a != b && (b - a) * s == -a * f + b * f
    ensures s == f
  {
    CancelFactor(s, f, b - a);
  }

  /** The coefficients sum to n!. */
  lemma {:induction false} WeightSum(idx: seq<int>, n: nat)
    requires PartyIndices(idx, n) && idx != []
    ensures Sum(Weights(idx, n)) == Factorial(n)
    decreases |idx|
  {
    var t := |idx| - 1;
    if t == 0 {
      SingleWeight(idx, n);
      assert Weights(idx, n)[1..] == [];
    } else {
      WeightSum(idx[1..], n);
      WeightSum(idx[..t], n);
      ShedFirst(idx, n);
      ShedLast(idx, n);
      SumFromEnds(idx, Weights(idx, n), Weights(idx[1..], n), Weights(idx[..t], n), idx[0], idx[t]);
      EndsAlgebra(Sum(Weights(idx, n)), Factorial(n), idx[0], idx[t]);
    }
  }

  lemma {:induction false} DotWithZeros(ls: seq<int>, vs: seq<int>)
    requires |ls| == |vs| && forall k :: 0 <= k < |vs| ==> vs[k] == 0
    ensures Dot(ls, vs) == 0
  {
    if ls != [] {
      DotWithZeros(ls[1..], vs[1..]);
    }
  }

  lemma SplitFactorial(e: int, d: int, b: int, g: int, f0: int)
    requires f0 == e + (0 - b) * g
    ensures e * d + -b * (d * g) == d * f0
  {
    assert d * (e + (0 - b) * g) == e * d - b * (d * g);
  }

  /** Interpolation: for every integer polynomial with no more coefficients than indices,
      the scaled coefficients give n! * F(0). */
  lemma {:induction false} Interpolation(idx: seq<int>, n: nat, f: seq<int>)
    requires PartyIndices(idx, n) && idx != [] && |f| <= |idx|
    ensures Dot(Weights(idx, n), Values(idx, f)) == Factorial(n) * Eval(f, 0)
    decreases |f|
  {
    if f == [] {
      DotWithZeros(Weights(idx, n), Values(idx, f));
    } else if |idx| == 1 {
      SingleWeight(idx, n);
      var vs := Values(idx, f);
      assert f[1..] == [] && vs[1..] == [];
      assert Eval(f, idx[0]) == f[0] + idx[0] * Eval([], idx[0]) == f[0];
      assert Eval(f, 0) == f[0];
    } else {
      var t := |idx| - 1;
      var b, g := idx[t], Deflate(f, idx[t]);
      WeightSum(idx, n);
      Interpolation(idx[..t], n, g);
      ShedLast(idx, n);
      forall k | 0 <= k < t
        ensures Divided(Values(idx, f)[k], Eval(f, b), idx[k], b, Values(idx[..t], g)[k])
      {
        DeflateCorrect(f, b, idx[k]);
      }
      SplitSum(idx, Weights(idx, n), Values(idx, f), Weights(idx[..t], n), Values(idx[..t], g),
               Eval(f, b), b);
      DeflateCorrect(f, b, 0);
      SplitFactorial(Eval(f, b), Factorial(n), b, Eval(g, 0), Eval(f, 0));
    }
  }

  // ---- the loops -----------------------------------------------------------------------

  lemma FactorialStep(i: nat)
    requires i > 0
    ensures Factorial(i) == Factorial(i - 1) * i
  {
  }

  /** `factorial` */
  method ComputeFactorial(n: nat) returns (delta: nat)
    ensures delta == Factorial(n)
  {
    delta := 1;
    assert Factorial(1) == 1 * Factorial(0) == 1;
    for i := 2 to if n < 2 then 2 else n + 1
      invariant delta == Factorial(i - 1)
    {
      FactorialStep(i);
      delta := delta * i;
    }
  }

  lemma PartialStep(idx: seq<int>, k: nat, delta: int, j: nat)
    requires k < |idx| && j < |idx| && j != k
    requires forall i :: 0 <= i < |idx| && i != k ==> idx[i] != idx[k]
    ensures Partial(idx, k, delta, j + 1)
            == TruncDiv(Partial(idx, k, delta, j), idx[k] - idx[j]) * -idx[j]
  {
  }

  /** `coeff /= diff`, only ever applied where no remainder is lost. */
  method ExactDivide(a: int, b: int) returns (q: int)
    requires b != 0 && a % b == 0
    ensures q == TruncDiv(a, b) && q * b == a
  {
    q := TruncDiv(a, b);
    ExactTrunc(a, b);
  }

  lemma ExactTrunc(a: int, b: int)
    requires b != 0 && a % b == 0
    ensures TruncDiv(a, b) * b == a
  {
    assert a == (a / b) * b;
    TruncDivExact(a / b, b);
  }

  /** `lagrange_coefficients_delta` with delta = n!: index and coefficient, in input order. */
  method LagrangeCoefficients(idx: seq<int>, n: nat, delta: int) returns (r: seq<(int, int)>)
    requires PartyIndices(idx, n) && delta == Factorial(n)
    ensures |r| == |idx|
    ensures forall k :: 0 <= k < |r| ==> r[k] == (idx[k], Coefficient(idx, k, n))
  {
    r := [];
    for k := 0 to |idx|
      invariant |r| == k
      invariant forall i :: 0 <= i < k ==> r[i] == (idx[i], Coefficient(idx, i, n))
    {
      var coeff := delta;
      for j := 0 to |idx|
        invariant coeff == Partial(idx, k, delta, j)
      {
        if j != k {
          EveryStepExact(idx, k, n, j);
          PartialStep(idx, k, delta, j);
          coeff := ExactDivide(coeff, idx[k] - idx[j]);
          coeff := coeff * -idx[j];
        }
      }
      r := r + [(idx[k], coeff)];
    }
  }
}
