/** Shifts and bit lengths of non-negative big integers. */
module Bits {
  import opened Congruence

  function TwoPow(e: nat): (r: nat)
    ensures r >= 1
  {
    if e == 0 then 1 else 2 * TwoPow(e - 1)
  }

  /** n >> i */
  function Shift(n: nat, i: nat): nat {
    if i == 0 then n else Shift(n / 2, i - 1)
  }

  /** `get_bit` */
  predicate Bit(n: nat, i: nat) {
    Shift(n, i) % 2 == 1
  }

  /** `significant_bits` */
  function BitLength(n: nat): nat {
    if n == 0 then 0 else 1 + BitLength(n / 2)
  }

  lemma {:induction false} ShiftAdd(n: nat, i: nat, j: nat)
    ensures Shift(n, i + j) == Shift(Shift(n, i), j)
  {
    if i > 0 {
      ShiftAdd(n / 2, i - 1, j);
    }
  }

  /** One more bit: what a most-significant-first loop reads. */
  lemma ShiftStep(n: nat, i: nat)
    ensures Shift(n, i) == 2 * Shift(n, i + 1) + if Bit(n, i) then 1 else 0
  {
    ShiftAdd(n, i, 1);
    assert Shift(Shift(n, i), 1) == Shift(n, i) / 2;
  }

  /** The same with every bit weighted by w. */
  lemma WeightedBit(n: nat, i: nat, w: int)
    ensures w * Shift(n, i) == (2 * w) * Shift(n, i + 1) + if Bit(n, i) then w else 0
  {
    ShiftStep(n, i);
    Regroup(w, 2, Shift(n, i + 1));
    Distribute(w, 2 * Shift(n, i + 1), if Bit(n, i) then 1 else 0);
  }

  lemma {:induction false} ShiftBeyond(n: nat, i: nat)
    requires i >= BitLength(n)
    ensures Shift(n, i) == 0
  {
    if i > 0 {
      ShiftBeyond(n / 2, i - 1);
    }
  }

  lemma {:induction false} TopBit(n: nat)
    requires n > 0
    ensures BitLength(n) >= 1 && Shift(n, BitLength(n) - 1) == 1
  {
    if n > 1 {
      TopBit(n / 2);
    }
  }

  lemma {:induction false} TwoPowIsPow(e: nat)
    ensures TwoPow(e) == Pow(2, e)
  {
    if e > 0 {
      TwoPowIsPow(e - 1);
    }
  }

  lemma {:induction false} TwoPowMonotone(x: nat, y: nat)
    requires x <= y
    ensures TwoPow(x) <= TwoPow(y)
  {
    if x < y {
      TwoPowMonotone(x, y - 1);
    }
  }

  lemma {:induction false} TwoPowAdd(x: nat, y: nat)
    ensures TwoPow(x + y) == TwoPow(x) * TwoPow(y)
  {
    if x > 0 {
      TwoPowAdd(x - 1, y);
    }
  }
}
