/** The two integer helpers of btw.h: BTW_abs and bits_required. */
module Numbers {
  import opened BitSeq

  /** BTW_abs: the magnitude of a difference between samples. */
  function Abs(n: int): (r: nat)
    ensures r == n || r == -n
  {
    if n >= 0 then n else n * -1
  }

  /** floor(log2 n), with 0 for 0 and 1: the number of times `n` can be
      halved before it reaches 1. */
  function Log2Floor(n: nat): (r: nat)
  {
    if n <= 1 then 0 else 1 + Log2Floor(n / 2)
  }

  /** bits_required: shift the number right until nothing is left and count
      the shifts that left something. The source takes a `long long`; a
      negative one never shifts down to 0, so only non-negative ones are
      meaningful. */
  method BitsRequired(number: nat) returns (r: nat)
    ensures r == Log2Floor(number)
  {
    r := 0;
    var n: nat := number / 2;
    while n != 0
      invariant Log2Floor(number) == r + if n == 0 then 0 else 1 + Log2Floor(n)
      decreases n
    {
      r := r + 1;
      n := n / 2;
    }
  }

  /** What bits_required promises: `r` is the exponent of the highest
      power of two not above `n`. */
  lemma {:induction false} Log2FloorBounds(n: nat)
    requires n >= 1
    ensures Pow2(Log2Floor(n)) <= n < Pow2(Log2Floor(n) + 1)
  {
    if n > 1 {
      Log2FloorBounds(n / 2);
    }
  }

  /** ... and that exponent is the only one with this property. */
  lemma Log2FloorUnique(n: nat, r: nat)
    requires Pow2(r) <= n < Pow2(r + 1)
    ensures Log2Floor(n) == r
  {
    Log2FloorBounds(n);
    var l := Log2Floor(n);
    if l < r {
      Pow2Monotone(l + 1, r);
    } else if r < l {
      Pow2Monotone(r + 1, l);
    }
  }

  lemma {:induction false} Pow2Monotone(a: nat, b: nat)
    requires a <= b
    ensures Pow2(a) <= Pow2(b)
    decreases b
  {
    if a < b {
      Pow2Monotone(a, b - 1);
    }
  }

  /** `a | b` on non-negative numbers, bit by bit from the lowest. */
  function BitOr(a: nat, b: nat): (r: nat)
    decreases a + b
  {
    if a == 0 then b
    else if b == 0 then a
    else 2 * BitOr(a / 2, b / 2) + (if a % 2 == 1 || b % 2 == 1 then 1 else 0)
  }

  /** OR-ing a number below 2^k into a multiple of 2^k adds it: the two
      occupy disjoint bits. */
  lemma {:induction false} BitOrDisjoint(q: nat, k: nat, r: nat)
    requires r < Pow2(k)
    ensures BitOr(Shl(q, k), r) == Shl(q, k) + r
    decreases k
  {
    if k > 0 && Shl(q, k) != 0 && r != 0 {
      BitOrDisjoint(q, k - 1, r / 2);
    }
  }
}
