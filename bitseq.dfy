/** Bit strings, least-significant bit first: the mathematical view of every
    number the codec writes into or reads out of a byte buffer. */
module BitSeq {

  function Pow2(n: nat): (r: nat)
    ensures r >= 1
  {
    if n == 0 then 1 else 2 * Pow2(n - 1)
  }

  /** `n >> k` on a non-negative number. */
  function Shr(n: nat, k: nat): (r: nat)
    ensures r <= n
  {
    if k == 0 then n else Shr(n / 2, k - 1)
  }

  /** `n << k` on non-negative numbers. */
  function Shl(n: nat, k: nat): nat
  {
    if k == 0 then n else 2 * Shl(n, k - 1)
  }

  /** The low `w` bits of `n`, least-significant first. */
  function NumberBits(n: nat, w: nat): (r: seq<bool>)
    ensures |r| == w
  {
    if w == 0 then [] else [n % 2 == 1] + NumberBits(n / 2, w - 1)
  }

  /** The number whose binary digits, least-significant first, are `s`. */
  function FromBits(s: seq<bool>): (r: nat)
    ensures r < Pow2(|s|)
  {
    if |s| == 0 then 0 else (if s[0] then 1 else 0) + 2 * FromBits(s[1..])
  }

  /** The `k` bits of `bs` from position `from` on, least-significant
      first, as a number: FromBits of that window, counted in place. */
  function Field(bs: seq<bool>, from: nat, k: nat): nat
    requires from + k <= |bs|
    decreases k
  {
    if k == 0 then 0 else (if bs[from] then 1 else 0) + 2 * Field(bs, from + 1, k - 1)
  }

  lemma {:induction false} FieldIsFromBits(bs: seq<bool>, from: nat, k: nat)
    requires from + k <= |bs|
    ensures Field(bs, from, k) == FromBits(bs[from .. from + k])
    decreases k
  {
    if k > 0 {
      FieldIsFromBits(bs, from + 1, k - 1);
      assert bs[from .. from + k][1..] == bs[from + 1 .. from + k];
    }
  }

  function Ones(n: nat): (r: seq<bool>)
    ensures |r| == n
  {
    seq(n, _ => true)
  }

  function Zeros(n: nat): (r: seq<bool>)
    ensures |r| == n
  {
    seq(n, _ => false)
  }

  // ---------------------------------------------------------------------
  // Division facts the solver does not find on its own.

  lemma DivModUnique(n: int, d: int, q: int, r: int)
    requires d > 0 && 0 <= r < d && n == d * q + r
    ensures n / d == q && n % d == r
  {
    var q0, r0 := n / d, n % d;
    assert d * (q - q0) == r0 - r by {
      assert d * q - d * q0 == d * (q - q0);
    }
    if q != q0 {
      MulNonZero(d, q - q0);
      assert false;
    }
  }

  lemma MulNonZero(d: int, k: int)
    requires d > 0 && k != 0
    ensures d * k >= d || d * k <= -d
  {
    if k > 0 {
      MulAtLeast(d, k);
    } else {
      MulAtLeast(d, -k);
      assert d * k == -(d * -k);
    }
  }

  lemma {:induction false} MulAtLeast(d: nat, k: nat)
    requires k >= 1
    ensures d * k >= d
    decreases k
  {
    if k > 1 {
      MulAtLeast(d, k - 1);
      assert d * k == d * (k - 1) + d;
    }
  }

  /** Halving, then dividing by `m`, is dividing by `2 * m`; and the
      remainder modulo `2 * m` splits into its low bit and the rest. */
  lemma HalfDivMod(n: nat, m: nat)
    requires m > 0
    ensures n / 2 / m == n / (2 * m)
    ensures n % (2 * m) % 2 == n % 2
    ensures n % (2 * m) / 2 == n / 2 % m
  {
    var h, b := n / 2, n % 2;
    var q, r := h / m, h % m;
    assert n == 2 * m * q + (2 * r + b);
    DivModUnique(n, 2 * m, q, 2 * r + b);
  }

  // ---------------------------------------------------------------------
  // Shifts.

  lemma {:induction false} ShrAdd(n: nat, a: nat, b: nat)
    ensures Shr(Shr(n, a), b) == Shr(n, a + b)
    decreases a
  {
    if a > 0 {
      ShrAdd(n / 2, a - 1, b);
    }
  }

  lemma {:induction false} ShrIsDiv(n: nat, k: nat)
    ensures Shr(n, k) == n / Pow2(k)
    decreases k
  {
    if k > 0 {
      ShrIsDiv(n / 2, k - 1);
      HalfDivMod(n, Pow2(k - 1));
    }
  }

  /** Shifting `k` bits out and back in clears the low `k` bits. */
  lemma {:induction false} ShlShr(n: nat, k: nat)
    ensures Shl(Shr(n, k), k) + n % Pow2(k) == n
    decreases k
  {
    if k > 0 {
      ShlShr(n / 2, k - 1);
      HalfDivMod(n, Pow2(k - 1));
    }
  }

  lemma {:induction false} ShlIsMul(n: nat, k: nat)
    ensures Shl(n, k) == n * Pow2(k)
    decreases k
  {
    if k > 0 {
      ShlIsMul(n, k - 1);
      assert n * Pow2(k) == 2 * (n * Pow2(k - 1));
    }
  }

  /** One more `1 << k` added to a shifted number shifts its successor. */
  lemma ShlSucc(n: nat, k: nat)
    ensures Shl(n + 1, k) == Shl(n, k) + Pow2(k)
  {
    ShlIsMul(n + 1, k);
    ShlIsMul(n, k);
    assert (n + 1) * Pow2(k) == n * Pow2(k) + Pow2(k);
  }

  // ---------------------------------------------------------------------
  // NumberBits and FromBits are inverse to each other.

  /** The low `a + b` bits are the low `a` bits followed by the low `b`
      bits of what is left after shifting `a` bits out. */
  lemma {:induction false} NumberBitsSplit(n: nat, a: nat, b: nat)
    ensures NumberBits(n, a + b) == NumberBits(n, a) + NumberBits(Shr(n, a), b)
    decreases a
  {
    if a > 0 {
      NumberBitsSplit(n / 2, a - 1, b);
    }
  }

  lemma {:induction false} FromBitsAppend(s: seq<bool>, t: seq<bool>)
    ensures FromBits(s + t) == FromBits(s) + Pow2(|s|) * FromBits(t)
    decreases |s|
  {
    if |s| == 0 {
      assert s + t == t;
    } else {
      ConsAppend(s, t);
      FromBitsAppend(s[1..], t);
      AppendStep(if s[0] then 1 else 0, FromBits(s[1..]), Pow2(|s| - 1), FromBits(t));
    }
  }

  lemma ConsAppend(s: seq<bool>, t: seq<bool>)
    requires |s| > 0
    ensures (s + t)[0] == s[0] && (s + t)[1..] == s[1..] + t
  {
  }

  lemma AppendStep(b: int, a: int, p: int, f: int)
    ensures b + 2 * (a + p * f) == (b + 2 * a) + (2 * p) * f
  {
    DoubleMul(p, f);
  }

  /** The value of a window is that of its two halves. */
  lemma FromBitsWindow(bs: seq<bool>, i: nat, d: nat, m: nat)
    requires i + d + m <= |bs|
    ensures FromBits(bs[i .. i + d + m]) == FromBits(bs[i .. i + d]) + Pow2(d) * FromBits(bs[i + d .. i + d + m])
  {
    var a, b, ab := bs[i .. i + d], bs[i + d .. i + d + m], bs[i .. i + d + m];
    assert ab == a + b;
    FromBitsAppend(a, b);
  }

  lemma {:induction false} FromBitsZeros(n: nat)
    ensures FromBits(Zeros(n)) == 0
  {
    if n > 0 {
      assert Zeros(n)[1..] == Zeros(n - 1);
      FromBitsZeros(n - 1);
    }
  }

  /** Zeros appended at the top do not change a value. */
  lemma FromBitsPadded(s: seq<bool>, n: nat)
    ensures FromBits(s + Zeros(n)) == FromBits(s)
  {
    FromBitsAppend(s, Zeros(n));
    FromBitsZeros(n);
  }

  lemma ValueOfPadded(b: seq<bool>, s: seq<bool>, n: nat, v: nat)
    requires b == s + Zeros(n) && FromBits(b) == v
    ensures v == FromBits(s)
  {
    FromBitsPadded(s, n);
  }

  /** `n` is its low `w` bits plus `2^w` times the rest. */
  lemma DoubleMul(p: int, h: int)
    ensures (2 * p) * h == 2 * (p * h)
  {
  }

  /** Reading back `w` written bits yields the number modulo `2^w`. */
  lemma {:induction false} FromNumberBits(n: nat, w: nat)
    ensures FromBits(NumberBits(n, w)) == n % Pow2(w)
    decreases w
  {
    if w > 0 {
      FromNumberBits(n / 2, w - 1);
      HalfDivMod(n, Pow2(w - 1));
      var s := NumberBits(n, w);
      assert s[0] == (n % 2 == 1) && s[1..] == NumberBits(n / 2, w - 1);
    }
  }

  /** Writing back the value of a bit string of width `|s|` reproduces it. */
  lemma {:induction false} NumberBitsFromBits(s: seq<bool>)
    ensures NumberBits(FromBits(s), |s|) == s
    decreases |s|
  {
    if |s| > 0 {
      var v := FromBits(s);
      assert v % 2 == (if s[0] then 1 else 0) && v / 2 == FromBits(s[1..]);
      NumberBitsFromBits(s[1..]);
    }
  }

  /** Only the low `w` bits of `n` matter to NumberBits(n, w). */
  lemma {:induction false} NumberBitsMod(n: nat, w: nat)
    ensures NumberBits(n % Pow2(w), w) == NumberBits(n, w)
    decreases w
  {
    if w > 0 {
      HalfDivMod(n, Pow2(w - 1));
      NumberBitsMod(n / 2, w - 1);
    }
  }

  /** Zero written in any width is all clear bits. */
  lemma {:induction false} NumberBitsZero(w: nat)
    ensures NumberBits(0, w) == Zeros(w)
  {
    if w > 0 {
      NumberBitsZero(w - 1);
      assert Zeros(w) == [false] + Zeros(w - 1);
    }
  }

  // ---------------------------------------------------------------------
  // Overwriting a stretch of a bit string.

  /** `s` with the bits from `at` on replaced by `t`. */
  function Splice(s: seq<bool>, at: nat, t: seq<bool>): (r: seq<bool>)
    requires at + |t| <= |s|
    ensures |r| == |s|
  {
    s[..at] + t + s[at + |t|..]
  }

  /** Splicing over the middle part of a three-part string. */
  lemma SpliceMiddle(a: seq<bool>, b: seq<bool>, c: seq<bool>, t: seq<bool>)
    requires |b| == |t|
    ensures Splice(a + b + c, |a|, t) == a + t + c
  {
    var s := a + b + c;
    assert s[..|a|] == a && s[|a| + |t|..] == c;
  }

  lemma SpliceParts(s: seq<bool>, at: nat, t: seq<bool>)
    requires at + |t| <= |s|
    ensures Splice(s, at, t)[..at] == s[..at]
    ensures Splice(s, at, t)[at .. at + |t|] == t
    ensures Splice(s, at, t)[at + |t|..] == s[at + |t|..]
  {
  }

  /** Two adjacent overwrites are one overwrite with the concatenation. */
  lemma SpliceTwice(s: seq<bool>, at: nat, t: seq<bool>, u: seq<bool>)
    requires at + |t| + |u| <= |s|
    ensures Splice(Splice(s, at, t), at + |t|, u) == Splice(s, at, t + u)
  {
    var a := Splice(Splice(s, at, t), at + |t|, u);
    var b := Splice(s, at, t + u);
    forall i | 0 <= i < |s|
      ensures a[i] == b[i]
    {
      if i < at {
      } else if i < at + |t| {
        assert b[i] == (t + u)[i - at];
      } else if i < at + |t| + |u| {
        assert b[i] == (t + u)[i - at];
      }
    }
  }

  /** Overwriting inside the window s[a .. a + n], as seen from the window,
      is overwriting in `s`. */
  lemma SpliceInner(s: seq<bool>, a: nat, n: nat, k: nat, t: seq<bool>)
    requires a + n <= |s| && k + |t| <= n
    ensures Splice(s, a, Splice(s[a .. a + n], k, t)) == Splice(s, a + k, t)
  {
    var w := Splice(s[a .. a + n], k, t);
    var x := Splice(s, a, w);
    var y := Splice(s, a + k, t);
    forall i | 0 <= i < |s|
      ensures x[i] == y[i]
    {
      SpliceAt(s, a, w, i);
      SpliceAt(s, a + k, t, i);
      if a <= i < a + n {
        SpliceAt(s[a .. a + n], k, t, i - a);
      }
    }
  }

  /** A bit inside a stretch of zeros is clear. */
  lemma ZeroInWindow(s: seq<bool>, a: nat, b: nat, i: nat)
    requires a <= i < b <= |s| && s[a .. b] == Zeros(b - a)
    ensures !s[i]
  {
    assert s[a .. b][i - a] == s[i];
  }

  /** One bit of a splice. */
  lemma SpliceAt(s: seq<bool>, at: nat, t: seq<bool>, i: nat)
    requires at + |t| <= |s| && i < |s|
    ensures Splice(s, at, t)[i] == if at <= i < at + |t| then t[i - at] else s[i]
  {
  }

  /** A stretch of zeros has zeros in every sub-stretch. */
  lemma ZerosWithin(s: seq<bool>, a: nat, b: nat, i: nat, j: nat)
    requires a <= i <= j <= b <= |s| && s[a..b] == Zeros(b - a)
    ensures s[i..j] == Zeros(j - i)
  {
    forall l | 0 <= l < j - i
      ensures s[i..j][l] == false
    {
      assert s[i..j][l] == s[a..b][i - a + l];
    }
  }

  lemma OnesAppend(a: nat, b: nat)
    ensures Ones(a) + Ones(b) == Ones(a + b)
  {
  }

  lemma SpliceOne(s: seq<bool>, i: nat, v: bool)
    requires i < |s|
    ensures Splice(s, i, [v]) == s[i := v]
  {
  }

  lemma SpliceEmpty(s: seq<bool>, at: nat)
    requires at <= |s|
    ensures Splice(s, at, []) == s
  {
  }

  /** What an overwrite of the first `|t|` bits of a zero stretch leaves
      of that stretch is still zero. */
  lemma SpliceLeavesZeros(s: seq<bool>, at: nat, n: nat, t: seq<bool>)
    requires at + n <= |s| && |t| <= n && s[at .. at + n] == Zeros(n)
    ensures Splice(s, at, t)[at + |t| .. at + n] == Zeros(n - |t|)
  {
    SpliceParts(s, at, t);
    assert Splice(s, at, t)[at + |t| .. at + n] == s[at + |t| .. at + n];
    ZerosWithin(s, at, at + n, at + |t|, at + n);
  }

  /** SpliceInner, for a window and an overwritten window given by name. */
  lemma SpliceWindow(s: seq<bool>, a: nat, n: nat, w: seq<bool>, k: nat, t: seq<bool>, w': seq<bool>)
    requires a + n <= |s| && k + |t| <= n
    requires s[a .. a + n] == w && w' == Splice(w, k, t)
    ensures Splice(s, a, w') == Splice(s, a + k, t)
  {
    SpliceInner(s, a, n, k, t);
  }

  lemma SliceOfShifted(s: seq<bool>, k: nat, m: nat)
    requires k + m <= |s|
    ensures (s[k..] + Zeros(k))[..m] == s[k .. k + m]
  {
  }

  /** Bits `n` wide at `at` were clear and `t` was spliced over their
      start: the `m` bits right after `t` are still clear. */
  lemma ClearAhead(b0: seq<bool>, at: nat, n: nat, t: seq<bool>, bs: seq<bool>, m: nat)
    requires at + n <= |b0| && |t| + m <= n && b0[at .. at + n] == Zeros(n)
    requires bs == Splice(b0, at, t)
    ensures bs[at + |t| .. at + |t| + m] == Zeros(m)
  {
    SpliceLeavesZeros(b0, at, n, t);
    ZerosWithin(bs, at + |t|, at + n, at + |t|, at + |t| + m);
  }

  /** A window of a window `w` of `bs` is a window of `bs`. */
  lemma WindowOfWindow(bs: seq<bool>, a: nat, n: nat, w: seq<bool>, k: nat, m: nat)
    requires a + n <= |bs| && bs[a .. a + n] == w && k + m <= n
    ensures w[k .. k + m] == bs[a + k .. a + k + m]
  {
    var u, v := w[k .. k + m], bs[a + k .. a + k + m];
    forall i | 0 <= i < m
      ensures u[i] == v[i]
    {
      assert w[k + i] == bs[a .. a + n][k + i];
    }
    assert u == v;
  }

  /** Writing the next `m` bits of `number` after its low `d` bits extends
      the written prefix to `d + m` bits. */
  lemma NumberAdvance(b0: seq<bool>, at: nat, number: nat, d: nat, m: nat, bs: seq<bool>, bs': seq<bool>)
    requires at + d + m <= |b0|
    requires bs == Splice(b0, at, NumberBits(number, d))
    requires bs' == Splice(bs, at + d, NumberBits(Shr(number, d), m))
    ensures bs' == Splice(b0, at, NumberBits(number, d + m))
  {
    SpliceTwice(b0, at, NumberBits(number, d), NumberBits(Shr(number, d), m));
    NumberBitsSplit(number, d, m);
  }
}
