/** The Rice code btw.h uses for one sample difference, and the reading of
    it back out of a bit string. */
module Rice {
  import opened BitSeq
  import opened Numbers
  import opened Options

  /** The codeword btw_encode writes for difference `d` with Rice parameter
      `k`: a sign bit (set when `d` is negative), the quotient |d| >> k as
      that many one bits, a zero bit ending them, then the `k` low bits of
      |d|. Its length is what makes the parameter choice pay off. */
  function Codeword(d: int, k: nat): (r: seq<bool>)
    ensures |r| == 2 + Shr(Abs(d), k) + k
  {
    [d < 0] + Ones(Shr(Abs(d), k)) + [false] + NumberBits(Abs(d), k)
  }

  /** How many one bits follow position `p` before the first zero bit (or
      the end of the string): the loop `while (grab_bit(...))`. */
  function Unary(bs: seq<bool>, p: nat): (q: nat)
    requires p <= |bs|
    ensures p + q <= |bs|
    decreases |bs| - p
  {
    if p < |bs| && bs[p] then 1 + Unary(bs, p + 1) else 0
  }

  /** What btw_decode makes of the bits at `at`: the sign bit, `1 << k`
      added once per one bit, the `k` remainder bits OR-ed in, and the sign
      applied. The difference and the position after it; None where the
      reading would leave the string. */
  function ReadCode(bs: seq<bool>, at: nat, k: nat): (r: Option<(int, nat)>)
    ensures r.Some? ==> at + 2 + k <= r.value.1 <= |bs|
  {
    if at >= |bs| then None
    else
      var q := Unary(bs, at + 1);
      var stop := at + 1 + q;
      if stop + 1 + k > |bs| then None
      else
        var mag: int := BitOr(Shl(q, k), Field(bs, stop + 1, k));
        var d: int := if bs[at] then -mag else mag;
        Some((d, stop + 1 + k))
  }

  /** A run of `n` one bits ended by a zero bit reads as `n`. */
  lemma {:induction false} UnaryOf(bs: seq<bool>, p: nat, n: nat)
    requires p + n < |bs| && bs[p .. p + n] == Ones(n) && !bs[p + n]
    ensures Unary(bs, p) == n
    decreases n
  {
    if n > 0 {
      assert bs[p] == bs[p .. p + n][0];
      assert bs[p + 1 .. p + n] == Ones(n - 1) by {
        assert bs[p + 1 .. p + n] == bs[p .. p + n][1..];
      }
      UnaryOf(bs, p + 1, n - 1);
    }
  }

  /** The quotient and remainder of a codeword put |d| back together. */
  lemma Magnitude(m: nat, k: nat)
    ensures BitOr(Shl(Shr(m, k), k), FromBits(NumberBits(m, k))) == m
  {
    FromNumberBits(m, k);
    ShlShr(m, k);
    BitOrDisjoint(Shr(m, k), k, FromBits(NumberBits(m, k)));
  }

  /** Appending a codeword part by part, as the encoder does. */
  lemma AppendCodeword(w: seq<bool>, d: int, k: nat)
    ensures w + Codeword(d, k) == w + [d < 0] + Ones(Shr(Abs(d), k)) + [false] + NumberBits(Abs(d), k)
  {
    var a, b, c, e := [d < 0], Ones(Shr(Abs(d), k)), [false], NumberBits(Abs(d), k);
    assert Codeword(d, k) == a + b + c + e;
    assert w + (a + b + c + e) == w + a + b + c + e;
  }

  /** The four parts of a codeword. */
  lemma CodewordParts(d: int, k: nat)
    ensures var c, q := Codeword(d, k), Shr(Abs(d), k);
      c[0] == (d < 0) && c[1 .. 1 + q] == Ones(q) && !c[1 + q] && c[2 + q ..] == NumberBits(Abs(d), k)
  {
    var c, q := Codeword(d, k), Shr(Abs(d), k);
    assert c == [d < 0] + Ones(q) + [false] + NumberBits(Abs(d), k);
  }

  /** The decoder's reading when the one bits after the sign bit number
      `q` and the `k` bits after their zero bit are worth `r`. */
  lemma ReadParts(bs: seq<bool>, at: nat, k: nat, q: nat, r: nat, m: nat)
    requires at + 2 + q + k <= |bs| && Unary(bs, at + 1) == q
    requires Field(bs, at + 2 + q, k) == r && BitOr(Shl(q, k), r) == m
    ensures ReadCode(bs, at, k) == Some((if bs[at] then -(m as int) else m, at + 2 + q + k))
  {
  }

  /** A bit of a window is that bit of `bs`. */
  lemma BitOfWindow(bs: seq<bool>, at: nat, c: seq<bool>, i: nat)
    requires at + |c| <= |bs| && bs[at .. at + |c|] == c && i < |c|
    ensures bs[at + i] == c[i]
  {
    assert bs[at + i] == bs[at .. at + |c|][i];
  }

  /** The run of ones in a codeword-shaped window `c` at `at` is the one
      the decoder counts. */
  lemma RunSeen(bs: seq<bool>, at: nat, c: seq<bool>, q: nat)
    requires 2 + q <= |c| && at + |c| <= |bs| && bs[at .. at + |c|] == c
    requires c[1 .. 1 + q] == Ones(q) && !c[1 + q]
    ensures Unary(bs, at + 1) == q
  {
    WindowOfWindow(bs, at, |c|, c, 1, q);
    BitOfWindow(bs, at, c, 1 + q);
    UnaryOf(bs, at + 1, q);
  }

  /** A codeword-shaped window `c` at `at` reads as the signed `m`. */
  lemma ReadWindow(bs: seq<bool>, at: nat, c: seq<bool>, sign: bool, q: nat, k: nat, m: nat)
    requires |c| == 2 + q + k && at + |c| <= |bs| && bs[at .. at + |c|] == c && q == Shr(m, k)
    requires c[0] == sign && c[1 .. 1 + q] == Ones(q) && !c[1 + q] && c[2 + q ..] == NumberBits(m, k)
    ensures ReadCode(bs, at, k) == Some((if sign then -(m as int) else m, at + |c|))
  {
    BitOfWindow(bs, at, c, 0);
    RunSeen(bs, at, c, q);
    WindowOfWindow(bs, at, |c|, c, 2 + q, k);
    assert c[2 + q .. 2 + q + k] == c[2 + q ..];
    FieldIsFromBits(bs, at + 2 + q, k);
    Magnitude(m, k);
    ReadParts(bs, at, k, q, FromBits(NumberBits(m, k)), m);
  }

  /** The decoder reads back every codeword the encoder writes, wherever it
      sits in the string, and stops right after it. */
  lemma ReadCodeword(bs: seq<bool>, at: nat, d: int, k: nat)
    requires at + |Codeword(d, k)| <= |bs| && bs[at .. at + |Codeword(d, k)|] == Codeword(d, k)
    ensures ReadCode(bs, at, k) == Some((d, at + |Codeword(d, k)|))
  {
    CodewordParts(d, k);
    ReadWindow(bs, at, Codeword(d, k), d < 0, Shr(Abs(d), k), k, Abs(d));
  }
}
