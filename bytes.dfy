/** Bytes (`unsigned char` in the source) as `bv8`, and the bit string a byte
    buffer holds: byte `p` supplies bits 8p .. 8p+7, least-significant first,
    which is the order in which the cursor fills and drains a byte. */
module Bytes {
  import opened BitSeq

  /** The eight bits of a byte, least-significant first. */
  function ByteBits(x: bv8): (r: seq<bool>)
    ensures |r| == 8
  {
    LowBits(x, 8)
  }

  /** The low `w` bits of a byte, least-significant first. */
  function LowBits(x: bv8, w: nat): (r: seq<bool>)
    ensures |r| == w
  {
    if w == 0 then [] else [x & 1 == 1] + LowBits(x >> 1, w - 1)
  }

  /** The bit string a buffer holds: byte 0 supplies the first eight bits. */
  function BitsOf(s: seq<bv8>): (r: seq<bool>)
    ensures |r| == 8 * |s|
  {
    if |s| == 0 then [] else ByteBits(s[0]) + BitsOf(s[1..])
  }

  /** The conversion `(unsigned char) n` of a non-negative number. */
  function Low8(n: nat): bv8
  {
    (n % 256) as bv8
  }

  /** Bit `j` (0 = least significant) of a byte, on the byte itself: the low
      bit after `j` shifts to the right. */
  predicate ByteBit(x: bv8, j: nat)
    requires j < 8
  {
    if j == 0 then x & 1 == 1 else ByteBit(x >> 1, j - 1)
  }

  // ---------------------------------------------------------------------
  // The bit string of a buffer, byte by byte.

  lemma {:induction false} BitsOfAppend(s: seq<bv8>, t: seq<bv8>)
    ensures BitsOf(s + t) == BitsOf(s) + BitsOf(t)
    decreases |s|
  {
    if |s| == 0 {
      assert s + t == t;
    } else {
      assert (s + t)[0] == s[0] && (s + t)[1..] == s[1..] + t;
      BitsOfAppend(s[1..], t);
    }
  }

  lemma BitsOfOne(x: bv8)
    ensures BitsOf([x]) == ByteBits(x)
  {
    assert [x][1..] == [];
  }

  /** A cleared buffer holds only clear bits. */
  lemma {:induction false} BitsOfZeros(s: seq<bv8>)
    requires forall i | 0 <= i < |s| :: s[i] == 0
    ensures BitsOf(s) == Zeros(8 * |s|)
    decreases |s|
  {
    if |s| > 0 {
      NumberBitsZero(8);
      BitsOfZeros(s[1..]);
      assert Zeros(8 * |s|) == Zeros(8) + Zeros(8 * |s[1..]|);
    }
  }

  /** Buffers of one length with the same bits are the same. */
  lemma {:induction false} BitsOfInjective(s: seq<bv8>, t: seq<bv8>)
    requires |s| == |t| && BitsOf(s) == BitsOf(t)
    ensures s == t
    decreases |s|
  {
    if |s| > 0 {
      assert BitsOf(s)[..8] == ByteBits(s[0]) && BitsOf(s)[8..] == BitsOf(s[1..]);
      assert BitsOf(t)[..8] == ByteBits(t[0]) && BitsOf(t)[8..] == BitsOf(t[1..]);
      ByteBitsInjective(s[0], t[0]);
      BitsOfInjective(s[1..], t[1..]);
      assert s == [s[0]] + s[1..] && t == [t[0]] + t[1..];
    }
  }

  /** A buffer whose bits start with those of `bytes` starts with `bytes`. */
  lemma BytesFromBits(data: seq<bv8>, bytes: seq<bv8>)
    requires |bytes| <= |data| && BitsOf(data)[..8 * |bytes|] == BitsOf(bytes)
    ensures data[..|bytes|] == bytes
  {
    var n := |bytes|;
    assert data == data[..n] + data[n..];
    BitsOfAppend(data[..n], data[n..]);
    BitsOfInjective(data[..n], bytes);
  }

  /** Byte `p` of a buffer sits between the bits of the bytes before and
      after it. */
  lemma BitsOfAround(s: seq<bv8>, p: nat)
    requires p < |s|
    ensures BitsOf(s) == BitsOf(s[..p]) + ByteBits(s[p]) + BitsOf(s[p + 1..])
  {
    SplitAt(s, p);
    BitsOfThree(s[..p], s[p], s[p + 1..]);
  }

  lemma SplitAt(s: seq<bv8>, p: nat)
    requires p < |s|
    ensures s == s[..p] + [s[p]] + s[p + 1..]
  {
  }

  lemma BitsOfThree(a: seq<bv8>, x: bv8, t: seq<bv8>)
    ensures BitsOf(a + [x] + t) == BitsOf(a) + ByteBits(x) + BitsOf(t)
  {
    BitsOfAppend(a + [x], t);
    BitsOfAppend(a, [x]);
    BitsOfOne(x);
  }

  lemma BitsOfByte(s: seq<bv8>, p: nat)
    requires p < |s|
    ensures BitsOf(s)[8 * p .. 8 * p + 8] == ByteBits(s[p])
  {
    BitsOfAround(s, p);
  }

  /** Storing byte `x` at index `p` replaces exactly bits 8p .. 8p+7. */
  lemma BitsOfUpdate(s: seq<bv8>, p: nat, x: bv8)
    requires p < |s|
    ensures BitsOf(s[p := x]) == Splice(BitsOf(s), 8 * p, ByteBits(x))
  {
    var u := s[p := x];
    BitsOfAround(s, p);
    BitsOfAround(u, p);
    UpdateParts(s, p, x);
    SpliceMiddle(BitsOf(s[..p]), ByteBits(s[p]), BitsOf(s[p + 1..]), ByteBits(x));
  }

  lemma UpdateParts(s: seq<bv8>, p: nat, x: bv8)
    requires p < |s|
    ensures s[p := x][..p] == s[..p] && s[p := x][p] == x && s[p := x][p + 1..] == s[p + 1..]
  {
  }

  /** Storing a byte that differs from `s[p]` only in bits k .. k+|t|-1,
      which now hold `t`, overwrites bits 8p+k .. 8p+k+|t|-1 of the buffer. */
  lemma BitsOfUpdateWithin(s: seq<bv8>, p: nat, k: nat, t: seq<bool>, x: bv8)
    requires p < |s| && k + |t| <= 8
    requires ByteBits(x) == Splice(ByteBits(s[p]), k, t)
    ensures BitsOf(s[p := x]) == Splice(BitsOf(s), 8 * p + k, t)
  {
    BitsOfUpdate(s, p, x);
    BitsOfByte(s, p);
    SpliceWindow(BitsOf(s), 8 * p, 8, ByteBits(s[p]), k, t, ByteBits(x));
  }

  // ---------------------------------------------------------------------
  // From the bits of a byte to its numeric value and back.

  lemma Pow2Eight()
    ensures Pow2(8) == 256
  {
  }

  lemma AsIntAsByte(x: bv8)
    ensures x as int < 256 && (x as int) as bv8 == x
  {
  }

  lemma ByteAsInt(u: nat)
    requires u < 256
    ensures (u as bv8) as int == u
  {
    SmallMod(u);
    AsByteMod(u);
  }

  lemma SmallMod(u: nat)
    requires u < 256
    ensures u % 256 == u
  {
  }

  lemma AsByteMod(u: nat)
    requires u < 256
    ensures (u as bv8) as int == u % 256
  {
  }

  /** Bytes with the same value are the same byte. */
  lemma SameValue(a: bv8, b: bv8)
    requires a as int == b as int
    ensures a == b
  {
    AsIntAsByte(a);
    AsIntAsByte(b);
  }

  lemma ShrOneAsInt(x: bv8)
    ensures (x >> 1) as int == x as int / 2
  {
  }

  lemma AndOneAsInt(x: bv8)
    ensures (x & 1 == 1) == (x as int % 2 == 1)
  {
  }

  /** The bits of a byte, read as a number, give the byte's value. */
  lemma ByteValue(x: bv8)
    ensures FromBits(ByteBits(x)) == x as int
  {
    ByteBitsNumber(x);
    AsIntAsByte(x);
    SmallValue(x as int);
  }

  lemma SmallValue(u: nat)
    requires u < 256
    ensures FromBits(NumberBits(u, 8)) == u
  {
    FromNumberBits(u, 8);
    Pow2Eight();
    SmallMod(u);
  }

  lemma ByteBitsInjective(x: bv8, y: bv8)
    requires ByteBits(x) == ByteBits(y)
    ensures x == y
  {
    ByteValue(x);
    ByteValue(y);
  }

  /** The byte `(unsigned char) n` holds the low eight bits of `n`. */
  lemma ByteBitsLow8(n: nat)
    ensures ByteBits(Low8(n)) == NumberBits(n, 8)
  {
    ByteBitsNumber(Low8(n));
    ByteAsInt(n % 256);
    Pow2Eight();
    NumberBitsMod(n, 8);
  }

  lemma LowBitOfSmall(u: nat)
    requires u < 256
    ensures ByteBit(u as bv8, 0) == (u % 2 == 1)
  {
    ByteAsInt(u);
    AndOneAsInt(u as bv8);
  }

  lemma HalfOfSmall(u: nat)
    requires u < 256
    ensures (u as bv8) >> 1 == (u / 2) as bv8
  {
    var h := u / 2;
    ByteAsInt(u);
    ByteAsInt(h);
    ShrOneAsInt(u as bv8);
    SameValue((u as bv8) >> 1, h as bv8);
  }

  /** Bit `j` of the bit string of a byte is ByteBit. */
  lemma ByteBitsIndex(x: bv8, j: nat)
    requires j < 8
    ensures ByteBits(x)[j] == ByteBit(x, j)
  {
    LowBitsAt(x, 8, j);
  }

  lemma {:induction false} LowBitsAt(x: bv8, w: nat, j: nat)
    requires j < w <= 8
    ensures LowBits(x, w)[j] == ByteBit(x, j)
    decreases j
  {
    if j > 0 {
      LowBitsAt(x >> 1, w - 1, j - 1);
    }
  }

  /** The bits of a byte are the low eight binary digits of its value. */
  lemma ByteBitsNumber(x: bv8)
    ensures ByteBits(x) == NumberBits(x as int, 8)
  {
    AsIntAsByte(x);
    LowBitsNumber(x as int, 8);
  }

  lemma {:induction false} LowBitsNumber(u: nat, w: nat)
    requires u < 256
    ensures LowBits(u as bv8, w) == NumberBits(u, w)
    decreases w
  {
    if w > 0 {
      LowBitOfSmall(u);
      HalfOfSmall(u);
      LowBitsNumber(u / 2, w - 1);
    }
  }

  // ---------------------------------------------------------------------
  // The byte operators the cursor uses, one bit at a time.

  lemma ShrShr(x: bv8, j: nat)
    requires 1 <= j <= 8
    ensures (x >> 1) >> (j - 1) == x >> j
  {
  }

  lemma ShlShl(x: bv8, j: nat)
    requires 1 <= j <= 8
    ensures (x << 1) << (j - 1) == x << j
  {
  }

  /** ByteBit is the test `(x >> j) & 1` of the source. */
  lemma {:induction false} ByteBitShift(x: bv8, j: nat)
    requires j < 8
    ensures ByteBit(x, j) == ((x >> j) & 1 == 1)
    decreases j
  {
    if j > 0 {
      ByteBitShift(x >> 1, j - 1);
      ShrShr(x, j);
    }
  }

  lemma {:induction false} OrBit(x: bv8, y: bv8, j: nat)
    requires j < 8
    ensures ByteBit(x | y, j) == (ByteBit(x, j) || ByteBit(y, j))
    decreases j
  {
    if j > 0 {
      assert (x | y) >> 1 == (x >> 1) | (y >> 1);
      OrBit(x >> 1, y >> 1, j - 1);
    }
  }

  lemma AndHalf(x: bv8, y: bv8)
    ensures (x & y) >> 1 == (x >> 1) & (y >> 1)
  {
  }

  lemma AndLow(x: bv8, y: bv8)
    ensures ((x & y) & 1 == 1) == (x & 1 == 1 && y & 1 == 1)
  {
  }

  lemma {:induction false} AndBit(x: bv8, y: bv8, j: nat)
    requires j < 8
    ensures ByteBit(x & y, j) == (ByteBit(x, j) && ByteBit(y, j))
    decreases j
  {
    if j == 0 {
      AndLow(x, y);
    } else {
      AndHalf(x, y);
      AndBit(x >> 1, y >> 1, j - 1);
    }
  }

  lemma {:induction false} ZeroBit(j: nat)
    requires j < 8
    ensures !ByteBit(0, j)
    decreases j
  {
    if j > 0 {
      assert (0 as bv8) >> 1 == 0;
      ZeroBit(j - 1);
    }
  }

  lemma OneBit(j: nat)
    requires j < 8
    ensures ByteBit(1, j) == (j == 0)
  {
    if j > 0 {
      assert (1 as bv8) >> 1 == 0;
      ZeroBit(j - 1);
    }
  }

  lemma FullBit(j: nat)
    requires j < 8
    ensures ByteBit(0xFF, j)
  {
    ByteBitShift(0xFF, j);
  }

  /** `0xff` has all eight bits set. */
  lemma FullByte()
    ensures ByteBits(0xFF) == Ones(8)
  {
    forall j | 0 <= j < 8
      ensures ByteBits(0xFF)[j]
    {
      ByteBitsIndex(0xFF, j);
      FullBit(j);
    }
  }

  /** Shifting right by one moves every bit down and clears the top one. */
  lemma HalfBit(x: bv8, i: nat)
    requires i < 8
    ensures ByteBit(x >> 1, i) == (i < 7 && ByteBit(x, i + 1))
  {
    if i == 7 {
      ByteBitShift(x >> 1, 7);
      assert ((x >> 1) >> 7) & 1 == 0;
    }
  }

  /** Shifting left by one moves every bit up and clears the bottom one. */
  lemma DoubleBit(x: bv8, i: nat)
    requires i < 8
    ensures ByteBit(x << 1, i) == (i >= 1 && ByteBit(x, i - 1))
  {
    if i == 0 {
      assert (x << 1) & 1 == 0;
    } else {
      assert (x << 1) >> 1 == x & 0x7F;
      AndBit(x, 0x7F, i - 1);
      ByteBitShift(0x7F, i - 1);
    }
  }

  lemma {:induction false} ShrBit(x: bv8, k: nat, j: nat)
    requires k <= 8 && j < 8
    ensures ByteBit(x >> k, j) == (j + k < 8 && ByteBit(x, j + k))
    decreases k
  {
    if k == 0 {
      assert x >> 0 == x;
    } else {
      ShrShr(x, k);
      ShrBit(x >> 1, k - 1, j);
      if j + k - 1 < 8 {
        HalfBit(x, j + k - 1);
      }
    }
  }

  lemma {:induction false} ShlBit(x: bv8, k: nat, j: nat)
    requires k <= 8 && j < 8
    ensures ByteBit(x << k, j) == (j >= k && ByteBit(x, j - k))
    decreases k
  {
    if k == 0 {
      assert x << 0 == x;
    } else {
      ShlShl(x, k);
      ShlBit(x << 1, k - 1, j);
      if j >= k - 1 {
        DoubleBit(x, j - (k - 1));
      }
    }
  }

  /** `0xff >> (8 - m)` has exactly its low `m` bits set. */
  lemma LowMaskBit(m: nat, j: nat)
    requires m <= 8 && j < 8
    ensures ByteBit(0xFF >> (8 - m), j) == (j < m)
  {
    ShrBit(0xFF, 8 - m, j);
    if j + (8 - m) < 8 {
      FullBit(j + (8 - m));
    }
  }


  lemma OrShiftedBit(x: bv8, c: bv8, k: nat, j: nat)
    requires k <= 8 && j < 8
    ensures ByteBit(x | (c << k), j) == (ByteBit(x, j) || (j >= k && ByteBit(c, j - k)))
  {
    OrBit(x, c << k, j);
    ShlBit(c, k, j);
  }

  /** The bits of a mask with its low `m` bits set, such as `0xff >> (8 - m)`. */
  predicate IsLowMask(mask: bv8, m: nat)
    requires m <= 8
  {
    ByteBits(mask) == Ones(m) + Zeros(8 - m)
  }

  lemma LowMask(m: nat)
    requires m <= 8
    ensures IsLowMask(0xFF >> (8 - m), m)
  {
    var rhs := Ones(m) + Zeros(8 - m);
    forall j | 0 <= j < 8
      ensures ByteBits(0xFF >> (8 - m))[j] == rhs[j]
    {
      ByteBitsIndex(0xFF >> (8 - m), j);
      LowMaskBit(m, j);
    }
  }

  // ---------------------------------------------------------------------
  // Whole-byte consequences.

  /** Masking keeps the low `m` bits of a byte. */
  lemma MaskedLow(c: bv8, mask: bv8, m: nat)
    requires m <= 8 && IsLowMask(mask, m)
    ensures ByteBits(c & mask) == ByteBits(c)[..m] + Zeros(8 - m)
  {
    var rhs := ByteBits(c)[..m] + Zeros(8 - m);
    forall j | 0 <= j < 8
      ensures ByteBits(c & mask)[j] == rhs[j]
    {
      ByteBitsIndex(c & mask, j);
      ByteBitsIndex(c, j);
      ByteBitsIndex(mask, j);
      AndBit(c, mask, j);
      assert ByteBit(mask, j) == (Ones(m) + Zeros(8 - m))[j];
    }
  }

  /** OR-ing `c << k` into a byte whose bits k .. k+m-1 are clear, where `c`
      has no bit set from `m` up, places the low `m` bits of `c` there. */
  lemma OrShiftedInto(x: bv8, c: bv8, k: nat, m: nat)
    requires k + m <= 8
    requires ByteBits(c)[m..] == Zeros(8 - m)
    requires ByteBits(x)[k .. k + m] == Zeros(m)
    ensures ByteBits(x | (c << k)) == ByteBits(x)[..k] + ByteBits(c)[..m] + ByteBits(x)[k + m..]
  {
    var rhs := ByteBits(x)[..k] + ByteBits(c)[..m] + ByteBits(x)[k + m..];
    forall j | 0 <= j < 8
      ensures ByteBits(x | (c << k))[j] == rhs[j]
    {
      OrShiftedIntoAt(x, c, k, m, j);
    }
  }

  lemma OrShiftedIntoAt(x: bv8, c: bv8, k: nat, m: nat, j: nat)
    requires k + m <= 8 && j < 8
    requires ByteBits(c)[m..] == Zeros(8 - m)
    requires ByteBits(x)[k .. k + m] == Zeros(m)
    ensures ByteBits(x | (c << k))[j] == if j < k || j >= k + m then ByteBits(x)[j] else ByteBits(c)[j - k]
  {
    if j < k {
      OrShiftedBelow(x, c, k, j);
    } else if j < k + m {
      ZeroInWindow(ByteBits(x), k, k + m, j);
      OrShiftedWithin(x, c, k, j);
    } else {
      assert ByteBits(c)[m..] == ByteBits(c)[m .. 8];
      ZeroInWindow(ByteBits(c), m, 8, j - k);
      OrShiftedAbove(x, c, k, j);
    }
  }

  lemma OrShiftedBelow(x: bv8, c: bv8, k: nat, j: nat)
    requires j < k <= 8
    ensures ByteBits(x | (c << k))[j] == ByteBits(x)[j]
  {
    ByteBitsIndex(x | (c << k), j);
    ByteBitsIndex(x, j);
    OrShiftedBit(x, c, k, j);
  }

  lemma OrShiftedWithin(x: bv8, c: bv8, k: nat, j: nat)
    requires k <= j < 8 && !ByteBits(x)[j]
    ensures ByteBits(x | (c << k))[j] == ByteBits(c)[j - k]
  {
    ByteBitsIndex(x | (c << k), j);
    ByteBitsIndex(x, j);
    ByteBitsIndex(c, j - k);
    OrShiftedBit(x, c, k, j);
  }

  lemma OrShiftedAbove(x: bv8, c: bv8, k: nat, j: nat)
    requires k <= j < 8 && !ByteBits(c)[j - k]
    ensures ByteBits(x | (c << k))[j] == ByteBits(x)[j]
  {
    ByteBitsIndex(x | (c << k), j);
    ByteBitsIndex(x, j);
    ByteBitsIndex(c, j - k);
    OrShiftedBit(x, c, k, j);
  }

  /** `(unsigned char) v`, masked to its low `m` bits, holds the low `m`
      bits of `v` with zeros above. */
  lemma MaskedNumber(v: nat, mask: bv8, m: nat)
    requires m <= 8 && IsLowMask(mask, m)
    ensures ByteBits(Low8(v) & mask) == NumberBits(v, m) + Zeros(8 - m)
  {
    MaskedLow(Low8(v), mask, m);
    ByteBitsLow8(v);
    NumberBitsSplit(v, m, 8 - m);
    assert NumberBits(v, 8)[..m] == NumberBits(v, m);
  }

  /** Writer step: OR a byte `c` holding the `m`-bit number `v`, shifted up
      to bit `k`, into a byte whose bits k .. k+m-1 are clear. The byte's
      other bits stay. */
  lemma OrNumberInto(x: bv8, c: bv8, k: nat, m: nat, v: nat)
    requires k + m <= 8
    requires ByteBits(x)[k .. k + m] == Zeros(m)
    requires ByteBits(c) == NumberBits(v, m) + Zeros(8 - m)
    ensures ByteBits(x | (c << k)) == ByteBits(x)[..k] + NumberBits(v, m) + ByteBits(x)[k + m..]
  {
    assert ByteBits(c)[..m] == NumberBits(v, m);
    assert ByteBits(c)[m..] == Zeros(8 - m);
    OrShiftedInto(x, c, k, m);
  }

  /** The byte put_number ORs in: `c`, the low `m` bits of `v` under a low
      mask, shifted up to bit `k`, lands in clear bits `k .. k + m` of `x`. */
  lemma NumberIntoByte(x: bv8, c: bv8, k: nat, m: nat, mask: bv8, v: nat)
    requires k + m <= 8 && IsLowMask(mask, m)
    requires ByteBits(x)[k .. k + m] == Zeros(m)
    requires c == Low8(v) & mask
    ensures ByteBits(x | (c << k)) == ByteBits(x)[..k] + NumberBits(v, m) + ByteBits(x)[k + m..]
  {
    MaskedNumber(v, mask, m);
    OrNumberInto(x, c, k, m, v);
  }

  lemma OrOnesBit(x: bv8, mask: bv8, k: nat, m: nat, j: nat)
    requires k + m <= 8 && j < 8 && IsLowMask(mask, m)
    ensures ByteBit(x | (mask << k), j) == (ByteBit(x, j) || (k <= j < k + m))
  {
    OrShiftedBit(x, mask, k, j);
    if j >= k {
      ByteBitsIndex(mask, j - k);
      assert ByteBit(mask, j - k) == (Ones(m) + Zeros(8 - m))[j - k];
    }
  }

  /** Writer step: OR a run of `m` one-bits starting at bit `k` into a byte. */
  lemma OrOnesInto(x: bv8, mask: bv8, k: nat, m: nat)
    requires k + m <= 8 && IsLowMask(mask, m)
    ensures ByteBits(x | (mask << k)) == ByteBits(x)[..k] + Ones(m) + ByteBits(x)[k + m..]
  {
    var rhs := ByteBits(x)[..k] + Ones(m) + ByteBits(x)[k + m..];
    forall j | 0 <= j < 8
      ensures ByteBits(x | (mask << k))[j] == rhs[j]
    {
      ByteBitsIndex(x | (mask << k), j);
      ByteBitsIndex(x, j);
      OrOnesBit(x, mask, k, m, j);
    }
  }

  /** Writer step: OR ones into every bit from `k` up, as `0xff << k` does. */
  lemma OrHighOnes(x: bv8, k: nat)
    requires k <= 8
    ensures ByteBits(x | (0xFF << k)) == ByteBits(x)[..k] + Ones(8 - k)
  {
    var rhs := ByteBits(x)[..k] + Ones(8 - k);
    forall j | 0 <= j < 8
      ensures ByteBits(x | (0xFF << k))[j] == rhs[j]
    {
      OrHighAt(x, k, j);
    }
  }

  lemma OrHighAt(x: bv8, k: nat, j: nat)
    requires k <= 8 && j < 8
    ensures ByteBits(x | (0xFF << k))[j] == (ByteBits(x)[j] || j >= k)
  {
    ByteBitsIndex(x | (0xFF << k), j);
    ByteBitsIndex(x, j);
    OrShiftedBit(x, 0xFF, k, j);
    if j >= k {
      FullBit(j - k);
    }
  }

  lemma OrBitBit(x: bv8, b: bv8, k: nat, j: nat)
    requires k < 8 && j < 8 && (b == 0 || b == 1)
    ensures ByteBit(x | (b << k), j) == (ByteBit(x, j) || (j == k && b == 1))
  {
    OrShiftedBit(x, b, k, j);
    if j >= k {
      OneBit(j - k);
      ZeroBit(j - k);
    }
  }

  /** Writer step: OR one bit `b` (0 or 1), shifted up to bit `k`, into a byte. */
  lemma OrBitInto(x: bv8, b: bv8, k: nat)
    requires k < 8 && (b == 0 || b == 1)
    ensures ByteBits(x | (b << k)) == ByteBits(x)[k := ByteBits(x)[k] || b == 1]
  {
    var rhs := ByteBits(x)[k := ByteBits(x)[k] || b == 1];
    forall j | 0 <= j < 8
      ensures ByteBits(x | (b << k))[j] == rhs[j]
    {
      ByteBitsIndex(x | (b << k), j);
      ByteBitsIndex(x, j);
      OrBitBit(x, b, k, j);
    }
  }

  /** Reader step: `(x >> k) & 1` tests bit `k` of a byte. */
  lemma ExtractBit(x: bv8, k: nat)
    requires k < 8
    ensures ((x >> k) & 1 == 1) == ByteBits(x)[k]
  {
    ByteBitsIndex(x, k);
    ByteBitShift(x, k);
  }

  /** `x >> k` holds the bits of `x` from `k` up, moved down. */
  lemma Shifted(x: bv8, k: nat)
    requires k <= 8
    ensures ByteBits(x >> k) == ByteBits(x)[k..] + Zeros(k)
  {
    var rhs := ByteBits(x)[k..] + Zeros(k);
    forall j | 0 <= j < 8
      ensures ByteBits(x >> k)[j] == rhs[j]
    {
      ByteBitsIndex(x >> k, j);
      ByteBitsIndex(x, j);
      if j + k < 8 {
        ByteBitsIndex(x, j + k);
      }
      ShrBit(x, k, j);
    }
  }

  /** `(x >> k) & mask` holds bits k .. k+m-1 of `x`, moved down. */
  lemma ShiftedMasked(x: bv8, mask: bv8, k: nat, m: nat)
    requires k + m <= 8 && IsLowMask(mask, m)
    ensures ByteBits((x >> k) & mask) == ByteBits(x)[k .. k + m] + Zeros(8 - m)
  {
    Shifted(x, k);
    MaskedLow(x >> k, mask, m);
    SliceOfShifted(ByteBits(x), k, m);
  }

  /** Reader step: the value of bits k .. k+m-1 of a byte, as
      `(x >> k) & mask` extracts it. */
  lemma ExtractBits(x: bv8, mask: bv8, k: nat, m: nat)
    requires k + m <= 8 && IsLowMask(mask, m)
    ensures (((x >> k) & mask) as int) == FromBits(ByteBits(x)[k .. k + m])
  {
    var y := (x >> k) & mask;
    ShiftedMasked(x, mask, k, m);
    ByteValue(y);
    ValueOfPadded(ByteBits(y), ByteBits(x)[k .. k + m], 8 - m, y as int);
  }

  /** Reader step: `x >> k` is the value of the byte's bits from `k` up. */
  lemma ExtractHighBits(x: bv8, k: nat)
    requires k <= 8
    ensures ((x >> k) as int) == FromBits(ByteBits(x)[k..])
  {
    Shifted(x, k);
    ByteValue(x >> k);
    ValueOfPadded(ByteBits(x >> k), ByteBits(x)[k..], k, (x >> k) as int);
  }
}
