/** The bit cursor of btw.h: a byte index `pos` and a bit index `bitPos`
    (0 .. 7) into a byte buffer. Writers OR bits into the buffer, low bit of
    each byte first; readers take them back in the same order. Every method
    is specified on the buffer's bit string, where the cursor stands at bit
    8 * pos + bitPos. */
module BitCursor {
  import opened BitSeq
  import opened Bytes

  // ---------------------------------------------------------------------
  // Writers.

  /** put_bit: OR one bit in at the cursor and advance by one bit. */
  method PutBit(buf: array<bv8>, pos: nat, bitPos: nat, bit: bool) returns (nextPos: nat, nextBitPos: nat)
    requires bitPos < 8 && pos < buf.Length
    modifies buf
    ensures nextBitPos < 8 && 8 * nextPos + nextBitPos == 8 * pos + bitPos + 1
    ensures BitsOf(buf[..]) == old(BitsOf(buf[..]))[8 * pos + bitPos := old(BitsOf(buf[..]))[8 * pos + bitPos] || bit]
  {
    ghost var s := buf[..];
    var b: bv8 := if bit then 1 else 0;
    var x := buf[pos] | (b << bitPos);
    OrBitInto(buf[pos], b, bitPos);
    WriteBitStep(s, pos, bitPos, bit, x);
    buf[pos] := x;
    nextBitPos := (bitPos + 1) % 8;
    nextPos := pos + if nextBitPos == 0 then 1 else 0;
    StepWithin(pos, bitPos, 1);
  }

  /** Advancing the cursor by `n` bits within the current byte, possibly to
      the start of the next one, as every writer and reader ends. */
  lemma StepWithin(pos: nat, bitPos: nat, n: nat)
    requires 0 < n && bitPos + n <= 8
    ensures var nb := (bitPos + n) % 8;
      nb < 8 && 8 * (pos + if nb == 0 then 1 else 0) + nb == 8 * pos + bitPos + n
  {
    if bitPos + n == 8 {
      assert (bitPos + n) % 8 == 0;
    } else {
      assert (bitPos + n) % 8 == bitPos + n;
    }
  }

  /** Storing a byte that differs from `s[p]` only in bit `k`, which is now
      OR-ed with `bit`, does the same to bit 8p+k of the buffer. */
  lemma WriteBitStep(s: seq<bv8>, p: nat, k: nat, bit: bool, x: bv8)
    requires p < |s| && k < 8
    requires ByteBits(x) == ByteBits(s[p])[k := ByteBits(s[p])[k] || bit]
    ensures BitsOf(s[p := x]) == BitsOf(s)[8 * p + k := BitsOf(s)[8 * p + k] || bit]
  {
    var v := BitsOf(s)[8 * p + k] || bit;
    BitsOfByte(s, p);
    assert ByteBits(s[p])[k] == BitsOf(s)[8 * p + k];
    SpliceOne(ByteBits(s[p]), k, v);
    BitsOfUpdateWithin(s, p, k, [v], x);
    SpliceOne(BitsOf(s), 8 * p + k, v);
  }

  /** The partial-byte store of put_number, `output[p] |= cast << k` with
      `cast == number & mask` the low `m` bits of `number`: they go into
      clear bits `k .. k + m` of byte `p`, and no other byte changes. The
      mask is `0xff >> (8 - m)`; in the first store of put_number, where
      `m == 8 - k`, the source writes it as `0xff >> k`. */
  method OrNumberByte(buf: array<bv8>, p: nat, k: nat, m: nat, mask: bv8, number: nat)
    requires p < buf.Length && k + m <= 8 && IsLowMask(mask, m)
    requires ByteBits(buf[p])[k .. k + m] == Zeros(m)
    modifies buf
    ensures buf[..] == old(buf[..])[p := buf[p]]
    ensures ByteBits(buf[p]) == old(ByteBits(buf[p]))[..k] + NumberBits(number, m) + old(ByteBits(buf[p]))[k + m..]
  {
    var cast := Low8(number) & mask;
    NumberIntoByte(buf[p], cast, k, m, mask, number);
    buf[p] := buf[p] | (cast << k);
  }

  /** The same store seen on the buffer's bit string: the low `m` bits of
      `number` replace the clear bits at 8 * p + k. */
  method OrNumberAt(buf: array<bv8>, p: nat, k: nat, m: nat, number: nat)
    requires p < buf.Length && k + m <= 8
    requires BitsOf(buf[..])[8 * p + k .. 8 * p + k + m] == Zeros(m)
    modifies buf
    ensures BitsOf(buf[..]) == Splice(old(BitsOf(buf[..])), 8 * p + k, NumberBits(number, m))
  {
    ghost var s := buf[..];
    BitsOfByte(s, p);
    WindowOfWindow(BitsOf(s), 8 * p, 8, ByteBits(s[p]), k, m);
    LowMask(m);
    OrNumberByte(buf, p, k, m, 0xFF >> (8 - m), number);
    BitsOfUpdateWithin(s, p, k, NumberBits(number, m), buf[p]);
  }

  /** The whole-byte store of put_number, `output[p] = number & 0xff`. */
  method StoreNumberAt(buf: array<bv8>, p: nat, number: nat)
    requires p < buf.Length
    modifies buf
    ensures BitsOf(buf[..]) == Splice(old(BitsOf(buf[..])), 8 * p, NumberBits(number, 8))
  {
    ghost var s := buf[..];
    var x := Low8(number);
    ByteBitsLow8(number);
    BitsOfUpdate(s, p, x);
    buf[p] := x;
  }

  /** The bit string `bs` is `b0` with the low `d` bits of `number` written
      at `c0`: the state put_number keeps between its byte stores. */
  ghost predicate Wrote(bs: seq<bool>, b0: seq<bool>, c0: nat, number: nat, d: nat)
  {
    c0 + d <= |b0| && bs == Splice(b0, c0, NumberBits(number, d))
  }

  lemma WroteNothing(b0: seq<bool>, c0: nat, number: nat)
    requires c0 <= |b0|
    ensures Wrote(b0, b0, c0, number, 0)
  {
    SpliceEmpty(b0, c0);
  }

  /** The bits put_number is about to fill are still clear. */
  lemma NextClear(bs: seq<bool>, b0: seq<bool>, c0: nat, bits: nat, number: nat, d: nat, m: nat)
    requires Wrote(bs, b0, c0, number, d)
    requires c0 + bits <= |b0| && b0[c0 .. c0 + bits] == Zeros(bits) && d + m <= bits
    ensures bs[c0 + d .. c0 + d + m] == Zeros(m)
  {
    ClearAhead(b0, c0, bits, NumberBits(number, d), bs, m);
  }

  /** A step of put_number writes the next `m` bits of `number` right after
      the `d` already written, and shifts them out of what is left of it. */
  lemma WroteMore(bs: seq<bool>, bs': seq<bool>, b0: seq<bool>, c0: nat, number: nat,
                  d: nat, at: nat, m: nat, n: nat)
    requires Wrote(bs, b0, c0, number, d)
    requires c0 + d + m <= |b0| && at == c0 + d && n == Shr(number, d)
    requires bs' == Splice(bs, at, NumberBits(n, m))
    ensures Wrote(bs', b0, c0, number, d + m)
    ensures Shr(n, m) == Shr(number, d + m)
  {
    NumberAdvance(b0, c0, number, d, m, bs, bs');
    ShrAdd(number, d, m);
  }

  /** Once all `bits` are written, the state is put_number's promise. */
  lemma WroteAll(bs: seq<bool>, b0: seq<bool>, c0: nat, number: nat, bits: nat)
    requires Wrote(bs, b0, c0, number, bits)
    ensures bs == Splice(b0, c0, NumberBits(number, bits))
  {
  }

  /** One partial-byte store of put_number, seen on the whole write: with
      `d` of the `bits` bits written at `c0` and `n` the rest of the
      number, the next `m` land in the clear bits at the cursor. */
  method PutPart(buf: array<bv8>, p: nat, k: nat, m: nat, n: nat,
                 ghost b0: seq<bool>, ghost c0: nat, ghost number: nat, ghost d: nat, ghost bits: nat)
    requires p < buf.Length && k + m <= 8 && 8 * p + k == c0 + d && d + m <= bits
    requires c0 + bits <= |b0| == 8 * buf.Length && b0[c0 .. c0 + bits] == Zeros(bits)
    requires n == Shr(number, d)
    requires Wrote(BitsOf(buf[..]), b0, c0, number, d)
    modifies buf
    ensures Wrote(BitsOf(buf[..]), b0, c0, number, d + m)
    ensures Shr(n, m) == Shr(number, d + m)
  {
    ghost var bs := BitsOf(buf[..]);
    NextClear(bs, b0, c0, bits, number, d, m);
    OrNumberAt(buf, p, k, m, n);
    WroteMore(bs, BitsOf(buf[..]), b0, c0, number, d, 8 * p + k, m, n);
  }

  /** The middle loop of put_number: while at least eight bits are left,
      store the low byte of what is left of the number whole and shift it
      out. It ends on a byte boundary with fewer than eight bits left. */
  method PutWholeBytes(buf: array<bv8>, pos: nat, bits: nat, n: nat,
                       ghost b0: seq<bool>, ghost c0: nat, ghost number: nat, ghost d0: nat)
    returns (nextPos: nat, left: nat, rest: nat, ghost d: nat)
    requires 8 * pos == c0 + d0 && c0 + d0 + bits <= |b0| == 8 * buf.Length
    requires n == Shr(number, d0)
    requires Wrote(BitsOf(buf[..]), b0, c0, number, d0)
    modifies buf
    ensures left < 8 && left <= bits && 8 * nextPos + left == 8 * pos + bits
    ensures d == d0 + bits - left && rest == Shr(number, d)
    ensures Wrote(BitsOf(buf[..]), b0, c0, number, d)
  {
    d := d0;
    var p, w, r := pos, bits, n;
    while w >= 8
      invariant d + w == d0 + bits && 8 * p == c0 + d
      invariant r == Shr(number, d)
      invariant Wrote(BitsOf(buf[..]), b0, c0, number, d)
    {
      ghost var bs := BitsOf(buf[..]);
      StoreNumberAt(buf, p, r);
      WroteMore(bs, BitsOf(buf[..]), b0, c0, number, d, 8 * p, 8, r);
      p := p + 1;
      w := w - 8;
      r := Shr(r, 8);
      d := d + 8;
    }
    return p, w, r, d;
  }

  /** The first branch of put_number, taken when the number does not fit
      in the current byte: fill that byte's high bits, then whole bytes. */
  method PutLeadingBits(buf: array<bv8>, pos: nat, bitPos: nat, bits: nat, number: nat,
                        ghost b0: seq<bool>, ghost c0: nat)
    returns (nextPos: nat, left: nat, rest: nat, ghost d: nat)
    requires bitPos < 8 && bits > 8 - bitPos && 8 * pos + bitPos == c0
    requires c0 + bits <= |b0| == 8 * buf.Length && b0[c0 .. c0 + bits] == Zeros(bits)
    requires BitsOf(buf[..]) == b0
    modifies buf
    ensures left < 8 && d + left == bits && 8 * nextPos == c0 + d && rest == Shr(number, d)
    ensures Wrote(BitsOf(buf[..]), b0, c0, number, d)
  {
    WroteNothing(b0, c0, number);
    PutPart(buf, pos, bitPos, 8 - bitPos, number, b0, c0, number, 0, bits);
    nextPos, left, rest, d := PutWholeBytes(buf, pos + 1, bits - (8 - bitPos), Shr(number, 8 - bitPos),
                                            b0, c0, number, 8 - bitPos);
  }

  /** The second branch of put_number: the last `w` bits, which fit in the
      current byte, complete the write. */
  method PutLastBits(buf: array<bv8>, p: nat, k: nat, w: nat, n: nat,
                     ghost b0: seq<bool>, ghost c0: nat, ghost number: nat, ghost d: nat, ghost bits: nat)
    returns (nextPos: nat, nextBitPos: nat)
    requires k < 8 && 0 < w <= 8 - k && 8 * p + k == c0 + d && d + w == bits && n == Shr(number, d)
    requires c0 + bits <= |b0| == 8 * buf.Length && b0[c0 .. c0 + bits] == Zeros(bits)
    requires Wrote(BitsOf(buf[..]), b0, c0, number, d)
    modifies buf
    ensures nextBitPos < 8 && 8 * nextPos + nextBitPos == c0 + bits
    ensures BitsOf(buf[..]) == Splice(b0, c0, NumberBits(number, bits))
  {
    PutPart(buf, p, k, w, n, b0, c0, number, d, bits);
    WroteAll(BitsOf(buf[..]), b0, c0, number, bits);
    StepWithin(p, k, w);
    nextBitPos := (k + w) % 8;
    nextPos := p + if nextBitPos == 0 then 1 else 0;
  }

  /** put_number: write the low `bits` bits of `number` at the cursor, low
      bit first, into bits that are still clear, and advance past them. */
  method PutNumber(buf: array<bv8>, pos: nat, bitPos: nat, bits: nat, number: nat)
    returns (nextPos: nat, nextBitPos: nat)
    requires bitPos < 8 && 8 * pos + bitPos + bits <= 8 * buf.Length
    requires BitsOf(buf[..])[8 * pos + bitPos .. 8 * pos + bitPos + bits] == Zeros(bits)
    modifies buf
    ensures nextBitPos < 8 && 8 * nextPos + nextBitPos == 8 * pos + bitPos + bits
    ensures BitsOf(buf[..]) == Splice(old(BitsOf(buf[..])), 8 * pos + bitPos, NumberBits(number, bits))
  {
    ghost var b0 := BitsOf(buf[..]);
    ghost var c0 := 8 * pos + bitPos;
    if bits > 8 - bitPos {
      var p, w, n, d := PutLeadingBits(buf, pos, bitPos, bits, number, b0, c0);
      if w > 0 {
        nextPos, nextBitPos := PutLastBits(buf, p, 0, w, n, b0, c0, number, d, bits);
      } else {
        WroteAll(BitsOf(buf[..]), b0, c0, number, bits);
        nextPos, nextBitPos := p, 0;
      }
    } else if bits > 0 {
      WroteNothing(b0, c0, number);
      nextPos, nextBitPos := PutLastBits(buf, pos, bitPos, bits, number, b0, c0, number, 0, bits);
    } else {
      SpliceEmpty(b0, c0);
      nextPos, nextBitPos := pos, bitPos;
    }
  }

  /** The first store of put_ones, `output[p] |= 0xff << k`: every bit of
      byte `p` from `k` up is set. */
  method OrHighOnesAt(buf: array<bv8>, p: nat, k: nat)
    requires p < buf.Length && k < 8
    modifies buf
    ensures BitsOf(buf[..]) == Splice(old(BitsOf(buf[..])), 8 * p + k, Ones(8 - k))
  {
    ghost var s := buf[..];
    var x := buf[p] | (0xFF << k);
    OrHighOnes(buf[p], k);
    assert ByteBits(x) == Splice(ByteBits(s[p]), k, Ones(8 - k));
    BitsOfUpdateWithin(s, p, k, Ones(8 - k), x);
    buf[p] := x;
  }

  /** The last store of put_ones, `output[p] |= mask << k` with `mask` the
      low `m` bits set: bits `k .. k + m` of byte `p` are set. */
  method OrOnesByte(buf: array<bv8>, p: nat, k: nat, m: nat, mask: bv8)
    requires p < buf.Length && k + m <= 8 && IsLowMask(mask, m)
    modifies buf
    ensures buf[..] == old(buf[..])[p := buf[p]]
    ensures ByteBits(buf[p]) == old(ByteBits(buf[p]))[..k] + Ones(m) + old(ByteBits(buf[p]))[k + m..]
  {
    OrOnesInto(buf[p], mask, k, m);
    buf[p] := buf[p] | (mask << k);
  }

  /** The same store on the bit string; the mask is `0xff >> (8 - m)`. */
  method OrOnesAt(buf: array<bv8>, p: nat, k: nat, m: nat)
    requires p < buf.Length && k + m <= 8
    modifies buf
    ensures BitsOf(buf[..]) == Splice(old(BitsOf(buf[..])), 8 * p + k, Ones(m))
  {
    ghost var s := buf[..];
    LowMask(m);
    OrOnesByte(buf, p, k, m, 0xFF >> (8 - m));
    BitsOfUpdateWithin(s, p, k, Ones(m), buf[p]);
  }

  /** The whole-byte store of put_ones, `output[p] = 0xff`. */
  method StoreOnesAt(buf: array<bv8>, p: nat)
    requires p < buf.Length
    modifies buf
    ensures BitsOf(buf[..]) == Splice(old(BitsOf(buf[..])), 8 * p, Ones(8))
  {
    ghost var s := buf[..];
    FullByte();
    BitsOfUpdate(s, p, 0xFF);
    buf[p] := 0xFF;
  }

  /** The bit string `bs` is `b0` with `d` one-bits written at `c0`: the
      state put_ones keeps between its byte stores. */
  ghost predicate Filled(bs: seq<bool>, b0: seq<bool>, c0: nat, d: nat)
  {
    c0 + d <= |b0| && bs == Splice(b0, c0, Ones(d))
  }

  lemma FilledNothing(b0: seq<bool>, c0: nat)
    requires c0 <= |b0|
    ensures Filled(b0, b0, c0, 0)
  {
    SpliceEmpty(b0, c0);
  }

  /** `m` more one-bits right after the `d` already written. */
  lemma FilledMore(bs: seq<bool>, bs': seq<bool>, b0: seq<bool>, c0: nat, d: nat, at: nat, m: nat)
    requires Filled(bs, b0, c0, d)
    requires c0 + d + m <= |b0| && at == c0 + d
    requires bs' == Splice(bs, at, Ones(m))
    ensures Filled(bs', b0, c0, d + m)
  {
    SpliceTwice(b0, c0, Ones(d), Ones(m));
    OnesAppend(d, m);
  }

  lemma FilledAll(bs: seq<bool>, b0: seq<bool>, c0: nat, ones: nat)
    requires Filled(bs, b0, c0, ones)
    ensures bs == Splice(b0, c0, Ones(ones))
  {
  }

  /** The middle loop of put_ones: while at least eight ones are left,
      store `0xff`. It ends on a byte boundary with fewer than eight left. */
  method PutWholeOnes(buf: array<bv8>, pos: nat, ones: nat,
                      ghost b0: seq<bool>, ghost c0: nat, ghost d0: nat)
    returns (nextPos: nat, left: nat, ghost d: nat)
    requires 8 * pos == c0 + d0 && c0 + d0 + ones <= |b0| == 8 * buf.Length
    requires Filled(BitsOf(buf[..]), b0, c0, d0)
    modifies buf
    ensures left < 8 && left <= ones && 8 * nextPos + left == 8 * pos + ones
    ensures d == d0 + ones - left
    ensures Filled(BitsOf(buf[..]), b0, c0, d)
  {
    d := d0;
    var p, w := pos, ones;
    while w >= 8
      invariant d + w == d0 + ones && 8 * p == c0 + d
      invariant Filled(BitsOf(buf[..]), b0, c0, d)
    {
      ghost var bs := BitsOf(buf[..]);
      StoreOnesAt(buf, p);
      FilledMore(bs, BitsOf(buf[..]), b0, c0, d, 8 * p, 8);
      p := p + 1;
      w := w - 8;
      d := d + 8;
    }
    return p, w, d;
  }

  /** The first branch of put_ones, taken when the run does not fit in the
      current byte: fill that byte's high bits, then whole bytes. */
  method PutLeadingOnes(buf: array<bv8>, pos: nat, bitPos: nat, ones: nat,
                        ghost b0: seq<bool>, ghost c0: nat)
    returns (nextPos: nat, left: nat, ghost d: nat)
    requires bitPos < 8 && ones > 8 - bitPos && 8 * pos + bitPos == c0
    requires c0 + ones <= |b0| == 8 * buf.Length
    requires BitsOf(buf[..]) == b0
    modifies buf
    ensures left < 8 && d + left == ones && 8 * nextPos == c0 + d
    ensures Filled(BitsOf(buf[..]), b0, c0, d)
  {
    FilledNothing(b0, c0);
    OrHighOnesAt(buf, pos, bitPos);
    FilledMore(b0, BitsOf(buf[..]), b0, c0, 0, c0, 8 - bitPos);
    nextPos, left, d := PutWholeOnes(buf, pos + 1, ones - (8 - bitPos), b0, c0, 8 - bitPos);
  }

  /** The second branch of put_ones: the last `w` ones, which fit in the
      current byte, complete the run. */
  method PutLastOnes(buf: array<bv8>, p: nat, k: nat, w: nat,
                     ghost b0: seq<bool>, ghost c0: nat, ghost d: nat, ghost ones: nat)
    returns (nextPos: nat, nextBitPos: nat)
    requires k < 8 && 0 < w <= 8 - k && 8 * p + k == c0 + d && d + w == ones
    requires c0 + ones <= |b0| == 8 * buf.Length
    requires Filled(BitsOf(buf[..]), b0, c0, d)
    modifies buf
    ensures nextBitPos < 8 && 8 * nextPos + nextBitPos == c0 + ones
    ensures BitsOf(buf[..]) == Splice(b0, c0, Ones(ones))
  {
    ghost var bs := BitsOf(buf[..]);
    OrOnesAt(buf, p, k, w);
    FilledMore(bs, BitsOf(buf[..]), b0, c0, d, 8 * p + k, w);
    FilledAll(BitsOf(buf[..]), b0, c0, ones);
    StepWithin(p, k, w);
    nextBitPos := (k + w) % 8;
    nextPos := p + if nextBitPos == 0 then 1 else 0;
  }

  /** put_ones: set the next `ones` bits at the cursor and advance past
      them, the unary part of a Rice code. */
  method PutOnes(buf: array<bv8>, pos: nat, bitPos: nat, ones: nat)
    returns (nextPos: nat, nextBitPos: nat)
    requires bitPos < 8 && 8 * pos + bitPos + ones <= 8 * buf.Length
    modifies buf
    ensures nextBitPos < 8 && 8 * nextPos + nextBitPos == 8 * pos + bitPos + ones
    ensures BitsOf(buf[..]) == Splice(old(BitsOf(buf[..])), 8 * pos + bitPos, Ones(ones))
  {
    ghost var b0 := BitsOf(buf[..]);
    ghost var c0 := 8 * pos + bitPos;
    if ones > 8 - bitPos {
      var p, w, d := PutLeadingOnes(buf, pos, bitPos, ones, b0, c0);
      if w > 0 {
        nextPos, nextBitPos := PutLastOnes(buf, p, 0, w, b0, c0, d, ones);
      } else {
        FilledAll(BitsOf(buf[..]), b0, c0, ones);
        nextPos, nextBitPos := p, 0;
      }
    } else if ones > 0 {
      FilledNothing(b0, c0);
      nextPos, nextBitPos := PutLastOnes(buf, pos, bitPos, ones, b0, c0, 0, ones);
    } else {
      SpliceEmpty(b0, c0);
      nextPos, nextBitPos := pos, bitPos;
    }
  }

  // ---------------------------------------------------------------------
  // Readers. They change nothing, so they are specified on the bit string
  // of the buffer as it is.

  /** grab_bit: the bit at the cursor, and the cursor one bit on. */
  method GrabBit(buf: array<bv8>, pos: nat, bitPos: nat) returns (bit: bool, nextPos: nat, nextBitPos: nat)
    requires bitPos < 8 && pos < buf.Length
    ensures nextBitPos < 8 && 8 * nextPos + nextBitPos == 8 * pos + bitPos + 1
    ensures bit == BitsOf(buf[..])[8 * pos + bitPos]
  {
    bit := (buf[pos] >> bitPos) & 1 == 1;
    ExtractBit(buf[pos], bitPos);
    BitsOfByte(buf[..], pos);
    nextBitPos := (bitPos + 1) % 8;
    nextPos := pos + if nextBitPos == 0 then 1 else 0;
    StepWithin(pos, bitPos, 1);
  }

  /** `input[p] >> k`, the high bits of byte `p` from bit `k` up. */
  method GrabHighBits(buf: array<bv8>, p: nat, k: nat) returns (v: nat)
    requires p < buf.Length && k < 8
    ensures v == FromBits(BitsOf(buf[..])[8 * p + k .. 8 * p + 8])
  {
    var x := buf[p];
    v := (x >> k) as int;
    ExtractHighBits(x, k);
    BitsOfByte(buf[..], p);
    WindowOfWindow(BitsOf(buf[..]), 8 * p, 8, ByteBits(x), k, 8 - k);
  }

  /** `(input[p] >> k) & mask`, bits `k .. k + m` of byte `p`. */
  method GrabBitsByte(buf: array<bv8>, p: nat, k: nat, m: nat, mask: bv8) returns (v: nat)
    requires p < buf.Length && k + m <= 8 && IsLowMask(mask, m)
    ensures v == FromBits(ByteBits(buf[p])[k .. k + m])
  {
    var x := buf[p];
    v := ((x >> k) & mask) as int;
    ExtractBits(x, mask, k, m);
  }

  /** The same on the bit string; the mask is `0xff >> (8 - m)`. */
  method GrabBitsAt(buf: array<bv8>, p: nat, k: nat, m: nat) returns (v: nat)
    requires p < buf.Length && k + m <= 8
    ensures v == FromBits(BitsOf(buf[..])[8 * p + k .. 8 * p + k + m])
  {
    ghost var s := buf[..];
    LowMask(m);
    v := GrabBitsByte(buf, p, k, m, 0xFF >> (8 - m));
    BitsOfByte(s, p);
    WindowOfWindow(BitsOf(s), 8 * p, 8, ByteBits(s[p]), k, m);
  }

  /** `input[p]`, a whole byte. */
  method GrabByte(buf: array<bv8>, p: nat) returns (v: nat)
    requires p < buf.Length
    ensures v == FromBits(BitsOf(buf[..])[8 * p .. 8 * p + 8])
  {
    v := buf[p] as int;
    ByteValue(buf[p]);
    BitsOfByte(buf[..], p);
  }

  /** Bit strings read one after the other add up, the later one shifted
      past the earlier: `r | v << tally` on disjoint bits. */
  lemma ReadMore(bs: seq<bool>, c0: nat, d: nat, m: nat, r: nat, v: nat)
    requires c0 + d + m <= |bs|
    requires r == FromBits(bs[c0 .. c0 + d]) && v == FromBits(bs[c0 + d .. c0 + d + m])
    ensures r + Pow2(d) * v == FromBits(bs[c0 .. c0 + d + m])
  {
    FromBitsWindow(bs, c0, d, m);
  }

  /** One whole byte of grab_number's first branch, shifted past the
      `tally` bits read so far. */
  method GrabNextByte(buf: array<bv8>, p: nat, r: nat, tally: nat, ghost bs: seq<bool>, ghost c0: nat)
    returns (r': nat)
    requires p < buf.Length && 8 * p == c0 + tally && bs == BitsOf(buf[..])
    requires r == FromBits(bs[c0 .. c0 + tally])
    ensures r' == FromBits(bs[c0 .. c0 + tally + 8])
  {
    var v := GrabByte(buf, p);
    ReadMore(bs, c0, tally, 8, r, v);
    r' := r + Pow2(tally) * v;
  }

  /** The first branch of grab_number, taken when the number does not end
      in the current byte: the high bits of that byte, then whole bytes,
      each shifted past the `tally` bits read so far. */
  method GrabLeadingBits(buf: array<bv8>, pos: nat, bitPos: nat, bits: nat, ghost bs: seq<bool>, ghost c0: nat)
    returns (r: nat, nextPos: nat, left: nat, tally: nat)
    requires bitPos < 8 && bits > 8 - bitPos && 8 * pos + bitPos == c0
    requires c0 + bits <= 8 * buf.Length && bs == BitsOf(buf[..])
    ensures left < 8 && tally + left == bits && 8 * nextPos == c0 + tally
    ensures r == FromBits(bs[c0 .. c0 + tally])
  {
    r := GrabHighBits(buf, pos, bitPos);
    nextPos, left, tally := pos + 1, bits - (8 - bitPos), 8 - bitPos;
    assert c0 + tally == 8 * nextPos;
    while left >= 8
      invariant tally + left == bits && 8 * nextPos == c0 + tally
      invariant r == FromBits(bs[c0 .. c0 + tally])
    {
      r := GrabNextByte(buf, nextPos, r, tally, bs, c0);
      nextPos := nextPos + 1;
      tally := tally + 8;
      left := left - 8;
    }
  }

  /** The second branch of grab_number: the last `w` bits, within the
      current byte, complete the number. */
  method GrabLastBits(buf: array<bv8>, p: nat, k: nat, w: nat, r: nat, tally: nat,
                      ghost bs: seq<bool>, ghost c0: nat, ghost bits: nat)
    returns (result: nat, nextPos: nat, nextBitPos: nat)
    requires k < 8 && 0 < w <= 8 - k && 8 * p + k == c0 + tally && tally + w == bits
    requires c0 + bits <= 8 * buf.Length && bs == BitsOf(buf[..])
    requires r == FromBits(bs[c0 .. c0 + tally])
    ensures nextBitPos < 8 && 8 * nextPos + nextBitPos == c0 + bits
    ensures result == FromBits(bs[c0 .. c0 + bits])
  {
    var v := GrabBitsAt(buf, p, k, w);
    ReadMore(bs, c0, tally, w, r, v);
    result := r + Pow2(tally) * v;
    StepWithin(p, k, w);
    nextBitPos := (k + w) % 8;
    nextPos := p + if nextBitPos == 0 then 1 else 0;
  }

  /** grab_number: the value of the next `bits` bits at the cursor, low bit
      first, and the cursor past them. */
  method GrabNumber(buf: array<bv8>, pos: nat, bitPos: nat, bits: nat)
    returns (r: nat, nextPos: nat, nextBitPos: nat)
    requires bitPos < 8 && 8 * pos + bitPos + bits <= 8 * buf.Length
    ensures nextBitPos < 8 && 8 * nextPos + nextBitPos == 8 * pos + bitPos + bits
    ensures r == FromBits(BitsOf(buf[..])[8 * pos + bitPos .. 8 * pos + bitPos + bits])
  {
    ghost var bs := BitsOf(buf[..]);
    ghost var c0 := 8 * pos + bitPos;
    if bits > 8 - bitPos {
      var r0, p, w, tally := GrabLeadingBits(buf, pos, bitPos, bits, bs, c0);
      if w > 0 {
        r, nextPos, nextBitPos := GrabLastBits(buf, p, 0, w, r0, tally, bs, c0, bits);
      } else {
        r, nextPos, nextBitPos := r0, p, 0;
      }
    } else if bits > 0 {
      assert bs[c0 .. c0 + 0] == [];
      r, nextPos, nextBitPos := GrabLastBits(buf, pos, bitPos, bits, 0, 0, bs, c0, bits);
    } else {
      assert bs[c0 .. c0 + bits] == [];
      r, nextPos, nextBitPos := 0, pos, bitPos;
    }
  }

  /** grab_number at the cursor where put_number wrote `number` in `bits`
      bits: the bits of the buffer after PutNumber, read back as GrabNumber
      reads them, are the number's low `bits` bits. */
  lemma NumberReadBack(bs: seq<bool>, at: nat, bits: nat, number: nat)
    requires at + bits <= |bs|
    ensures FromBits(Splice(bs, at, NumberBits(number, bits))[at .. at + bits]) == number % Pow2(bits)
  {
    SpliceParts(bs, at, NumberBits(number, bits));
    FromNumberBits(number, bits);
  }

  /** grab_bit at each of the `ones` bits after the cursor where put_ones
      wrote: every one of them reads back as 1. */
  lemma OnesReadBack(bs: seq<bool>, at: nat, ones: nat, i: nat)
    requires at + ones <= |bs| && i < ones
    ensures Splice(bs, at, Ones(ones))[at + i]
  {
    SpliceAt(bs, at, Ones(ones), at + i);
  }
}
