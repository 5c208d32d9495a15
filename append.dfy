/** The encoder writes onto a buffer that starts out all zero (calloc), and
    only ever at its cursor. Seen that way, the buffer holds the bits
    written so far followed by zeros, and each cursor operation appends. */
module Appending {
  import opened BitSeq
  import opened Bytes
  import opened BitCursor

  /** The bit string `bs` of the buffer is `w` followed by clear bits. */
  ghost predicate Holds(bs: seq<bool>, w: seq<bool>)
  {
    |w| <= |bs| && bs == w + Zeros(|bs| - |w|)
  }

  /** A calloc'ed buffer holds nothing yet. */
  lemma HoldsNothing(bs: seq<bool>)
    requires bs == Zeros(|bs|)
    ensures Holds(bs, [])
  {
    assert [] + Zeros(|bs|) == Zeros(|bs|);
  }

  /** The bits after what has been written are clear. */
  lemma HoldsClear(bs: seq<bool>, w: seq<bool>, n: nat)
    requires Holds(bs, w) && |w| + n <= |bs|
    ensures bs[|w| .. |w| + n] == Zeros(n)
  {
    ZerosWithin(bs, |w|, |bs|, |w|, |w| + n);
  }

  /** Writing `t` right after `w` appends it. */
  lemma HoldsSplice(bs: seq<bool>, w: seq<bool>, t: seq<bool>, bs': seq<bool>)
    requires Holds(bs, w) && |w| + |t| <= |bs|
    requires bs' == Splice(bs, |w|, t)
    ensures Holds(bs', w + t)
  {
    var z := Zeros(|bs| - |w| - |t|);
    assert bs[|w| + |t|..] == z;
    assert bs' == (w + t) + z;
  }

  /** put_number on a cleared buffer. */
  method AppendNumber(buf: array<bv8>, pos: nat, bitPos: nat, bits: nat, number: nat, ghost w: seq<bool>)
    returns (nextPos: nat, nextBitPos: nat)
    requires bitPos < 8 && 8 * pos + bitPos == |w| && |w| + bits <= 8 * buf.Length
    requires Holds(BitsOf(buf[..]), w)
    modifies buf
    ensures nextBitPos < 8 && 8 * nextPos + nextBitPos == |w| + bits
    ensures Holds(BitsOf(buf[..]), w + NumberBits(number, bits))
  {
    HoldsClear(BitsOf(buf[..]), w, bits);
    ghost var bs := BitsOf(buf[..]);
    nextPos, nextBitPos := PutNumber(buf, pos, bitPos, bits, number);
    HoldsSplice(bs, w, NumberBits(number, bits), BitsOf(buf[..]));
  }

  /** put_ones on a cleared buffer. */
  method AppendOnes(buf: array<bv8>, pos: nat, bitPos: nat, ones: nat, ghost w: seq<bool>)
    returns (nextPos: nat, nextBitPos: nat)
    requires bitPos < 8 && 8 * pos + bitPos == |w| && |w| + ones <= 8 * buf.Length
    requires Holds(BitsOf(buf[..]), w)
    modifies buf
    ensures nextBitPos < 8 && 8 * nextPos + nextBitPos == |w| + ones
    ensures Holds(BitsOf(buf[..]), w + Ones(ones))
  {
    ghost var bs := BitsOf(buf[..]);
    nextPos, nextBitPos := PutOnes(buf, pos, bitPos, ones);
    HoldsSplice(bs, w, Ones(ones), BitsOf(buf[..]));
  }

  /** put_bit on a cleared buffer. */
  method AppendBit(buf: array<bv8>, pos: nat, bitPos: nat, bit: bool, ghost w: seq<bool>)
    returns (nextPos: nat, nextBitPos: nat)
    requires bitPos < 8 && 8 * pos + bitPos == |w| && |w| + 1 <= 8 * buf.Length
    requires Holds(BitsOf(buf[..]), w)
    modifies buf
    ensures nextBitPos < 8 && 8 * nextPos + nextBitPos == |w| + 1
    ensures Holds(BitsOf(buf[..]), w + [bit])
  {
    ghost var bs := BitsOf(buf[..]);
    HoldsClear(bs, w, 1);
    assert bs[|w|] == false by {
      assert bs[|w| .. |w| + 1][0] == bs[|w|];
    }
    nextPos, nextBitPos := PutBit(buf, pos, bitPos, bit);
    SpliceOne(bs, |w|, bit);
    HoldsSplice(bs, w, [bit], BitsOf(buf[..]));
  }
}
