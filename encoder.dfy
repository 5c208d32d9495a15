/** btw_encode: the header, then every block's runs, appended to a cleared
    buffer through the bit cursor. */
module Encoder {
  import opened BitSeq
  import opened Bytes
  import opened Numbers
  import opened Options
  import opened Appending
  import opened Header
  import opened Rice
  import opened Stream

  /** `samples[(i + l) * channels + chan]`, as both loops over a channel's
      frames read it. */
  method FetchSample(samples: seq<int>, channels: nat, start: nat, cap: nat, c: nat, l: nat) returns (cur: int)
    requires c < channels && (start + cap) * channels <= |samples| && l < cap
    ensures cur == Column(samples, channels, start, cap, c)[l]
  {
    IndexBound(start + l, c, channels, start + cap);
    IndexIsMul(start + l, c, channels);
    cur := samples[(start + l) * channels + c];
    ColumnAt(samples, channels, start, cap, c, l);
  }

  /** The first loop over a channel's frames of a block: av_diff, the sum of
      the magnitudes of the differences. */
  method SumDiffs(samples: seq<int>, channels: nat, start: nat, cap: nat, c: nat) returns (sum: nat)
    requires c < channels && (start + cap) * channels <= |samples|
    ensures sum == SumAbs(Column(samples, channels, start, cap, c), cap)
  {
    ghost var xs := Column(samples, channels, start, cap, c);
    var prev := 0;
    sum := 0;
    var l := 0;
    while l < cap
      invariant l <= cap && sum == SumAbs(xs, l)
      invariant prev == if l == 0 then 0 else xs[l - 1]
    {
      var cur := FetchSample(samples, channels, start, cap, c, l);
      var diff := cur - prev;
      sum := sum + Abs(diff);
      prev := cur;
      l := l + 1;
    }
  }

  /** One frame's codeword: put_bit of the sign, put_ones of the quotient,
      put_bit of 0, put_number of the low `k` bits. Frame `l` of `xs` has
      difference `diff`, and its codeword is the piece `ws[l]`; the buffer
      goes from holding `before` to holding `before + ws[l]`. */
  method PutCodeword(buf: array<bv8>, pos: nat, bitPos: nat, diff: int, k: nat, ghost xs: seq<int>, ghost l: nat,
                     ghost ws: seq<seq<bool>>, ghost before: seq<bool>)
    returns (nextPos: nat, nextBitPos: nat)
    requires l < |ws| <= |xs| && diff == xs[l] - (if l == 0 then 0 else xs[l - 1])
    requires forall l' {:trigger Delta(xs, l')} | 0 <= l' < |ws| :: ws[l'] == Codeword(Delta(xs, l'), k)
    requires bitPos < 8 && 8 * pos + bitPos == |before| && |before + ws[l]| <= 8 * buf.Length
    requires Holds(BitsOf(buf[..]), before)
    modifies buf
    ensures nextBitPos < 8 && 8 * nextPos + nextBitPos == |before + ws[l]|
    ensures Holds(BitsOf(buf[..]), before + ws[l])
  {
    assert Delta(xs, l) == diff;
    var p, b := AppendBit(buf, pos, bitPos, diff < 0, before);
    var mag := Abs(diff);
    var un := Shr(mag, k);
    ghost var w1 := before + [diff < 0];
    p, b := AppendOnes(buf, p, b, un, w1);
    ghost var w2 := w1 + Ones(un);
    p, b := AppendBit(buf, p, b, false, w2);
    ghost var w3 := w2 + [false];
    nextPos, nextBitPos := AppendNumber(buf, p, b, k, mag, w3);
    AppendCodeword(before, diff, k);
  }

  /** The second loop over a channel's frames: one codeword each. The
      codewords are given as the pieces `ws`, one per frame. */
  method PutCodes(buf: array<bv8>, pos: nat, bitPos: nat, samples: seq<int>, channels: nat, start: nat, cap: nat,
                  c: nat, k: nat, ghost ws: seq<seq<bool>>, ghost before: seq<bool>, ghost after: seq<bool>)
    returns (nextPos: nat, nextBitPos: nat)
    requires c < channels && (start + cap) * channels <= |samples| && |ws| == cap
    requires forall l {:trigger Delta(Column(samples, channels, start, cap, c), l)} | 0 <= l < |ws| ::
      ws[l] == Codeword(Delta(Column(samples, channels, start, cap, c), l), k)
    requires after == before + Concat(ws, cap)
    requires bitPos < 8 && 8 * pos + bitPos == |before| && |after| <= 8 * buf.Length
    requires Holds(BitsOf(buf[..]), before)
    modifies buf
    ensures nextBitPos < 8 && 8 * nextPos + nextBitPos == |after|
    ensures Holds(BitsOf(buf[..]), after)
  {
    ghost var xs := Column(samples, channels, start, cap, c);
    var prev := 0;
    var l := 0;
    nextPos, nextBitPos := pos, bitPos;
    while l < cap
      invariant l <= cap && prev == if l == 0 then 0 else xs[l - 1]
      invariant nextBitPos < 8 && 8 * nextPos + nextBitPos == |before + Concat(ws, l)|
      invariant Holds(BitsOf(buf[..]), before + Concat(ws, l))
    {
      ConcatStep(before, ws, l);
      ConcatGrows(ws, l + 1, cap);
      var cur := FetchSample(samples, channels, start, cap, c, l);
      nextPos, nextBitPos := PutCodeword(buf, nextPos, nextBitPos, cur - prev, k, xs, l, ws, before + Concat(ws, l));
      prev := cur;
      l := l + 1;
    }
  }

  /** One channel of one block: its Rice parameter, then its codewords.
      The runs of the block are given as the pieces `rs`, one per channel;
      this writes the piece of channel `c`. */
  method PutChannel(buf: array<bv8>, pos: nat, bitPos: nat, samples: seq<int>, channels: nat, start: nat, cap: nat,
                    c: nat, width: nat, ghost rs: seq<seq<bool>>, ghost before: seq<bool>)
    returns (nextPos: nat, nextBitPos: nat)
    requires c < channels && (start + cap) * channels <= |samples| && |rs| == channels
    requires forall c' {:trigger Column(samples, channels, start, cap, c')} | 0 <= c' < channels ::
      rs[c'] == ChannelCode(Column(samples, channels, start, cap, c'), width)
    requires bitPos < 8 && 8 * pos + bitPos == |before| && |before + rs[c]| <= 8 * buf.Length
    requires Holds(BitsOf(buf[..]), before)
    modifies buf
    ensures nextBitPos < 8 && 8 * nextPos + nextBitPos == |before + rs[c]|
    ensures Holds(BitsOf(buf[..]), before + rs[c])
  {
    ghost var xs := Column(samples, channels, start, cap, c);
    var sum := SumDiffs(samples, channels, start, cap, c);
    var riceLen := BitsRequired(sum / BLOCK_SIZE);
    ChannelStep(before, xs, width, riceLen);
    CodewordsAll(xs, riceLen);
    var p, b := AppendNumber(buf, pos, bitPos, width, riceLen, before);
    nextPos, nextBitPos := PutCodes(buf, p, b, samples, channels, start, cap, c, riceLen, Codewords(xs, riceLen, cap),
                                    before + NumberBits(riceLen, width), before + rs[c]);
  }

  /** One block: the runs of all channels, channel 0 first. The runs are
      given as the pieces `rs`, one per channel. */
  method PutBlock(buf: array<bv8>, pos: nat, bitPos: nat, samples: seq<int>, channels: nat, start: nat, cap: nat,
                  width: nat, ghost rs: seq<seq<bool>>, ghost before: seq<bool>, ghost after: seq<bool>)
    returns (nextPos: nat, nextBitPos: nat)
    requires (start + cap) * channels <= |samples| && |rs| == channels
    requires forall c {:trigger Column(samples, channels, start, cap, c)} | 0 <= c < channels ::
      rs[c] == ChannelCode(Column(samples, channels, start, cap, c), width)
    requires after == before + Concat(rs, channels)
    requires bitPos < 8 && 8 * pos + bitPos == |before| && |after| <= 8 * buf.Length
    requires Holds(BitsOf(buf[..]), before)
    modifies buf
    ensures nextBitPos < 8 && 8 * nextPos + nextBitPos == |after|
    ensures Holds(BitsOf(buf[..]), after)
  {
    var c := 0;
    nextPos, nextBitPos := pos, bitPos;
    while c < channels
      invariant c <= channels && nextBitPos < 8
      invariant 8 * nextPos + nextBitPos == |before + Concat(rs, c)|
      invariant Holds(BitsOf(buf[..]), before + Concat(rs, c))
    {
      ConcatStep(before, rs, c);
      ConcatGrows(rs, c + 1, channels);
      nextPos, nextBitPos := PutChannel(buf, nextPos, nextBitPos, samples, channels, start, cap, c, width,
                                        rs, before + Concat(rs, c));
      c := c + 1;
    }
    assert c == channels;
  }

  /** Block `b` of the stream, which starts at frame `i`: its runs, as
      PutBlock writes them. The blocks are the pieces `bl`. */
  method PutNthBlock(buf: array<bv8>, pos: nat, bitPos: nat, samples: seq<int>, channels: nat, count: nat, i: nat,
                     width: nat, ghost b: nat, ghost bl: seq<seq<bool>>, ghost before: seq<bool>)
    returns (nextPos: nat, nextBitPos: nat)
    requires |samples| == count * channels && |bl| == Blocks(count) && b < |bl| && i == BLOCK_SIZE * b && i < count
    requires forall b' {:trigger NthBlock(samples, channels, count, width, b')} | 0 <= b' < Blocks(count) ::
      bl[b'] == NthBlock(samples, channels, count, width, b')
    requires bitPos < 8 && 8 * pos + bitPos == |before| && |before + bl[b]| <= 8 * buf.Length
    requires Holds(BitsOf(buf[..]), before)
    modifies buf
    ensures nextBitPos < 8 && 8 * nextPos + nextBitPos == |before + bl[b]|
    ensures Holds(BitsOf(buf[..]), before + bl[b])
  {
    var cap := Cap(count, i);
    NthBlockIs(samples, channels, count, width, b, i, cap);
    RunsAll(samples, channels, i, cap, width);
    nextPos, nextBitPos := PutBlock(buf, pos, bitPos, samples, channels, i, cap, width,
                                    Runs(samples, channels, i, cap, width, channels), before, before + bl[b]);
  }

  /** btw_encode's block loop: block after block, BLOCK_SIZE frames each
      but the last, with no padding in between. The blocks are given as
      the pieces `bl`, one per block. */
  method PutStream(buf: array<bv8>, pos: nat, bitPos: nat, samples: seq<int>, channels: nat, count: nat,
                   width: nat, ghost bl: seq<seq<bool>>, ghost before: seq<bool>, ghost after: seq<bool>)
    returns (nextPos: nat, nextBitPos: nat)
    requires |samples| == count * channels && |bl| == Blocks(count)
    requires forall b {:trigger NthBlock(samples, channels, count, width, b)} | 0 <= b < Blocks(count) ::
      bl[b] == NthBlock(samples, channels, count, width, b)
    requires after == before + Concat(bl, Blocks(count))
    requires bitPos < 8 && 8 * pos + bitPos == |before| && |after| <= 8 * buf.Length
    requires Holds(BitsOf(buf[..]), before)
    modifies buf
    ensures nextBitPos < 8 && 8 * nextPos + nextBitPos == |after|
    ensures Holds(BitsOf(buf[..]), after)
  {
    ghost var b := 0;
    var i := 0;
    nextPos, nextBitPos := pos, bitPos;
    while i < count
      invariant b <= Blocks(count) && i <= count
      invariant (i < count <==> b < Blocks(count)) && (i < count ==> i == BLOCK_SIZE * b)
      invariant nextBitPos < 8 && 8 * nextPos + nextBitPos == |before + Concat(bl, b)|
      invariant Holds(BitsOf(buf[..]), before + Concat(bl, b))
    {
      BlocksPartition(count, b);
      ConcatStep(before, bl, b);
      ConcatGrows(bl, b + 1, Blocks(count));
      nextPos, nextBitPos := PutNthBlock(buf, nextPos, nextBitPos, samples, channels, count, i, width, b, bl,
                                         before + Concat(bl, b));
      i := i + Cap(count, i);
      b := b + 1;
      BlockExists(count, b);
    }
    assert b == Blocks(count);
  }

  /** max_len: the size btw_encode allocates, in bytes. */
  function MaxLen(def: Def): nat
  {
    def.channels * def.sampleCount * def.bitsPerSample / 8 + 1024
  }

  /** The size Encode allocates: max_len, or, where the stream does not fit
      in max_len bytes, the bytes the stream needs. */
  function BufferLen(samples: seq<int>, def: Def): (n: nat)
    requires |samples| == def.sampleCount * def.channels
    ensures MaxLen(def) <= n && |Encoded(samples, def)| <= 8 * n
    ensures |Encoded(samples, def)| <= 8 * MaxLen(def) ==> n == MaxLen(def)
  {
    if |Encoded(samples, def)| <= 8 * MaxLen(def) then MaxLen(def) else (|Encoded(samples, def)| + 7) / 8
  }

  /** btw_encode. A format with a zero field ends the source process
      (exit(EXIT_FAILURE)); here it yields no buffer. Otherwise the buffer
      holds exactly the encoded stream followed by clear bits, and the
      length is the number of bytes the stream touches. The buffer is
      max_len bytes whenever the stream fits in them, and larger where the
      source would write past its end. */
  method Encode(samples: seq<int>, def: Def) returns (out: Option<array<bv8>>, outLen: nat)
    requires |samples| == def.sampleCount * def.channels
    ensures out.None? <==> !ValidDef(def)
    ensures out.None? ==> outLen == 0
    ensures out.Some? ==> fresh(out.value) && out.value.Length == BufferLen(samples, def)
    ensures out.Some? ==> Holds(BitsOf(out.value[..]), Encoded(samples, def))
    ensures out.Some? ==> outLen == (|Encoded(samples, def)| + 7) / 8
  {
    if !ValidDef(def) {
      return None, 0;
    }
    var count, channels := def.sampleCount, def.channels;
    var width := BitsRequired(def.bitsPerSample);
    var buf := new bv8[BufferLen(samples, def)](_ => 0);
    BitsOfZeros(buf[..]);
    HoldsNothing(BitsOf(buf[..]));
    var pos, bitPos := WriteHeader(buf, def);
    BlocksAll(samples, channels, count, width);
    pos, bitPos := PutStream(buf, pos, bitPos, samples, channels, count, width,
                             BlockCodes(samples, channels, count, width, Blocks(count)), HeaderBits(def), Encoded(samples, def));
    outLen := if bitPos != 0 then pos + 1 else pos;
    out := Some(buf);
  }
}
