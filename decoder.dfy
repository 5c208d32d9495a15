/** btw_decode as the source runs it: the header read with
    btw_read_metadata, then for each block and channel the Rice parameter
    and the run of codewords, bit by bit from the input buffer, every sample
    stored into the output array, and the cursor realigned after each
    block. Each method is proved against the functions of Decoding. */
module Decoder {
  import opened BitSeq
  import opened Bytes
  import opened Numbers
  import opened Options
  import opened BitCursor
  import opened Rice
  import opened Header
  import opened Stream
  import opened Decoding
  import opened ReadBack

  /** The unary part of a codeword from bit `p` on: `1 << k` added to the
      magnitude for every one bit read, up to and including the first zero
      bit. */
  method GrabUnary(data: array<bv8>, pos: nat, bitPos: nat, k: nat, ghost bs: seq<bool>)
    returns (diff: nat, nextPos: nat, nextBitPos: nat)
    requires bitPos < 8 && bs == BitsOf(data[..]) && 8 * pos + bitPos < |bs|
    requires 8 * pos + bitPos + Unary(bs, 8 * pos + bitPos) < |bs|
    ensures nextBitPos < 8 && 8 * nextPos + nextBitPos == 8 * pos + bitPos + Unary(bs, 8 * pos + bitPos) + 1
    ensures diff == Shl(Unary(bs, 8 * pos + bitPos), k)
  {
    ghost var p := 8 * pos + bitPos;
    ghost var q: nat := 0;
    diff := 0;
    ShlIsMul(0, k);
    var one;
    one, nextPos, nextBitPos := GrabBit(data, pos, bitPos);
    while one
      invariant nextBitPos < 8 && 8 * nextPos + nextBitPos == p + q + 1
      invariant p + q < |bs| && one == bs[p + q]
      invariant Unary(bs, p) == q + Unary(bs, p + q)
      invariant diff == Shl(q, k)
      decreases Unary(bs, p) - q
    {
      assert Unary(bs, p + q) == 1 + Unary(bs, p + q + 1);
      assert 8 * nextPos + nextBitPos < |bs| == 8 * data.Length;
      ShlSucc(q, k);
      diff := diff + Pow2(k);
      q := q + 1;
      one, nextPos, nextBitPos := GrabBit(data, nextPos, nextBitPos);
    }
  }

  /** The parts of a codeword, read one after the other, make up what
      ReadCode reads. */
  lemma CodeRead(bs: seq<bool>, at: nat, k: nat, q: nat, rest: nat, d: int, end: nat)
    requires at < |bs| && q == Unary(bs, at + 1) && end == at + 2 + q + k && end <= |bs|
    requires rest == Field(bs, at + 2 + q, k)
    requires d == if bs[at] then -(BitOr(Shl(q, k), rest) as int) else BitOr(Shl(q, k), rest)
    ensures ReadCode(bs, at, k) == Some((d, end))
  {
  }

  /** One codeword: the sign bit, the unary part, the k remainder bits
      OR-ed in, and the sign applied. */
  method GrabCode(data: array<bv8>, pos: nat, bitPos: nat, k: nat, ghost bs: seq<bool>)
    returns (d: int, nextPos: nat, nextBitPos: nat)
    requires bitPos < 8 && bs == BitsOf(data[..]) && ReadCode(bs, 8 * pos + bitPos, k).Some?
    ensures nextBitPos < 8 && ReadCode(bs, 8 * pos + bitPos, k) == Some((d, 8 * nextPos + nextBitPos))
  {
    ghost var at := 8 * pos + bitPos;
    ghost var q := Unary(bs, at + 1);
    var sign, diff, rest;
    sign, nextPos, nextBitPos := GrabBit(data, pos, bitPos);
    diff, nextPos, nextBitPos := GrabUnary(data, nextPos, nextBitPos, k, bs);
    rest, nextPos, nextBitPos := GrabNumber(data, nextPos, nextBitPos, k);
    FieldIsFromBits(bs, at + 2 + q, k);
    var mag: int := BitOr(diff, rest);
    d := if sign then -mag else mag;
    CodeRead(bs, at, k, q, rest, d, 8 * nextPos + nextBitPos);
  }

  // ---------------------------------------------------------------------
  // Where the reads start.

  /** Where each codeword of a run that ReadRun reads from bit `at` on
      starts, and where the run ends. */
  ghost function RunStarts(bs: seq<bool>, at: nat, k: nat, n: nat, prev: int): (ps: seq<nat>)
    requires ReadRun(bs, at, k, n, prev).Some?
    ensures |ps| == n + 1 && ps[0] == at
    decreases n
  {
    if n == 0 then [at]
    else [at] + RunStarts(bs, ReadCode(bs, at, k).value.1, k, n - 1, prev + ReadCode(bs, at, k).value.0)
  }

  /** A run ReadRun reads is a chain of codewords, each at the end of the
      one before, each giving the difference of its sample to the one
      before (to `prev` for the first). */
  lemma {:induction false} RunChain(bs: seq<bool>, at: nat, k: nat, n: nat, prev: int)
    requires ReadRun(bs, at, k, n, prev).Some?
    ensures RunStarts(bs, at, k, n, prev)[n] == ReadRun(bs, at, k, n, prev).value.1
    ensures forall l | 0 <= l < n ::
      ReadCode(bs, RunStarts(bs, at, k, n, prev)[l], k)
        == Some((ReadRun(bs, at, k, n, prev).value.0[l] - (if l == 0 then prev else ReadRun(bs, at, k, n, prev).value.0[l - 1]),
                 RunStarts(bs, at, k, n, prev)[l + 1]))
    decreases n
  {
    if n > 0 {
      var d, next := ReadCode(bs, at, k).value.0, ReadCode(bs, at, k).value.1;
      RunChain(bs, next, k, n - 1, prev + d);
      var ps, xs := RunStarts(bs, at, k, n, prev), ReadRun(bs, at, k, n, prev).value.0;
      var ps', xs' := RunStarts(bs, next, k, n - 1, prev + d), ReadRun(bs, next, k, n - 1, prev + d).value.0;
      assert ps == [at] + ps' && xs == [prev + d] + xs';
      forall l | 0 <= l < n
        ensures ReadCode(bs, ps[l], k) == Some((xs[l] - (if l == 0 then prev else xs[l - 1]), ps[l + 1]))
      {
        if l > 0 {
          assert ps[l] == ps'[l - 1] && ps[l + 1] == ps'[l] && xs[l] == xs'[l - 1] && xs[l - 1] == (if l == 1 then prev + d else xs'[l - 2]);
        }
      }
    }
  }

  /** A run ReadRun reads from a zero start is Chained. */
  lemma RunChained(bs: seq<bool>, at: nat, k: nat, n: nat)
    requires ReadRun(bs, at, k, n, 0).Some?
    ensures Chained(bs, RunStarts(bs, at, k, n, 0), ReadRun(bs, at, k, n, 0).value.0, k)
    ensures RunStarts(bs, at, k, n, 0)[n] == ReadRun(bs, at, k, n, 0).value.1
  {
    RunChain(bs, at, k, n, 0);
  }

  /** The run of a channel ReadChannel reads is Chained, after its
      rice_len field. */
  lemma ChannelChain(bs: seq<bool>, at: nat, width: nat, cap: nat, xs: seq<int>, end: nat) returns (ps: seq<nat>)
    requires ReadChannel(bs, at, width, cap) == Some((xs, end))
    ensures at + width <= |bs| && Chained(bs, ps, xs, Field(bs, at, width))
    ensures |ps| == cap + 1 && ps[0] == at + width && ps[cap] == end
  {
    ps := RunStarts(bs, at + width, Field(bs, at, width), cap, 0);
    RunChained(bs, at + width, Field(bs, at, width), cap);
  }

  /** The first channel of the channels ReadBlock reads, and the others. */
  lemma BlockHead(bs: seq<bool>, at: nat, width: nat, cap: nat, m: nat)
    returns (xs: seq<int>, next: nat, rest: seq<seq<int>>, end: nat)
    requires m > 0 && ReadBlock(bs, at, width, cap, m).Some?
    ensures ReadChannel(bs, at, width, cap) == Some((xs, next))
    ensures ReadBlock(bs, next, width, cap, m - 1) == Some((rest, end))
    ensures ReadBlock(bs, at, width, cap, m) == Some(([xs] + rest, end))
  {
    xs, next := ReadChannel(bs, at, width, cap).value.0, ReadChannel(bs, at, width, cap).value.1;
    rest, end := ReadBlock(bs, next, width, cap, m - 1).value.0, ReadBlock(bs, next, width, cap, m - 1).value.1;
  }

  /** A channel read at `at`, ahead of channels read one after the other
      from where it ends. */
  lemma ChannelsCons(bs: seq<bool>, at: nat, xs: seq<int>, ps: seq<nat>, cols: seq<seq<int>>, width: nat, cap: nat)
    requires ChannelsChained(bs, ps, cols, width, cap) && ReadChannel(bs, at, width, cap) == Some((xs, ps[0]))
    ensures ChannelsChained(bs, [at] + ps, [xs] + cols, width, cap)
  {
    var ps', cols' := [at] + ps, [xs] + cols;
    forall c | 0 <= c < |cols'|
      ensures ReadChannel(bs, ps'[c], width, cap) == Some((cols'[c], ps'[c + 1]))
    {
      if c > 0 {
        assert ps'[c] == ps[c - 1] && ps'[c + 1] == ps[c] && cols'[c] == cols[c - 1];
      }
    }
  }

  /** A block ReadBlock reads from bit `at` on is a chain of channels, each
      at the end of the one before, from `ps` of its index. */
  lemma {:induction false} BlockChain(bs: seq<bool>, at: nat, width: nat, cap: nat, m: nat) returns (ps: seq<nat>)
    requires ReadBlock(bs, at, width, cap, m).Some?
    ensures ChannelsChained(bs, ps, ReadBlock(bs, at, width, cap, m).value.0, width, cap)
    ensures |ps| == m + 1 && ps[0] == at && ps[m] == ReadBlock(bs, at, width, cap, m).value.1
    decreases m
  {
    if m == 0 {
      ps := [at];
    } else {
      var xs, next, rest, end := BlockHead(bs, at, width, cap, m);
      var ps' := BlockChain(bs, next, width, cap, m - 1);
      ChannelsCons(bs, at, xs, ps', rest, width, cap);
      ps := [at] + ps';
    }
  }

  /** The channels of block `b` of blocks read one after the other: where
      each starts, the last ending where the next block starts, once the
      cursor is realigned. */
  lemma BlockChannels(bs: seq<bool>, ps: seq<nat>, blocks: seq<seq<seq<int>>>, width: nat, count: nat, channels: nat, b: nat)
    returns (cps: seq<nat>)
    requires BlocksRead(bs, ps, blocks, width, count, channels, 0) && b < |blocks|
    ensures b < Blocks(count) && |blocks[b]| == channels
    ensures ChannelsChained(bs, cps, blocks[b], width, BlockCap(count, b))
    ensures |cps| == channels + 1 && cps[0] == ps[b] && Align(cps[channels]) == ps[b + 1]
    ensures forall c | 0 <= c < channels :: |blocks[b][c]| == BlockCap(count, b)
  {
    var end := BlockAt(bs, ps, blocks, width, count, channels, 0, b);
    cps := BlockChain(bs, ps[b], width, BlockCap(count, b), channels);
  }

  /** Channel `c` of a chain of channels: its rice_len field, then a chain
      of codewords ending where the next channel starts. */
  lemma ChannelRun(bs: seq<bool>, cps: seq<nat>, cols: seq<seq<int>>, width: nat, cap: nat, c: nat) returns (rps: seq<nat>)
    requires ChannelsChained(bs, cps, cols, width, cap) && c < |cols|
    ensures cps[c] + width <= |bs| && |cols[c]| == cap
    ensures Chained(bs, rps, cols[c], Field(bs, cps[c], width))
    ensures |rps| == cap + 1 && rps[0] == cps[c] + width && rps[cap] == cps[c + 1]
  {
    assert ReadChannel(bs, cps[c], width, cap) == Some((cols[c], cps[c + 1]));
    rps := ChannelChain(bs, cps[c], width, cap, cols[c], cps[c + 1]);
  }

  /** ReadBlock reads `cols` from bit `p` on, and the next block starts at
      `q`, once the cursor is realigned. */
  ghost predicate ReadsBlock(bs: seq<bool>, p: nat, q: nat, cols: seq<seq<int>>, width: nat, cap: nat, channels: nat)
  {
    ReadBlock(bs, p, width, cap, channels).Some? &&
    ReadBlock(bs, p, width, cap, channels).value.0 == cols &&
    q == Align(ReadBlock(bs, p, width, cap, channels).value.1)
  }

  /** Block `i` of the blocks from `b` on is read at `ps[i]`, and the next
      one starts at `ps[i + 1]`. */
  ghost predicate ReadsNth(bs: seq<bool>, ps: seq<nat>, blocks: seq<seq<seq<int>>>, width: nat, count: nat, channels: nat,
                           b: nat, i: nat)
  {
    i < |blocks| && i + 1 < |ps| && b + i < Blocks(count) &&
    ReadsBlock(bs, ps[i], ps[i + 1], blocks[i], width, BlockCap(count, b + i), channels)
  }

  /** Blocks `b` on, read one after the other from positions `ps`. */
  ghost predicate BlocksRead(bs: seq<bool>, ps: seq<nat>, blocks: seq<seq<seq<int>>>, width: nat, count: nat, channels: nat, b: nat)
  {
    |ps| == |blocks| + 1 && b + |blocks| == Blocks(count) &&
    forall i | 0 <= i < |blocks| :: ReadsNth(bs, ps, blocks, width, count, channels, b, i)
  }

  /** A block read at `at`, ahead of blocks read one after the other from
      where it ends, realigned. */
  lemma ChainCons(bs: seq<bool>, at: nat, cols: seq<seq<int>>, ps: seq<nat>, blocks: seq<seq<seq<int>>>,
                  width: nat, count: nat, channels: nat, b: nat)
    requires b < Blocks(count) && BlocksRead(bs, ps, blocks, width, count, channels, b + 1)
    requires ReadsBlock(bs, at, ps[0], cols, width, BlockCap(count, b), channels)
    ensures BlocksRead(bs, [at] + ps, [cols] + blocks, width, count, channels, b)
  {
    var ps', blocks' := [at] + ps, [cols] + blocks;
    forall i | 0 <= i < |blocks'|
      ensures ReadsNth(bs, ps', blocks', width, count, channels, b, i)
    {
      if i > 0 {
        NthShift(bs, at, cols, ps, blocks, width, count, channels, b, i);
      }
    }
  }

  /** Block `i - 1` from block `b + 1` on is block `i` from block `b` on. */
  lemma NthShift(bs: seq<bool>, at: nat, cols: seq<seq<int>>, ps: seq<nat>, blocks: seq<seq<seq<int>>>,
                 width: nat, count: nat, channels: nat, b: nat, i: nat)
    requires 0 < i && ReadsNth(bs, ps, blocks, width, count, channels, b + 1, i - 1)
    ensures ReadsNth(bs, [at] + ps, [cols] + blocks, width, count, channels, b, i)
  {
    var ps', blocks' := [at] + ps, [cols] + blocks;
    assert ps'[i] == ps[i - 1] && ps'[i + 1] == ps[i] && blocks'[i] == blocks[i - 1] && b + i == (b + 1) + (i - 1);
  }

  /** The blocks ReadBlocks reads from bit `at` on are read one after the
      other, each from `ps` of its index: after the block before, realigned. */
  lemma {:induction false} StreamChain(bs: seq<bool>, at: nat, width: nat, count: nat, channels: nat, b: nat)
    returns (ps: seq<nat>)
    requires b <= Blocks(count) && ReadBlocks(bs, at, width, count, channels, b).Some?
    ensures BlocksRead(bs, ps, ReadBlocks(bs, at, width, count, channels, b).value, width, count, channels, b)
    ensures ps[0] == at
    decreases Blocks(count) - b
  {
    if b == Blocks(count) {
      ps := [at];
    } else {
      var cols, next := BlocksHead(bs, at, width, count, channels, b);
      var ps' := StreamChain(bs, Align(next), width, count, channels, b + 1);
      ChainCons(bs, at, cols, ps', ReadBlocks(bs, Align(next), width, count, channels, b + 1).value,
                width, count, channels, b);
      ps := [at] + ps';
    }
  }

  /** The first block of the blocks ReadBlocks reads from block `b` on. */
  lemma BlocksHead(bs: seq<bool>, at: nat, width: nat, count: nat, channels: nat, b: nat)
    returns (cols: seq<seq<int>>, next: nat)
    requires b < Blocks(count) && ReadBlocks(bs, at, width, count, channels, b).Some?
    ensures ReadBlock(bs, at, width, BlockCap(count, b), channels) == Some((cols, next))
    ensures ReadBlocks(bs, Align(next), width, count, channels, b + 1).Some?
    ensures ReadBlocks(bs, at, width, count, channels, b).value
            == [cols] + ReadBlocks(bs, Align(next), width, count, channels, b + 1).value
  {
    cols, next := ReadBlock(bs, at, width, BlockCap(count, b), channels).value.0,
                  ReadBlock(bs, at, width, BlockCap(count, b), channels).value.1;
  }

  /** `in_pos += (bit_pos != 0); bit_pos = 0` is Align on the bit position. */
  lemma AlignCursor(pos: nat, bitPos: nat)
    requires bitPos < 8
    ensures Align(8 * pos + bitPos) == 8 * (pos + if bitPos != 0 then 1 else 0)
  {
  }

  /** Storing sample j of channel c of block b is one more step of Place. */
  lemma PlaceNext(init: seq<int>, channels: nat, blocks: seq<seq<seq<int>>>, b: nat, c: nat, j: nat, i: nat)
    requires b < |blocks| && c < |blocks[b]| && j < |blocks[b][c]|
    requires i == (BLOCK_SIZE * b + j) * channels + c && i < |init|
    ensures Place(init, channels, blocks, b, c, j + 1) == Place(init, channels, blocks, b, c, j)[i := blocks[b][c][j]]
  {
    IndexIsMul(BLOCK_SIZE * b + j, c, channels);
  }

  // ---------------------------------------------------------------------
  // The loops.

  /** One pass of the sample loop: a codeword read, the sample before plus
      its difference stored at output[i]. */
  method DecodeSample(data: array<bv8>, out: array<int>, pos: nat, bitPos: nat, k: nat, prev: int, i: nat,
                      ghost bs: seq<bool>, ghost d: int, ghost next: nat)
    returns (nextPos: nat, nextBitPos: nat, sample: int)
    requires bitPos < 8 && bs == BitsOf(data[..]) && data as object != out as object && i < out.Length
    requires ReadCode(bs, 8 * pos + bitPos, k) == Some((d, next))
    modifies out
    ensures nextBitPos < 8 && 8 * nextPos + nextBitPos == next
    ensures sample == prev + d && out[..] == old(out[..])[i := sample]
  {
    var diff;
    diff, nextPos, nextBitPos := GrabCode(data, pos, bitPos, k, bs);
    sample := prev + diff;
    out[i] := sample;
  }

  /** The sample loop of one channel of block `b`, which starts at frame
      `start`: each codeword's difference added to the sample before, the
      sum stored at output[(start + j) * channels + c] and out_len counted
      up. The codewords of the run sit at the positions `ps`. */
  method DecodeRun(data: array<bv8>, out: array<int>, pos: nat, bitPos: nat, k: nat, cap: nat, channels: nat,
                   start: nat, c: nat, outLen: nat, ghost bs: seq<bool>, ghost init: seq<int>,
                   ghost blocks: seq<seq<seq<int>>>, ghost b: nat, ghost ps: seq<nat>)
    returns (nextPos: nat, nextBitPos: nat, outLen': nat)
    requires bitPos < 8 && bs == BitsOf(data[..]) && data as object != out as object
    requires b < |blocks| && c < |blocks[b]| && c < channels && |blocks[b][c]| == cap
    requires start == BLOCK_SIZE * b && (start + cap) * channels <= out.Length && |init| == out.Length
    requires Chained(bs, ps, blocks[b][c], k) && ps[0] == 8 * pos + bitPos
    requires out[..] == Place(init, channels, blocks, b, c, 0)
    modifies out
    ensures nextBitPos < 8 && 8 * nextPos + nextBitPos == ps[cap]
    ensures out[..] == Place(init, channels, blocks, b, c, cap)
    ensures outLen' == outLen + cap
  {
    ghost var xs := blocks[b][c];
    nextPos, nextBitPos, outLen' := pos, bitPos, outLen;
    var prev := 0;
    var j := 0;
    while j < cap
      invariant j <= cap && nextBitPos < 8 && bs == BitsOf(data[..])
      invariant 8 * nextPos + nextBitPos == ps[j]
      invariant prev == if j == 0 then 0 else xs[j - 1]
      invariant out[..] == Place(init, channels, blocks, b, c, j)
      invariant outLen' == outLen + j
    {
      IndexIsMul(start + j, c, channels);
      IndexBound(start + j, c, channels, start + cap);
      var i := (start + j) * channels + c;
      nextPos, nextBitPos, prev := DecodeSample(data, out, nextPos, nextBitPos, k, prev, i, bs, Delta(xs, j), ps[j + 1]);
      PlaceNext(init, channels, blocks, b, c, j, i);
      outLen' := outLen' + 1;
      j := j + 1;
    }
  }

  /** One pass of the channel loop: rice_len read in `width` bits, then the
      channel's run, from where channel `c` of a chain of channels starts
      to where the next one does. */
  method DecodeChannel(data: array<bv8>, out: array<int>, pos: nat, bitPos: nat, width: nat, cap: nat, channels: nat,
                       start: nat, c: nat, outLen: nat, ghost bs: seq<bool>, ghost init: seq<int>,
                       ghost blocks: seq<seq<seq<int>>>, ghost b: nat, ghost cps: seq<nat>)
    returns (nextPos: nat, nextBitPos: nat, outLen': nat)
    requires bitPos < 8 && bs == BitsOf(data[..]) && data as object != out as object
    requires b < |blocks| && c < |blocks[b]| && c < channels
    requires start == BLOCK_SIZE * b && (start + cap) * channels <= out.Length && |init| == out.Length
    requires ChannelsChained(bs, cps, blocks[b], width, cap) && 8 * pos + bitPos == cps[c] && |blocks[b][c]| == cap
    requires out[..] == Place(init, channels, blocks, b, c, 0)
    modifies out
    ensures nextBitPos < 8 && 8 * nextPos + nextBitPos == cps[c + 1]
    ensures out[..] == Place(init, channels, blocks, b, c, cap)
    ensures outLen' == outLen + cap
  {
    ghost var ps := ChannelRun(bs, cps, blocks[b], width, cap, c);
    var k;
    k, nextPos, nextBitPos := GrabNumber(data, pos, bitPos, width);
    FieldIsFromBits(bs, 8 * pos + bitPos, width);
    nextPos, nextBitPos, outLen' := DecodeRun(data, out, nextPos, nextBitPos, k, cap, channels, start, c, outLen,
                                              bs, init, blocks, b, ps);
  }

  /** The channel loop of block `b`: one run per channel. The block is
      the one read at `ps[b]` among the blocks read one after the other,
      and the cursor, realigned, is where the next one starts. */
  method DecodeBlock(data: array<bv8>, out: array<int>, pos: nat, bitPos: nat, width: nat, cap: nat, channels: nat,
                     start: nat, outLen: nat, ghost bs: seq<bool>, ghost init: seq<int>,
                     ghost blocks: seq<seq<seq<int>>>, ghost ps: seq<nat>, ghost count: nat, ghost b: nat)
    returns (nextPos: nat, nextBitPos: nat, outLen': nat)
    requires bitPos < 8 && bs == BitsOf(data[..]) && data as object != out as object
    requires BlocksRead(bs, ps, blocks, width, count, channels, 0) && b < |blocks| && 8 * pos + bitPos == ps[b]
    requires start == BLOCK_SIZE * b && cap == BlockCap(count, b)
    requires (start + cap) * channels <= out.Length && |init| == out.Length
    requires out[..] == Place(init, channels, blocks, b, 0, 0)
    modifies out
    ensures nextBitPos < 8 && Align(8 * nextPos + nextBitPos) == ps[b + 1]
    ensures out[..] == Place(init, channels, blocks, b + 1, 0, 0)
    ensures outLen' == outLen + channels * cap
  {
    ghost var cps := BlockChannels(bs, ps, blocks, width, count, channels, b);
    nextPos, nextBitPos, outLen' := pos, bitPos, outLen;
    var c := 0;
    while c < channels
      invariant c <= channels && nextBitPos < 8 && bs == BitsOf(data[..])
      invariant 8 * nextPos + nextBitPos == cps[c]
      invariant out[..] == Place(init, channels, blocks, b, c, 0)
      invariant outLen' == outLen + c * cap
    {
      nextPos, nextBitPos, outLen' := DecodeChannel(data, out, nextPos, nextBitPos, width, cap, channels, start, c, outLen',
                                                    bs, init, blocks, b, cps);
      MulAdd(c, 1, cap);
      c := c + 1;
    }
  }

  /** Block `i` of a run of blocks read one after the other: where it
      ends, before the cursor is realigned. */
  lemma BlockAt(bs: seq<bool>, ps: seq<nat>, blocks: seq<seq<seq<int>>>, width: nat, count: nat, channels: nat, b: nat, i: nat)
    returns (end: nat)
    requires BlocksRead(bs, ps, blocks, width, count, channels, b) && i < |blocks|
    ensures b + i < Blocks(count)
    ensures ReadBlock(bs, ps[i], width, BlockCap(count, b + i), channels) == Some((blocks[i], end))
    ensures ps[i + 1] == Align(end)
  {
    assert ReadsNth(bs, ps, blocks, width, count, channels, b, i);
    end := ReadBlock(bs, ps[i], width, BlockCap(count, b + i), channels).value.1;
  }

  /** What Decoded gives for the blocks read after the header. */
  lemma DecodedBlocks(bs: seq<bool>, fmt: Def, blocks: seq<seq<seq<int>>>)
    requires ValidDef(fmt)
    requires ReadBlocks(bs, 8 * HEADER_SIZE, RiceWidth(fmt), fmt.sampleCount, fmt.channels, 0) == Some(blocks)
    ensures Decoded(bs, fmt) == Some(Place(Fresh(SampleTotal(fmt)), fmt.channels, blocks, |blocks|, 0, 0))
  {
  }

  /** One pass of the block loop: `cap` worked out, the block's channels
      read and stored, the cursor realigned. */
  method DecodeNthBlock(data: array<bv8>, output: array<int>, pos: nat, width: nat, count: nat, channels: nat,
                        i: nat, outLen: nat, ghost bs: seq<bool>, ghost init: seq<int>,
                        ghost blocks: seq<seq<seq<int>>>, ghost ps: seq<nat>, ghost b: nat)
    returns (nextPos: nat, i': nat, outLen': nat)
    requires bs == BitsOf(data[..]) && data as object != output as object
    requires output.Length == count * channels && |init| == output.Length
    requires BlocksRead(bs, ps, blocks, width, count, channels, 0) && b < |blocks|
    requires i == BLOCK_SIZE * b && 8 * pos == ps[b] && outLen == i * channels
    requires output[..] == Place(init, channels, blocks, b, 0, 0)
    modifies output
    ensures 8 * nextPos == ps[b + 1] && outLen' == i' * channels
    ensures b + 1 < |blocks| ==> i' == BLOCK_SIZE * (b + 1)
    ensures b + 1 == |blocks| ==> i' == count
    ensures output[..] == Place(init, channels, blocks, b + 1, 0, 0)
  {
    var cap := if count - i < BLOCK_SIZE then count - i else BLOCK_SIZE;
    BlocksPartition(count, b);
    assert cap == BlockCap(count, b);
    MulLe(i + cap, count, channels);
    var bitPos;
    nextPos, bitPos, outLen' := DecodeBlock(data, output, pos, 0, width, cap, channels, i, outLen,
                                            bs, init, blocks, ps, count, b);
    MulAdd(i, cap, channels);
    AlignCursor(nextPos, bitPos);
    nextPos := nextPos + if bitPos != 0 then 1 else 0;
    i' := i + cap;
  }

  /** The block loop of btw_decode, for a format with no zero field: the
      output allocated, bits_per_rice_len worked out from bits_per_sample,
      then every block read and stored, out_len counted from 0. The blocks
      are the ones that lie one after the other from the end of the
      header on. */
  method DecodeBlocks(data: array<bv8>, fmt: Def, ghost bs: seq<bool>, ghost blocks: seq<seq<seq<int>>>, ghost ps: seq<nat>)
    returns (output: array<int>, outLen: nat)
    requires ValidDef(fmt) && bs == BitsOf(data[..])
    requires BlocksRead(bs, ps, blocks, RiceWidth(fmt), fmt.sampleCount, fmt.channels, 0) && ps[0] == 8 * HEADER_SIZE
    ensures fresh(output) && output[..] == Place(Fresh(SampleTotal(fmt)), fmt.channels, blocks, |blocks|, 0, 0)
    ensures outLen == SampleTotal(fmt)
  {
    var count, channels := fmt.sampleCount, fmt.channels;
    output := new int[count * channels](_ => 0);
    var width := BitsRequired(fmt.bitsPerSample);
    ghost var init := output[..];
    assert init == Fresh(SampleTotal(fmt));
    outLen := 0;
    var i, pos := 0, HEADER_SIZE;
    ghost var b := 0;
    while i < count
      invariant b <= |blocks| && bs == BitsOf(data[..])
      invariant b < |blocks| ==> i == BLOCK_SIZE * b
      invariant b == |blocks| ==> i == count
      invariant 8 * pos == ps[b] && outLen == i * channels
      invariant output[..] == Place(init, channels, blocks, b, 0, 0)
      decreases |blocks| - b
    {
      if b == |blocks| {
        assert false;
      }
      pos, i, outLen := DecodeNthBlock(data, output, pos, width, count, channels, i, outLen, bs, init, blocks, ps, b);
      b := b + 1;
    }
    if b < |blocks| {
      BlockExists(count, b);
      assert false;
    }
  }

  /** btw_decode. The format read from the header replaces `def` (the
      source stores it into *def); a zero field gives no output
      and leaves out_len as it was. Otherwise the output holds what
      Decoded reads, and out_len is sample_count * channels. */
  method Decode(data: array<bv8>, def: Def, outLen0: nat) returns (out: Option<array<int>>, fmt: Def, outLen: nat)
    requires HEADER_SIZE <= data.Length
    requires ValidDef(ParseHeader(data[..], def)) ==> Decoded(BitsOf(data[..]), ParseHeader(data[..], def)).Some?
    ensures fmt == ParseHeader(data[..], def)
    ensures out.None? <==> !ValidDef(fmt)
    ensures out.None? ==> outLen == outLen0
    ensures out.Some? ==> fresh(out.value) && Decoded(BitsOf(data[..]), fmt) == Some(out.value[..])
    ensures out.Some? ==> outLen == SampleTotal(fmt)
  {
    fmt := ReadMetadata(data, def);
    if !ValidDef(fmt) {
      return None, fmt, outLen0;
    }
    ghost var bs := BitsOf(data[..]);
    ghost var blocks := ReadBlocks(bs, 8 * HEADER_SIZE, RiceWidth(fmt), fmt.sampleCount, fmt.channels, 0).value;
    ghost var ps := StreamChain(bs, 8 * HEADER_SIZE, RiceWidth(fmt), fmt.sampleCount, fmt.channels, 0);
    DecodedBlocks(bs, fmt, blocks);
    var output;
    output, outLen := DecodeBlocks(data, fmt, bs, blocks, ps);
    out := Some(output);
  }
}
