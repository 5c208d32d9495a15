/** Reading back what btw_encode writes: every codeword, run, block and
    the whole stream, where the encoder put it, reads back as the samples
    it codes, provided every Rice parameter fits its field and every block
    but the last ends on a byte boundary. */
module ReadBack {
  import opened BitSeq
  import opened Options
  import opened Header
  import opened Appending
  import opened Rice
  import opened Stream
  import opened Decoding

  // ---------------------------------------------------------------------
  // Windows.

  /** `w` sits in `bs` from bit `at` on. */
  ghost predicate Window(bs: seq<bool>, at: nat, w: seq<bool>)
  {
    at + |w| <= |bs| && forall i | 0 <= i < |w| :: bs[at + i] == w[i]
  }

  lemma WindowSlice(bs: seq<bool>, at: nat, w: seq<bool>)
    requires Window(bs, at, w)
    ensures at + |w| <= |bs| && bs[at .. at + |w|] == w
  {
    var s := bs[at .. at + |w|];
    assert forall i | 0 <= i < |w| :: s[i] == w[i];
  }

  /** Two pieces written back to back are found one after the other. */
  lemma WindowSplit(bs: seq<bool>, at: nat, u: seq<bool>, v: seq<bool>)
    requires Window(bs, at, u + v)
    ensures Window(bs, at, u) && Window(bs, at + |u|, v)
  {
    forall i | 0 <= i < |u|
      ensures bs[at + i] == u[i]
    {
      assert (u + v)[i] == u[i];
    }
    forall i | 0 <= i < |v|
      ensures bs[at + |u| + i] == v[i]
    {
      assert (u + v)[|u| + i] == v[i];
    }
  }

  /** In a string that holds the first `n` pieces from bit `at` on, piece
      `l` sits right after the first `l` of them. */
  lemma PieceAt(bs: seq<bool>, at: nat, ws: seq<seq<bool>>, n: nat, l: nat)
    requires l < n <= |ws| && Window(bs, at, Concat(ws, n))
    ensures Window(bs, at + |Concat(ws, l)|, ws[l])
  {
    ConcatPrefix(ws, l + 1, n);
    var c, p := Concat(ws, n), |Concat(ws, l)|;
    assert Concat(ws, l + 1) == Concat(ws, l) + ws[l];
    forall i | 0 <= i < |ws[l]|
      ensures bs[at + p + i] == ws[l][i]
    {
      assert c[p + i] == Concat(ws, l + 1)[p + i];
      assert bs[at + (p + i)] == c[p + i];
    }
  }

  /** A `width`-bit field where NumberBits(k, width) was written reads as
      `k`, when `k` fits. */
  lemma FieldOfWindow(bs: seq<bool>, at: nat, k: nat, width: nat)
    requires k < Pow2(width) && Window(bs, at, NumberBits(k, width))
    ensures Field(bs, at, width) == k
  {
    WindowSlice(bs, at, NumberBits(k, width));
    FieldIsFromBits(bs, at, width);
    FromNumberBits(k, width);
    DivModUnique(k, Pow2(width), 0, k);
  }

  // ---------------------------------------------------------------------
  // Runs.

  /** One step of the sample loop: a codeword read, then the rest. */
  lemma ReadRunStep(bs: seq<bool>, at: nat, k: nat, n: nat, prev: int, d: int, next: nat, rest: seq<int>, end: nat)
    requires n > 0 && ReadCode(bs, at, k) == Some((d, next)) && ReadRun(bs, next, k, n - 1, prev + d) == Some((rest, end))
    ensures ReadRun(bs, at, k, n, prev) == Some(([prev + d] + rest, end))
  {
  }

  /** Where codeword `l` of run `xs` begins when the run's codes begin at
      bit `at`. */
  function CodePos(at: nat, xs: seq<int>, k: nat, l: nat): nat
    requires l <= |xs|
  {
    at + |Concat(Codewords(xs, k, |xs|), l)|
  }

  /** Where each codeword of run `xs` begins, and where the last one ends. */
  function CodePositions(at: nat, xs: seq<int>, k: nat): (ps: seq<nat>)
    ensures |ps| == |xs| + 1
  {
    seq(|xs| + 1, l requires 0 <= l <= |xs| => CodePos(at, xs, k, l))
  }

  /** Codeword `l` of run `xs` reads back at `ps[l]` as its difference and
      ends at `ps[l + 1]`. */
  ghost predicate Chained(bs: seq<bool>, ps: seq<nat>, xs: seq<int>, k: nat)
  {
    |ps| == |xs| + 1 &&
    forall l | 0 <= l < |xs| :: ReadCode(bs, ps[l], k) == Some((Delta(xs, l), ps[l + 1]))
  }

  /** Codeword `l` of a run, read where the encoder put it. */
  lemma CodeAt(bs: seq<bool>, at: nat, xs: seq<int>, k: nat, l: nat)
    requires l < |xs| && Window(bs, at, Codes(xs, k))
    ensures ReadCode(bs, CodePos(at, xs, k, l), k) == Some((Delta(xs, l), CodePos(at, xs, k, l + 1)))
  {
    var ws := Codewords(xs, k, |xs|);
    var p := CodePos(at, xs, k, l);
    PieceAt(bs, at, ws, |xs|, l);
    CodewordAt(xs, k, |xs|, l, xs[l], if l == 0 then 0 else xs[l - 1]);
    WindowSlice(bs, p, ws[l]);
    ReadCodeword(bs, p, Delta(xs, l), k);
    ConcatStep([], ws, l);
  }

  /** The codes of a run, where the encoder put them, read back one by one. */
  lemma CodesRead(bs: seq<bool>, at: nat, xs: seq<int>, k: nat)
    requires Window(bs, at, Codes(xs, k))
    ensures Chained(bs, CodePositions(at, xs, k), xs, k)
    ensures CodePositions(at, xs, k)[0] == at && CodePositions(at, xs, k)[|xs|] == at + |Codes(xs, k)|
  {
    var ps := CodePositions(at, xs, k);
    forall l | 0 <= l < |xs|
      ensures ReadCode(bs, ps[l], k) == Some((Delta(xs, l), ps[l + 1]))
    {
      CodeAt(bs, at, xs, k, l);
    }
  }

  /** Read on from codeword `l`, the sample loop gives back the rest of the
      run and stops after its last codeword. */
  lemma {:induction false} ReadRunFrom(bs: seq<bool>, ps: seq<nat>, xs: seq<int>, k: nat, l: nat)
    requires l <= |xs| && Chained(bs, ps, xs, k)
    ensures ReadRun(bs, ps[l], k, |xs| - l, if l == 0 then 0 else xs[l - 1]) == Some((xs[l..], ps[|xs|]))
    decreases |xs| - l
  {
    if l < |xs| {
      var prev := if l == 0 then 0 else xs[l - 1];
      ReadRunFrom(bs, ps, xs, k, l + 1);
      ReadRunStep(bs, ps[l], k, |xs| - l, prev, Delta(xs, l), ps[l + 1], xs[l + 1..], ps[|xs|]);
      assert xs[l..] == [xs[l]] + xs[l + 1..];
    } else {
      assert xs[l..] == [];
    }
  }

  /** The sample loop reads a whole run back from its codes. */
  lemma ReadRunCodes(bs: seq<bool>, ps: seq<nat>, xs: seq<int>, k: nat)
    requires Chained(bs, ps, xs, k)
    ensures ReadRun(bs, ps[0], k, |xs|, 0) == Some((xs, ps[|xs|]))
  {
    ReadRunFrom(bs, ps, xs, k, 0);
    assert xs[0..] == xs;
  }

  // ---------------------------------------------------------------------
  // Channels.

  /** A channel's Rice parameter fits its field: rice_len < 2^bits_per_rice_len. */
  predicate ParamFits(xs: seq<int>, width: nat)
  {
    RiceParam(xs) < Pow2(width)
  }

  /** A parameter field holding `k`, then a run whose codewords read back. */
  lemma ReadChannelWith(bs: seq<bool>, at: nat, xs: seq<int>, k: nat, width: nat, ps: seq<nat>)
    requires at + width <= |bs| && Field(bs, at, width) == k && Chained(bs, ps, xs, k) && ps[0] == at + width
    ensures ReadChannel(bs, at, width, |xs|) == Some((xs, ps[|xs|]))
  {
    ReadRunCodes(bs, ps, xs, k);
  }

  /** A parameter field holding `k`, then the codes of a run with `k`. */
  lemma ReadChannelFrom(bs: seq<bool>, at: nat, xs: seq<int>, k: nat, width: nat)
    requires at + width <= |bs| && Field(bs, at, width) == k && Window(bs, at + width, Codes(xs, k))
    ensures ReadChannel(bs, at, width, |xs|) == Some((xs, at + width + |Codes(xs, k)|))
  {
    CodesRead(bs, at + width, xs, k);
    ReadChannelWith(bs, at, xs, k, width, CodePositions(at + width, xs, k));
  }

  /** One channel of a block reads back as written, when its parameter
      fits its field. */
  lemma ReadChannelCode(bs: seq<bool>, at: nat, xs: seq<int>, width: nat)
    requires ParamFits(xs, width) && Window(bs, at, ChannelCode(xs, width))
    ensures ReadChannel(bs, at, width, |xs|) == Some((xs, at + |ChannelCode(xs, width)|))
  {
    var k := RiceParam(xs);
    WindowSplit(bs, at, NumberBits(k, width), Codes(xs, k));
    FieldOfWindow(bs, at, k, width);
    ReadChannelFrom(bs, at, xs, k, width);
  }

  // ---------------------------------------------------------------------
  // Blocks.

  /** One step of the channel loop: a run read, then the other channels. */
  lemma ReadBlockStep(bs: seq<bool>, at: nat, width: nat, cap: nat, m: nat, xs: seq<int>, next: nat,
                      rest: seq<seq<int>>, end: nat)
    requires m > 0 && ReadChannel(bs, at, width, cap) == Some((xs, next))
    requires ReadBlock(bs, next, width, cap, m - 1) == Some((rest, end))
    ensures ReadBlock(bs, at, width, cap, m) == Some(([xs] + rest, end))
  {
  }

  /** Run `c` reads back at `ps[c]` as `cols[c]` and ends at `ps[c + 1]`. */
  ghost predicate ChannelsChained(bs: seq<bool>, ps: seq<nat>, cols: seq<seq<int>>, width: nat, cap: nat)
  {
    |ps| == |cols| + 1 &&
    forall c {:trigger ReadChannel(bs, ps[c], width, cap)} | 0 <= c < |cols| ::
      ReadChannel(bs, ps[c], width, cap) == Some((cols[c], ps[c + 1]))
  }

  /** Read on from run `c`, the channel loop gives back the other runs. */
  lemma {:induction false} ReadBlockFrom(bs: seq<bool>, ps: seq<nat>, cols: seq<seq<int>>, width: nat, cap: nat, c: nat)
    requires c <= |cols| && ChannelsChained(bs, ps, cols, width, cap)
    ensures ReadBlock(bs, ps[c], width, cap, |cols| - c) == Some((cols[c..], ps[|cols|]))
    decreases |cols| - c
  {
    if c < |cols| {
      ReadBlockFrom(bs, ps, cols, width, cap, c + 1);
      ReadBlockCons(bs, ps, cols, width, cap, c);
    } else {
      assert cols[c..] == [];
    }
  }

  /** A suffix is its first element ahead of the rest. */
  lemma DropFirst<T>(s: seq<T>, i: nat)
    requires i < |s|
    ensures s[i..] == [s[i]] + s[i + 1..]
  {
  }

  /** Run `c` of a chain of runs, ahead of the runs after it. */
  lemma ReadBlockCons(bs: seq<bool>, ps: seq<nat>, cols: seq<seq<int>>, width: nat, cap: nat, c: nat)
    requires c < |cols| && ChannelsChained(bs, ps, cols, width, cap)
    requires ReadBlock(bs, ps[c + 1], width, cap, |cols| - (c + 1)) == Some((cols[c + 1..], ps[|cols|]))
    ensures ReadBlock(bs, ps[c], width, cap, |cols| - c) == Some((cols[c..], ps[|cols|]))
  {
    assert ReadChannel(bs, ps[c], width, cap) == Some((cols[c], ps[c + 1]));
    ReadBlockStep(bs, ps[c], width, cap, |cols| - c, cols[c], ps[c + 1], cols[c + 1..], ps[|cols|]);
    DropFirst(cols, c);
  }

  /** Every channel's Rice parameter in the block fits its field. */
  ghost predicate BlockFits(samples: seq<int>, channels: nat, start: nat, cap: nat, width: nat)
    requires (start + cap) * channels <= |samples|
  {
    forall c | 0 <= c < channels :: ParamFits(Column(samples, channels, start, cap, c), width)
  }

  /** Where run `c` of a block begins when the block begins at bit `at`. */
  function RunPositions(at: nat, samples: seq<int>, channels: nat, start: nat, cap: nat, width: nat): (ps: seq<nat>)
    requires (start + cap) * channels <= |samples|
    ensures |ps| == channels + 1
  {
    seq(channels + 1, c requires 0 <= c <= channels => at + |Concat(Runs(samples, channels, start, cap, width, channels), c)|)
  }

  /** Run `c` of a block sits right after the runs before it. */
  lemma RunWindow(bs: seq<bool>, at: nat, samples: seq<int>, channels: nat, start: nat, cap: nat, width: nat, c: nat)
    requires c < channels && (start + cap) * channels <= |samples|
    requires Window(bs, at, BlockCode(samples, channels, start, cap, width))
    ensures Window(bs, RunPositions(at, samples, channels, start, cap, width)[c], ChannelCode(Column(samples, channels, start, cap, c), width))
    ensures RunPositions(at, samples, channels, start, cap, width)[c + 1]
      == RunPositions(at, samples, channels, start, cap, width)[c] + |ChannelCode(Column(samples, channels, start, cap, c), width)|
  {
    var rs := Runs(samples, channels, start, cap, width, channels);
    PieceAt(bs, at, rs, channels, c);
    RunAt(samples, channels, start, cap, width, channels, c);
    ConcatStep([], rs, c);
  }

  /** Run `c` of a block, read where the encoder put it. */
  lemma ChannelAt(bs: seq<bool>, at: nat, samples: seq<int>, channels: nat, start: nat, cap: nat, width: nat, c: nat)
    requires c < channels && (start + cap) * channels <= |samples|
    requires ParamFits(Column(samples, channels, start, cap, c), width)
    requires Window(bs, at, BlockCode(samples, channels, start, cap, width))
    ensures ReadChannel(bs, RunPositions(at, samples, channels, start, cap, width)[c], width, cap)
      == Some((Column(samples, channels, start, cap, c), RunPositions(at, samples, channels, start, cap, width)[c + 1]))
  {
    RunWindow(bs, at, samples, channels, start, cap, width, c);
    ReadChannelCode(bs, RunPositions(at, samples, channels, start, cap, width)[c], Column(samples, channels, start, cap, c), width);
  }

  /** A block, where the encoder put it, reads back as its columns. */
  lemma ReadBlockCode(bs: seq<bool>, at: nat, samples: seq<int>, channels: nat, start: nat, cap: nat, width: nat)
    requires (start + cap) * channels <= |samples| && BlockFits(samples, channels, start, cap, width)
    requires Window(bs, at, BlockCode(samples, channels, start, cap, width))
    ensures ReadBlock(bs, at, width, cap, channels)
      == Some((Columns(samples, channels, start, cap), at + |BlockCode(samples, channels, start, cap, width)|))
  {
    ChannelsAt(bs, at, samples, channels, start, cap, width);
    RunEnds(at, samples, channels, start, cap, width);
    ReadBlockWhole(bs, RunPositions(at, samples, channels, start, cap, width), Columns(samples, channels, start, cap),
                   width, cap, channels, at, at + |BlockCode(samples, channels, start, cap, width)|);
  }

  /** The first run starts where the block does, and the last ends where it does. */
  lemma RunEnds(at: nat, samples: seq<int>, channels: nat, start: nat, cap: nat, width: nat)
    requires (start + cap) * channels <= |samples|
    ensures RunPositions(at, samples, channels, start, cap, width)[0] == at
    ensures RunPositions(at, samples, channels, start, cap, width)[channels]
      == at + |BlockCode(samples, channels, start, cap, width)|
  {
  }

  /** The channel loop over a whole block reads every run. */
  lemma ReadBlockWhole(bs: seq<bool>, ps: seq<nat>, cols: seq<seq<int>>, width: nat, cap: nat, m: nat, at: nat, end: nat)
    requires ChannelsChained(bs, ps, cols, width, cap) && m == |cols| && ps[0] == at && ps[m] == end
    ensures ReadBlock(bs, at, width, cap, m) == Some((cols, end))
  {
    ReadBlockFrom(bs, ps, cols, width, cap, 0);
    assert cols[0..] == cols;
  }

  /** The runs of a block, where the encoder put them, read back one after
      the other. */
  lemma ChannelsAt(bs: seq<bool>, at: nat, samples: seq<int>, channels: nat, start: nat, cap: nat, width: nat)
    requires (start + cap) * channels <= |samples| && BlockFits(samples, channels, start, cap, width)
    requires Window(bs, at, BlockCode(samples, channels, start, cap, width))
    ensures ChannelsChained(bs, RunPositions(at, samples, channels, start, cap, width), Columns(samples, channels, start, cap),
                            width, cap)
  {
    var ps := RunPositions(at, samples, channels, start, cap, width);
    var cols := Columns(samples, channels, start, cap);
    forall c | 0 <= c < channels
      ensures ReadChannel(bs, ps[c], width, cap) == Some((cols[c], ps[c + 1]))
    {
      ChannelAt(bs, at, samples, channels, start, cap, width, c);
    }
  }

  // ---------------------------------------------------------------------
  // The stream.

  /** The columns of block `b`: the runs btw_decode should read for it. */
  function NthColumns(samples: seq<int>, channels: nat, count: nat, b: nat): (cols: seq<seq<int>>)
    requires b < Blocks(count) && |samples| == count * channels
    ensures |cols| == channels
  {
    MulLe(BLOCK_SIZE * b + BlockCap(count, b), count, channels);
    Columns(samples, channels, BLOCK_SIZE * b, BlockCap(count, b))
  }

  /** The columns of every block. */
  function BlockColumns(samples: seq<int>, channels: nat, count: nat): (blocks: seq<seq<seq<int>>>)
    requires |samples| == count * channels
    ensures |blocks| == Blocks(count)
  {
    seq(Blocks(count), b requires 0 <= b < Blocks(count) => NthColumns(samples, channels, count, b))
  }

  /** Every Rice parameter of the stream fits its field. */
  ghost predicate StreamFits(samples: seq<int>, channels: nat, count: nat, width: nat)
    requires |samples| == count * channels
  {
    forall b, c | 0 <= b < Blocks(count) && 0 <= c < channels :: ParamFits(NthColumns(samples, channels, count, b)[c], width)
  }

  /** Every block but the last ends on a byte boundary, so that the
      decoder's realignment after each block skips nothing. */
  ghost predicate BlocksAligned(samples: seq<int>, channels: nat, count: nat, width: nat)
    requires |samples| == count * channels
  {
    forall b | 0 <= b && b + 1 < Blocks(count) :: |NthBlock(samples, channels, count, width, b)| % 8 == 0
  }

  /** A stream of at most BLOCK_SIZE frames is one block, so nothing is
      skipped by the decoder's realignment. */
  lemma SingleBlockAligned(samples: seq<int>, channels: nat, count: nat, width: nat)
    requires |samples| == count * channels && count <= BLOCK_SIZE
    ensures BlocksAligned(samples, channels, count, width)
  {
    assert Blocks(count) <= 1;
  }

  /** Where block `b` begins when the stream begins at bit `at`. */
  function BlockPositions(at: nat, samples: seq<int>, channels: nat, count: nat, width: nat): (ps: seq<nat>)
    requires |samples| == count * channels
    ensures |ps| == Blocks(count) + 1
  {
    seq(Blocks(count) + 1, b requires 0 <= b <= Blocks(count) => at + |Concat(BlockCodes(samples, channels, count, width, Blocks(count)), b)|)
  }

  /** One step of the block loop: a block read, the cursor aligned, then
      the other blocks. */
  lemma ReadBlocksStep(bs: seq<bool>, at: nat, width: nat, count: nat, channels: nat, b: nat,
                       cols: seq<seq<int>>, next: nat, rest: seq<seq<seq<int>>>)
    requires b < Blocks(count) && ReadBlock(bs, at, width, BlockCap(count, b), channels) == Some((cols, next))
    requires ReadBlocks(bs, Align(next), width, count, channels, b + 1) == Some(rest)
    ensures ReadBlocks(bs, at, width, count, channels, b) == Some([cols] + rest)
  {
  }

  /** Block `b` reads back at `ps[b]` as `blocks[b]` and ends at
      `ps[b + 1]`; every block but the first begins on a byte boundary. */
  ghost predicate BlocksChained(bs: seq<bool>, ps: seq<nat>, blocks: seq<seq<seq<int>>>, width: nat, count: nat, channels: nat)
  {
    |ps| == Blocks(count) + 1 && |blocks| == Blocks(count) &&
    (forall b {:trigger ReadBlock(bs, ps[b], width, BlockCap(count, b), channels)} | 0 <= b < Blocks(count) ::
       ReadBlock(bs, ps[b], width, BlockCap(count, b), channels) == Some((blocks[b], ps[b + 1]))) &&
    (forall b | 0 < b < Blocks(count) :: ps[b] % 8 == 0)
  }

  /** Read on from block `b`, the block loop gives back the other blocks. */
  lemma {:induction false} ReadBlocksFrom(bs: seq<bool>, ps: seq<nat>, blocks: seq<seq<seq<int>>>, width: nat,
                                          count: nat, channels: nat, b: nat, at: nat)
    requires b <= Blocks(count) && BlocksChained(bs, ps, blocks, width, count, channels)
    requires b < Blocks(count) ==> at == ps[b]
    ensures ReadBlocks(bs, at, width, count, channels, b) == Some(blocks[b..])
    decreases Blocks(count) - b
  {
    if b < Blocks(count) {
      ReadBlocksFrom(bs, ps, blocks, width, count, channels, b + 1, Align(ps[b + 1]));
      ReadBlocksCons(bs, ps, blocks, width, count, channels, b);
    } else {
      assert blocks[b..] == [];
    }
  }

  /** Block `b` of a chain of blocks, ahead of the blocks after it. */
  lemma ReadBlocksCons(bs: seq<bool>, ps: seq<nat>, blocks: seq<seq<seq<int>>>, width: nat,
                       count: nat, channels: nat, b: nat)
    requires b < Blocks(count) && BlocksChained(bs, ps, blocks, width, count, channels)
    requires ReadBlocks(bs, Align(ps[b + 1]), width, count, channels, b + 1) == Some(blocks[b + 1..])
    ensures ReadBlocks(bs, ps[b], width, count, channels, b) == Some(blocks[b..])
  {
    assert ReadBlock(bs, ps[b], width, BlockCap(count, b), channels) == Some((blocks[b], ps[b + 1]));
    ReadBlocksStep(bs, ps[b], width, count, channels, b, blocks[b], ps[b + 1], blocks[b + 1..]);
    DropFirst(blocks, b);
  }

  /** Block `b` sits right after the blocks before it. */
  lemma BlockWindow(bs: seq<bool>, at: nat, samples: seq<int>, channels: nat, count: nat, width: nat, b: nat)
    requires b < Blocks(count) && |samples| == count * channels
    requires Window(bs, at, StreamCode(samples, channels, count, width))
    ensures Window(bs, BlockPositions(at, samples, channels, count, width)[b],
                   BlockCodes(samples, channels, count, width, Blocks(count))[b])
    ensures BlockPositions(at, samples, channels, count, width)[b + 1]
      == BlockPositions(at, samples, channels, count, width)[b] + |BlockCodes(samples, channels, count, width, Blocks(count))[b]|
  {
    var bl := BlockCodes(samples, channels, count, width, Blocks(count));
    PieceAt(bs, at, bl, Blocks(count), b);
    ConcatStep([], bl, b);
  }

  /** Piece `b` of the stream is the block of frames BLOCK_SIZE * b on. */
  lemma BlockPiece(samples: seq<int>, channels: nat, count: nat, width: nat, b: nat)
    requires b < Blocks(count) && |samples| == count * channels
    ensures (BLOCK_SIZE * b + BlockCap(count, b)) * channels <= |samples|
    ensures BlockCodes(samples, channels, count, width, Blocks(count))[b]
      == BlockCode(samples, channels, BLOCK_SIZE * b, BlockCap(count, b), width)
  {
    BlockBound(samples, channels, count, b);
    BlockExists(count, b);
    NthBlockIs(samples, channels, count, width, b, BLOCK_SIZE * b, BlockCap(count, b));
    BlockAt(samples, channels, count, width, Blocks(count), b);
  }

  /** Block `b` lies within the samples. */
  lemma BlockBound(samples: seq<int>, channels: nat, count: nat, b: nat)
    requires b < Blocks(count) && |samples| == count * channels
    ensures (BLOCK_SIZE * b + BlockCap(count, b)) * channels <= |samples|
  {
    MulLe(BLOCK_SIZE * b + BlockCap(count, b), count, channels);
  }

  /** Block `b` of a stream, as the encoder coded it, sits right after the
      blocks before it. */
  lemma BlockCodeWindow(bs: seq<bool>, at: nat, samples: seq<int>, channels: nat, count: nat, width: nat, b: nat)
    requires b < Blocks(count) && |samples| == count * channels
    requires Window(bs, at, StreamCode(samples, channels, count, width))
    ensures (BLOCK_SIZE * b + BlockCap(count, b)) * channels <= |samples|
    ensures Window(bs, BlockPositions(at, samples, channels, count, width)[b],
                   BlockCode(samples, channels, BLOCK_SIZE * b, BlockCap(count, b), width))
    ensures BlockPositions(at, samples, channels, count, width)[b + 1]
      == BlockPositions(at, samples, channels, count, width)[b] + |BlockCode(samples, channels, BLOCK_SIZE * b, BlockCap(count, b), width)|
  {
    BlockWindow(bs, at, samples, channels, count, width, b);
    BlockPiece(samples, channels, count, width, b);
  }

  /** The parameters of block `b` fit when those of the stream do. */
  lemma BlockFitsOf(samples: seq<int>, channels: nat, count: nat, width: nat, b: nat)
    requires b < Blocks(count) && |samples| == count * channels && StreamFits(samples, channels, count, width)
    ensures (BLOCK_SIZE * b + BlockCap(count, b)) * channels <= |samples|
    ensures BlockFits(samples, channels, BLOCK_SIZE * b, BlockCap(count, b), width)
  {
    var start, cap := BLOCK_SIZE * b, BlockCap(count, b);
    MulLe(start + cap, count, channels);
    forall c | 0 <= c < channels
      ensures ParamFits(Column(samples, channels, start, cap, c), width)
    {
      assert NthColumns(samples, channels, count, b)[c] == Column(samples, channels, start, cap, c);
    }
  }

  /** Block `b` of a stream, read where the encoder put it. */
  lemma BlockRead(bs: seq<bool>, at: nat, samples: seq<int>, channels: nat, count: nat, width: nat, b: nat)
    requires b < Blocks(count) && |samples| == count * channels && StreamFits(samples, channels, count, width)
    requires Window(bs, at, StreamCode(samples, channels, count, width))
    ensures ReadBlock(bs, BlockPositions(at, samples, channels, count, width)[b], width, BlockCap(count, b), channels)
      == Some((NthColumns(samples, channels, count, b), BlockPositions(at, samples, channels, count, width)[b + 1]))
  {
    BlockCodeWindow(bs, at, samples, channels, count, width, b);
    BlockFitsOf(samples, channels, count, width, b);
    ReadBlockCode(bs, BlockPositions(at, samples, channels, count, width)[b], samples, channels, BLOCK_SIZE * b, BlockCap(count, b), width);
  }

  lemma MultipleOf8(a: nat, b: nat)
    requires a % 8 == 0 && b % 8 == 0
    ensures (a + b) % 8 == 0
  {
    DivModUnique(a + b, 8, a / 8 + b / 8, 0);
  }

  /** Pieces that each fill whole bytes fill whole bytes together. */
  lemma {:induction false} ConcatBytes(ws: seq<seq<bool>>, n: nat)
    requires n <= |ws| && forall b | 0 <= b < n :: |ws[b]| % 8 == 0
    ensures |Concat(ws, n)| % 8 == 0
    decreases n
  {
    if n > 0 {
      ConcatBytes(ws, n - 1);
      ConcatStep([], ws, n - 1);
      MultipleOf8(|Concat(ws, n - 1)|, |ws[n - 1]|);
    }
  }

  /** With every block but the last ending on a byte boundary, every block
      but the last ends on one in the string too. */
  lemma BlockEndAligned(at: nat, samples: seq<int>, channels: nat, count: nat, width: nat, b: nat)
    requires b + 1 < Blocks(count) && |samples| == count * channels && at % 8 == 0
    requires BlocksAligned(samples, channels, count, width)
    ensures BlockPositions(at, samples, channels, count, width)[b + 1] % 8 == 0
  {
    var bl := BlockCodes(samples, channels, count, width, Blocks(count));
    forall b' | 0 <= b' < b + 1
      ensures |bl[b']| % 8 == 0
    {
      BlockAt(samples, channels, count, width, Blocks(count), b');
    }
    ConcatBytes(bl, b + 1);
    MultipleOf8(at, |Concat(bl, b + 1)|);
  }

  /** The stream, where the encoder put it on a byte boundary, reads back
      as the columns of every block. */
  lemma StreamRead(bs: seq<bool>, at: nat, samples: seq<int>, channels: nat, count: nat, width: nat)
    requires |samples| == count * channels && at % 8 == 0
    requires StreamFits(samples, channels, count, width) && BlocksAligned(samples, channels, count, width)
    requires Window(bs, at, StreamCode(samples, channels, count, width))
    ensures ReadBlocks(bs, at, width, count, channels, 0) == Some(BlockColumns(samples, channels, count))
  {
    var ps := BlockPositions(at, samples, channels, count, width);
    var blocks := BlockColumns(samples, channels, count);
    forall b | 0 <= b < Blocks(count)
      ensures ReadBlock(bs, ps[b], width, BlockCap(count, b), channels) == Some((blocks[b], ps[b + 1]))
      ensures 0 < b ==> ps[b] % 8 == 0
    {
      BlockRead(bs, at, samples, channels, count, width, b);
      if 0 < b {
        BlockEndAligned(at, samples, channels, count, width, b - 1);
      }
    }
    ReadBlocksFrom(bs, ps, blocks, width, count, channels, 0, at);
    assert blocks[0..] == blocks;
  }
}
