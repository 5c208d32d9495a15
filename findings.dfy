/** Three streams on which btw.h, as written, does not do what it is for:
    the decoder does not give back what the encoder wrote, or the encoder
    writes past the buffer it allocated. Each lemma exhibits one input. The
    model proper uses the corrected forms: the round trip DecodeEncode is
    stated for streams whose Rice parameters fit their field (StreamFits)
    and whose blocks end on byte boundaries (BlocksAligned), and Encode
    allocates BufferLen bytes. */
module Findings {
  import opened BitSeq
  import opened Bytes
  import opened Numbers
  import opened Options
  import opened Appending
  import opened Rice
  import opened Header
  import opened Stream
  import opened Decoding
  import opened ReadBack
  import opened Encoder
  import opened RoundTrip
  import Decoder

  /** Pieces all `len` long make `n * len` bits. */
  lemma {:induction false} ConcatUniform(ws: seq<seq<bool>>, n: nat, len: nat)
    requires n <= |ws| && forall i | 0 <= i < n :: |ws[i]| == len
    ensures |Concat(ws, n)| == n * len
    decreases n
  {
    if n > 0 {
      ConcatUniform(ws, n - 1, len);
    }
  }

  /** The one-frame column of channel `c`. */
  lemma OneFrame(samples: seq<int>, channels: nat, start: nat, c: nat)
    requires c < channels && (start + 1) * channels <= |samples|
    ensures Column(samples, channels, start, 1, c) == [samples[start * channels + c]]
  {
    ColumnAt(samples, channels, start, 1, c, 0);
    IndexIsMul(start, c, channels);
  }

  /** A format whose fields are all below 1024 fits the header. */
  lemma SmallFits(def: Def)
    requires def.channels < 1024 && def.bitsPerSample < 1024 && def.sampleRate < 1024 && def.sampleCount < 1024
    ensures FitsHeader(def)
  {
    assert Pow2(10) == 1024;
    Pow2Monotone(10, 16);
    Pow2Monotone(10, 32);
    Pow2Monotone(10, 64);
  }

  /** Sixteen bits per sample give a Rice parameter field of four bits. */
  lemma SixteenBits(def: Def)
    requires def.bitsPerSample == 16
    ensures RiceWidth(def) == 4
  {
    assert Pow2(4) == 16 && Pow2(5) == 32;
    Log2FloorUnique(def.bitsPerSample, 4);
  }

  /** The header of the encoder's output gives back the format. */
  lemma EncodedHeader(data: seq<bv8>, bs: seq<bool>, prior: Def, samples: seq<int>, def: Def)
    requires FitsHeader(def) && |samples| == def.sampleCount * def.channels
    requires bs == BitsOf(data) && Holds(bs, Encoded(samples, def))
    ensures HEADER_SIZE <= |data| && ParseHeader(data, prior) == def
  {
    HeldPrefix(bs, HeaderBits(def), StreamCode(samples, def.channels, def.sampleCount, RiceWidth(def)));
    HeaderHeld(data, def, prior);
  }

  // ---------------------------------------------------------------------
  // max_len is too small.

  /** Eight channels of one frame, each at the top of the 16-bit range. */
  function LoudFrame(): (samples: seq<int>)
    ensures |samples| == 8
  {
    seq(8, _ => 32767)
  }

  /** One loud frame: Rice parameter floor(log2(32767 / 512)) = 5, and a
      quotient of 32767 >> 5 = 1023 one bits. */
  lemma LoudRun(xs: seq<int>, x: int)
    requires xs == [x] && x == 32767
    ensures |ChannelCode(xs, 4)| == 1034
  {
    assert SumAbs(xs, 1) == x;
    assert Pow2(6) == 64;
    Log2FloorUnique(x / BLOCK_SIZE, 5);
    var ws := Codewords(xs, 5, 1);
    assert ws[0] == Codeword(x, 5);
    assert |Codes(xs, 5)| == |Concat(ws, 0)| + |ws[0]|;
    ShrIsDiv(x, 5);
  }

  /** The one block of eight loud channels. */
  lemma LoudStream(samples: seq<int>)
    requires samples == LoudFrame()
    ensures |StreamCode(samples, 8, 1, 4)| == 8272
  {
    var runs := Runs(samples, 8, 0, 1, 4, 8);
    RunsAll(samples, 8, 0, 1, 4);
    forall c | 0 <= c < 8
      ensures |runs[c]| == 1034
    {
      OneFrame(samples, 8, 0, c);
      LoudRun(Column(samples, 8, 0, 1, c), samples[c]);
    }
    ConcatUniform(runs, 8, 1034);
    assert Blocks(1) == 1;
    var bl := BlockCodes(samples, 8, 1, 4, 1);
    assert bl[0] == NthBlock(samples, 8, 1, 4, 0);
    assert |StreamCode(samples, 8, 1, 4)| == |Concat(bl, 0)| + |bl[0]|;
    NthBlockIs(samples, 8, 1, 4, 0, 0, 1);
  }

  /** btw_encode allocates max_len = channels * sample_count *
      bits_per_sample / 8 + 1024 bytes, 1040 here; the stream it then
      writes is 8432 bits, 1054 bytes. The corrected Encode allocates
      BufferLen, 1054 bytes here. */
  lemma MaxLenTooSmall(samples: seq<int>, def: Def)
    requires samples == LoudFrame()
    requires def.channels == 8 && def.bitsPerSample == 16 && def.sampleRate == 1 && def.sampleCount == 1
    ensures |Encoded(samples, def)| == 8432 && 8 * MaxLen(def) == 8320
    ensures |Encoded(samples, def)| > 8 * MaxLen(def)
    ensures BufferLen(samples, def) == 1054
  {
    SixteenBits(def);
    LoudStream(samples);
    assert def.channels * def.sampleCount * def.bitsPerSample == 128;
    assert MaxLen(def) == 1040;
  }

  // ---------------------------------------------------------------------
  // rice_len overflows its field.

  /** The stream of one frame of one channel holding `x`, with no room for
      its Rice parameter: rice_len = floor(log2(1024 / 512)) = 1, written
      as nothing into a field of width 0, then the codeword of 1024 with
      parameter 1: the codeword of 512 with parameter 0, and a zero bit. */
  lemma OverflowStream(samples: seq<int>, x: int)
    requires samples == [x] && x == 1024
    ensures RiceParam(samples) == 1 && !StreamFits(samples, 1, 1, 0)
    ensures StreamCode(samples, 1, 1, 0) == Codeword(512, 0) + [false]
  {
    assert SumAbs(samples, 1) == x;
    assert Log2Floor(2) == 1;
    OneFrame(samples, 1, 0, 0);
    assert NthColumns(samples, 1, 1, 0)[0] == samples;
    var ws := Codewords(samples, 1, 1);
    assert ws[0] == Codeword(x, 1);
    assert Codes(samples, 1) == Concat(ws, 0) + ws[0];
    assert ChannelCode(samples, 0) == Codeword(x, 1);
    var runs := Runs(samples, 1, 0, 1, 0, 1);
    RunAt(samples, 1, 0, 1, 0, 1, 0);
    assert BlockCode(samples, 1, 0, 1, 0) == Concat(runs, 0) + runs[0];
    NthBlockIs(samples, 1, 1, 0, 0, 0, 1);
    var bl := BlockCodes(samples, 1, 1, 0, 1);
    assert Blocks(1) == 1;
    assert bl[0] == NthBlock(samples, 1, 1, 0, 0);
    assert StreamCode(samples, 1, 1, 0) == Concat(bl, 0) + bl[0];
    assert Shr(x, 1) == 512;
    assert Codeword(x, 1) == Codeword(512, 0) + [false];
  }

  /** With a parameter field of width 0 the decoder takes the parameter to
      be 0, and reads the codeword of 512 with parameter 0 as 512. */
  lemma OverflowRead(bs: seq<bool>)
    requires Window(bs, 8 * HEADER_SIZE, Codeword(512, 0))
    ensures ReadBlocks(bs, 8 * HEADER_SIZE, 0, 1, 1, 0) == Some([[[512]]])
  {
    var at := 8 * HEADER_SIZE;
    var next := at + |Codeword(512, 0)|;
    WindowSlice(bs, at, Codeword(512, 0));
    ReadCodeword(bs, at, 512, 0);
    ReadRunStep(bs, at, 0, 1, 0, 512, next, [], next);
    assert [0 + 512] + [] == [512];
    assert ReadRun(bs, at, 0, 1, 0) == Some(([512], next));
    assert Field(bs, at, 0) == 0;
    assert ReadChannel(bs, at, 0, 1) == Some(([512], next));
    ReadBlockStep(bs, at, 0, 1, 1, [512], next, [], next);
    assert [[512]] + [] == [[512]];
    assert Blocks(1) == 1 && BlockCap(1, 0) == 1;
    ReadBlocksStep(bs, at, 0, 1, 1, 0, [[512]], next, []);
    assert [[[512]]] + [] == [[[512]]];
  }

  /** Where the encoder's output puts that codeword. */
  lemma OverflowBits(bs: seq<bool>, samples: seq<int>, def: Def)
    requires samples == [1024] && def.channels == 1 && def.sampleCount == 1 && RiceWidth(def) == 0
    requires Holds(bs, Encoded(samples, def))
    ensures Window(bs, 8 * HEADER_SIZE, Codeword(512, 0))
  {
    OverflowStream(samples, 1024);
    HoldsWindow(bs, Encoded(samples, def));
    WindowSplit(bs, 0, HeaderBits(def), StreamCode(samples, 1, 1, 0));
    WindowSplit(bs, 8 * HEADER_SIZE, Codeword(512, 0), [false]);
  }

  /** One frame of one channel holding 1024, in a stream that declares one
      bit per sample. Its Rice parameter 1 needs a field of at least one
      bit, but the field is floor(log2(1)) = 0 bits wide: btw_encode still
      codes the sample with parameter 1, and btw_decode, reading parameter
      0, gives back 512. No real 1-bit audio holds 1024; the input only
      exhibits the mechanism. The same misread happens at 24 bits per
      sample, where the field is floor(log2(24)) = 4 bits wide, whenever a
      block's parameter is 16 or more. */
  lemma RiceParamOverflow(data: seq<bv8>, bs: seq<bool>, prior: Def, samples: seq<int>, def: Def)
    requires samples == [1024]
    requires def.channels == 1 && def.bitsPerSample == 1 && def.sampleRate == 1 && def.sampleCount == 1
    requires bs == BitsOf(data) && Holds(bs, Encoded(samples, def))
    ensures RiceWidth(def) == 0 && RiceParam(samples) == 1
    ensures !StreamFits(samples, def.channels, def.sampleCount, RiceWidth(def))
    ensures HEADER_SIZE <= |data| && ParseHeader(data, prior) == def
    ensures Decoded(bs, ParseHeader(data, prior)) == Some([512])
  {
    OverflowStream(samples, 1024);
    assert RiceWidth(def) == 0;
    OverflowBits(bs, samples, def);
    OverflowRead(bs);
    SmallFits(def);
    EncodedHeader(data, bs, prior, samples, def);
    assert ValidDef(def) && RiceWidth(def) == 0 && SampleTotal(def) == 1;
    Decoder.DecodedBlocks(bs, def, [[[512]]]);
    PlaceOne([[[512]]], 512);
  }

  /** A single sample, stored into an output of one sample. */
  lemma PlaceOne(blocks: seq<seq<seq<int>>>, v: int)
    requires blocks == [[[v]]]
    ensures Place(Fresh(1), 1, blocks, 1, 0, 0) == [v]
  {
    var out := Fresh(1);
    assert Place(out, 1, blocks, 0, 0, 1) == Store(out, Index(0, 0, 1), v);
  }

  // ---------------------------------------------------------------------
  // No padding between blocks.

  /** 512 silent frames of one channel, then one frame holding 1: two
      blocks, the first of them 4 + 2 * 512 = 1028 bits, which is not a
      whole number of bytes. */
  ghost predicate QuietThenOne(samples: seq<int>)
  {
    |samples| == 513 && samples[512] == 1 && forall i | 0 <= i < 512 :: samples[i] == 0
  }

  /** A block of one channel is that channel's run. */
  lemma OneChannel(samples: seq<int>, start: nat, cap: nat, width: nat)
    requires start + cap <= |samples|
    ensures BlockCode(samples, 1, start, cap, width) == ChannelCode(Column(samples, 1, start, cap, 0), width)
  {
    var runs := Runs(samples, 1, start, cap, width, 1);
    RunAt(samples, 1, start, cap, width, 1, 0);
    assert BlockCode(samples, 1, start, cap, width) == Concat(runs, 0) + runs[0];
  }

  /** The silent first block. */
  lemma QuietBlock(samples: seq<int>)
    requires QuietThenOne(samples)
    ensures forall l | 0 <= l < 512 :: Column(samples, 1, 0, 512, 0)[l] == 0
    ensures RiceParam(Column(samples, 1, 0, 512, 0)) == 0
    ensures |ChannelCode(Column(samples, 1, 0, 512, 0), 4)| == 1028
  {
    var xs := Column(samples, 1, 0, 512, 0);
    forall l | 0 <= l < 512
      ensures xs[l] == 0
    {
      ColumnAt(samples, 1, 0, 512, 0, l);
      IndexIsMul(l, 0, 1);
    }
    SilentChannel(xs, 4);
  }

  /** The second block: parameter 0 in four bits, then the codeword of 1
      with parameter 0: sign 0, one 1 bit, the 0 bit ending it. */
  lemma OneBlock(samples: seq<int>)
    requires QuietThenOne(samples)
    ensures Column(samples, 1, 512, 1, 0) == [1] && RiceParam([1]) == 0
    ensures ChannelCode([1], 4) == [false, false, false, false, false, true, false]
  {
    OneFrame(samples, 1, 512, 0);
    assert SumAbs([1], 1) == 1;
    var ws := Codewords([1], 0, 1);
    assert ws[0] == Codeword(1, 0);
    assert Codes([1], 0) == Concat(ws, 0) + ws[0];
    assert Codeword(1, 0) == [false] + [true] + [false];
    assert NumberBits(0, 4) == [false, false, false, false];
  }

  /** The stream: the two blocks back to back, with nothing between them. */
  lemma PaddingCode(samples: seq<int>)
    requires QuietThenOne(samples)
    ensures Blocks(513) == 2
    ensures NthBlock(samples, 1, 513, 4, 0) == ChannelCode(Column(samples, 1, 0, 512, 0), 4)
    ensures NthBlock(samples, 1, 513, 4, 1) == [false, false, false, false, false, true, false]
    ensures StreamCode(samples, 1, 513, 4) == NthBlock(samples, 1, 513, 4, 0) + NthBlock(samples, 1, 513, 4, 1)
  {
    assert Blocks(513) == 2;
    assert BlockCap(513, 0) == 512 && BlockCap(513, 1) == 1;
    var bl := BlockCodes(samples, 1, 513, 4, 2);
    BlockAt(samples, 1, 513, 4, 2, 0);
    BlockAt(samples, 1, 513, 4, 2, 1);
    assert Concat(bl, 1) == Concat(bl, 0) + bl[0];
    assert StreamCode(samples, 1, 513, 4) == Concat(bl, 1) + bl[1];
    NthBlockIs(samples, 1, 513, 4, 0, 0, 512);
    NthBlockIs(samples, 1, 513, 4, 1, 512, 1);
    OneChannel(samples, 0, 512, 4);
    OneChannel(samples, 512, 1, 4);
    OneBlock(samples);
  }

  /** Every parameter fits its field, but the first block ends mid-byte. */
  lemma PaddingStream(samples: seq<int>)
    requires QuietThenOne(samples)
    ensures StreamCode(samples, 1, 513, 4)
      == ChannelCode(Column(samples, 1, 0, 512, 0), 4) + [false, false, false, false, false, true, false]
    ensures StreamFits(samples, 1, 513, 4) && !BlocksAligned(samples, 1, 513, 4)
  {
    PaddingCode(samples);
    QuietBlock(samples);
    OneBlock(samples);
    assert NthColumns(samples, 1, 513, 0)[0] == Column(samples, 1, 0, 512, 0);
    assert NthColumns(samples, 1, 513, 1)[0] == Column(samples, 1, 512, 1, 0);
    assert Pow2(4) == 16;
    assert |NthBlock(samples, 1, 513, 4, 0)| % 8 == 4;
  }

  /** The second block, read where the decoder looks for it: on the byte
      boundary at bit 1192, four bits after its start at 1188. The field
      bits 1192 .. 1195 are the last three bits of the codeword and one
      clear bit, parameter 2; the codeword at 1196 is then clear bits,
      the difference 0. */
  lemma MisreadBlock(bs: seq<bool>)
    requires 1200 <= |bs| && !bs[1192] && bs[1193] && !bs[1194]
    requires !bs[1195] && !bs[1196] && !bs[1197] && !bs[1198] && !bs[1199]
    ensures ReadBlock(bs, 1192, 4, 1, 1) == Some(([[0]], 1200))
  {
    assert Field(bs, 1198, 2) == 0;
    assert Field(bs, 1192, 4) == 2;
    assert Unary(bs, 1197) == 0;
    assert BitOr(Shl(0, 2), 0) == 0;
    ReadParts(bs, 1196, 2, 0, 0, 0);
    ReadRunStep(bs, 1196, 2, 1, 0, 0, 1200, [], 1200);
    assert [0 + 0] + [] == [0];
    assert ReadRun(bs, 1196, 2, 1, 0) == Some(([0], 1200));
    assert ReadChannel(bs, 1192, 4, 1) == Some(([0], 1200));
    ReadBlockStep(bs, 1192, 4, 1, 1, [0], 1200, [], 1200);
    assert [[0]] + [] == [[0]];
  }

  /** A buffer of whole bytes holding 1195 bits holds at least 1200, the
      last five of them clear. */
  lemma ClearTail(data: seq<bv8>, bs: seq<bool>, w: seq<bool>)
    requires bs == BitsOf(data) && Holds(bs, w) && |w| == 1195
    ensures 1200 <= |bs| && forall i | 1195 <= i < 1200 :: !bs[i]
  {
    assert |bs| == 8 * |data|;
    HoldsClear(bs, w, 5);
    forall i | 1195 <= i < 1200
      ensures !bs[i]
    {
      assert bs[i] == bs[1195 .. 1200][i - 1195];
    }
  }

  /** The whole stream, read as btw_decode reads it. */
  lemma PaddingRead(bs: seq<bool>, xs: seq<int>)
    requires |xs| == 512 && RiceParam(xs) == 0 && |ChannelCode(xs, 4)| == 1028
    requires Window(bs, 8 * HEADER_SIZE, ChannelCode(xs, 4))
    requires 1200 <= |bs| && !bs[1192] && bs[1193] && !bs[1194]
    requires !bs[1195] && !bs[1196] && !bs[1197] && !bs[1198] && !bs[1199]
    ensures ReadBlocks(bs, 8 * HEADER_SIZE, 4, 513, 1, 0) == Some([[xs], [[0]]])
  {
    PaddingFirst(bs, xs);
    MisreadBlock(bs);
    assert Blocks(513) == 2 && BlockCap(513, 1) == 1 && Align(1188) == 1192;
    TwoBlocks(bs, 8 * HEADER_SIZE, 4, 513, 1, [xs], 1188, [[0]], 1200);
    assert [[xs]] + [[[0]]] == [[xs], [[0]]];
  }

  /** The first block reads back whole and ends at bit 1188. */
  lemma PaddingFirst(bs: seq<bool>, xs: seq<int>)
    requires |xs| == 512 && RiceParam(xs) == 0 && |ChannelCode(xs, 4)| == 1028
    requires Window(bs, 8 * HEADER_SIZE, ChannelCode(xs, 4))
    ensures ReadBlock(bs, 8 * HEADER_SIZE, 4, BlockCap(513, 0), 1) == Some(([xs], 1188))
  {
    assert BlockCap(513, 0) == 512;
    assert Pow2(4) == 16;
    ReadChannelCode(bs, 8 * HEADER_SIZE, xs, 4);
    ReadBlockStep(bs, 8 * HEADER_SIZE, 4, 512, 1, xs, 1188, [], 1188);
    assert [xs] + [] == [xs];
  }

  /** A stream of two blocks, each read where the decoder looks for it. */
  lemma TwoBlocks(bs: seq<bool>, at: nat, width: nat, count: nat, channels: nat,
                  first: seq<seq<int>>, mid: nat, second: seq<seq<int>>, end: nat)
    requires Blocks(count) == 2
    requires ReadBlock(bs, at, width, BlockCap(count, 0), channels) == Some((first, mid))
    requires ReadBlock(bs, Align(mid), width, BlockCap(count, 1), channels) == Some((second, end))
    ensures ReadBlocks(bs, at, width, count, channels, 0) == Some([first] + [second])
  {
    LastBlock(bs, Align(mid), width, count, channels, second, end);
  }

  /** The second of two blocks is the last one. */
  lemma LastBlock(bs: seq<bool>, at: nat, width: nat, count: nat, channels: nat, cols: seq<seq<int>>, end: nat)
    requires Blocks(count) == 2
    requires ReadBlock(bs, at, width, BlockCap(count, 1), channels) == Some((cols, end))
    ensures ReadBlocks(bs, at, width, count, channels, 1) == Some([cols])
  {
    assert ReadBlocks(bs, Align(end), width, count, channels, 2) == Some([]);
    assert [cols] + [] == [cols];
  }

  /** Where those blocks put the last frame: the 0 read for it. */
  lemma PaddingPlaced(blocks: seq<seq<seq<int>>>, xs: seq<int>)
    requires blocks == [[xs], [[0]]] && |xs| == 512
    ensures Place(Fresh(513), 1, blocks, 2, 0, 0)[512] == 0
  {
    assert Blocks(513) == 2;
    assert BlockCap(513, 0) == 512 && BlockCap(513, 1) == 1;
    assert Shaped(blocks, 1, 513);
    IndexIsMul(512, 0, 1);
    PlaceAt(Fresh(513), 1, 513, blocks, 2, 0, 0, 1, 0, 0);
  }

  /** Where the encoder's bits of that stream sit. */
  lemma PaddingBits(data: seq<bv8>, bs: seq<bool>, samples: seq<int>, def: Def)
    requires QuietThenOne(samples) && def.channels == 1 && def.sampleCount == 513 && RiceWidth(def) == 4
    requires bs == BitsOf(data) && Holds(bs, Encoded(samples, def))
    ensures Window(bs, 8 * HEADER_SIZE, ChannelCode(Column(samples, 1, 0, 512, 0), 4))
    ensures 1200 <= |bs| && !bs[1192] && bs[1193] && !bs[1194]
    ensures !bs[1195] && !bs[1196] && !bs[1197] && !bs[1198] && !bs[1199]
  {
    PaddingWindows(bs, samples, def);
    ClearTail(data, bs, Encoded(samples, def));
    TailBits(bs, [false, false, false, false, false, true, false]);
  }

  /** Where the encoder's output puts the two blocks. */
  lemma PaddingWindows(bs: seq<bool>, samples: seq<int>, def: Def)
    requires QuietThenOne(samples) && def.channels == 1 && def.sampleCount == 513 && RiceWidth(def) == 4
    requires Holds(bs, Encoded(samples, def))
    ensures Window(bs, 8 * HEADER_SIZE, ChannelCode(Column(samples, 1, 0, 512, 0), 4))
    ensures Window(bs, 1188, [false, false, false, false, false, true, false])
    ensures |Encoded(samples, def)| == 1195
  {
    PaddingStream(samples);
    QuietBlock(samples);
    var xs := Column(samples, 1, 0, 512, 0);
    var tail := [false, false, false, false, false, true, false];
    HoldsWindow(bs, Encoded(samples, def));
    WindowSplit(bs, 0, HeaderBits(def), StreamCode(samples, 1, 513, 4));
    WindowSplit(bs, 8 * HEADER_SIZE, ChannelCode(xs, 4), tail);
  }

  /** The second block's bits from 1192 on, as the encoder left them. */
  lemma TailBits(bs: seq<bool>, tail: seq<bool>)
    requires tail == [false, false, false, false, false, true, false] && Window(bs, 1188, tail)
    ensures !bs[1192] && bs[1193] && !bs[1194]
  {
    assert bs[1188 + 4] == tail[4] && bs[1188 + 5] == tail[5] && bs[1188 + 6] == tail[6];
  }

  /** 512 silent frames of one channel at 16 bits per sample, then a frame
      holding 1. Every Rice parameter fits its field, but btw_encode ends
      the first block at bit 1188, a nibble into a byte, and starts the
      second right there; btw_decode moves on to the byte boundary at 1192
      before reading the second block, and gives back 0 for the last
      frame. */
  lemma PaddingMissing(data: seq<bv8>, bs: seq<bool>, prior: Def, samples: seq<int>, def: Def)
    requires QuietThenOne(samples) && def.channels == 1 && def.bitsPerSample == 16 && def.sampleRate == 1 && def.sampleCount == 513
    requires bs == BitsOf(data) && Holds(bs, Encoded(samples, def))
    ensures StreamFits(samples, def.channels, def.sampleCount, RiceWidth(def))
    ensures !BlocksAligned(samples, def.channels, def.sampleCount, RiceWidth(def))
    ensures HEADER_SIZE <= |data| && ParseHeader(data, prior) == def
    ensures Decoded(bs, ParseHeader(data, prior)).Some?
    ensures Decoded(bs, ParseHeader(data, prior)).value[512] == 0 != samples[512]
  {
    SixteenBits(def);
    PaddingStream(samples);
    QuietBlock(samples);
    var xs := Column(samples, 1, 0, 512, 0);
    PaddingBits(data, bs, samples, def);
    PaddingRead(bs, xs);
    SmallFits(def);
    EncodedHeader(data, bs, prior, samples, def);
    PaddingDecoded(bs, def, xs);
  }

  /** What btw_decode gives back when it reads the two blocks so. */
  lemma PaddingDecoded(bs: seq<bool>, def: Def, xs: seq<int>)
    requires def.channels == 1 && def.bitsPerSample == 16 && def.sampleRate == 1 && def.sampleCount == 513
    requires RiceWidth(def) == 4 && |xs| == 512
    requires ReadBlocks(bs, 8 * HEADER_SIZE, 4, 513, 1, 0) == Some([[xs], [[0]]])
    ensures Decoded(bs, def).Some? && Decoded(bs, def).value[512] == 0
  {
    assert ValidDef(def) && SampleTotal(def) == 513;
    Decoder.DecodedBlocks(bs, def, [[xs], [[0]]]);
    PaddingPlaced([[xs], [[0]]], xs);
  }
}
