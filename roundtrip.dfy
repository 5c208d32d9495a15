/** The round trip of btw_encode and btw_decode: the decoder stores every
    sample it reads back where it came from, so decoding the encoder's
    output gives back the samples, and its header gives back the format. */
module RoundTrip {
  import opened BitSeq
  import opened Bytes
  import opened Options
  import opened Header
  import opened Appending
  import opened Stream
  import opened Decoding
  import opened ReadBack

  // ---------------------------------------------------------------------
  // Every sample back in its place.

  /** A frame of the output lies before frame `count`. */
  lemma FrameBelow(i: nat, channels: nat, count: nat)
    requires channels > 0 && i < count * channels
    ensures i / channels < count
  {
    IndexOf(i, channels);
    if count <= i / channels {
      MulLe(count, i / channels, channels);
    }
  }

  /** The columns of a stream's blocks have the shape btw_decode reads. */
  lemma ColumnsShaped(samples: seq<int>, channels: nat, count: nat)
    requires |samples| == count * channels
    ensures Shaped(BlockColumns(samples, channels, count), channels, count)
  {
    var blocks := BlockColumns(samples, channels, count);
    forall b, c | 0 <= b < |blocks| && 0 <= c < channels
      ensures |blocks[b][c]| == BlockCap(count, b)
    {
      MulLe(BLOCK_SIZE * b + BlockCap(count, b), count, channels);
      assert blocks[b][c] == Column(samples, channels, BLOCK_SIZE * b, BlockCap(count, b), c);
    }
  }

  /** Output index `i` receives sample `i` once every block is stored. */
  lemma PlacedSample(samples: seq<int>, channels: nat, count: nat, i: nat)
    requires channels > 0 && |samples| == count * channels && i < |samples|
    ensures Place(Fresh(|samples|), channels, BlockColumns(samples, channels, count), Blocks(count), 0, 0)[i] == samples[i]
  {
    var blocks := BlockColumns(samples, channels, count);
    var f, d := i / channels, i % channels;
    IndexOf(i, channels);
    FrameBelow(i, channels, count);
    BlockOf(count, f);
    var fb := f / BLOCK_SIZE;
    var start, cap := BLOCK_SIZE * fb, BlockCap(count, fb);
    var l := f - start;
    ColumnsShaped(samples, channels, count);
    PlaceAt(Fresh(|samples|), channels, count, blocks, Blocks(count), 0, 0, fb, l, d);
    MulLe(start + cap, count, channels);
    assert blocks[fb][d] == Column(samples, channels, start, cap, d);
    ColumnAt(samples, channels, start, cap, d, l);
  }

  /** Storing the columns of every block rebuilds the interleaved samples. */
  lemma PlaceAll(samples: seq<int>, channels: nat, count: nat)
    requires channels > 0 && |samples| == count * channels
    ensures Place(Fresh(|samples|), channels, BlockColumns(samples, channels, count), Blocks(count), 0, 0) == samples
  {
    forall i | 0 <= i < |samples|
      ensures Place(Fresh(|samples|), channels, BlockColumns(samples, channels, count), Blocks(count), 0, 0)[i] == samples[i]
    {
      PlacedSample(samples, channels, count, i);
    }
  }

  // ---------------------------------------------------------------------
  // The round trip.

  /** Bits that a buffer holds sit in it from bit 0 on. */
  lemma HoldsWindow(bs: seq<bool>, w: seq<bool>)
    requires Holds(bs, w)
    ensures Window(bs, 0, w)
  {
    forall i | 0 <= i < |w|
      ensures bs[0 + i] == w[i]
    {
      assert (w + Zeros(|bs| - |w|))[i] == w[i];
    }
  }

  /** btw_decode, given the format, reads the encoder's bits back as the
      samples. */
  lemma DecodedEncoded(bs: seq<bool>, samples: seq<int>, def: Def)
    requires ValidDef(def) && |samples| == def.sampleCount * def.channels
    requires StreamFits(samples, def.channels, def.sampleCount, RiceWidth(def))
    requires BlocksAligned(samples, def.channels, def.sampleCount, RiceWidth(def))
    requires Window(bs, 0, Encoded(samples, def))
    ensures Decoded(bs, def) == Some(samples)
  {
    var stream := StreamCode(samples, def.channels, def.sampleCount, RiceWidth(def));
    WindowSplit(bs, 0, HeaderBits(def), stream);
    StreamRead(bs, 8 * HEADER_SIZE, samples, def.channels, def.sampleCount, RiceWidth(def));
    PlaceAll(samples, def.channels, def.sampleCount);
  }

  /** Bits that a buffer holds, up to the end of their first part, are
      that part. */
  lemma HeldPrefix(bs: seq<bool>, u: seq<bool>, v: seq<bool>)
    requires Holds(bs, u + v)
    ensures |u| <= |bs| && bs[.. |u|] == u
  {
    HoldsWindow(bs, u + v);
    WindowSplit(bs, 0, u, v);
    WindowSlice(bs, 0, u);
    assert bs[.. |u|] == bs[0 .. 0 + |u|];
  }

  /** A buffer that begins with a header gives that header's format back. */
  lemma HeaderHeld(data: seq<bv8>, def: Def, prior: Def)
    requires FitsHeader(def) && |HeaderBits(def)| <= |BitsOf(data)| && BitsOf(data)[.. |HeaderBits(def)|] == HeaderBits(def)
    ensures HEADER_SIZE <= |data| && ParseHeader(data, prior) == def
  {
    HeaderRestores(data, def, prior);
  }

  /** A buffer holding the encoder's bits decodes, given the format, to the
      samples. */
  lemma StreamHeld(bs: seq<bool>, samples: seq<int>, def: Def)
    requires ValidDef(def) && |samples| == def.sampleCount * def.channels
    requires StreamFits(samples, def.channels, def.sampleCount, RiceWidth(def))
    requires BlocksAligned(samples, def.channels, def.sampleCount, RiceWidth(def))
    requires Holds(bs, Encoded(samples, def))
    ensures Decoded(bs, def) == Some(samples)
  {
    HoldsWindow(bs, Encoded(samples, def));
    DecodedEncoded(bs, samples, def);
  }

  /** decode(encode(s)) == s: a buffer `data` whose bits `bs` hold the
      encoder's output (its tail still zero) carries the format in its
      header, whatever the caller's def held before, and decodes to the
      samples. */
  lemma DecodeEncode(data: seq<bv8>, bs: seq<bool>, samples: seq<int>, def: Def, prior: Def)
    requires ValidDef(def) && FitsHeader(def) && |samples| == def.sampleCount * def.channels
    requires StreamFits(samples, def.channels, def.sampleCount, RiceWidth(def))
    requires BlocksAligned(samples, def.channels, def.sampleCount, RiceWidth(def))
    requires bs == BitsOf(data) && Holds(bs, Encoded(samples, def))
    ensures HEADER_SIZE <= |data| && ParseHeader(data, prior) == def
    ensures Decoded(bs, ParseHeader(data, prior)) == Some(samples)
  {
    HeldPrefix(bs, HeaderBits(def), StreamCode(samples, def.channels, def.sampleCount, RiceWidth(def)));
    HeaderHeld(data, def, prior);
    StreamHeld(bs, samples, def);
  }
}
