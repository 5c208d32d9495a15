/** The 20-byte header that starts every BTW stream: the magic word and the
    stream's format, each a little-endian field of fixed width. */
module Header {
  import opened BitSeq
  import opened Bytes
  import opened BitCursor
  import opened Appending

  /** BTW_HEADER_SIZE, in bytes. */
  const HEADER_SIZE: nat := 20

  /** BTW_MAGIC: the characters 'b', 't', 'w', 'f' packed low byte first. */
  const MAGIC: nat := 'b' as nat + 0x100 * 't' as nat + 0x1_0000 * 'w' as nat + 0x100_0000 * 'f' as nat

  /** btw_def: the format of a stream. */
  datatype Def = Def(channels: nat, bitsPerSample: nat, sampleRate: nat, sampleCount: nat)

  /** The test both btw_encode and btw_decode make before any work: no
      field of the format is zero. */
  predicate ValidDef(def: Def)
  {
    def.channels != 0 && def.sampleRate != 0 && def.sampleCount != 0 && def.bitsPerSample != 0
  }

  /** The header's bits: magic (32), sample count (64), channels (16), bits
      per sample (16) and sample rate (32), each low bit first. */
  function HeaderBits(def: Def): (r: seq<bool>)
    ensures |r| == 8 * HEADER_SIZE
  {
    NumberBits(MAGIC, 32) + NumberBits(def.sampleCount, 64) + NumberBits(def.channels, 16)
      + NumberBits(def.bitsPerSample, 16) + NumberBits(def.sampleRate, 32)
  }

  /** The header put_number calls of btw_encode on a cleared buffer: they
      append the header and leave the cursor at byte 20, the value `out_len`
      takes. */
  method WriteHeader(buf: array<bv8>, def: Def) returns (pos: nat, bitPos: nat)
    requires HEADER_SIZE <= buf.Length && Holds(BitsOf(buf[..]), [])
    modifies buf
    ensures pos == HEADER_SIZE && bitPos == 0
    ensures Holds(BitsOf(buf[..]), HeaderBits(def))
  {
    ghost var w: seq<bool> := [];
    pos, bitPos := AppendNumber(buf, 0, 0, 32, MAGIC, w);
    w := w + NumberBits(MAGIC, 32);
    pos, bitPos := AppendNumber(buf, pos, bitPos, 64, def.sampleCount, w);
    w := w + NumberBits(def.sampleCount, 64);
    pos, bitPos := AppendNumber(buf, pos, bitPos, 16, def.channels, w);
    w := w + NumberBits(def.channels, 16);
    pos, bitPos := AppendNumber(buf, pos, bitPos, 16, def.bitsPerSample, w);
    w := w + NumberBits(def.bitsPerSample, 16);
    pos, bitPos := AppendNumber(buf, pos, bitPos, 32, def.sampleRate, w);
    assert [] + NumberBits(MAGIC, 32) == NumberBits(MAGIC, 32);
  }

  /** The four bytes btw_read_metadata compares the start of a stream with:
      the codes of 'b', 't', 'w' and 'f' (MagicChars). */
  const MAGIC_BYTES: seq<bv8> := [0x62, 0x74, 0x77, 0x66]

  lemma MagicChars()
    ensures MAGIC_BYTES == [('b' as int) as bv8, ('t' as int) as bv8, ('w' as int) as bv8, ('f' as int) as bv8]
  {
  }

  /** What btw_read_metadata makes of the first 20 bytes of `data`, given
      the format `def` it was called with: `def` itself when the magic is
      wrong, otherwise the four fields read back. */
  function ParseHeader(data: seq<bv8>, def: Def): (r: Def)
    requires HEADER_SIZE <= |data|
    ensures data[..4] != MAGIC_BYTES ==> r == def
  {
    if data[0] != MAGIC_BYTES[0] || data[1] != MAGIC_BYTES[1] || data[2] != MAGIC_BYTES[2] || data[3] != MAGIC_BYTES[3] then
      def
    else
      var bs := BitsOf(data);
      Def(FromBits(bs[96..112]), FromBits(bs[112..128]), FromBits(bs[128..160]), FromBits(bs[32..96]))
  }

  /** btw_read_metadata. The source stores the fields into *def;
      here the new format is the result. */
  method ReadMetadata(data: array<bv8>, def: Def) returns (r: Def)
    requires HEADER_SIZE <= data.Length
    ensures r == ParseHeader(data[..], def)
  {
    if data[0] != MAGIC_BYTES[0] || data[1] != MAGIC_BYTES[1] || data[2] != MAGIC_BYTES[2] || data[3] != MAGIC_BYTES[3] {
      return def;
    }
    ghost var bs := BitsOf(data[..]);
    var count, channels, bps, rate, pos, bitPos;
    count, pos, bitPos := GrabNumber(data, 4, 0, 64);
    assert 8 * pos + bitPos == 96 && count == FromBits(bs[32..96]);
    channels, pos, bitPos := GrabNumber(data, pos, bitPos, 16);
    assert 8 * pos + bitPos == 112 && channels == FromBits(bs[96..112]);
    bps, pos, bitPos := GrabNumber(data, pos, bitPos, 16);
    assert 8 * pos + bitPos == 128 && bps == FromBits(bs[112..128]);
    rate, pos, bitPos := GrabNumber(data, pos, bitPos, 32);
    r := Def(channels, bps, rate, count);
  }

  /** Splitting the low byte `b` off a number written `8 + rest` bits wide. */
  lemma SplitByte(n: nat, rest: nat, b: bv8)
    requires n % 256 == b as int
    ensures NumberBits(n, 8 + rest) == ByteBits(b) + NumberBits(n / 256, rest)
  {
    NumberBitsSplit(n, 8, rest);
    ShrIsDiv(n, 8);
    NumberBitsMod(n, 8);
    Pow2Eight();
    ByteBitsNumber(b);
  }

  /** The 32 bits of BTW_MAGIC are the bytes 'b', 't', 'w', 'f', in this
      order. (The magic is passed as `n`, which keeps the solver from
      unfolding NumberBits on the literal.) */
  lemma MagicBits(n: nat)
    requires n == MAGIC
    ensures NumberBits(n, 32) == BitsOf(MAGIC_BYTES)
  {
    SplitByte(n, 24, 0x62);
    SplitByte(n / 256, 16, 0x74);
    SplitByte(n / 256 / 256, 8, 0x77);
    SplitByte(n / 256 / 256 / 256, 0, 0x66);
    var m := MAGIC_BYTES;
    assert BitsOf(m[3..]) == ByteBits(0x66) by {
      assert m[3..][1..] == [];
    }
    assert BitsOf(m[2..]) == ByteBits(0x77) + BitsOf(m[3..]) by {
      assert m[2..][1..] == m[3..];
    }
    assert BitsOf(m[1..]) == ByteBits(0x74) + BitsOf(m[2..]) by {
      assert m[1..][1..] == m[2..];
    }
  }

  /** The 32 magic bits put_number writes are the bytes btw_read_metadata
      checks for. */
  lemma MagicIsBytes(data: seq<bv8>)
    requires 4 <= |data| && BitsOf(data)[..32] == NumberBits(MAGIC, 32)
    ensures data[..4] == MAGIC_BYTES
  {
    MagicBits(MAGIC);
    BytesFromBits(data, MAGIC_BYTES);
  }

  /** Where each field sits in a concatenation shaped like the header. */
  lemma FiveFields(h: seq<bool>, a: seq<bool>, b: seq<bool>, c: seq<bool>, d: seq<bool>, e: seq<bool>)
    requires |a| == 32 && |b| == 64 && |c| == 16 && |d| == 16 && |e| == 32
    requires h == a + b + c + d + e
    ensures h[..32] == a && h[32..96] == b && h[96..112] == c && h[112..128] == d && h[128..160] == e
  {
  }

  /** A field of the header bits in a buffer reads back modulo its width. */
  lemma FieldReads(bs: seq<bool>, h: seq<bool>, at: nat, w: nat, v: nat)
    requires 160 <= |bs| && bs[..160] == h && at + w <= 160 && h[at..at + w] == NumberBits(v, w)
    ensures FromBits(bs[at..at + w]) == v % Pow2(w)
  {
    WindowOfWindow(bs, 0, 160, h, at, w);
    FromNumberBits(v, w);
  }

  /** Reading back a written header: btw_read_metadata recovers every field
      modulo its width, whatever format it was called with. */
  lemma HeaderRoundTrip(data: seq<bv8>, def: Def, prior: Def)
    requires HEADER_SIZE <= |data| && BitsOf(data)[..8 * HEADER_SIZE] == HeaderBits(def)
    ensures ParseHeader(data, prior)
      == Def(def.channels % Pow2(16), def.bitsPerSample % Pow2(16), def.sampleRate % Pow2(32), def.sampleCount % Pow2(64))
  {
    var bs, h := BitsOf(data), HeaderBits(def);
    FiveFields(h, NumberBits(MAGIC, 32), NumberBits(def.sampleCount, 64), NumberBits(def.channels, 16),
      NumberBits(def.bitsPerSample, 16), NumberBits(def.sampleRate, 32));
    MagicIsBytes(data);
    assert data[0] == MAGIC_BYTES[0] && data[1] == MAGIC_BYTES[1] && data[2] == MAGIC_BYTES[2] && data[3] == MAGIC_BYTES[3] by {
      assert data[..4][0] == data[0] && data[..4][1] == data[1] && data[..4][2] == data[2] && data[..4][3] == data[3];
    }
    FieldReads(bs, h, 32, 64, def.sampleCount);
    FieldReads(bs, h, 96, 16, def.channels);
    FieldReads(bs, h, 112, 16, def.bitsPerSample);
    FieldReads(bs, h, 128, 32, def.sampleRate);
  }

  /** A format whose fields fit their widths survives the header intact. */
  predicate FitsHeader(def: Def)
  {
    def.channels < Pow2(16) && def.bitsPerSample < Pow2(16) && def.sampleRate < Pow2(32) && def.sampleCount < Pow2(64)
  }

  lemma HeaderRestores(data: seq<bv8>, def: Def, prior: Def)
    requires HEADER_SIZE <= |data| && BitsOf(data)[..8 * HEADER_SIZE] == HeaderBits(def) && FitsHeader(def)
    ensures ParseHeader(data, prior) == def
  {
    HeaderRoundTrip(data, def, prior);
    DivModUnique(def.channels, Pow2(16), 0, def.channels);
    DivModUnique(def.bitsPerSample, Pow2(16), 0, def.bitsPerSample);
    DivModUnique(def.sampleRate, Pow2(32), 0, def.sampleRate);
    DivModUnique(def.sampleCount, Pow2(64), 0, def.sampleCount);
  }
}
