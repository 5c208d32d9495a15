/** The bit stream btw_encode produces after the header: the samples cut
    into blocks of BLOCK_SIZE frames, each block holding one run per
    channel, each run a Rice parameter followed by one codeword per frame. */
module Stream {
  import opened BitSeq
  import opened Numbers
  import opened Rice
  import opened Header

  /** BTW_BLOCK_SIZE, in frames. */
  const BLOCK_SIZE: nat := 512

  /** Where channel `c` of frame `f` sits in the interleaved samples:
      `f * channels + c`, as both btw_encode and btw_decode index them
      (IndexIsMul), counted here one frame at a time. */
  function Index(f: nat, c: nat, channels: nat): nat
  {
    if f == 0 then c else Index(f - 1, c, channels) + channels
  }

  lemma {:induction false} IndexIsMul(f: nat, c: nat, channels: nat)
    ensures Index(f, c, channels) == f * channels + c
    decreases f
  {
    if f > 0 {
      IndexIsMul(f - 1, c, channels);
      assert f * channels == (f - 1) * channels + channels;
    }
  }

  lemma MulLe(a: nat, b: nat, m: nat)
    requires a <= b
    ensures a * m <= b * m
  {
    assert b * m == a * m + (b - a) * m;
  }

  /** Counting on by `b` lots of `m`. */
  lemma MulAdd(a: nat, b: nat, m: nat)
    ensures (a + b) * m == a * m + m * b
  {
  }

  /** Every frame before `n` lies inside the first `n` frames' samples. */
  lemma IndexBound(f: nat, c: nat, channels: nat, n: nat)
    requires f < n && c < channels
    ensures Index(f, c, channels) < n * channels
  {
    IndexIsMul(f, c, channels);
    MulLe(f + 1, n, channels);
    assert (f + 1) * channels == f * channels + channels;
  }

  /** Distinct (frame, channel) pairs have distinct places. */
  lemma IndexInjective(f: nat, c: nat, g: nat, d: nat, channels: nat)
    requires c < channels && d < channels && Index(f, c, channels) == Index(g, d, channels)
    ensures f == g && c == d
  {
    IndexIsMul(f, c, channels);
    IndexIsMul(g, d, channels);
    DivModUnique(f * channels + c, channels, f, c);
    DivModUnique(g * channels + d, channels, g, d);
  }

  /** Every place is some (frame, channel) pair. */
  lemma IndexOf(n: nat, channels: nat)
    requires channels > 0
    ensures n / channels * channels + n % channels == n && Index(n / channels, n % channels, channels) == n
  {
    IndexIsMul(n / channels, n % channels, channels);
  }

  /** The number of blocks `sample_count` frames make: one of up to
      BLOCK_SIZE frames, then the blocks of the rest. */
  function Blocks(count: nat): nat
    decreases count
  {
    if count == 0 then 0
    else if count <= BLOCK_SIZE then 1
    else 1 + Blocks(count - BLOCK_SIZE)
  }

  /** Block `b` exists exactly when it starts before the last frame. */
  lemma {:induction false} BlockExists(count: nat, b: nat)
    ensures b < Blocks(count) <==> BLOCK_SIZE * b < count
    decreases count
  {
    if count > BLOCK_SIZE && b > 0 {
      BlockExists(count - BLOCK_SIZE, b - 1);
    }
  }

  /** The last block is short: there are ceil(count / BLOCK_SIZE) blocks. */
  lemma BlocksCount(count: nat)
    ensures Blocks(count) == (count + BLOCK_SIZE - 1) / BLOCK_SIZE
  {
    var n := (count + BLOCK_SIZE - 1) / BLOCK_SIZE;
    BlockExists(count, n);
    if n > 0 {
      BlockExists(count, n - 1);
    }
  }

  /** The frames of the block starting at `start`: `cap` in the source,
      BLOCK_SIZE or whatever is left. */
  function Cap(count: nat, start: nat): (r: nat)
    requires start < count
    ensures 0 < r <= BLOCK_SIZE && start + r <= count
    ensures r == BLOCK_SIZE || start + r == count
  {
    if count - start < BLOCK_SIZE then count - start else BLOCK_SIZE
  }

  /** The blocks partition the frames: each block ends where the next one
      starts, the last one at `count`, and frame `f` lies in block
      f / BLOCK_SIZE. */
  lemma BlocksPartition(count: nat, b: nat)
    requires b < Blocks(count)
    ensures BLOCK_SIZE * b < count
    ensures b + 1 < Blocks(count) ==> BLOCK_SIZE * b + Cap(count, BLOCK_SIZE * b) == BLOCK_SIZE * (b + 1)
    ensures b + 1 == Blocks(count) ==> BLOCK_SIZE * b + Cap(count, BLOCK_SIZE * b) == count
  {
    BlockExists(count, b);
    BlockExists(count, b + 1);
  }

  lemma BlockOf(count: nat, f: nat)
    requires f < count
    ensures f / BLOCK_SIZE < Blocks(count)
    ensures BLOCK_SIZE * (f / BLOCK_SIZE) <= f < BLOCK_SIZE * (f / BLOCK_SIZE) + Cap(count, BLOCK_SIZE * (f / BLOCK_SIZE))
  {
    BlockExists(count, f / BLOCK_SIZE);
  }

  /** `samples[f * channels + c]`, for a frame `f` among the first `frames`
      of interleaved samples. */
  function Sample(samples: seq<int>, channels: nat, frames: nat, f: nat, c: nat): int
    requires f < frames && c < channels && frames * channels <= |samples|
  {
    IndexBound(f, c, channels, frames);
    samples[Index(f, c, channels)]
  }

  /** The samples of channel `c` in frames start .. start + n. */
  function Column(samples: seq<int>, channels: nat, start: nat, n: nat, c: nat): (xs: seq<int>)
    requires c < channels && (start + n) * channels <= |samples|
    ensures |xs| == n
  {
    if n == 0 then []
    else
      MulLe(start + n - 1, start + n, channels);
      Column(samples, channels, start, n - 1, c) + [Sample(samples, channels, start + n, start + n - 1, c)]
  }

  /** The difference btw_encode codes for frame `l` of a run: to the frame
      before, or to 0 at the start of the run (prev_sample is reset). */
  function Delta(xs: seq<int>, l: nat): int
    requires l < |xs|
  {
    xs[l] - if l == 0 then 0 else xs[l - 1]
  }

  /** av_diff after the first `n` frames: the sum of |difference|. */
  function SumAbs(xs: seq<int>, n: nat): nat
    requires n <= |xs|
  {
    if n == 0 then 0 else SumAbs(xs, n - 1) + Abs(Delta(xs, n - 1))
  }

  /** rice_len: floor(log2(av_diff / BLOCK_SIZE)). The source divides by
      BLOCK_SIZE even for a short last block. */
  function RiceParam(xs: seq<int>): nat
  {
    Log2Floor(SumAbs(xs, |xs|) / BLOCK_SIZE)
  }

  /** The first `n` pieces of `ws`, back to back. */
  function Concat(ws: seq<seq<bool>>, n: nat): seq<bool>
    requires n <= |ws|
  {
    if n == 0 then [] else Concat(ws, n - 1) + ws[n - 1]
  }

  /** The codewords of the first `n` frames of a run, one piece each. */
  function Codewords(xs: seq<int>, k: nat, n: nat): (ws: seq<seq<bool>>)
    requires n <= |xs|
    ensures |ws| == n
  {
    if n == 0 then [] else Codewords(xs, k, n - 1) + [Codeword(Delta(xs, n - 1), k)]
  }

  /** The codewords of a whole run. */
  function Codes(xs: seq<int>, k: nat): seq<bool>
  {
    Concat(Codewords(xs, k, |xs|), |xs|)
  }

  /** One channel of one block: its Rice parameter in `width` bits, then
      its codewords. */
  function ChannelCode(xs: seq<int>, width: nat): seq<bool>
  {
    NumberBits(RiceParam(xs), width) + Codes(xs, RiceParam(xs))
  }

  /** The runs of the first `n` channels of the block of `cap` frames at
      `start`, one piece each. */
  function Runs(samples: seq<int>, channels: nat, start: nat, cap: nat, width: nat, n: nat): (rs: seq<seq<bool>>)
    requires n <= channels && (start + cap) * channels <= |samples|
    ensures |rs| == n
  {
    if n == 0 then []
    else Runs(samples, channels, start, cap, width, n - 1) + [ChannelCode(Column(samples, channels, start, cap, n - 1), width)]
  }

  /** One block: the runs of all channels, channel 0 first. */
  function BlockCode(samples: seq<int>, channels: nat, start: nat, cap: nat, width: nat): seq<bool>
    requires (start + cap) * channels <= |samples|
  {
    Concat(Runs(samples, channels, start, cap, width, channels), channels)
  }

  /** Block `b`. */
  function NthBlock(samples: seq<int>, channels: nat, count: nat, width: nat, b: nat): seq<bool>
    requires b < Blocks(count) && |samples| == count * channels
  {
    BlockExists(count, b);
    var start := BLOCK_SIZE * b;
    MulLe(start + Cap(count, start), count, channels);
    BlockCode(samples, channels, start, Cap(count, start), width)
  }

  /** The first `n` blocks, one piece each. */
  function BlockCodes(samples: seq<int>, channels: nat, count: nat, width: nat, n: nat): (bl: seq<seq<bool>>)
    requires n <= Blocks(count) && |samples| == count * channels
    ensures |bl| == n
  {
    if n == 0 then []
    else BlockCodes(samples, channels, count, width, n - 1) + [NthBlock(samples, channels, count, width, n - 1)]
  }

  /** All blocks, back to back: btw_encode does not pad between them. */
  function StreamCode(samples: seq<int>, channels: nat, count: nat, width: nat): seq<bool>
    requires |samples| == count * channels
  {
    Concat(BlockCodes(samples, channels, count, width, Blocks(count)), Blocks(count))
  }

  /** bits_per_rice_len: the width of every Rice parameter field. */
  function RiceWidth(def: Def): nat
  {
    Log2Floor(def.bitsPerSample)
  }

  /** Everything btw_encode writes: header, then all blocks. */
  function Encoded(samples: seq<int>, def: Def): seq<bool>
    requires |samples| == def.sampleCount * def.channels
  {
    HeaderBits(def) + StreamCode(samples, def.channels, def.sampleCount, RiceWidth(def))
  }

  // ---------------------------------------------------------------------
  // What the format promises.

  /** A run of silence sums to nothing and costs two bits a frame. */
  lemma {:induction false} SilentCodes(xs: seq<int>, n: nat)
    requires n <= |xs| && forall l | 0 <= l < |xs| :: xs[l] == 0
    ensures SumAbs(xs, n) == 0 && |Concat(Codewords(xs, 0, |xs|), n)| == 2 * n
  {
    if n > 0 {
      SilentCodes(xs, n - 1);
      CodewordAt(xs, 0, |xs|, n - 1, 0, 0);
    }
  }

  /** An all-zero channel block gets Rice parameter 0 and 2 bits per
      sample after its parameter field. */
  lemma SilentChannel(xs: seq<int>, width: nat)
    requires forall l | 0 <= l < |xs| :: xs[l] == 0
    ensures RiceParam(xs) == 0 && |ChannelCode(xs, width)| == width + 2 * |xs|
  {
    SilentCodes(xs, |xs|);
  }

  /** A concatenation is at least as long as each of its prefixes. */
  lemma {:induction false} ConcatGrows(ws: seq<seq<bool>>, m: nat, n: nat)
    requires m <= n <= |ws|
    ensures |Concat(ws, m)| <= |Concat(ws, n)|
    decreases n
  {
    if m < n {
      ConcatGrows(ws, m, n - 1);
    }
  }

  /** The first `l` pieces begin the first `n`. */
  lemma {:induction false} ConcatPrefix(ws: seq<seq<bool>>, l: nat, n: nat)
    requires l <= n <= |ws|
    ensures |Concat(ws, l)| <= |Concat(ws, n)| && Concat(ws, n)[.. |Concat(ws, l)|] == Concat(ws, l)
    decreases n
  {
    if l < n {
      ConcatPrefix(ws, l, n - 1);
      var a, p := Concat(ws, n - 1), |Concat(ws, l)|;
      assert Concat(ws, n) == a + ws[n - 1];
      assert (a + ws[n - 1])[.. p] == a[.. p];
    }
  }

  // ---------------------------------------------------------------------
  // Appending one piece at a time, as the encoder's loops do.

  lemma ConcatStep(w: seq<bool>, ws: seq<seq<bool>>, l: nat)
    requires l < |ws|
    ensures w + Concat(ws, l + 1) == w + Concat(ws, l) + ws[l]
    ensures |Concat(ws, l + 1)| == |Concat(ws, l)| + |ws[l]|
  {
  }

  /** Piece `l` of a run is the codeword of frame `l`'s difference. */
  lemma {:induction false} CodewordAt(xs: seq<int>, k: nat, n: nat, l: nat, cur: int, prev: int)
    requires l < n <= |xs| && xs[l] == cur && prev == if l == 0 then 0 else xs[l - 1]
    ensures Codewords(xs, k, n)[l] == Codeword(cur - prev, k)
    decreases n
  {
    if l < n - 1 {
      CodewordAt(xs, k, n - 1, l, cur, prev);
    }
  }

  /** Frame `l` of a column is the sample of frame start + l. */
  lemma {:induction false} ColumnAt(samples: seq<int>, channels: nat, start: nat, n: nat, c: nat, l: nat)
    requires c < channels && (start + n) * channels <= |samples| && l < n
    ensures Column(samples, channels, start, n, c)[l] == Sample(samples, channels, start + n, start + l, c)
    decreases n
  {
    if l < n - 1 {
      MulLe(start + n - 1, start + n, channels);
      ColumnAt(samples, channels, start, n - 1, c, l);
    }
  }

  lemma ChannelStep(w: seq<bool>, xs: seq<int>, width: nat, k: nat)
    requires k == RiceParam(xs)
    ensures w + NumberBits(k, width) + Codes(xs, k) == w + ChannelCode(xs, width)
  {
  }

  /** Piece `c` of a block is channel `c`'s run. */
  lemma {:induction false} RunAt(samples: seq<int>, channels: nat, start: nat, cap: nat, width: nat, n: nat, c: nat)
    requires c < n <= channels && (start + cap) * channels <= |samples|
    ensures Runs(samples, channels, start, cap, width, n)[c] == ChannelCode(Column(samples, channels, start, cap, c), width)
    decreases n
  {
    if c < n - 1 {
      RunAt(samples, channels, start, cap, width, n - 1, c);
    }
  }

  /** Piece `b` of a stream is block `b`. */
  lemma {:induction false} BlockAt(samples: seq<int>, channels: nat, count: nat, width: nat, n: nat, b: nat)
    requires b < n <= Blocks(count) && |samples| == count * channels
    ensures BlockCodes(samples, channels, count, width, n)[b] == NthBlock(samples, channels, count, width, b)
    decreases n
  {
    if b < n - 1 {
      BlockAt(samples, channels, count, width, n - 1, b);
    }
  }

  /** Every piece of a run is its frame's codeword. */
  lemma CodewordsAll(xs: seq<int>, k: nat)
    ensures forall l {:trigger Delta(xs, l)} | 0 <= l < |xs| :: Codewords(xs, k, |xs|)[l] == Codeword(Delta(xs, l), k)
  {
    forall l | 0 <= l < |xs|
      ensures Codewords(xs, k, |xs|)[l] == Codeword(Delta(xs, l), k)
    {
      CodewordAt(xs, k, |xs|, l, xs[l], if l == 0 then 0 else xs[l - 1]);
    }
  }

  /** Every piece of a block is its channel's run. */
  lemma RunsAll(samples: seq<int>, channels: nat, start: nat, cap: nat, width: nat)
    requires (start + cap) * channels <= |samples|
    ensures forall c {:trigger Column(samples, channels, start, cap, c)} | 0 <= c < channels ::
      Runs(samples, channels, start, cap, width, channels)[c] == ChannelCode(Column(samples, channels, start, cap, c), width)
  {
    forall c | 0 <= c < channels
      ensures Runs(samples, channels, start, cap, width, channels)[c] == ChannelCode(Column(samples, channels, start, cap, c), width)
    {
      RunAt(samples, channels, start, cap, width, channels, c);
    }
  }

  /** Every piece of a stream is its block. */
  lemma BlocksAll(samples: seq<int>, channels: nat, count: nat, width: nat)
    requires |samples| == count * channels
    ensures forall b {:trigger NthBlock(samples, channels, count, width, b)} | 0 <= b < Blocks(count) ::
      BlockCodes(samples, channels, count, width, Blocks(count))[b] == NthBlock(samples, channels, count, width, b)
  {
    forall b | 0 <= b < Blocks(count)
      ensures BlockCodes(samples, channels, count, width, Blocks(count))[b] == NthBlock(samples, channels, count, width, b)
    {
      BlockAt(samples, channels, count, width, Blocks(count), b);
    }
  }

  /** Block `b` starts at frame BLOCK_SIZE * b and has `cap` frames. */
  lemma NthBlockIs(samples: seq<int>, channels: nat, count: nat, width: nat, b: nat, start: nat, cap: nat)
    requires b < Blocks(count) && |samples| == count * channels
    requires start == BLOCK_SIZE * b && start < count && cap == Cap(count, start)
    ensures (start + cap) * channels <= |samples|
    ensures NthBlock(samples, channels, count, width, b) == BlockCode(samples, channels, start, cap, width)
  {
    MulLe(start + cap, count, channels);
  }
}
