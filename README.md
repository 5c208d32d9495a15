# btw.h in Dafny

btw.h ("Better than WAV") is a single-header C library for lossless audio
compression. `btw_encode` writes a 20-byte header (the magic `btwf`, then
sample count, channels, bits per sample and sample rate, low bit first).
It then cuts the interleaved samples into blocks of 512 frames. Each block
holds one run per channel. A run is a Rice parameter in
`bits_required(bits_per_sample)` bits, then one Rice codeword per frame. A
codeword codes the difference to the frame before, or to 0 at the start of
the run. It is a sign bit, `|d| >> k` one bits, a zero bit, and the `k` low
bits of `|d|`. `btw_read_metadata` reads the header back. `btw_decode`
reads the header and then the blocks, and stores every sample at its
interleaved place. It moves its cursor to the next byte boundary after
every block.

The project models all of this on byte buffers (`array<bv8>`):

- the bit cursor (`put_bit`, `put_number`, `put_ones`, `grab_bit`,
  `grab_number`) as methods that change the buffer in place;
- the encoder and decoder loops as methods with loop invariants;
- the stream format as functions on bit strings (`seq<bool>`, least
  significant bit first).

Each method is proved against those functions. The main theorem is the
round trip: decoding the encoder's output gives back the format and the
samples. The source as written breaks this in three ways, listed under
Findings. Each one has a lemma that exhibits a failing input.

Files and modules:

| file | module | contents |
|---|---|---|
| options.dfy | Options | `Option` |
| bitseq.dfy | BitSeq | powers of two, shifts, `NumberBits`/`FromBits`, `Splice` |
| bytes.dfy | Bytes | the bits of a byte buffer (`BitsOf`), byte-level bit-vector lemmas |
| numbers.dfy | Numbers | `BTW_abs`, `bits_required`, the OR of disjoint bits |
| cursor.dfy | BitCursor | the five cursor functions |
| append.dfy | Appending | the cursor functions appending to a buffer that holds a prefix followed by clear bits |
| header.dfy | Header | `btw_def`, the header written and read |
| rice.dfy | Rice | one codeword, written and read |
| stream.dfy | Stream | blocks, runs and the whole bit stream `btw_encode` writes |
| encoder.dfy | Encoder | `btw_encode` |
| decoding.dfy | Decoding | what `btw_decode` reads, and where it stores it |
| readback.dfy | ReadBack | reading back the encoder's stream, piece by piece |
| decoder.dfy | Decoder | `btw_decode` |
| roundtrip.dfy | RoundTrip | decode after encode |
| findings.dfy | Findings | the three inputs on which the source fails |

## Model

| member | source | states |
|---|---|---|
| Numbers.Abs | btw.h:96-100 | The result is non-negative and equals `n` or `-n`. |
| Numbers.BitsRequired | btw.h:102-110 | The shift loop returns `Log2Floor(number)`, which is 0 for 0 and 1. |
| Numbers.Log2FloorBounds | btw.h:102-110 | For `n >= 1`, `bits_required(n)` is the exponent `r` with `2^r <= n < 2^(r+1)`. |
| Numbers.Log2FloorUnique | btw.h:102-110 | That exponent is unique: any `r` with `2^r <= n < 2^(r+1)` is `Log2Floor(n)`. |
| Numbers.BitOrDisjoint | btw.h:383-387 | OR-ing a remainder below `2^k` into `q << k` adds it. |
| BitCursor.PutBit | btw.h:112-120 | Buffer bit `8*pos+bitPos` becomes itself OR `bit`. Every other bit is unchanged. The cursor moves on one bit, with `bitPos < 8`. |
| BitCursor.PutNumber | btw.h:122-152 | The buffer's bits become the old ones with the low `bits` bits of `number` spliced in at the cursor. The cursor moves on `bits` bits. |
| BitCursor.PutOnes | btw.h:154-180 | The buffer's bits become the old ones with `ones` one bits spliced in at the cursor. The cursor moves on `ones` bits. |
| BitCursor.GrabBit | btw.h:182-190 | Returns the buffer bit at the cursor. The cursor moves on one bit. |
| BitCursor.GrabNumber | btw.h:192-223 | Returns the number whose binary digits, low first, are the `bits` bits at the cursor. The cursor moves on `bits` bits. |
| BitCursor.NumberReadBack | btw.h:192-223 | `grab_number` at the place where `put_number` wrote `number` in `bits` bits returns `number % 2^bits`. |
| BitCursor.OnesReadBack | btw.h:154-190 | `grab_bit` at each of the `ones` places after the cursor where `put_ones` wrote returns 1. |
| Appending.AppendBit | btw.h:293-294 | In a buffer holding `w` followed by clear bits, `put_bit` makes it hold `w + [bit]`. |
| Appending.AppendOnes | btw.h:299-300 | Likewise `put_ones` makes it hold `w + Ones(ones)`. |
| Appending.AppendNumber | btw.h:303-304 | Likewise `put_number` makes it hold `w + NumberBits(number, bits)`. |
| Header.HeaderBits | btw.h:250-256 | The header is 160 bits, so the stream starts at byte `BTW_HEADER_SIZE` = 20. |
| Header.MagicBits | btw.h:92-94 | The 32 bits of `BTW_MAGIC`, low bit first, are the bytes `'b'`, `'t'`, `'w'`, `'f'` in this order. |
| Header.MagicIsBytes | btw.h:326 | A buffer whose first 32 bits are the magic that `put_number` writes starts with the four bytes `btw_read_metadata` checks for. |
| Header.WriteHeader | btw.h:250-258 | In a cleared buffer of at least 20 bytes, the buffer afterwards holds the header's bits followed by clear bits. The cursor is at byte 20, bit 0. |
| Header.ParseHeader | btw.h:326-328 | A wrong magic leaves the format as the caller had it. |
| Header.ReadMetadata | btw.h:318-341 | Returns `ParseHeader(data, def)`: the caller's format on a wrong magic, otherwise the four fields of bytes 4-19. |
| Header.HeaderRoundTrip | btw.h:329-340 | Reading a written header gives each field modulo its width: 16, 16, 32 and 64 bits. |
| Header.HeaderRestores | btw.h:329-340 | When every field fits its width, reading a written header gives the format back. |
| Rice.Codeword | btw.h:293-304 | A codeword is `2 + (|d| >> k) + k` bits long. |
| Rice.Unary | btw.h:382-384 | The one bits counted before the first zero bit lie within the string. |
| Rice.ReadCode | btw.h:379-391 | A codeword that is read ends within the string, at least `2 + k` bits after it starts. |
| Rice.Magnitude | btw.h:296-304 | The quotient `|d| >> k` and the `k` low bits of `|d|` put `|d|` back together. |
| Rice.ReadCodeword | btw.h:379-391 | Wherever `Codeword(d, k)` sits in a string, the decoder reads it as `d` and stops right after it. |
| Stream.IndexIsMul | btw.h:274-275 | Frame `f` of channel `c` sits at `f * channels + c`. |
| Stream.IndexInjective | btw.h:393 | Distinct (frame, channel) pairs have distinct places. |
| Stream.IndexOf | btw.h:393 | Every place below `count * channels` belongs to some (frame, channel) pair. |
| Stream.BlockExists | btw.h:260-267 | Block `b` exists exactly when `512 * b < sample_count`. |
| Stream.BlocksCount | btw.h:260-310 | There are `ceil(sample_count / 512)` blocks. |
| Stream.Cap | btw.h:263-267 | `cap` lies in 1..512 and stays within the samples. It is 512, or it reaches the last frame. |
| Stream.BlocksPartition | btw.h:260-310 | Each block ends where the next one starts, and the last one ends at `sample_count`. |
| Stream.BlockOf | btw.h:260-310 | Frame `f` lies in block `f / 512`. |
| Stream.ColumnAt | btw.h:274-275 | Frame `l` of a block's column is the sample `samples[(i + l) * channels + chan]`. |
| Stream.CodewordAt | btw.h:289-306 | Piece `l` of a run is the codeword of frame `l`'s difference to the frame before, or to 0 for frame 0. |
| Stream.SilentChannel | btw.h:283-307 | An all-zero run gets Rice parameter 0 and costs two bits per frame after its parameter field. |
| Encoder.FetchSample | btw.h:274-275 | Reads frame `l` of the channel's column. |
| Encoder.SumDiffs | btw.h:271-281 | The first frame loop computes `av_diff`, the sum of the magnitudes of the differences. |
| Encoder.PutCodeword | btw.h:292-306 | Appends the frame's codeword to what the buffer holds. |
| Encoder.PutCodes | btw.h:288-307 | The second frame loop appends the run's codewords. |
| Encoder.PutChannel | btw.h:271-307 | Appends one channel's run: its Rice parameter, then its codewords. |
| Encoder.PutBlock | btw.h:269-308 | The channel loop appends the block's runs, channel 0 first. |
| Encoder.PutNthBlock | btw.h:263-309 | One pass of the block loop appends block `b`. |
| Encoder.PutStream | btw.h:260-310 | The block loop appends every block, with nothing between them. |
| Encoder.BufferLen | btw.h:246-248 | The buffer is at least `max_len` bytes and large enough for the stream. It is exactly `max_len` whenever the stream fits in `max_len`. |
| Encoder.Encode | btw.h:225-316 | A zero format field gives no buffer. Otherwise a fresh buffer holds exactly the header and stream, followed by clear bits. `out_len` is the number of bytes the stream touches. |
| Decoding.Align | btw.h:398-399 | The cursor moves on to the next multiple of 8, by less than 8 bits, and stays put when already aligned. |
| Decoding.BlockCap | btw.h:367-371 | The frames of block `b` number 1..512 and stay within `sample_count`. |
| Decoding.ReadBlocks | btw.h:366-400 | The block loop from block `b` on yields one entry per remaining block. |
| Decoding.PlaceAt | btw.h:393 | Once the loops have passed a frame of a channel of a block, its output place holds the sample read for it. Before that, the place holds what it held. |
| Decoder.GrabUnary | btw.h:382-384 | The loop adds `1 << rice_len` once per one bit. The cursor ends after the zero bit. |
| Decoder.GrabCode | btw.h:378-391 | Reads the difference that `ReadCode` reads. The cursor ends where `ReadCode` stops. |
| Decoder.DecodeSample | btw.h:377-394 | Stores the previous sample plus the difference at output `i`, and changes nothing else. |
| Decoder.DecodeRun | btw.h:375-395 | The frame loop stores a channel's run of one block at its interleaved places. `out_len` grows by `cap`. |
| Decoder.DecodeChannel | btw.h:373-395 | Reads `rice_len`, then the run, and stores it. |
| Decoder.DecodeBlock | btw.h:372-399 | The channel loop stores one block. The realigned cursor is where the next block starts. |
| Decoder.DecodeNthBlock | btw.h:366-399 | One pass of the block loop: `cap` is worked out, then the block is read, stored and realigned. |
| Decoder.DecodeBlocks | btw.h:361-400 | A fresh output of `sample_count * channels` samples holds every block stored in place. `out_len` is `sample_count * channels`. |
| Decoder.Decode | btw.h:343-402 | The format comes from the header. A zero field gives no output and leaves `out_len` as it was. Otherwise the output holds what `Decoded` reads. |
| ReadBack.ReadChannelCode | btw.h:373-395 | A channel's run, when its parameter fits its field, reads back as the channel's column and stops right after the run. |
| ReadBack.ReadBlockCode | btw.h:372-396 | When every parameter fits, a block reads back as its columns and stops right after the block. |
| ReadBack.StreamRead | btw.h:366-400 | When every parameter fits and every block but the last ends on a byte boundary, the stream reads back as the columns of every block. |
| ReadBack.SingleBlockAligned | btw.h:398-399 | A stream of at most 512 frames needs no padding: it is one block. |
| RoundTrip.PlaceAll | btw.h:393 | Storing the columns of every block rebuilds the interleaved samples. |
| RoundTrip.DecodedEncoded | btw.h:343-402 | Given the format, the decoder reads the encoder's bits back as the samples. |
| RoundTrip.DecodeEncode | btw.h:225-402 | The round trip, under the conditions above and with header fields that fit. The header of the encoder's output gives back the format, whatever the caller's format held before. Decoding gives back the samples. |
| Findings.MaxLenTooSmall | btw.h:246-248 | For 8 channels of one loud 16-bit frame, the stream needs 1054 bytes while `max_len` is 1040. |
| Findings.RiceParamOverflow | btw.h:283-286 | A Rice parameter of 1 in a field of width 0 decodes 1024 as 512. |
| Findings.PaddingMissing | btw.h:397-399 | Take 512 silent frames, then a frame holding 1. The second block starts mid-byte, so the decoder reads the last frame as 0. |

## Left out

- Encoder.Encode: `exit(EXIT_FAILURE)` on a zero format field (btw.h:238-242) is modelled as no buffer (`None`).
- Encoder.Encode: the NULL checks of the arguments (btw.h:238, 322, 351) and a failing `calloc`/`malloc` are not modelled. Arguments are Dafny values, and allocation does not fail.
- Encoder.Encode: allocates `BufferLen` bytes, not `max_len`. The two agree whenever the stream fits in `max_len`. Where it does not, the source writes past its buffer (see Findings), and the model does not reproduce that out-of-bounds write.
- Encoder.Encode: samples are unbounded integers. The source's `btw_sample_fmt` is `uint8_t`, `int16_t` or `int32_t`, and its differences are `long long`. Neither overflows for samples of those types.
- Encoder.PutCodeword: `rice_un` is passed to `put_ones` as an `unsigned int` (btw.h:298-300). For every `btw_sample_fmt` the quotient fits: with `int32_t` samples a difference is below `2^32` in magnitude (btw.h:290-296), so no truncation happens. The model writes the whole quotient, and differs only on unbounded samples the source cannot be given.
- Decoder.Decode: its requires asks that, on a valid format, `Decoded(...)` reads a whole stream. ReadMetadata's `HEADER_SIZE <= data.Length` also applies. Together they exclude truncated or corrupt input, on which the source reads past `data`.
- Decoder.DecodeBlocks: the output is `array<int>`. btw.h:393 truncates each stored sum to `btw_sample_fmt`, and `prev_sample` takes the truncated value. The two agree whenever every sum fits the sample type. That holds on encoder output that meets ReadBack.StreamFits and ReadBack.BlocksAligned, where RoundTrip.DecodeEncode gives back the original samples. On a stream the decoder misreads (see Findings), the model's unbounded sums can differ from the source's truncated ones.
- Decoder.DecodeBlocks: `malloc` leaves the output uninitialised. Here it starts zero-filled. Decoding.PlaceAt and RoundTrip.PlaceAll show that every place is stored.
- BitCursor.GrabNumber: `input[i] << tally` (btw.h:209, 217) is computed in `int`. It overflows at tally 24 when the byte is 0x80 or more, and is undefined at tally 32 or more. The model returns the mathematical value of the bits.
- Header.ReadMetadata: reads its fields through `grab_number`. A sample count or sample rate of `2^31` or more therefore does not read back in the source (previous line), while the model reads it back. It also requires `data` to hold the 20 header bytes, which the source reads whatever the buffer's size.
- Rice.ReadCode: `diff += 1 << rice_len` (btw.h:383) is an `int` shift and overflows for `rice_len >= 31`. The model adds `2^rice_len`.
- BitCursor.PutNumber: requires the target bits to be clear. The source ORs into partial bytes (btw.h:131, 147) and assigns whole bytes (btw.h:139). On a clear target both give the same bits. Every call in btw.h writes past the last bit written so far, in a `calloc`'d buffer.
- Numbers.BitsRequired: the argument is `nat`, where the source takes `long long`. A negative argument makes the source's loop run forever, since right shift is arithmetic. Every caller passes a non-negative value.
- BitCursor.PutBit: the cursor (`*out_pos`, `*bit_pos`) is updated in place in the source. Here, as in every cursor method, the new cursor is returned. Likewise `*def` and `*out_len` are returned as results.

## Findings

| source | as written | input that shows it | evidently intended | confidence | as-written member | corrected member |
|---|---|---|---|---|---|---|
| btw.h:246-248 | `btw_encode` allocates `max_len = channels * sample_count * bits_per_sample / 8 + 1024` bytes, then writes the whole stream into it, whatever the stream's length. | 8 channels, 16 bits per sample, one frame, every sample 32767. Rice parameter 5, 1034 bits per run, 8432 bits (1054 bytes) in all, against a `max_len` of 1040 bytes. | A buffer at least as long as the stream. | not executed; high | Findings.MaxLenTooSmall | Encoder.Encode |
| btw.h:283-286 | `rice_len` is written in `bits_required(bits_per_sample)` bits, and its high bits are dropped. | 1 channel, 1 bit per sample, one frame holding 1024. `rice_len` is 1 but its field is 0 bits wide. The codeword is written with parameter 1 and read with parameter 0, as 512. With 24 bits per sample the field is 4 bits wide, so it holds at most 15. Loud 24-bit audio gives parameters up to 23. | Fields wide enough for every Rice parameter the encoder chooses, or parameters capped to the field. | not executed; medium | Findings.RiceParamOverflow | RoundTrip.DecodeEncode |
| btw.h:397-399 | The decoder moves to the next byte boundary after each block. The encoder carries its bit position from one block into the next (btw.h:309), without padding. | 1 channel, 16 bits per sample, 513 frames: 512 zeros, then 1. The first block is 1028 bits and ends mid-byte. The decoder reads the second block's parameter 4 bits late, as 2, and gives back 0 for the last frame. | Both sides agree on block boundaries. For example, the encoder pads each block to a whole byte. | not executed; high | Findings.PaddingMissing | RoundTrip.DecodeEncode |

The corrected members:

- **Encoder.Encode** allocates `Encoder.BufferLen` bytes, so the whole stream fits.
- **RoundTrip.DecodeEncode** states the round trip for the streams where the source works:
  - every Rice parameter fits its field (`ReadBack.StreamFits`);
  - every block but the last ends on a byte boundary (`ReadBack.BlocksAligned`).

  `ReadBack.SingleBlockAligned` shows that the second condition holds for every stream of at most 512 frames.
