# GGUF block codecs, byte reader and file names, in Dafny

This project models three parts of the `gguf` Rust workspace and proves properties of the models.

**Block codecs (`ggml-quants`).** These are the block quantization formats Q8_0, Q4_1, Q5_0, Q5_1, Q8_K and Q4_K.
- Each `quantize` turns a block of 32 or 256 samples into integer codes plus shared scale data.
- Each `dequantize` turns the block back into samples.
- Each block has a `repr(C)` byte layout: `ToBytes`/`FromBytes` and their round trips.
- Samples are exact `real` numbers. The f16 conversions of the `half` crate are function parameters (`fromF32`, `toF32`); the half-float itself is its 16-bit pattern.
- `f32::round` (nearest, ties away from zero), the saturating float-to-int `as` casts and the wrapping int-to-`u8` casts are written out in module `Float`.
- Q4_K's `make_qkx2_quants` is modelled in full: the seed codes, the 21-step grid search, the weighted least-squares fit and the keep-the-best rule. The `sqrt` of the weights is a parameter that is only required to return non-negative values.

**Byte reader (`ggus/src/read.rs`).** `GGufReader` is a class over the file's bytes with a cursor.
- Each operation is tied to a pure step function on the remaining bytes.
- The step functions state:
  - the `Eos` cases;
  - the strict boolean;
  - the length-prefixed strings with their UTF-8 check, following `str::from_utf8` and its `valid_up_to`;
  - that what remains is always a suffix of what remained before.

**File names (`ggus/src/name`).**
- `try_from` is modelled as the sequence of suffix strips it performs: `.gguf`, the shard, the type, the encoding, the version, the size label. The regular expressions are hand-written matchers in module `NamePattern`.
- `Display` is modelled as the printer.
- Also modelled: `merge_shards`, the shard accessors, and the iterator, as a class whose `Next` advances the shard index.
- Module `NameType` holds `Type` and its `Display`. Module `NameVersion` holds `Version::new` and `Version`'s `Display`.
- Panics (an `unwrap` on a number too large for `u32`, a zero `NonZero`, an out-of-range vector index) are modelled as the explicit outcome `Panicked` of a `Run` datatype.
- `merge_shards` rejects every mismatch and duplicate. It does not check that every shard is present: one name `-00002-of-00005` merges into a single file (`FileName.MissingShardsMerge`). The model keeps that behaviour.

Two details of the code are easy to misread:
- When a Q4_K sub-block's reconstructed scale is zero, its re-quantization is skipped. Its codes are then those of the least-squares fit, not zeros (`Q4_K.ZeroScaleKeepsFit`).
- The grid step `iscale` of `make_qkx2_quants` divides by `max - min` using the running `min`. That `min` changes each time a better fit is kept (q4_k.rs:81, 115). It is not the seed's `min`.

Files: `bits.dfy`, `float.dfy`, `decimal.dfy`, `utf8.dfy`, `wrappers.dfy` (shared helpers); `q8_0.dfy`, `q4_1.dfy`, `q5_0.dfy`, `q5_1.dfy`, `q8_k.dfy`, `qkx2.dfy`, `q4_k.dfy` (codecs); `read.dfy` (reader); `name_pattern.dfy`, `name_type.dfy`, `name_version.dfy`, `name.dfy` (file names).

## Model

| member | source | states |
|---|---|---|
| Q8_0.Quantize | ggml-quants/src/structs/q8_0.rs:19-37 | all-zero input (max_abs 0) gives the zero block; otherwise delta = amax/127 is positive, is stored through f16, and every code depends only on its own sample: round(x/delta) saturated into i8 |
| Q8_0.Code | ggml-quants/src/structs/q8_0.rs:35 | a code always lies in [-128, 127], whatever the sample |
| Q8_0.Unsaturated | ggml-quants/src/structs/q8_0.rs:35 | inside [-127, 127] the saturating cast is plain rounding |
| Q8_0.Dequantize | ggml-quants/src/structs/q8_0.rs:39-43 | yields 32 samples (their values: ZeroBlock, QuantizeError) |
| Q8_0.ZeroBlock | ggml-quants/src/structs/q8_0.rs:26-29 | max_abs is 0 exactly when every sample is 0; zero input quantizes to the zero block; the zero block dequantizes to zeros |
| Q8_0.QuantizeError | ggml-quants/src/structs/q8_0.rs:19-43 | round trip: each dequantized sample is within delta/2 of its input when f16 keeps delta |
| Q8_0.CodeError | ggml-quants/src/structs/q8_0.rs:31-35 | for any sample with abs ≤ amax, code·delta is within delta/2 of the sample |
| Q8_0.FromToBytes | ggml-quants/src/structs/q8_0.rs:5-9 | decoding the 34-byte layout (f16 delta, 32 i8 codes) inverts encoding |
| Q8_0.ToFromBytes | ggml-quants/src/structs/q8_0.rs:5-9 | encoding inverts decoding: every 34-byte string is a block |
| Q4_1.CodeValue | ggml-quants/src/structs/q4_1.rs:36 | `((x-min)·recip + 0.5) as u8` then `min(15)` always lies in [0, 15] |
| Q4_1.Quantize | ggml-quants/src/structs/q4_1.rs:19-43 | min == max gives `no_delta(min)` with all codes 0; otherwise the header is `DeltaMin::new((max-min)/15, min)` and the code read back for sample i (low nibble of byte i for i < 16, high nibble of byte i-16 otherwise) is the code of sample i |
| Q4_1.CodeAt | ggml-quants/src/structs/q4_1.rs:51-54 | the code dequantize reads for a sample is below 16 |
| Q4_1.Dequantize | ggml-quants/src/structs/q4_1.rs:45-56 | loop over the 16 bytes; output i is code(i)·delta + min with the one shared (delta, min) |
| Q4_1.ConstantBlock | ggml-quants/src/structs/q4_1.rs:26-32 | a constant block dequantizes to the constant as f16 keeps it, at every sample |
| Q4_1.QuantizeError | ggml-quants/src/structs/q4_1.rs:19-56 | round trip: each dequantized sample is within delta/2 of its input when f16 keeps delta and min |
| Q4_1.QuantizedValue | ggml-quants/src/structs/q4_1.rs:36-47 | the dequantized value of a quantized sample is its code mapped through code·delta + min |
| Q4_1.CodeError | ggml-quants/src/structs/q4_1.rs:34-36 | for min ≤ x ≤ max the code maps back to within delta/2 of x |
| Q4_1.FromToBytes | ggml-quants/src/structs/q4_1.rs:5-9 | the 20-byte layout (DeltaMin, 16 nibble pairs) decodes back to the block |
| Q4_1.ToFromBytes | ggml-quants/src/structs/q4_1.rs:5-9 | every 20-byte string encodes back to itself |
| Q5_0.CodeValue | ggml-quants/src/structs/q5_0.rs:36 | `(x·recip + 16.5) as u8` then `min(31)` lies in [0, 31] |
| Q5_0.Codes | ggml-quants/src/structs/q5_0.rs:36-43 | the 32 biased codes, each that of its own sample |
| Q5_0.Quantize | ggml-quants/src/structs/q5_0.rs:21-54 | max_by_abs 0 gives the zero block; otherwise delta = max/-16 goes through f16, bit 4 of code i sits at bit i of the little-endian `qh`, `ql[i]` holds the low nibbles of codes i and i+16, and the code read back for every sample is its code |
| Q5_0.Centered | ggml-quants/src/structs/q5_0.rs:59 | the signed value code - 16 lies in [-16, 15] |
| Q5_0.Dequantize | ggml-quants/src/structs/q5_0.rs:56-69 | the loop joins `x & 0xf` with `(qh >> i) << 4` and `x >> 4` with `qh >> (i + 12)`; output i is (code(i) - 16)·delta, with code(i) the nibble and `qh` bit i that quantize stored |
| Q5_0.JoinedValues | ggml-quants/src/structs/q5_0.rs:58-66 | the two samples the loop writes from byte i of `ql`, through the closure `f`, are samples i and i + 16 of the block |
| Q5_0.ZeroBlock | ggml-quants/src/structs/q5_0.rs:29-32 | max_by_abs is 0 exactly when all samples are 0; the zero block dequantizes to zeros |
| Q5_0.DequantizeQuantize | ggml-quants/src/structs/q5_0.rs:34-69 | a block with the codes and delta of Quantize dequantizes at every sample to (code - 16)·f16(delta) |
| Q5_0.QuantizeError | ggml-quants/src/structs/q5_0.rs:29-59 | each reconstructed sample is within one step abs(delta) of its input (the clamp at 31 costs up to a full step) |
| Q5_0.CodeError | ggml-quants/src/structs/q5_0.rs:34-36 | for abs(x) ≤ abs(max) the biased code maps back to within one step |
| Q5_0.CodeSteps | ggml-quants/src/structs/q5_0.rs:36 | truncation plus clamp stays within one step of the exact position |
| Q5_0.FromToBytes | ggml-quants/src/structs/q5_0.rs:5-10 | the 22-byte layout (f16, 4-byte `qh`, 16-byte `ql`) decodes back to the block |
| Q5_0.ToFromBytes | ggml-quants/src/structs/q5_0.rs:5-10 | every 22-byte string encodes back to itself |
| Q5_1.CodeValue | ggml-quants/src/structs/q5_1.rs:40 | `((x-min)·recip + 0.5) as u8` then `min(31)` lies in [0, 31] |
| Q5_1.Codes | ggml-quants/src/structs/q5_1.rs:40-47 | the 32 codes, each that of its own sample |
| Q5_1.Quantize | ggml-quants/src/structs/q5_1.rs:21-58 | min == max gives `no_delta(min)` with `qh` and `ql` all zero; otherwise the header is `DeltaMin::new((max-min)/31, min)`, the `qh` bit plane and `ql` nibbles hold the codes as in Q5_0, and each code reads back |
| Q5_1.Dequantize | ggml-quants/src/structs/q5_1.rs:60-73 | the loop joins `x & 0xf` with `(qh >> i) << 4` and `x >> 4` with `qh >> (i + 12)`; output i is code(i)·delta + min, with code(i) the nibble and `qh` bit i that quantize stored |
| Q5_1.JoinedValues | ggml-quants/src/structs/q5_1.rs:62-70 | the two samples the loop writes from byte i of `ql`, through the closure `f`, are samples i and i + 16 of the block |
| Q5_1.ConstantBlock | ggml-quants/src/structs/q5_1.rs:29-36 | the no-delta block of a constant input dequantizes to the constant as f16 keeps it |
| Q5_1.DequantizeQuantize | ggml-quants/src/structs/q5_1.rs:38-73 | a block with the header and codes of Quantize dequantizes to code·f16(delta) + f16(min) |
| Q5_1.QuantizeError | ggml-quants/src/structs/q5_1.rs:29-63 | each reconstructed sample is within delta/2 of its input |
| Q5_1.CodeError | ggml-quants/src/structs/q5_1.rs:38-40 | for min ≤ x ≤ max the code maps back to within delta/2 |
| Q5_1.FromToBytes | ggml-quants/src/structs/q5_1.rs:5-10 | the 24-byte layout decodes back to the block |
| Q5_1.ToFromBytes | ggml-quants/src/structs/q5_1.rs:5-10 | every 24-byte string encodes back to itself |
| Bits.SplitFive | ggml-quants/src/structs/q5_1.rs:43-51 | the loop sets bit i (and i+16) of `qh` to bit 4 of code i (and i+16) and `ql[i]` to the two low nibbles |
| Bits.Join | ggml-quants/src/structs/q5_1.rs:63 | `l \| (h as u8 & 0x10)` of a nibble is a five-bit code |
| Bits.Code5Joined | ggml-quants/src/structs/q5_1.rs:62-70 | `x & 0xf` joined with `(qh >> i) << 4` is code i, and `x >> 4` joined with `qh >> (i + 12)` is code i + 16, for every plane and byte |
| Bits.Code5Recovers | ggml-quants/src/structs/q5_1.rs:62-71 | `l \| (h & 0x10)` rebuilt from `ql` and `qh` equals the original 5-bit code for all 32 samples |
| Bits.FromLeBytes32 | ggml-quants/src/structs/q5_0.rs:51-58 | `u32::from_le_bytes(qh.to_le_bytes())` is `qh` |
| Bits.LeBytesFrom32 | ggml-quants/src/structs/q5_0.rs:51-58 | `to_le_bytes(from_le_bytes(b))` is `b` |
| Bits.PairNibbles | ggml-quants/src/structs/q4_1.rs:41-53 | a byte `lo \| hi << 4` of two codes below 16 gives back `x & 0xf` = lo and `x >> 4` = hi |
| Bits.UnpackPackHalves | ggml-quants/src/structs/q4_1.rs:38-54 | packing codes below 16 in nibble pairs and unpacking them returns the codes |
| Bits.PackUnpackHalves | ggml-quants/src/structs/q4_1.rs:38-54 | unpacking any packed bytes and packing again returns the bytes |
| Bits.I8BytesRoundTrip | ggml-quants/src/structs/q8_k.rs:9 | i8 codes survive their byte encoding |
| Bits.FromLeBytesI16 | ggml-quants/src/structs/q8_k.rs:10 | an i16 survives its little-endian two bytes |
| Q8_K.Code | ggml-quants/src/structs/q8_k.rs:41 | `round().min(127.)` then the saturating i8 cast lies in [-128, 127] |
| Q8_K.Quantize | ggml-quants/src/structs/q8_k.rs:22-50 | max_by_abs 0 gives the zero block; otherwise delta = max/-127 through f16 and each code is that of its own sample; for every produced block, sums[k] is the exact sum of quants[16k..16k+16] |
| Q8_K.CodesAndSums | ggml-quants/src/structs/q8_k.rs:38-43 | the loop's codes are those of the samples, each sums[k] is the sum of its 16 codes, and no sum leaves the i16 range |
| Q8_K.GroupSumsStep | ggml-quants/src/structs/q8_k.rs:42 | one `sums[i/16] += code` step adds code i to exactly group i/16 |
| Q8_K.SumBounds | ggml-quants/src/structs/q8_k.rs:39-42 | a sum of n codes in [-128, 127] lies in [-128n, 127n] |
| Q8_K.SumsRange | ggml-quants/src/structs/q8_k.rs:39-42 | every finished group sum of a valid block lies in [-2048, 2032], and so does the sum of any run of at most 16 of its codes, which covers every value a group's `+=` passes through |
| Q8_K.GroupSumsRange | ggml-quants/src/structs/q8_k.rs:39-42 | after any number of codes, every running group sum lies in [-2048, 2032], so adding one more `i8` code through `sums[i / 16] += *y as i16` never leaves i16; the loop of CodesAndSums asserts this before every `+=` |
| Q8_K.ZeroSum | ggml-quants/src/structs/q8_k.rs:13-20 | zero codes sum to zero, so the zero block meets the sum invariant |
| Q8_K.Dequantize | ggml-quants/src/structs/q8_k.rs:52-56 | yields 256 samples (their values: DequantizeQuantize) |
| Q8_K.DequantizeIgnoresSums | ggml-quants/src/structs/q8_k.rs:52-56 | replacing the sums leaves the dequantized output unchanged |
| Q8_K.ZeroBlock | ggml-quants/src/structs/q8_k.rs:30-33 | max_by_abs is 0 exactly when all samples are 0; the zero block dequantizes to zeros |
| Q8_K.DequantizeQuantize | ggml-quants/src/structs/q8_k.rs:35-56 | output i is code(i)·delta: it depends only on quants[i] and delta |
| Q8_K.QuantizeError | ggml-quants/src/structs/q8_k.rs:30-55 | each reconstructed sample is within abs(delta)/2 of its input |
| Q8_K.CodeError | ggml-quants/src/structs/q8_k.rs:35-41 | for abs(x) ≤ abs(max) the code lies in [-127, 127] and maps back within half a step |
| Q8_K.Unsaturated | ggml-quants/src/structs/q8_k.rs:41 | inside [-127, 127] clamp and cast are plain rounding |
| Q8_K.SumsRoundTrip | ggml-quants/src/structs/q8_k.rs:10 | i16 sums survive their little-endian bytes |
| Q8_K.BytesRoundTrip | ggml-quants/src/structs/q8_k.rs:10 | every even-length byte string is the encoding of some sums |
| Q8_K.FromToBytes | ggml-quants/src/structs/q8_k.rs:6-11 | the layout delta, 256 i8 codes, 16 i16 sums (290 bytes) decodes back to the block |
| Q8_K.ToFromBytes | ggml-quants/src/structs/q8_k.rs:6-11 | every 290-byte string encodes back to itself |
| Qkx2.GridCode | ggml-quants/src/structs/q4_k.rs:87 | a grid code `nearest_int(iscale·(x-min)).clamp(0, 15)` lies in [0, 15] |
| Qkx2.InitialCode | ggml-quants/src/structs/q4_k.rs:75-76 | a seed code lies in [0, 15] |
| Qkx2.StartMin | ggml-quants/src/structs/q4_k.rs:47-63 | the starting min is at most 0 and at most the block's max |
| Qkx2.IScale | ggml-quants/src/structs/q4_k.rs:81 | every grid step's inverse scale (14 + 0.1·step)/(max-min) is positive |
| Qkx2.GridComonotone | ggml-quants/src/structs/q4_k.rs:87 | grid codes are ordered like the samples |
| Qkx2.Chebyshev | ggml-quants/src/structs/q4_k.rs:95-97 | with non-negative weights and codes ordered like the samples, the numerator of `this_scale` is ≥ 0 |
| Qkx2.SolveCases | ggml-quants/src/structs/q4_k.rs:95-103 | the fit is None when the determinant is ≤ 0, the scale-only fit through the origin when the unconstrained min is positive, the closed-form weighted regression otherwise |
| Qkx2.SolveFacts | ggml-quants/src/structs/q4_k.rs:95-103 | every accepted fit has scale ≥ 0 and min ≤ 0, min below max |
| Qkx2.StepFacts | ggml-quants/src/structs/q4_k.rs:80-117 | every grid candidate has codes in [0, 15], scale ≥ 0 and min ≤ 0 |
| Qkx2.Search | ggml-quants/src/structs/q4_k.rs:80-118 | the search keeps a fit that still meets the search invariant |
| Qkx2.SearchNoWorse | ggml-quants/src/structs/q4_k.rs:111-116 | the fit the search ends with scores no worse than the one it started from |
| Qkx2.SearchStepLeast | ggml-quants/src/structs/q4_k.rs:111-116 | the final fit scores no worse than the candidate of any grid step |
| Qkx2.Qkx2Bounds | ggml-quants/src/structs/q4_k.rs:61-120 | the result of `make_qkx2_quants` has codes in [0, 15], scale ≥ 0 and min ≤ 0 (so `the_min = -min` ≥ 0) |
| Qkx2.Qkx2Flat | ggml-quants/src/structs/q4_k.rs:61-69 | a constant block with non-positive value gets all-zero codes, scale 0 and min equal to the value |
| Q4_K.MakeQkx2Quants | ggml-quants/src/structs/q4_k.rs:38-121 | writes the codes of the model's `make_qkx2_quants` into `l[off..off+n]` and nothing else in `l`, and returns `the_min = -min` and the scale |
| Q4_K.WeightSums | ggml-quants/src/structs/q4_k.rs:53-59 | the loop computes the weighted sums Σw and Σw·x |
| Q4_K.Fill | ggml-quants/src/structs/q4_k.rs:66 | `l.fill(0)` sets exactly the sub-block's codes |
| Q4_K.SeedCodes | ggml-quants/src/structs/q4_k.rs:74-78 | the seed loop writes the seed code of every sample |
| Q4_K.SearchGrid | ggml-quants/src/structs/q4_k.rs:80-118 | the 21-step loop leaves in `l` the codes, and returns the scale and min, of the search |
| Q4_K.SearchRound | ggml-quants/src/structs/q4_k.rs:81-117 | one grid step keeps the search invariant and moves the search one step on |
| Q4_K.GridStep | ggml-quants/src/structs/q4_k.rs:81-109 | one step fills `l_aux` with the grid codes and finds a fit exactly when the step's fit exists, with that fit's scale, min and error |
| Q4_K.GridSums | ggml-quants/src/structs/q4_k.rs:86-93 | the inner loop stores the grid codes and computes Σw·l, Σw·l², Σw·l·x |
| Q4_K.SumsAdvance | ggml-quants/src/structs/q4_k.rs:90-92 | one sample adds w·l, w·l² and w·l·x to the three sums |
| Q4_K.WeightedError | ggml-quants/src/structs/q4_k.rs:105-109 | the error loop computes Σw·(scale·l + min - x)² |
| Q4_K.CopyFromSlice | ggml-quants/src/structs/q4_k.rs:112 | `copy_from_slice` copies `l_aux[..n]` into the sub-block and nothing else |
| Q4_K.SquareSum | ggml-quants/src/structs/q4_k.rs:138-141 | the loop computes Σx² |
| Q4_K.FillWeights | ggml-quants/src/structs/q4_k.rs:144-146 | every weight is av_x + abs(x) |
| Q4_K.Weights | ggml-quants/src/structs/q4_k.rs:138-146 | the weights are non-negative and each is at least abs(x) |
| Q4_K.SubFitOf | ggml-quants/src/structs/q4_k.rs:135-148 | the weights the loop builds make the fit of sub-block j that of `make_qkx2_quants` on its 32 samples |
| Q4_K.FitSubBlock | ggml-quants/src/structs/q4_k.rs:135-149 | one sub-block's codes go to `l[32j..32j+32]`; its min and scale are returned; the rest of `l` is unchanged |
| Q4_K.FitSubBlocks | ggml-quants/src/structs/q4_k.rs:134-157 | the loop yields every sub-block's scale and -min, their maxima, and all eight fits' codes in `l` |
| Q4_K.FitsNonneg | ggml-quants/src/structs/q4_k.rs:61-68 | all scales and all `mins[j]` are ≥ 0 |
| Q4_K.PeakBounds | ggml-quants/src/structs/q4_k.rs:129-156 | the running maximum starts at 0, is ≥ 0, bounds every entry and is 0 or one of them |
| Q4_K.Inverse | ggml-quants/src/structs/q4_k.rs:159-164 | `63/max` when max > 0, else 0: never negative |
| Q4_K.LevelBelow | ggml-quants/src/structs/q4_k.rs:167-168 | ls and lm never exceed 63 before packing |
| Q4_K.PeakUncut | ggml-quants/src/structs/q4_k.rs:159-168 | relative to the maximum, a level is exactly round(v·63/max): the `min(63)` never cuts |
| Q4_K.PackScales | ggml-quants/src/structs/q4_k.rs:166-178 | the packing loop's 12 bytes are the packed table of the eight levels |
| Q4_K.StoreLevels | ggml-quants/src/structs/q4_k.rs:170-177 | one round of the loop writes bytes j and j+4 (j < 4), or byte j+4 and ORs the top bits into bytes j-4 and j (j ≥ 4) |
| Q4_K.HighRound | ggml-quants/src/structs/q4_k.rs:173-177 | a round j ≥ 4 changes only bytes j+4, j-4 and j |
| Q4_K.LowRound | ggml-quants/src/structs/q4_k.rs:170-172 | a round j < 4 changes only bytes j and j+4 |
| Q4_K.GetScaleMinK4 | ggml-quants/src/structs/q4_k.rs:240-248 | for any 12-byte table both results are below 64 |
| Q4_K.ScaleTableRoundTrip | ggml-quants/src/structs/q4_k.rs:166-178 | for every j and all levels in [0, 63], reading the packed table with `get_scale_min_k4(j)` gives (ls[j], lm[j]) |
| Q4_K.TableRepack | ggml-quants/src/structs/q4_k.rs:240-248 | unpacking all eight pairs of any 12-byte table and repacking gives the table bit for bit |
| Q4_K.LevelsReadBack | ggml-quants/src/structs/q4_k.rs:166-184 | the stored table reads back as the levels of sub-block j |
| Q4_K.PackTable | ggml-quants/src/structs/q4_k.rs:159-181 | the table is packed from the levels against 63/max, and the header stores max_scale/63 and max_min/63 through f16 |
| Q4_K.RequantCode | ggml-quants/src/structs/q4_k.rs:192-193 | a re-quantized code lies in [0, 15] |
| Q4_K.Requantize | ggml-quants/src/structs/q4_k.rs:183-196 | every code of `l` afterwards is the re-quantized one of its sub-block, computed from the codes before |
| Q4_K.Skipped | ggml-quants/src/structs/q4_k.rs:185-188 | with a read-back scale of zero the old code is kept |
| Q4_K.Recoded | ggml-quants/src/structs/q4_k.rs:189-194 | otherwise the code is round((x + dm)/d) clamped to [0, 15] |
| Q4_K.RequantizeChunk | ggml-quants/src/structs/q4_k.rs:191-195 | the inner loop recodes exactly the 32 codes of one sub-block |
| Q4_K.RequantizedIn | ggml-quants/src/structs/q4_k.rs:76-193 | every code written to `l` is in [0, 15] |
| Q4_K.PackQs | ggml-quants/src/structs/q4_k.rs:198-204 | byte `qs[32c+i]` holds `l[64c+i]` in its low nibble and `l[64c+32+i]` in its high nibble |
| Q4_K.PackRun | ggml-quants/src/structs/q4_k.rs:200-203 | one chunk run writes its 32 bytes, leaves the earlier ones, and advances `q_ptr` by 32 |
| Q4_K.PackedCodes | ggml-quants/src/structs/q4_k.rs:198-231 | dequantize reads back exactly the packed codes, sub-blocks 2c and 2c+1 from chunk c |
| Q4_K.CodeAt | ggml-quants/src/structs/q4_k.rs:216-231 | the code dequantize reads is below 16 |
| Q4_K.Quantize | ggml-quants/src/structs/q4_k.rs:29-206 | the block has the scales and f16 header built from the fits of `make_qkx2_quants`, and its codes are the re-quantized ones, packed |
| Q4_K.QuantizeWith | ggml-quants/src/structs/q4_k.rs:123-205 | the same, for the fits given as a ghost argument |
| Q4_K.ZeroScaleKeepsFit | ggml-quants/src/structs/q4_k.rs:185-188 | a sub-block whose reconstructed d is 0 keeps the codes of its fit |
| Q4_K.ScaleRecodes | ggml-quants/src/structs/q4_k.rs:184-195 | any other sub-block's code is round((x + dm)/d) clamped, with d and dm read back from the table and header |
| Q4_K.TableLevels | ggml-quants/src/structs/q4_k.rs:159-184 | in a quantized block, sub-block j's table entry reads back as its scale and min levels, and the header holds max/63 through f16 |
| Q4_K.StoredScales | ggml-quants/src/structs/q4_k.rs:180-181 | the header of a quantized block is f16(max_scale/63), f16(max_min/63) |
| Q4_K.Dequantize | ggml-quants/src/structs/q4_k.rs:208-236 | output k is the sample value of the block at k, for all 256 |
| Q4_K.DequantizeChunk | ggml-quants/src/structs/q4_k.rs:214-232 | one 64-sample chunk is written and the others are left |
| Q4_K.ChunkLoop | ggml-quants/src/structs/q4_k.rs:229-232 | the inner loop writes `y1[i] = d1·(q & 0x0F) - m1` and `y2[i] = d2·(q >> 4) - m2` |
| Q4_K.ChunkCodes | ggml-quants/src/structs/q4_k.rs:214-231 | chunk c's samples use sub-blocks 2c (low nibbles) and 2c+1 (high nibbles) |
| Q4_K.SampleAt | ggml-quants/src/structs/q4_k.rs:214-231 | sample 32s+i is d_s·code - m_s with sub-block s's scale and min |
| Q4_K.DequantizeQuantize | ggml-quants/src/structs/q4_k.rs:166-231 | a quantized block dequantizes to f16(max_scale/63)·ls_s·code - f16(max_min/63)·lm_s |
| Q4_K.ZeroBlock | ggml-quants/src/structs/q4_k.rs:20-27 | the zero block is valid and dequantizes to zeros |
| Q4_K.FromToBytes | ggml-quants/src/structs/q4_k.rs:10-18 | the 144-byte layout (DeltaMin, 12-byte table, 128 code bytes) decodes back to the block |
| Q4_K.ToFromBytes | ggml-quants/src/structs/q4_k.rs:10-18 | every 144-byte string encodes back to itself |
| Q4_K.FixtureBlock | ggml-quants/src/structs/q4_k.rs:514-523 | the reference block's header and its eight (scale, min) pairs, as get_scale_min_k4 reads them |
| Float.Round | ggml-quants/src/structs/q8_0.rs:35 | `f32::round` is within 1/2 and keeps the sign |
| Float.NearestInt | ggml-quants/src/structs/q4_k.rs:34-36 | `round() as i32` saturates to i32 and equals rounding inside the range |
| Float.Clamp | ggml-quants/src/structs/q4_k.rs:76 | `clamp(lo, hi)` is within bounds and the identity inside them |
| Float.F32ToU8 | ggml-quants/src/structs/q4_1.rs:36 | the saturating cast lands in [0, 255] and truncates inside the range |
| Float.F32ToI8 | ggml-quants/src/structs/q8_0.rs:35 | the saturating cast lands in [-128, 127] and truncates inside the range |
| Float.MinMax | ggml-quants/src/structs/q4_1.rs:26 | `min_max` returns members of the block bounding every sample |
| Float.MaxByAbs | ggml-quants/src/structs/q5_0.rs:29 | `max_by_abs` returns a sample of largest magnitude |
| Float.MaxAbs | ggml-quants/src/structs/q8_0.rs:26 | `max_abs` is the largest magnitude of any sample |
| Float.MaxByAbsZero | ggml-quants/src/structs/q5_0.rs:29-32 | max_by_abs is 0 exactly when all samples are 0 |
| Float.NoDelta | ggml-quants/src/structs/q4_1.rs:29 | `no_delta(min)` stores delta 0 and min through f16 |
| Float.NewDeltaMin | ggml-quants/src/structs/q4_1.rs:40 | `DeltaMin::new` stores both through f16 |
| Float.DeltaMinRoundTrip | ggml-quants/src/structs/q4_1.rs:7 | a DeltaMin survives its four bytes |
| Reader.GGufReader.constructor | ggus/src/read.rs:20-22 | a new reader has all the data remaining |
| Reader.GGufReader.Remaining | ggus/src/read.rs:25-27 | what remains is a suffix of the data |
| Reader.GGufReader.Skip | ggus/src/read.rs:29-34 | advances as SkipStep says and never moves back; this is the corrected skip of the read.rs:29-39 Findings row, which fails with `Eos` and never panics (the `Layout::array(len).unwrap()` panic is modelled by SkipAsWritten only) |
| Reader.GGufReader.Read | ggus/src/read.rs:41-45 | advances as ReadStep says |
| Reader.GGufReader.ReadBool | ggus/src/read.rs:47-53 | advances as ReadBoolStep says |
| Reader.GGufReader.ReadStr | ggus/src/read.rs:55-61 | advances as ReadStrStep says |
| Reader.GGufReader.SkipStr | ggus/src/read.rs:36-39 | advances as SkipStrStep says; this is the corrected skip_str of the read.rs:29-39 Findings row, which fails with `Eos` and never panics (the panic of the code as written is modelled by SkipStrAsWritten only) |
| Reader.GGufReader.ReadArrHeader | ggus/src/read.rs:75-77 | advances as ReadArrHeaderStep says |
| Reader.ArrayLayout | ggus/src/read.rs:30 | `Layout::array(len)` exists exactly when len·size fits `isize::MAX` less the alignment, and is len·size |
| Reader.SkipAsWritten | ggus/src/read.rs:29-34 | `skip` panics exactly when the layout does not exist, and otherwise is SkipStep |
| Reader.SkipStep | ggus/src/read.rs:29-34 | succeeds exactly when len·size bytes remain and drops them; otherwise `Eos` with the cursor unchanged |
| Reader.ReadStep | ggus/src/read.rs:41-45 | succeeds exactly when size bytes remain and returns and consumes exactly them; otherwise `Eos`, cursor unchanged |
| Reader.ReadLeStep | ggus/src/read.rs:41-45 | a successful read decodes the bytes little-endian into a value below 256^size |
| Reader.ReadBoolStep | ggus/src/read.rs:47-53 | 0 is false, 1 is true, any other byte e is `Bool(e)`, and the byte is consumed in every case; empty input is `Eos` |
| Reader.ReadStrStep | ggus/src/read.rs:55-61 | succeeds exactly when the u64 length and that many bytes are present and valid UTF-8, returning bytes [8, 8+len) and leaving what follows; on `Eos` or `Utf8` only the prefix is consumed; a `Utf8` error reports the valid prefix length |
| Reader.SkipStrStep | ggus/src/read.rs:36-39 | consumes 8+len bytes without a UTF-8 check, or fails with `Eos` |
| Reader.SkipStrAsWritten | ggus/src/read.rs:36-39 | `skip_str` panics exactly when the length prefix exceeds `isize::MAX`, and otherwise is SkipStrStep |
| Reader.ReadArrHeaderStep | ggus/src/read.rs:75-77 | reads the u32 type and the u64 length when 12 bytes remain; otherwise `Eos` after what it read |
| Reader.ReadBytesInOrder | ggus/src/read.rs:41-45 | consecutive one-byte reads return the bytes in order |
| Reader.ReadFixture | ggus/src/read.rs:84-93 | reading [1, 2, 3, 4, 5] byte by byte gives 1..5 |
| Reader.ReadBoolFixture | ggus/src/read.rs:95-102 | [0, 1, 2] gives false, true, then `Bool(2)` |
| Reader.ReadStrAfterPrefix | ggus/src/read.rs:55-61 | a prefix holding the length of valid UTF-8 bytes reads them back |
| Reader.ReadStrRoundTrip | ggus/src/read.rs:55-61 | the length-prefixed UTF-8 encoding of any string reads back as that string's bytes |
| Reader.SkipStrMatchesReadStr | ggus/src/read.rs:36-61 | `skip_str` fails exactly when `read_str` fails with `Eos`, and ends where `read_str` does |
| Reader.ReadNeverPanics | ggus/src/read.rs:41-45 | reading one value of a real type never panics |
| Reader.LeValueOfBytes | ggus/src/read.rs:44 | the little-endian decoding inverts the encoding |
| Unicode.ValidPrefix | ggus/src/read.rs:58 | the prefix up to `valid_up_to` is well-formed |
| Unicode.EncodedIsUtf8 | ggus/src/read.rs:58 | every encoded `str` passes `from_utf8` |
| Unicode.ConcatUtf8 | ggus/src/read.rs:58 | well-formed byte strings concatenate to a well-formed one |
| Unicode.Rejections | ggus/src/read.rs:58 | a lone continuation byte, a surrogate and an over-long form fail at offset 0 |
| NameType.Display | ggus/src/name/type.rs:12-20 | Default prints as "", LoRA as the `-LoRA` the parser strips, Vocab as `-vocab` (each iff) |
| NameVersion.New | ggus/src/name/version.rs:10-13 | stores both fields unchanged |
| NameVersion.Display | ggus/src/name/version.rs:16-21 | `v`, the decimal major, `.`, the decimal minor |
| NameVersion.DisplayInjective | ggus/src/name/version.rs:16-21 | different versions print differently |
| NamePattern.StripSuffix | ggus/src/name/mod.rs:69 | `strip_suffix` succeeds exactly when the text ends with the suffix, and returns what precedes it |
| NamePattern.RSplitOnce | ggus/src/name/mod.rs:91 | `rsplit_once('-')` fails exactly when there is no `-`, and splits at the last one |
| NamePattern.ShardCapture | ggus/src/name/mod.rs:53 | the shard pattern matches exactly when the text ends in `-` 5 digits `-of-` 5 digits |
| NamePattern.ShardTextCaptured | ggus/src/name/mod.rs:53-79 | the printed shard suffix is captured back with its numbers |
| NamePattern.MatchVersion | ggus/src/name/mod.rs:50 | a match is `-v` digits `.` digits to the end |
| NamePattern.VersionCapture | ggus/src/name/mod.rs:50 | a capture splits the text into a head and a version match |
| NamePattern.VersionCaptured | ggus/src/name/mod.rs:50 | any head followed by a version suffix is captured at that suffix |
| NamePattern.MatchSize | ggus/src/name/mod.rs:49 | a size match begins with `-` and its numbers are digits |
| NamePattern.FirstSizeLeftmost | ggus/src/name/mod.rs:49 | the size capture is the leftmost match, as the regex engine finds it |
| NamePattern.SizeCaptured | ggus/src/name/mod.rs:49 | after a dash-free head a size suffix is captured at its start |
| NamePattern.MatchSizeDigits | ggus/src/name/mod.rs:49 | the printed form of a size label and fine-tune matches, giving back its parts |
| FileName.NewShard | ggus/src/name/mod.rs:78 | `Shard::new` succeeds exactly on a non-zero index and count |
| FileName.StagesOf | ggus/src/name/mod.rs:68-108 | the stages fail with no extension exactly when the text does not end in `.gguf` |
| FileName.ParseAsWritten | ggus/src/name/mod.rs:68-144 | a name not ending in `.gguf` is rejected with `GGufExtNotMatch` |
| FileName.Parse | ggus/src/name/mod.rs:68-144 | the corrected parse rejects exactly the same names |
| FileName.TryFrom | ggus/src/name/mod.rs:68-144 | the step-by-step trimming computes the parse as written |
| FileName.TrimShard | ggus/src/name/mod.rs:73-79 | strips and parses a trailing shard suffix |
| FileName.TrimType | ggus/src/name/mod.rs:81-89 | strips `-vocab`, else `-LoRA`, else nothing |
| FileName.TrimTail | ggus/src/name/mod.rs:91-143 | the encoding, version and size-label stages |
| FileName.Format | ggus/src/name/mod.rs:264-282 | writes the pieces in order into the printed name |
| FileName.ShardIndex | ggus/src/name/mod.rs:206-208 | `shard_index` is index - 1 |
| FileName.ShardCount | ggus/src/name/mod.rs:212-214 | `shard_count` is at least 1 |
| FileName.IntoSingle | ggus/src/name/mod.rs:218-223 | only the shard changes, to the default |
| FileName.IterAll | ggus/src/name/mod.rs:227-235 | only the shard index changes, to 1 |
| FileName.SplitN | ggus/src/name/mod.rs:239-247 | only the shard changes, to 1 of n (n truncated to u32); n ≡ 0 mod 2^32 panics |
| FileName.ShardSuffixStripped | ggus/src/name/mod.rs:73-79 | a trailing shard suffix only sets the shard; a zero number panics |
| FileName.VocabBeforeLoRA | ggus/src/name/mod.rs:81-86 | `-vocab` is checked before `-LoRA` |
| FileName.TypeStageSplits | ggus/src/name/mod.rs:81-89 | the remainder followed by the type's text is the input |
| FileName.TypeRoundTrip | ggus/src/name/mod.rs:81-89 | a base with no type suffix and `Display(t)` appended gives back type t |
| FileName.VersionRoundTrip | ggus/src/name/mod.rs:104-108 | `-` and a version's text parse back to that version |
| FileName.ShardRoundTrip | ggus/src/name/mod.rs:73-79 | a printed shard parses back |
| FileName.StagesOfDisplay | ggus/src/name/mod.rs:264-282 | the stages of a printed name find its stem, type and shard |
| FileName.NoDashParsed | ggus/src/name/mod.rs:91-101 | with no `-` left the whole rest is the base name and the other parts are empty |
| FileName.ParsesAgree | ggus/src/name/mod.rs:133-142 | the corrected parse differs from the written one only in a longer base name |
| FileName.PlainRoundTrip | ggus/src/name/mod.rs:91-142 | a name with no label parses back from its printed form exactly when its base does not look like a label |
| FileName.PlainRoundTripAsWritten | ggus/src/name/mod.rs:133-142 | as written this round trip holds only for a base with no `-` |
| FileName.UntypedAfterWord | ggus/src/name/mod.rs:81-89 | a last word other than `vocab`/`LoRA` is not a type |
| FileName.SizeRoundTrip | ggus/src/name/mod.rs:110-122 | a printed size label and fine-tune match the size pattern and give back the label |
| FileName.LabelledRoundTrip | ggus/src/name/mod.rs:110-132 | a name with a size label and an encoding parses back from its printed form, by both parses, when its base and encoding have no `-`, its unit letter is one of `QTBMK`, its fine-tune is word characters, an untyped name's encoding is not `vocab` or `LoRA`, an unsharded untyped name's encoding is not five digits, and its shard prints as the source prints it (a count of 1 has index 1; otherwise index and count are both below 100000) |
| FileName.LabelledParsed | ggus/src/name/mod.rs:110-132 | a labelled tail gives all its parts to the name |
| FileName.ExtErrors | ggus/src/name/mod.rs:325-354 | the four bad extensions of test_name_errors (lines 325-330) and `model.bin` of test_from_path (line 354) are rejected |
| FileName.BaseNameLost | ggus/src/name/mod.rs:133-142 | as written, `test-cases-00002-of-00005.gguf` parses with base name `test` |
| FileName.BaseNameKept | ggus/src/name/mod.rs:133-142 | the corrected parse keeps `test-cases` and prints back the input |
| FileName.TwoWordsSharded | ggus/src/name/mod.rs:133-142 | for every two-word sharded name, as written the last word is lost; corrected, the name round-trips |
| FileName.OneWordRoundTrip | ggus/src/name/mod.rs:91-101 | a one-word base with any type parses back and prints back |
| FileName.TypeExamples | ggus/src/name/mod.rs:300-311 | `tokenizer-vocab.gguf` and `adapter-LoRA.gguf` parse to their type and base and print back identically |
| FileName.DefaultRoundTrip | ggus/src/name/mod.rs:31-43 | the default name prints as `model.gguf`, which parses back to it |
| FileName.SizeExample | ggus/src/name/mod.rs:343-356 | `model-2x7.5B-F16.gguf` has base `model`, label 2x7.5B and encoding F16 |
| FileName.SizeExampleText | ggus/src/name/mod.rs:264-282 | that name prints back identically |
| FileName.VersionExample | ggus/src/name/mod.rs:295 | `TinyLlama-1.1B-Chat-v1.0-Q8_0.gguf` has every part filled |
| FileName.VersionExampleText | ggus/src/name/mod.rs:264-282 | that name prints back identically |
| FileName.MergeShards | ggus/src/name/mod.rs:157-189 | the loop over the `Vec<bool>` computes the merge |
| FileName.ScanInRange | ggus/src/name/mod.rs:162-175 | the loop gives the first name as a single file exactly when every later name agrees and no index repeats, and None otherwise |
| FileName.MergeInRange | ggus/src/name/mod.rs:157-189 | None for the empty input, a differing field or count, or a repeated index; otherwise the first name's fields with the default shard |
| FileName.MergePanics | ggus/src/name/mod.rs:160-170 | the merge panics only when some index exceeds its count |
| FileName.MissingShardsMerge | ggus/src/name/mod.rs:157-189 | one shard of five merges: missing shards are not detected |
| FileName.NameIterator.constructor | ggus/src/name/mod.rs:250-251 | the iterator starts at the given name |
| FileName.NameIterator.Next | ggus/src/name/mod.rs:253-261 | yields the current name and increments the index while index ≤ count, panics on u32 overflow, yields None after |
| FileName.YieldsAll | ggus/src/name/mod.rs:253-261 | from index i to count n it yields exactly n - i + 1 names with indices i..n |
| FileName.YieldsOverflow | ggus/src/name/mod.rs:256 | with count `u32::MAX` the increment panics |
| FileName.Exhausted | ggus/src/name/mod.rs:258-260 | past the count it yields nothing and changes nothing |
| FileName.SplitThenIterate | ggus/src/name/mod.rs:376-391 | `split_n(5)` yields five names with shards 1..5 of 5 and the other fields kept |
| FileName.IterateThenMerge | ggus/src/name/mod.rs:157-235 | merging all the shards of a name gives back the single name |

## Left out

- The placeholder codecs Q5_K, IQ3S, IQ3XXS and IQ4NL are not modelled: their `quantize`/`dequantize` are `todo!()`.
- IEEE 754 rounding is not modelled. f32 arithmetic is exact `real` arithmetic. NaN and the infinities do not occur. `make_qkx2_quants` folds its min and max from `f32::INFINITY` and `f32::NEG_INFINITY` (q4_k.rs:47-51); the model takes them with `Float.MinMax`, which starts from the first sample. On the non-empty 32-sample sub-blocks both give the same min and max, so no infinity reaches the arithmetic.
- The `half` crate is not part of this model: `f16::from_f32`/`to_f32` are function parameters.
- `sqrt` in the Q4_K weights is not part of this model: it is a parameter that only has to return non-negative values.
- `structs/mod.rs` is not part of this model. `min_max`, `max_by_abs`, `max_abs` and `DeltaMin` get bodies that meet the contracts the codecs rely on.
- The empirical tolerance tests and the float side of the Q4_K fixture tests are left out: they compare float outputs within tolerances. `Q4_K.FixtureBlock` covers the fixture's bytes.
- The reader decodes every value little-endian. `read_unaligned` reads in host order, which GGUF files assume is little-endian.
- A GGUF value type (`GGufMetaDataValueType`) is its raw `u32`.
- `read_str` returns the checked bytes, not a borrowed `&str`.
- `read_str_unchecked` is left out: it is unchecked and can panic.
- `Utf8Error::error_len` is not modelled; only `valid_up_to` is.
- `ggus/src/lib.rs` and all of `xtask/` are left out (module wiring, command-line tools, file I/O).
- `TryFrom<&Path>` and `to_owned` are left out: they are path and lifetime plumbing.
- The regex engine and `LazyLock` are replaced by hand-written matchers.
- `\d` and `\w` are taken as ASCII. The `regex` crate also matches other Unicode digits and letters, and for a non-ASCII digit `parse().unwrap()` would panic.
- `shard.rs` is not part of this model. `Shard` holds two `NonZero<u32>` numbers, `Shard::new` is taken to panic on a zero number, and the shard prints as `-{index:05}-of-{count:05}`, or nothing for a count of 1.
- `size_label.rs` is not part of this model. `SizeLabel` holds unbounded numbers, so the overflow panic of their `parse().unwrap()` is not modelled. It prints in the form the size pattern reads back.
- Q5_0.Dequantize and Q5_1.Dequantize build the halves `l` and `h` of `ans.split_at_mut(16)` as sequences extended in index order, not as two views into one array. The loop writes each index once, in order, so the output is the same; the aliasing of the two halves with `ans` is not modelled.
- Q4_K.MakeQkx2Quants: requires non-negative weights. Every weight `quantize` passes is `av_x + |x|` ≥ 0 (line 145).
- Q8_0.Dequantize: its own contract gives only the length of the result. The values are stated by Q8_0.QuantizeError and Q8_0.ZeroBlock.
- Q8_K.Dequantize: its own contract gives only the length of the result. The values are stated by Q8_K.DequantizeQuantize and Q8_K.DequantizeIgnoresSums.
- Q8_0.QuantizeError: holds when the f16 conversion keeps delta exactly. f16 rounding error is not bounded.
- Q4_1.QuantizeError: holds when the f16 conversion keeps delta and min exactly.
- Q5_0.QuantizeError: the bound uses the exact delta. The f16 step is stated separately by Q5_0.DequantizeQuantize.
- Q5_1.QuantizeError: the bound uses the exact delta and min. The f16 step is stated separately by Q5_1.DequantizeQuantize.
- Q8_K.QuantizeError: the bound uses the exact delta. The f16 step is stated separately by Q8_K.DequantizeQuantize.
- FileName.SplitN: requires `n` to fit a 64-bit `usize`. The cast to `u32` is modelled as reduction modulo 2^32.

## Findings

| source | as written | input that shows it | evidently intended | confidence | as-written member | corrected member |
|---|---|---|---|---|---|---|
| ggus/src/read.rs:29-39 | `skip_str` passes the u64 length to `skip::<u8>`. There `Layout::array(len).unwrap()` panics for a length above `isize::MAX`. | the 8 bytes `00 00 00 00 00 00 00 80` (length 2^63) | fail with `Eos`, as `read_str` does on the same input | not executed | Reader.SkipStrAsWritten, Reader.SkipStrPanicsWhereReadStrFails, Reader.SkipStrPanicExample | Reader.SkipStrStep, Reader.SkipStrMatchesReadStr, Reader.GGufReader.SkipStr, Reader.GGufReader.Skip |
| ggus/src/name/mod.rs:133-142 | when no size label matches, the base name is the text before the last `-`. The word after it, taken as the encoding, is dropped with it. | `test-cases-00002-of-00005.gguf`: base `test`, which prints as `test-00002-of-00005.gguf` | keep the whole unlabelled rest, `test-cases`, as the base name so that it prints back | not executed | FileName.ParseAsWritten, FileName.BaseNameLost, FileName.PlainRoundTripAsWritten | FileName.Parse, FileName.BaseNameKept, FileName.PlainRoundTrip |
