/** The `Q8K` block: 256 samples as signed eight-bit codes over one scale,
    with the sum of every 16 consecutive codes kept beside them. */
module Q8_K {
  import opened Float
  import opened Bits

  /** `Q8K { delta, quants, sums }`: `i8` codes and `i16` group sums. */
  datatype Block = Block(delta: Half, quants: seq<int>, sums: seq<int>)

  predicate Valid(b: Block)
  {
    |b.quants| == 256 && |b.sums| == 16 &&
    (forall i :: 0 <= i < 256 ==> -128 <= b.quants[i] <= 127) &&
    (forall j :: 0 <= j < 16 ==> -0x8000 <= b.sums[j] <= 0x7FFF)
  }

  /** `[0; n]`. */
  function NoCodes(n: nat): (r: seq<int>)
    ensures |r| == n && forall i :: 0 <= i < n ==> r[i] == 0
  {
    if n == 0 then [] else [0] + NoCodes(n - 1)
  }

  /** `Q8K::ZEROS`. */
  const ZEROS: Block := Block(HALF_ZERO, NoCodes(256), NoCodes(16))

  /** The scale of a block whose sample of greatest magnitude is `max`: the
      sign is flipped so that `max` itself becomes code -127. */
  function Delta(max: real): real
  {
    max / -127.0
  }

  /** The code of one sample, `(x * recip).round().min(127.) as i8`. */
  function Code(x: real, recip: real): (c: int)
    ensures -128 <= c <= 127
  {
    Rounded(Position(x, 0.0, recip))
  }

  /** The code at position `t`. */
  function Rounded(t: real): (c: int)
    ensures -128 <= c <= 127
  {
    F32ToI8(Min(Round(t) as real, 127.0))
  }

  /** The codes of all samples of a block. */
  function Codes(data: seq<real>, recip: real): (r: seq<int>)
    requires |data| == 256
    ensures |r| == 256
    ensures forall i :: 0 <= i < 256 ==> r[i] == Code(data[i], recip)
  {
    seq(256, i requires 0 <= i < 256 => Code(data[i], recip))
  }

  /** The sum of `codes[lo..hi]`. */
  function Sum(codes: seq<int>, lo: int, hi: int): int
    requires 0 <= lo && hi <= |codes|
    decreases hi - lo
  {
    if hi <= lo then 0 else Sum(codes, lo, hi - 1) + codes[hi - 1]
  }

  /** How far the loop of `quantize` has reached into group `j` after `i`
      samples: from `16 * j` up to `i`, at most the whole group. */
  function Reached(i: int, j: int): (e: int)
    ensures 16 * j <= e <= 16 * j + 16
  {
    if i < 16 * j then 16 * j else if i > 16 * j + 16 then 16 * j + 16 else i
  }

  /** The sum of `k` codes of `i8` range is within `k` times the bounds. */
  lemma {:induction false} SumBounds(codes: seq<int>, lo: int, hi: int)
    requires 0 <= lo <= hi <= |codes|
    requires forall i :: lo <= i < hi ==> -128 <= codes[i] <= 127
    ensures -128 * (hi - lo) <= Sum(codes, lo, hi) <= 127 * (hi - lo)
    decreases hi - lo
  {
    if hi > lo {
      SumBounds(codes, lo, hi - 1);
    }
  }

  /** `Q8K::quantize`. */
  method Quantize(data: seq<real>, fromF32: real -> Half) returns (b: Block)
    requires |data| == 256
    ensures Valid(b)
    ensures MaxByAbs(data) == 0.0 ==> b == ZEROS
    ensures MaxByAbs(data) != 0.0 ==>
      b.delta == fromF32(Delta(MaxByAbs(data))) &&
      b.quants == Codes(data, 1.0 / Delta(MaxByAbs(data)))
    ensures forall j :: 0 <= j < 16 ==> b.sums[j] == Sum(b.quants, 16 * j, 16 * j + 16)
  {
    var max := MaxByAbs(data);
    if max == 0.0 {
      forall j | 0 <= j < 16 ensures Sum(ZEROS.quants, 16 * j, 16 * j + 16) == 0 {
        ZeroSum(ZEROS.quants, 16 * j, 16 * j + 16);
      }
      return ZEROS;
    }
    var delta := Delta(max);
    var quants, sums := CodesAndSums(data, 1.0 / delta);
    b := Block(fromF32(delta), quants, sums);
  }

  /** The loop of `Q8K::quantize`: each code is stored and added to the sum
      of its group of 16. */
  method CodesAndSums(data: seq<real>, recip: real) returns (quants: seq<int>, sums: seq<int>)
    requires |data| == 256
    ensures quants == Codes(data, recip)
    ensures |sums| == 16
    ensures forall j :: 0 <= j < 16 ==> sums[j] == Sum(quants, 16 * j, 16 * j + 16)
    ensures forall j :: 0 <= j < 16 ==> -0x8000 <= sums[j] <= 0x7FFF
  {
    ghost var codes := Codes(data, recip);
    var q := new int[256](_ => 0);
    var a := new int[16](_ => 0);
    for i := 0 to 256
      invariant q[..i] == codes[..i]
      invariant forall k :: 0 <= k < 16 ==> a[k] == GroupSums(codes, i)[k]
    {
      var y := Code(data[i], recip);
      q[i] := y;
      var g := i / 16;
      GroupSumsStep(codes, i);
      GroupSumsRange(data, recip, i);
      // `sums[i / 16] += *y as i16` stays within `i16`
      assert -0x8000 <= a[g] + y <= 0x7FFF;
      a[g] := a[g] + y;
    }
    quants := q[..];
    sums := a[..];
    assert quants == q[..256] == codes;
    forall j | 0 <= j < 16
      ensures sums[j] == Sum(quants, 16 * j, 16 * j + 16) && -0x8000 <= sums[j] <= 0x7FFF
    {
      assert Reached(256, j) == 16 * j + 16;
      SumBounds(codes, 16 * j, 16 * j + 16);
    }
  }

  /** The group sums after the first `i` codes. */
  function GroupSums(codes: seq<int>, i: int): (r: seq<int>)
    requires |codes| == 256
    ensures |r| == 16
    ensures forall j :: 0 <= j < 16 ==> r[j] == Sum(codes, 16 * j, Reached(i, j))
  {
    seq(16, j requires 0 <= j < 16 => Sum(codes, 16 * j, Reached(i, j)))
  }

  /** Every running group sum after the first `i` codes is a sum of at most
      16 codes of `i8` range, so it lies in `[-2048, 2032]`: adding one more
      code keeps it well inside `i16`. */
  lemma GroupSumsRange(data: seq<real>, recip: real, i: int)
    requires |data| == 256 && 0 <= i <= 256
    ensures forall k :: 0 <= k < 16 ==> -2048 <= GroupSums(Codes(data, recip), i)[k] <= 2032
  {
    var codes := Codes(data, recip);
    forall k | 0 <= k < 16
      ensures -2048 <= GroupSums(codes, i)[k] <= 2032
    {
      SumBounds(codes, 16 * k, Reached(i, k));
    }
  }

  /** One more code is added to its own group and to no other. */
  lemma GroupSumsStep(codes: seq<int>, i: int)
    requires |codes| == 256 && 0 <= i < 256
    ensures GroupSums(codes, i + 1) == GroupSums(codes, i)[i / 16 := GroupSums(codes, i)[i / 16] + codes[i]]
  {
    var before, after := GroupSums(codes, i), GroupSums(codes, i + 1);
    var updated := before[i / 16 := before[i / 16] + codes[i]];
    forall j | 0 <= j < 16
      ensures after[j] == updated[j]
    {
      SumStep(codes, i, j);
    }
  }

  /** One more sample adds its code to its own group and to no other. */
  lemma SumStep(codes: seq<int>, i: int, j: int)
    requires |codes| == 256 && 0 <= i < 256 && 0 <= j < 16
    ensures Sum(codes, 16 * j, Reached(i + 1, j)) ==
      Sum(codes, 16 * j, Reached(i, j)) + (if j == i / 16 then codes[i] else 0)
  {
    if j == i / 16 {
      assert Reached(i, j) == i && Reached(i + 1, j) == i + 1;
    } else if j < i / 16 {
      assert Reached(i, j) == 16 * j + 16 == Reached(i + 1, j);
    } else {
      assert Reached(i, j) == 16 * j == Reached(i + 1, j);
    }
  }

  lemma {:induction false} ZeroSum(codes: seq<int>, lo: int, hi: int)
    requires 0 <= lo && hi <= |codes|
    requires forall i :: lo <= i < hi ==> codes[i] == 0
    ensures Sum(codes, lo, hi) == 0
    decreases hi - lo
  {
    if hi > lo {
      ZeroSum(codes, lo, hi - 1);
    }
  }

  /** Each group sum of a block whose sums are right lies in
      `[-2048, 2032]`, whatever the codes, and so does every partial sum
      of at most 16 codes, among them each value a group's `+=` passes
      through. */
  lemma SumsRange(b: Block)
    requires Valid(b)
    requires forall j :: 0 <= j < 16 ==> b.sums[j] == Sum(b.quants, 16 * j, 16 * j + 16)
    ensures forall j :: 0 <= j < 16 ==> -2048 <= b.sums[j] <= 2032
    ensures forall lo, hi :: 0 <= lo <= hi <= 256 && hi - lo <= 16 ==> -2048 <= Sum(b.quants, lo, hi) <= 2032
  {
    forall lo, hi | 0 <= lo <= hi <= 256 && hi - lo <= 16
      ensures -2048 <= Sum(b.quants, lo, hi) <= 2032
    {
      SumBounds(b.quants, lo, hi);
    }
    forall j | 0 <= j < 16
      ensures -2048 <= b.sums[j] <= 2032
    {
      SumBounds(b.quants, 16 * j, 16 * j + 16);
    }
  }

  /** The reconstruction of one code, `x as f32 * delta`. */
  function Scaled(c: int, delta: real): real
  {
    Reconstruct(c, delta, 0.0)
  }

  /** `Q8K::dequantize`: `quants.map(|x| x as f32 * delta)`. */
  function Dequantize(b: Block, toF32: Half -> real): (r: seq<real>)
    requires Valid(b)
    ensures |r| == 256
  {
    seq(256, i requires 0 <= i < 256 => Scaled(b.quants[i], toF32(b.delta)))
  }

  /** Dequantizing reads neither the sums nor anything but the scale and
      the codes. */
  lemma DequantizeIgnoresSums(b: Block, sums: seq<int>, toF32: Half -> real)
    requires Valid(b) && Valid(b.(sums := sums))
    ensures Dequantize(b.(sums := sums), toF32) == Dequantize(b, toF32)
  {
  }

  /** A block is stored as `ZEROS` exactly when every sample is zero, and
      `ZEROS` comes back as zeros. */
  lemma ZeroBlock(data: seq<real>, toF32: Half -> real)
    requires |data| == 256 && toF32(HALF_ZERO) == 0.0
    ensures MaxByAbs(data) == 0.0 <==> forall i :: 0 <= i < 256 ==> data[i] == 0.0
    ensures forall i :: 0 <= i < 256 ==> Dequantize(ZEROS, toF32)[i] == 0.0
  {
    MaxByAbsZero(data);
  }

  /** Dequantizing a quantized block gives back every code times the
      stored scale. */
  lemma DequantizeQuantize(data: seq<real>, b: Block, toF32: Half -> real)
    requires |data| == 256 && MaxByAbs(data) != 0.0 && Valid(b)
    requires b.quants == Codes(data, 1.0 / Delta(MaxByAbs(data)))
    ensures forall i :: 0 <= i < 256 ==>
      Dequantize(b, toF32)[i] == Scaled(Codes(data, 1.0 / Delta(MaxByAbs(data)))[i], toF32(b.delta))
  {
  }

  /** With an exact scale, every sample is reproduced to within half a step. */
  lemma QuantizeError(data: seq<real>, i: nat)
    requires |data| == 256 && i < 256 && MaxByAbs(data) != 0.0
    ensures var delta := Delta(MaxByAbs(data));
      Abs(Scaled(Codes(data, 1.0 / delta)[i], delta) - data[i]) <= Abs(delta) / 2.0
  {
    CodeError(data[i], MaxByAbs(data));
  }

  /** One sample lands within half a step, its code within `[-127, 127]`. */
  lemma CodeError(x: real, max: real)
    requires max != 0.0 && Abs(x) <= Abs(max)
    ensures var delta := Delta(max);
      -127 <= Code(x, 1.0 / delta) <= 127 &&
      Abs(Scaled(Code(x, 1.0 / delta), delta) - x) <= Abs(delta) / 2.0
  {
    var delta := Delta(max);
    var t := Position(x, 0.0, 1.0 / delta);
    CenteredPosition(x, max, -127.0);
    Unsaturated(t);
    AffineError(Code(x, 1.0 / delta), x, 0.0, delta, 0.5);
  }

  /** Within positions -127 and 127 neither `min(127.)` nor the cast
      changes the rounded position. */
  lemma Unsaturated(t: real)
    requires -127.0 <= t <= 127.0
    ensures Rounded(t) == Round(t)
  {
    var r := Round(t);
    assert Min(r as real, 127.0) == r as real;
    assert (r as real).Floor == r;
    assert F32ToI8(r as real) == Trunc(r as real) == r;
  }

  /** The `#[repr(C)]` layout: the scale, the codes as bytes, then the sums
      as little-endian `i16`; 290 bytes. */
  function ToBytes(b: Block): (r: seq<bv8>)
    requires Valid(b)
    ensures |r| == 290
  {
    LeBytes16(b.delta) + I8Bytes(b.quants) + SumsBytes(b.sums)
  }

  /** The group sums as consecutive little-endian `i16` values. */
  function SumsBytes(sums: seq<int>): (r: seq<bv8>)
    requires forall j :: 0 <= j < |sums| ==> -0x8000 <= sums[j] <= 0x7FFF
    ensures |r| == 2 * |sums|
  {
    if |sums| == 0 then [] else LeBytesI16(sums[0]) + SumsBytes(sums[1..])
  }

  /** Consecutive little-endian `i16` values. */
  function BytesSums(s: seq<bv8>): (sums: seq<int>)
    requires |s| % 2 == 0
    ensures |sums| == |s| / 2 && forall j :: 0 <= j < |sums| ==> -0x8000 <= sums[j] <= 0x7FFF
  {
    if |s| == 0 then [] else [FromLeI16(s[..2])] + BytesSums(s[2..])
  }

  lemma {:induction false} SumsRoundTrip(sums: seq<int>)
    requires forall j :: 0 <= j < |sums| ==> -0x8000 <= sums[j] <= 0x7FFF
    ensures BytesSums(SumsBytes(sums)) == sums
  {
    if |sums| > 0 {
      var r := SumsBytes(sums);
      assert r[..2] == LeBytesI16(sums[0]) && r[2..] == SumsBytes(sums[1..]);
      FromLeBytesI16(sums[0]);
      SumsRoundTrip(sums[1..]);
    }
  }

  lemma {:induction false} BytesRoundTrip(s: seq<bv8>)
    requires |s| % 2 == 0
    ensures SumsBytes(BytesSums(s)) == s
  {
    if |s| > 0 {
      var sums := BytesSums(s);
      assert sums[0] == FromLeI16(s[..2]) && sums[1..] == BytesSums(s[2..]);
      LeBytesFromI16(s[..2]);
      BytesRoundTrip(s[2..]);
      assert s == s[..2] + s[2..];
    }
  }

  function FromBytes(s: seq<bv8>): (b: Block)
    requires |s| == 290
    ensures Valid(b)
  {
    Block(FromLe16(s[..2]), BytesI8(s[2..258]), BytesSums(s[258..]))
  }

  lemma FromToBytes(b: Block)
    requires Valid(b)
    ensures FromBytes(ToBytes(b)) == b
  {
    var s := ToBytes(b);
    assert s[..2] == LeBytes16(b.delta);
    assert s[2..258] == I8Bytes(b.quants);
    assert s[258..] == SumsBytes(b.sums);
    FromLeBytes16(b.delta);
    I8BytesRoundTrip(b.quants);
    SumsRoundTrip(b.sums);
  }

  lemma ToFromBytes(s: seq<bv8>)
    requires |s| == 290
    ensures ToBytes(FromBytes(s)) == s
  {
    LeBytesFrom16(s[..2]);
    BytesI8RoundTrip(s[2..258]);
    BytesRoundTrip(s[258..]);
    assert s == s[..2] + s[2..258] + s[258..];
  }
}
