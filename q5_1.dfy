/** The `Q5_1` block: 32 samples as five-bit codes over a shared scale and
    offset.  The low four bits of each code sit in nibbles, the fifth bit
    in a 32-bit plane.  A code `c` stands for `c * delta + min`. */
module Q5_1 {
  import opened Float
  import opened Bits

  /** `Q5_1 { delta_min, qh, ql }`: `qh` is the little-endian plane of fifth
      bits, `ql` the nibbles, code `i` low and code `i + 16` high in byte `i`. */
  datatype Block = Block(deltaMin: DeltaMin, qh: seq<bv8>, ql: seq<bv8>)

  predicate Valid(b: Block)
  {
    |b.qh| == 4 && |b.ql| == 16
  }

  /** `Q5_1::ZEROS`. */
  const ZEROS: Block := Block(DELTA_MIN_ZERO, Zeros(4), Zeros(16))

  /** The scale of a block whose samples span `[min, max]`. */
  function Delta(min: real, max: real): real
  {
    (max - min) / 31.0
  }

  /** The code of one sample, `(((x - min) * recip + 0.5) as u8).min(31)`,
      as a number. */
  function CodeValue(x: real, min: real, recip: real): (u: int)
    ensures 0 <= u <= 31
  {
    var u := F32ToU8(Position(x, min, recip) + 0.5);
    if u < 31 then u else 31
  }

  /** The same code as the byte that holds it. */
  function Code(x: real, min: real, recip: real): (c: bv8)
    ensures c < 32
    ensures c as int == CodeValue(x, min, recip)
  {
    ByteValue(CodeValue(x, min, recip));
    CodeValue(x, min, recip) as bv8
  }

  /** The codes of all samples of a block. */
  function Codes(data: seq<real>, min: real, recip: real): (r: seq<bv8>)
    requires |data| == 32
    ensures |r| == 32 && AllBelow(r, 32)
    ensures forall i :: 0 <= i < 32 ==> r[i] == Code(data[i], min, recip)
  {
    seq(32, i requires 0 <= i < 32 => Code(data[i], min, recip))
  }

  /** Code `i` as `dequantize` reads it back from the plane and the nibbles. */
  function CodeAt(b: Block, i: nat): (c: bv8)
    requires Valid(b) && i < 32
    ensures c < 32
  {
    Code5(FromLe32(b.qh), b.ql, i)
  }

  /** `Q5_1::quantize`. */
  method Quantize(data: seq<real>, fromF32: real -> Half) returns (b: Block)
    requires |data| == 32
    ensures Valid(b)
    ensures var (min, max) := MinMax(data);
      min == max ==> b == Block(NoDelta(min, fromF32), Zeros(4), Zeros(16))
    ensures var (min, max) := MinMax(data);
      min != max ==>
        var codes := Codes(data, min, 1.0 / Delta(min, max));
        b.deltaMin == NewDeltaMin(Delta(min, max), min, fromF32) &&
        PlaneHolds(FromLe32(b.qh), codes) && LowNibblesHold(b.ql, codes) &&
        forall i :: 0 <= i < 32 ==> CodeAt(b, i) == codes[i]
  {
    var (min, max) := MinMax(data);
    if min == max {
      return Block(NoDelta(min, fromF32), Zeros(4), Zeros(16));
    }
    var delta := Delta(min, max);
    var recip := 1.0 / delta;
    var codes := Codes(data, min, recip);
    var qh, ql := SplitFive(codes);
    FromLeBytes32(qh);
    Code5Recovers(qh, ql, codes);
    b := Block(NewDeltaMin(delta, min, fromF32), LeBytes32(qh), ql);
  }

  /** The reconstruction of one code, `c as f32 * delta + min`. */
  function Affine(c: bv8, delta: real, min: real): real
  {
    Reconstruct(c as int, delta, min)
  }

  /** Sample `i` as `dequantize` computes it. */
  function Value(b: Block, toF32: Half -> real, i: nat): real
    requires Valid(b) && i < 32
  {
    Affine(CodeAt(b, i), toF32(b.deltaMin.delta), toF32(b.deltaMin.min))
  }

  /** `f`, `(l | (h as u8 & 0x10)) as f32 * delta + min`, the closure of `dequantize`. */
  function F(l: bv8, h: Word, delta: real, min: real): real
    requires l < 16
  {
    Affine(Join(l, h), delta, min)
  }

  /** `Q5_1::dequantize`. */
  method Dequantize(b: Block, toF32: Half -> real) returns (ans: seq<real>)
    requires Valid(b)
    ensures |ans| == 32
    ensures forall i :: 0 <= i < 32 ==> ans[i] == Value(b, toF32, i)
  {
    ghost var v := SampleTable(b, toF32);
    var delta, min := toF32(b.deltaMin.delta), toF32(b.deltaMin.min);
    var qh := FromLe32(b.qh);
    // the halves `l` and `h` of `ans.split_at_mut(16)`, each written once
    // in index order, so built here by appending
    var l, h := [], [];
    for i := 0 to 16
      invariant |l| == i && |h| == i
      invariant forall k :: 0 <= k < i ==> l[k] == v[k] && h[k] == v[k + 16]
    {
      var x := b.ql[i];
      JoinedStep(b, toF32, v, i, x, qh, delta, min);
      l := l + [F(x & 0xF, Shl(Shr(qh, i), 4), delta, min)];
      h := h + [F(x >> 4, Shr(qh, i + 12), delta, min)];
    }
    ans := l + h;
    forall i | 0 <= i < 32
      ensures ans[i] == Value(b, toF32, i)
    {
      if i >= 16 {
        assert ans[i] == h[i - 16];
      }
    }
  }

  /** The samples the loop of `dequantize` writes from byte `i` of `ql`,
      with the plane shifted as it shifts it, are samples `i` and `i + 16`. */
  lemma JoinedValues(b: Block, toF32: Half -> real, i: nat, x: bv8, qh: Word, delta: real, min: real)
    requires Valid(b) && i < 16
    requires x == b.ql[i] && qh == FromLe32(b.qh)
    requires delta == toF32(b.deltaMin.delta) && min == toF32(b.deltaMin.min)
    ensures F(x & 0xF, Shl(Shr(qh, i), 4), delta, min) == Value(b, toF32, i)
    ensures F(x >> 4, Shr(qh, i + 12), delta, min) == Value(b, toF32, i + 16)
  {
    Code5Joined(qh, b.ql, i);
  }

  /** The same, against the table the loop of `dequantize` fills. */
  lemma JoinedStep(b: Block, toF32: Half -> real, v: seq<real>, i: nat, x: bv8, qh: Word, delta: real, min: real)
    requires Valid(b) && i < 16 && |v| == 32
    requires forall k {:trigger Value(b, toF32, k)} :: 0 <= k < 32 ==> Value(b, toF32, k) == v[k]
    requires x == b.ql[i] && qh == FromLe32(b.qh)
    requires delta == toF32(b.deltaMin.delta) && min == toF32(b.deltaMin.min)
    ensures F(x & 0xF, Shl(Shr(qh, i), 4), delta, min) == v[i]
    ensures F(x >> 4, Shr(qh, i + 12), delta, min) == v[i + 16]
  {
    JoinedValues(b, toF32, i, x, qh, delta, min);
  }

  /** The 32 samples of a block as one table, linked to `Value` only where
      `Value` itself is mentioned (which keeps the loop above from unfolding
      the plane at every index). */
  lemma SampleTable(b: Block, toF32: Half -> real) returns (v: seq<real>)
    requires Valid(b)
    ensures |v| == 32
    ensures forall k {:trigger Value(b, toF32, k)} :: 0 <= k < 32 ==> Value(b, toF32, k) == v[k]
  {
    v := seq(32, k requires 0 <= k < 32 => Value(b, toF32, k));
  }

  /** A constant block comes back as its value rounded to half precision. */
  lemma ConstantBlock(data: seq<real>, fromF32: real -> Half, toF32: Half -> real, b: Block)
    requires |data| == 32 && toF32(HALF_ZERO) == 0.0
    requires forall i :: 0 <= i < 32 ==> data[i] == data[0]
    requires b == Block(NoDelta(MinMax(data).0, fromF32), Zeros(4), Zeros(16))
    ensures forall i :: 0 <= i < 32 ==> Value(b, toF32, i) == toF32(fromF32(data[0]))
  {
    var (min, max) := MinMax(data);
    assert min == data[0];
  }

  /** Dequantizing a quantized spread block gives back every code times
      the stored scale plus the stored offset. */
  lemma DequantizeQuantize(data: seq<real>, fromF32: real -> Half, toF32: Half -> real, b: Block)
    requires |data| == 32 && Valid(b)
    requires var (min, max) := MinMax(data);
      min != max &&
      b.deltaMin == NewDeltaMin(Delta(min, max), min, fromF32) &&
      forall i :: 0 <= i < 32 ==> CodeAt(b, i) == Codes(data, min, 1.0 / Delta(min, max))[i]
    ensures var (min, max) := MinMax(data);
      forall i :: 0 <= i < 32 ==>
        Value(b, toF32, i) == Affine(Codes(data, min, 1.0 / Delta(min, max))[i], toF32(fromF32(Delta(min, max))), toF32(fromF32(min)))
  {
  }

  /** With exact scale and offset, a spread block reproduces every sample
      to within half a step. */
  lemma QuantizeError(data: seq<real>, i: nat)
    requires |data| == 32 && i < 32 && MinMax(data).0 != MinMax(data).1
    ensures var (min, max) := MinMax(data);
      Abs(Affine(Codes(data, min, 1.0 / Delta(min, max))[i], Delta(min, max), min) - data[i]) <= Delta(min, max) / 2.0
  {
    var (min, max) := MinMax(data);
    CodeError(data[i], min, max);
  }

  /** One sample of a spread block lands within half a step. */
  lemma CodeError(x: real, min: real, max: real)
    requires min < max && min <= x <= max
    ensures var delta := Delta(min, max);
      Abs(Affine(Code(x, min, 1.0 / delta), delta, min) - x) <= delta / 2.0
  {
    var delta := Delta(min, max);
    var c := CodeValue(x, min, 1.0 / delta);
    SpreadPosition(x, min, max, 31.0);
    HalfUp(Position(x, min, 1.0 / delta), 31);
    AffineError(c, x, min, delta, 0.5);
    assert Affine(Code(x, min, 1.0 / delta), delta, min) == Reconstruct(c, delta, min);
  }

  /** The `#[repr(C)]` layout: the scale and offset, `qh`, then `ql`; 24 bytes. */
  function ToBytes(b: Block): (r: seq<bv8>)
    requires Valid(b)
    ensures |r| == 24
  {
    DeltaMinBytes(b.deltaMin) + b.qh + b.ql
  }

  function FromBytes(s: seq<bv8>): (b: Block)
    requires |s| == 24
    ensures Valid(b)
  {
    Block(DeltaMinFrom(s[..4]), s[4..8], s[8..])
  }

  lemma FromToBytes(b: Block)
    requires Valid(b)
    ensures FromBytes(ToBytes(b)) == b
  {
    var s := ToBytes(b);
    assert s[..4] == DeltaMinBytes(b.deltaMin) && s[4..8] == b.qh && s[8..] == b.ql;
    DeltaMinRoundTrip(b.deltaMin);
  }

  lemma ToFromBytes(s: seq<bv8>)
    requires |s| == 24
    ensures ToBytes(FromBytes(s)) == s
  {
    DeltaMinBytesRoundTrip(s[..4]);
    assert s == s[..4] + s[4..8] + s[8..];
  }
}
