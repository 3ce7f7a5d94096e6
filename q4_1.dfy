/** The `Q4_1` block: 32 samples as four-bit codes over a shared scale and
    offset.  A code `c` stands for `c * delta + min`. */
module Q4_1 {
  import opened Float
  import opened Bits

  /** `Q4_1 { delta_min, quants }`: byte `i` of `quants` holds code `i` in its
      low nibble and code `i + 16` in its high nibble. */
  datatype Block = Block(deltaMin: DeltaMin, quants: seq<bv8>)

  predicate Valid(b: Block)
  {
    |b.quants| == 16
  }

  /** `Q4_1::ZEROS`. */
  const ZEROS: Block := Block(DELTA_MIN_ZERO, Zeros(16))

  /** The scale of a block whose samples span `[min, max]`. */
  function Delta(min: real, max: real): real
  {
    (max - min) / 15.0
  }

  /** The code of one sample, `(((x - min) * recip + 0.5) as u8).min(15)`,
      as a number. */
  function CodeValue(x: real, min: real, recip: real): (u: int)
    ensures 0 <= u <= 15
  {
    var u := F32ToU8(Position(x, min, recip) + 0.5);
    if u < 15 then u else 15
  }

  /** The same code as the byte that holds it. */
  function Code(x: real, min: real, recip: real): (c: bv8)
    ensures c <= 15
    ensures c as int == CodeValue(x, min, recip)
  {
    ByteValue(CodeValue(x, min, recip));
    CodeValue(x, min, recip) as bv8
  }

  /** Code `i` as `dequantize` reads it: the low nibble of byte `i` for the
      first half, the high nibble of byte `i - 16` for the second. */
  function CodeAt(b: Block, i: nat): (c: bv8)
    requires Valid(b) && i < 32
    ensures c <= 15
  {
    if i < 16 then Lo(b.quants[i]) else Hi(b.quants[i - 16])
  }

  /** `Q4_1::quantize`. */
  function Quantize(data: seq<real>, fromF32: real -> Half): (b: Block)
    requires |data| == 32
    ensures Valid(b)
    ensures var (min, max) := MinMax(data);
      min == max ==> b == Block(NoDelta(min, fromF32), Zeros(16))
    ensures var (min, max) := MinMax(data);
      min != max ==>
        b.deltaMin == NewDeltaMin(Delta(min, max), min, fromF32) &&
        forall i :: 0 <= i < 32 ==> CodeAt(b, i) == Code(data[i], min, 1.0 / Delta(min, max))
  {
    var (min, max) := MinMax(data);
    if min == max then Block(NoDelta(min, fromF32), Zeros(16))
    else
      var delta := Delta(min, max);
      var recip := 1.0 / delta;
      var codes := seq(32, i requires 0 <= i < 32 => Code(data[i], min, recip));
      assert UnpackHalves(PackHalves(codes)) == codes by {
        UnpackPackHalves(codes);
      }
      Block(NewDeltaMin(delta, min, fromF32), PackHalves(codes))
  }

  /** The reconstruction of one code, `x as f32 * delta + min`. */
  function Affine(x: bv8, delta: real, min: real): real
  {
    Reconstruct(x as int, delta, min)
  }

  /** Sample `i` as `dequantize` computes it. */
  function Value(b: Block, toF32: Half -> real, i: nat): real
    requires Valid(b) && i < 32
  {
    Affine(CodeAt(b, i), toF32(b.deltaMin.delta), toF32(b.deltaMin.min))
  }

  /** `Q4_1::dequantize`. */
  method Dequantize(b: Block, toF32: Half -> real) returns (ans: seq<real>)
    requires Valid(b)
    ensures |ans| == 32
    ensures forall i :: 0 <= i < 32 ==> ans[i] == Value(b, toF32, i)
  {
    var delta := toF32(b.deltaMin.delta);
    var min := toF32(b.deltaMin.min);
    var a := new real[32](_ => 0.0);
    for i := 0 to 16
      invariant forall k :: 0 <= k < i ==> a[k] == Value(b, toF32, k)
      invariant forall k :: 16 <= k < 16 + i ==> a[k] == Value(b, toF32, k)
    {
      var x := b.quants[i];
      a[i] := Affine(Lo(x), delta, min);
      a[i + 16] := Affine(Hi(x), delta, min);
    }
    ans := a[..];
  }

  /** A constant block comes back as its value rounded to half precision. */
  lemma ConstantBlock(data: seq<real>, fromF32: real -> Half, toF32: Half -> real)
    requires |data| == 32 && toF32(HALF_ZERO) == 0.0
    requires forall i :: 0 <= i < 32 ==> data[i] == data[0]
    ensures var b := Quantize(data, fromF32);
      forall i :: 0 <= i < 32 ==> Value(b, toF32, i) == toF32(fromF32(data[0]))
  {
    var (min, max) := MinMax(data);
    assert min == data[0] && max == data[0];
  }

  /** With exact scale and offset, every sample is reproduced to within half
      a step. */
  lemma QuantizeError(data: seq<real>, fromF32: real -> Half, toF32: Half -> real, i: nat)
    requires |data| == 32 && i < 32
    requires var (min, max) := MinMax(data);
      min != max &&
      toF32(fromF32(Delta(min, max))) == Delta(min, max) && toF32(fromF32(min)) == min
    ensures var (min, max) := MinMax(data);
      Abs(Value(Quantize(data, fromF32), toF32, i) - data[i]) <= Delta(min, max) / 2.0
  {
    var (min, max) := MinMax(data);
    QuantizedValue(data, fromF32, toF32, i, min, max);
    CodeError(data[i], min, max);
  }

  /** Sample `i` of a spread block, with exact scale and offset, is its code reconstructed. */
  lemma QuantizedValue(data: seq<real>, fromF32: real -> Half, toF32: Half -> real, i: nat, min: real, max: real)
    requires |data| == 32 && i < 32 && MinMax(data) == (min, max) && min != max
    requires toF32(fromF32(Delta(min, max))) == Delta(min, max) && toF32(fromF32(min)) == min
    ensures Value(Quantize(data, fromF32), toF32, i) == Affine(Code(data[i], min, 1.0 / Delta(min, max)), Delta(min, max), min)
  {
  }

  /** One sample of a spread block lands within half a step. */
  lemma CodeError(x: real, min: real, max: real)
    requires min < max && min <= x <= max
    ensures var delta := Delta(min, max);
      Abs(Affine(Code(x, min, 1.0 / delta), delta, min) - x) <= delta / 2.0
  {
    var delta := Delta(min, max);
    var c := CodeValue(x, min, 1.0 / delta);
    SpreadPosition(x, min, max, 15.0);
    HalfUp(Position(x, min, 1.0 / delta), 15);
    AffineError(c, x, min, delta, 0.5);
    assert Affine(Code(x, min, 1.0 / delta), delta, min) == Reconstruct(c, delta, min);
  }

  /** The `#[repr(C)]` layout: the scale and offset, then `quants`; 20 bytes. */
  function ToBytes(b: Block): (r: seq<bv8>)
    requires Valid(b)
    ensures |r| == 20
  {
    DeltaMinBytes(b.deltaMin) + b.quants
  }

  function FromBytes(s: seq<bv8>): (b: Block)
    requires |s| == 20
    ensures Valid(b)
  {
    Block(DeltaMinFrom(s[..4]), s[4..])
  }

  lemma FromToBytes(b: Block)
    requires Valid(b)
    ensures FromBytes(ToBytes(b)) == b
  {
    var s := ToBytes(b);
    assert s[..4] == DeltaMinBytes(b.deltaMin) && s[4..] == b.quants;
    DeltaMinRoundTrip(b.deltaMin);
  }

  lemma ToFromBytes(s: seq<bv8>)
    requires |s| == 20
    ensures ToBytes(FromBytes(s)) == s
  {
    DeltaMinBytesRoundTrip(s[..4]);
    assert s == s[..4] + s[4..];
  }
}
