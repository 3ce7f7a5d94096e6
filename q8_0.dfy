/** The `Q8_0` block: 32 samples as signed eight-bit codes over one scale.
    A code `c` stands for `c * delta`. */
module Q8_0 {
  import opened Float
  import opened Bits

  /** `Q8_0 { delta, quants }`, the codes being `i8` values. */
  datatype Block = Block(delta: Half, quants: seq<int>)

  predicate Valid(b: Block)
  {
    |b.quants| == 32 && forall i :: 0 <= i < 32 ==> -128 <= b.quants[i] <= 127
  }

  /** `[0i8; n]`. */
  function NoCodes(n: nat): (r: seq<int>)
    ensures |r| == n && forall i :: 0 <= i < n ==> r[i] == 0
  {
    if n == 0 then [] else [0] + NoCodes(n - 1)
  }

  /** `Q8_0::ZEROS`. */
  const ZEROS: Block := Block(HALF_ZERO, NoCodes(32))

  /** The scale of a block whose greatest magnitude is `amax`: `amax / i8::MAX`. */
  function Delta(amax: real): real
  {
    amax / 127.0
  }

  /** The code of one sample, `(x * recip).round() as i8`. */
  function Code(x: real, recip: real): (c: int)
    ensures -128 <= c <= 127
  {
    Rounded(Position(x, 0.0, recip))
  }

  /** The code at position `t`: `t.round() as i8`. */
  function Rounded(t: real): (c: int)
    ensures -128 <= c <= 127
  {
    F32ToI8(Round(t) as real)
  }

  /** Within positions -127 and 127 the cast never saturates. */
  lemma Unsaturated(t: real)
    requires -127.0 <= t <= 127.0
    ensures Rounded(t) == Round(t)
  {
    var r := Round(t);
    assert (r as real).Floor == r;
    assert F32ToI8(r as real) == Trunc(r as real) == r;
  }

  /** `Q8_0::quantize`: one code per sample, `data.map(..)`. */
  function Quantize(data: seq<real>, fromF32: real -> Half): (b: Block)
    requires |data| == 32
    ensures Valid(b)
    ensures MaxAbs(data) == 0.0 ==> b == ZEROS
    ensures MaxAbs(data) != 0.0 ==>
      Delta(MaxAbs(data)) > 0.0 &&
      b.delta == fromF32(Delta(MaxAbs(data))) &&
      forall i :: 0 <= i < 32 ==> b.quants[i] == Code(data[i], 1.0 / Delta(MaxAbs(data)))
  {
    var amax := MaxAbs(data);
    if amax == 0.0 then ZEROS
    else
      var delta := Delta(amax);
      var recip := 1.0 / delta;
      Block(fromF32(delta), seq(32, i requires 0 <= i < 32 => Code(data[i], recip)))
  }

  /** The reconstruction of one code, `x as f32 * delta`. */
  function Scaled(c: int, delta: real): real
  {
    Reconstruct(c, delta, 0.0)
  }

  /** `Q8_0::dequantize`: `quants.map(|x| x as f32 * delta)`. */
  function Dequantize(b: Block, toF32: Half -> real): (r: seq<real>)
    requires Valid(b)
    ensures |r| == 32
  {
    seq(32, i requires 0 <= i < 32 => Scaled(b.quants[i], toF32(b.delta)))
  }

  /** A block is stored as `ZEROS` exactly when every sample is zero, and
      `ZEROS` comes back as zeros. */
  lemma ZeroBlock(data: seq<real>, fromF32: real -> Half, toF32: Half -> real)
    requires |data| == 32 && toF32(HALF_ZERO) == 0.0
    ensures Quantize(data, fromF32) == ZEROS <== forall i :: 0 <= i < 32 ==> data[i] == 0.0
    ensures MaxAbs(data) == 0.0 <==> forall i :: 0 <= i < 32 ==> data[i] == 0.0
    ensures forall i :: 0 <= i < 32 ==> Dequantize(ZEROS, toF32)[i] == 0.0
  {
    MaxByAbsZero(data);
  }

  /** With an exact scale, every sample is reproduced to within half a step. */
  lemma QuantizeError(data: seq<real>, fromF32: real -> Half, toF32: Half -> real, i: nat)
    requires |data| == 32 && i < 32 && MaxAbs(data) != 0.0
    requires toF32(fromF32(Delta(MaxAbs(data)))) == Delta(MaxAbs(data))
    ensures Abs(Dequantize(Quantize(data, fromF32), toF32)[i] - data[i]) <= Delta(MaxAbs(data)) / 2.0
  {
    var delta := Delta(MaxAbs(data));
    assert Dequantize(Quantize(data, fromF32), toF32)[i] == Scaled(Code(data[i], 1.0 / delta), delta);
    CodeError(data[i], MaxAbs(data));
  }

  /** One sample lands within half a step. */
  lemma CodeError(x: real, amax: real)
    requires amax > 0.0 && Abs(x) <= amax
    ensures var delta := Delta(amax);
      Abs(Scaled(Code(x, 1.0 / delta), delta) - x) <= delta / 2.0
  {
    var delta := Delta(amax);
    var t := Position(x, 0.0, 1.0 / delta);
    CenteredPosition(x, amax, 127.0);
    Unsaturated(t);
    AffineError(Code(x, 1.0 / delta), x, 0.0, delta, 0.5);
  }

  /** The `#[repr(C)]` layout: the scale, then the codes as bytes; 34 bytes. */
  function ToBytes(b: Block): (r: seq<bv8>)
    requires Valid(b)
    ensures |r| == 34
  {
    LeBytes16(b.delta) + I8Bytes(b.quants)
  }

  function FromBytes(s: seq<bv8>): (b: Block)
    requires |s| == 34
    ensures Valid(b)
  {
    Block(FromLe16(s[..2]), BytesI8(s[2..]))
  }

  lemma FromToBytes(b: Block)
    requires Valid(b)
    ensures FromBytes(ToBytes(b)) == b
  {
    var s := ToBytes(b);
    assert s[..2] == LeBytes16(b.delta) && s[2..] == I8Bytes(b.quants);
    FromLeBytes16(b.delta);
    I8BytesRoundTrip(b.quants);
  }

  lemma ToFromBytes(s: seq<bv8>)
    requires |s| == 34
    ensures ToBytes(FromBytes(s)) == s
  {
    LeBytesFrom16(s[..2]);
    BytesI8RoundTrip(s[2..]);
    assert s == s[..2] + s[2..];
  }
}
