/** The `Q5_0` block: 32 samples as five-bit codes biased by 16 over a
    shared scale.  The low four bits of each code sit in nibbles, the fifth
    bit in a 32-bit plane.  A code `c` stands for `(c - 16) * delta`. */
module Q5_0 {
  import opened Float
  import opened Bits

  /** `Q5_0 { delta, qh, ql }`, laid out as `Q5_1` without an offset. */
  datatype Block = Block(delta: Half, qh: seq<bv8>, ql: seq<bv8>)

  predicate Valid(b: Block)
  {
    |b.qh| == 4 && |b.ql| == 16
  }

  /** `Q5_0::ZEROS`. */
  const ZEROS: Block := Block(HALF_ZERO, Zeros(4), Zeros(16))

  /** The scale of a block whose sample of greatest magnitude is `max`:
      the sign is flipped so that `max` itself becomes code 0. */
  function Delta(max: real): real
  {
    max / -16.0
  }

  /** The code of one sample, `((x * recip + 16.5) as u8).min(31)`, as a number. */
  function CodeValue(x: real, recip: real): (u: int)
    ensures 0 <= u <= 31
  {
    var u := F32ToU8(Position(x, 0.0, recip) + 16.5);
    if u < 31 then u else 31
  }

  /** The same code as the byte that holds it. */
  function Code(x: real, recip: real): (c: bv8)
    ensures c < 32
    ensures c as int == CodeValue(x, recip)
  {
    ByteValue(CodeValue(x, recip));
    CodeValue(x, recip) as bv8
  }

  /** The codes of all samples of a block. */
  function Codes(data: seq<real>, recip: real): (r: seq<bv8>)
    requires |data| == 32
    ensures |r| == 32 && AllBelow(r, 32)
    ensures forall i :: 0 <= i < 32 ==> r[i] == Code(data[i], recip)
  {
    seq(32, i requires 0 <= i < 32 => Code(data[i], recip))
  }

  /** Code `i` as `dequantize` reads it back from the plane and the nibbles. */
  function CodeAt(b: Block, i: nat): (c: bv8)
    requires Valid(b) && i < 32
    ensures c < 32
  {
    Code5(FromLe32(b.qh), b.ql, i)
  }

  /** `Q5_0::quantize`. */
  method Quantize(data: seq<real>, fromF32: real -> Half) returns (b: Block)
    requires |data| == 32
    ensures Valid(b)
    ensures MaxByAbs(data) == 0.0 ==> b == ZEROS
    ensures MaxByAbs(data) != 0.0 ==>
      var delta := Delta(MaxByAbs(data));
      var codes := Codes(data, 1.0 / delta);
      b.delta == fromF32(delta) &&
      PlaneHolds(FromLe32(b.qh), codes) && LowNibblesHold(b.ql, codes) &&
      forall i :: 0 <= i < 32 ==> CodeAt(b, i) == codes[i]
  {
    var max := MaxByAbs(data);
    if max == 0.0 {
      return ZEROS;
    }
    var delta := Delta(max);
    var recip := 1.0 / delta;
    var codes := Codes(data, recip);
    var qh, ql := SplitFive(codes);
    FromLeBytes32(qh);
    Code5Recovers(qh, ql, codes);
    b := Block(fromF32(delta), LeBytes32(qh), ql);
  }

  /** A code with its bias removed, `c as i8 - 16`. */
  function Centered(c: bv8): (r: int)
    requires c < 32
    ensures -16 <= r <= 15
  {
    c as int - 16
  }

  /** The reconstruction of one code, `(c as i8 - 16) as f32 * delta`. */
  function Scaled(c: bv8, delta: real): real
    requires c < 32
  {
    Reconstruct(Centered(c), delta, 0.0)
  }

  /** Sample `i` as `dequantize` computes it. */
  function Value(b: Block, toF32: Half -> real, i: nat): real
    requires Valid(b) && i < 32
  {
    Scaled(CodeAt(b, i), toF32(b.delta))
  }

  /** `f`, `((l | (h as u8 & 0x10)) as i8 - 16) as f32 * delta`, the closure of `dequantize`. */
  function F(l: bv8, h: Word, delta: real): real
    requires l < 16
  {
    Scaled(Join(l, h), delta)
  }

  /** `Q5_0::dequantize`. */
  method Dequantize(b: Block, toF32: Half -> real) returns (ans: seq<real>)
    requires Valid(b)
    ensures |ans| == 32
    ensures forall i :: 0 <= i < 32 ==> ans[i] == Value(b, toF32, i)
  {
    ghost var v := SampleTable(b, toF32);
    var delta := toF32(b.delta);
    var qh := FromLe32(b.qh);
    // the halves `l` and `h` of `ans.split_at_mut(16)`, each written once
    // in index order, so built here by appending
    var l, h := [], [];
    for i := 0 to 16
      invariant |l| == i && |h| == i
      invariant forall k :: 0 <= k < i ==> l[k] == v[k] && h[k] == v[k + 16]
    {
      var x := b.ql[i];
      JoinedStep(b, toF32, v, i, x, qh, delta);
      l := l + [F(x & 0xF, Shl(Shr(qh, i), 4), delta)];
      h := h + [F(x >> 4, Shr(qh, i + 12), delta)];
    }
    ans := l + h;
    forall i | 0 <= i < 32
      ensures ans[i] == Value(b, toF32, i)
    {
      if i >= 16 {
        assert ans[i] == h[i - 16];
      }
    }
  }

  /** The samples the loop of `dequantize` writes from byte `i` of `ql`,
      with the plane shifted as it shifts it, are samples `i` and `i + 16`. */
  lemma JoinedValues(b: Block, toF32: Half -> real, i: nat, x: bv8, qh: Word, delta: real)
    requires Valid(b) && i < 16
    requires x == b.ql[i] && qh == FromLe32(b.qh) && delta == toF32(b.delta)
    ensures F(x & 0xF, Shl(Shr(qh, i), 4), delta) == Value(b, toF32, i)
    ensures F(x >> 4, Shr(qh, i + 12), delta) == Value(b, toF32, i + 16)
  {
    Code5Joined(qh, b.ql, i);
  }

  /** The same, against the table the loop of `dequantize` fills. */
  lemma JoinedStep(b: Block, toF32: Half -> real, v: seq<real>, i: nat, x: bv8, qh: Word, delta: real)
    requires Valid(b) && i < 16 && |v| == 32
    requires forall k {:trigger Value(b, toF32, k)} :: 0 <= k < 32 ==> Value(b, toF32, k) == v[k]
    requires x == b.ql[i] && qh == FromLe32(b.qh) && delta == toF32(b.delta)
    ensures F(x & 0xF, Shl(Shr(qh, i), 4), delta) == v[i]
    ensures F(x >> 4, Shr(qh, i + 12), delta) == v[i + 16]
  {
    JoinedValues(b, toF32, i, x, qh, delta);
  }

  /** The 32 samples of a block as one table, linked to `Value` only where
      `Value` itself is mentioned (which keeps the loop above from unfolding
      the plane at every index). */
  lemma SampleTable(b: Block, toF32: Half -> real) returns (v: seq<real>)
    requires Valid(b)
    ensures |v| == 32
    ensures forall k {:trigger Value(b, toF32, k)} :: 0 <= k < 32 ==> Value(b, toF32, k) == v[k]
  {
    v := seq(32, k requires 0 <= k < 32 => Value(b, toF32, k));
  }

  /** An all-zero block is stored as `ZEROS` and comes back as zeros. */
  lemma ZeroBlock(data: seq<real>, toF32: Half -> real)
    requires |data| == 32 && toF32(HALF_ZERO) == 0.0
    ensures MaxByAbs(data) == 0.0 <==> forall i :: 0 <= i < 32 ==> data[i] == 0.0
    ensures forall i :: 0 <= i < 32 ==> Value(ZEROS, toF32, i) == 0.0
  {
    MaxByAbsZero(data);
  }

  /** Dequantizing a quantized block gives back every centered code times
      the stored scale. */
  lemma DequantizeQuantize(data: seq<real>, fromF32: real -> Half, toF32: Half -> real, b: Block)
    requires |data| == 32 && Valid(b) && MaxByAbs(data) != 0.0
    requires b.delta == fromF32(Delta(MaxByAbs(data)))
    requires forall i :: 0 <= i < 32 ==> CodeAt(b, i) == Codes(data, 1.0 / Delta(MaxByAbs(data)))[i]
    ensures forall i :: 0 <= i < 32 ==>
      Value(b, toF32, i) == Scaled(Codes(data, 1.0 / Delta(MaxByAbs(data)))[i], toF32(fromF32(Delta(MaxByAbs(data)))))
  {
  }

  /** With an exact scale, every sample is reproduced to within one step
      (within half a step except where code 32 is cut back to 31). */
  lemma QuantizeError(data: seq<real>, i: nat)
    requires |data| == 32 && i < 32 && MaxByAbs(data) != 0.0
    ensures var delta := Delta(MaxByAbs(data));
      Abs(Scaled(Codes(data, 1.0 / delta)[i], delta) - data[i]) <= Abs(delta)
  {
    CodeError(data[i], MaxByAbs(data));
  }

  /** One sample lands within one step. */
  lemma CodeError(x: real, max: real)
    requires max != 0.0 && Abs(x) <= Abs(max)
    ensures var delta := Delta(max);
      Abs(Scaled(Code(x, 1.0 / delta), delta) - x) <= Abs(delta)
  {
    var delta := Delta(max);
    var c := CodeValue(x, 1.0 / delta);
    CenteredPosition(x, max, -16.0);
    CodeSteps(Position(x, 0.0, 1.0 / delta), c);
    AffineError(c - 16, x, 0.0, delta, 1.0);
    assert Scaled(Code(x, 1.0 / delta), delta) == Reconstruct(c - 16, delta, 0.0);
  }

  /** `((t + 16.5) as u8).min(31)`, less the bias, is within one step of
      a position `t` between -16 and 16. */
  lemma CodeSteps(t: real, c: int)
    requires -16.0 <= t <= 16.0
    requires c == (var u := F32ToU8(t + 16.5); if u < 31 then u else 31)
    ensures t - 1.0 <= (c - 16) as real <= t + 1.0
  {
    var u := Trunc(t + 16.5);
    assert F32ToU8(t + 16.5) == u;
    assert u as real <= t + 16.5 < u as real + 1.0;
  }

  /** The `#[repr(C)]` layout: the scale, `qh`, then `ql`; 22 bytes. */
  function ToBytes(b: Block): (r: seq<bv8>)
    requires Valid(b)
    ensures |r| == 22
  {
    LeBytes16(b.delta) + b.qh + b.ql
  }

  function FromBytes(s: seq<bv8>): (b: Block)
    requires |s| == 22
    ensures Valid(b)
  {
    Block(FromLe16(s[..2]), s[2..6], s[6..])
  }

  lemma FromToBytes(b: Block)
    requires Valid(b)
    ensures FromBytes(ToBytes(b)) == b
  {
    var s := ToBytes(b);
    assert s[..2] == LeBytes16(b.delta) && s[2..6] == b.qh && s[6..] == b.ql;
    FromLeBytes16(b.delta);
  }

  lemma ToFromBytes(s: seq<bv8>)
    requires |s| == 22
    ensures ToBytes(FromBytes(s)) == s
  {
    LeBytesFrom16(s[..2]);
    assert s == s[..2] + s[2..6] + s[6..];
  }
}
