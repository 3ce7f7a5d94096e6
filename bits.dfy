/** Bit-level layouts shared by the block codecs: nibble pairs, the split
    5-bit codes of Q5_0 and Q5_1, and little-endian words. */
module Bits {

  /** The low nibble of a byte, `b & 0xf`. */
  function Lo(b: bv8): (r: bv8)
    ensures r <= 15
  {
    b & 0xF
  }

  /** The high nibble of a byte, `b >> 4`. */
  function Hi(b: bv8): (r: bv8)
    ensures r <= 15
  {
    b >> 4
  }

  /** `lo | hi << 4` on `u8`: bits shifted past the top are lost. */
  function Pair(lo: bv8, hi: bv8): bv8
  {
    lo | (hi << 4)
  }

  lemma PairNibbles(lo: bv8, hi: bv8)
    requires lo <= 15 && hi <= 15
    ensures Lo(Pair(lo, hi)) == lo && Hi(Pair(lo, hi)) == hi
  {
  }

  lemma NibblesPair(b: bv8)
    ensures Pair(Lo(b), Hi(b)) == b
  {
  }

  /** A byte read back as a number is the number it was made from. */
  lemma ByteValue(u: int)
    requires 0 <= u < 256
    ensures (u as bv8) as int == u
  {
    assert u % 256 == u;
  }

  /** `[0u8; n]`. */
  function Zeros(n: nat): (r: seq<bv8>)
    ensures |r| == n && forall i :: 0 <= i < n ==> r[i] == 0
  {
    if n == 0 then [] else [0] + Zeros(n - 1)
  }

  predicate AllBelow(codes: seq<bv8>, bound: bv8)
  {
    forall i :: 0 <= i < |codes| ==> codes[i] < bound
  }

  /** Nibble-pair packing of a run of codes: byte `i` holds code `i` in its low
      nibble and code `i + n/2` in its high nibble. */
  function PackHalves(codes: seq<bv8>): (r: seq<bv8>)
    requires |codes| % 2 == 0
    ensures |r| == |codes| / 2
  {
    var h := |codes| / 2;
    seq(h, i requires 0 <= i < h => Pair(codes[i], codes[i + h]))
  }

  /** The inverse view: the low nibbles of all bytes, then the high nibbles. */
  function UnpackHalves(bytes: seq<bv8>): (r: seq<bv8>)
    ensures |r| == 2 * |bytes|
    ensures AllBelow(r, 16)
  {
    var n := |bytes|;
    var r := seq(2 * n, k requires 0 <= k < 2 * n => if k < n then Lo(bytes[k]) else Hi(bytes[k - n]));
    assert forall k :: 0 <= k < 2 * n ==> r[k] < 16 by {
      forall k | 0 <= k < 2 * n ensures r[k] < 16 {
        if k < n { assert r[k] == Lo(bytes[k]); } else { assert r[k] == Hi(bytes[k - n]); }
      }
    }
    r
  }

  lemma UnpackPackHalves(codes: seq<bv8>)
    requires |codes| % 2 == 0 && AllBelow(codes, 16)
    ensures UnpackHalves(PackHalves(codes)) == codes
  {
    var h := |codes| / 2;
    forall i | 0 <= i < h {
      PairNibbles(codes[i], codes[i + h]);
    }
  }

  lemma PackUnpackHalves(bytes: seq<bv8>)
    ensures PackHalves(UnpackHalves(bytes)) == bytes
  {
    forall i | 0 <= i < |bytes| {
      NibblesPair(bytes[i]);
    }
  }

  /** A `u32` that is only ever assembled bit by bit and moved to or from
      bytes, modelled by its 32 bits: element `k` is `(w >> k) & 1 == 1`. */
  type Word = s: seq<bool> | |s| == 32 witness seq(32, _ => false)

  /** `0u32`. */
  const WORD_ZERO: Word := seq(32, _ => false)

  /** Bit 4 of a code: `(c as u32 >> 4) & 1 == 1`. */
  predicate Bit4(c: bv8)
  {
    (c >> 4) & 1 == 1
  }

  /** The eight bits of a byte, least significant first. */
  function BitsOf(x: bv8): (r: seq<bool>)
    ensures |r| == 8
  {
    [x & 1 != 0, x & 2 != 0, x & 4 != 0, x & 8 != 0,
     x & 0x10 != 0, x & 0x20 != 0, x & 0x40 != 0, x & 0x80 != 0]
  }

  /** The byte with the given eight bits, least significant first. */
  function ByteOf(b: seq<bool>): bv8
    requires |b| == 8
  {
    (if b[0] then 1 else 0) | (if b[1] then 2 else 0) | (if b[2] then 4 else 0) | (if b[3] then 8 else 0) |
    (if b[4] then 0x10 else 0) | (if b[5] then 0x20 else 0) | (if b[6] then 0x40 else 0) | (if b[7] then 0x80 else 0)
  }

  lemma BitsOfByteOf(b: seq<bool>)
    requires |b| == 8
    ensures BitsOf(ByteOf(b)) == b
  {
  }

  lemma ByteOfBitsOf(x: bv8)
    ensures ByteOf(BitsOf(x)) == x
  {
  }

  /** `u32::to_le_bytes`: byte `j` holds bits `8j .. 8j+7`. */
  function LeBytes32(w: Word): (r: seq<bv8>)
    ensures |r| == 4
  {
    [ByteOf(w[0..8]), ByteOf(w[8..16]), ByteOf(w[16..24]), ByteOf(w[24..32])]
  }

  /** `u32::from_le_bytes`. */
  function FromLe32(b: seq<bv8>): (w: Word)
    requires |b| == 4
  {
    BitsOf(b[0]) + BitsOf(b[1]) + BitsOf(b[2]) + BitsOf(b[3])
  }

  lemma FromLeBytes32(w: Word)
    ensures FromLe32(LeBytes32(w)) == w
  {
    BitsOfByteOf(w[0..8]);
    BitsOfByteOf(w[8..16]);
    BitsOfByteOf(w[16..24]);
    BitsOfByteOf(w[24..32]);
    assert w == w[0..8] + w[8..16] + w[16..24] + w[24..32];
  }

  lemma LeBytesFrom32(b: seq<bv8>)
    requires |b| == 4
    ensures LeBytes32(FromLe32(b)) == b
  {
    var w := FromLe32(b);
    assert w[0..8] == BitsOf(b[0]) && w[8..16] == BitsOf(b[1]);
    assert w[16..24] == BitsOf(b[2]) && w[24..32] == BitsOf(b[3]);
    ByteOfBitsOf(b[0]);
    ByteOfBitsOf(b[1]);
    ByteOfBitsOf(b[2]);
    ByteOfBitsOf(b[3]);
    assert b == [b[0], b[1], b[2], b[3]];
  }

  /** The plane of a 5-bit block holds bit 4 of code `k` at bit `k`. */
  ghost predicate PlaneHolds(qh: Word, codes: seq<bv8>)
    requires |codes| == 32
  {
    forall k :: 0 <= k < 32 ==> qh[k] == Bit4(codes[k])
  }

  /** Byte `i` of the low-bit array holds the low four bits of code `i` and,
      above them, those of code `i + 16`. */
  ghost predicate LowNibblesHold(ql: seq<bv8>, codes: seq<bv8>)
    requires |codes| == 32
  {
    |ql| == 16 &&
    forall i :: 0 <= i < 16 ==> ql[i] == ((codes[i + 16] & 0xF) << 4) | (codes[i] & 0xF)
  }

  /** The bit-plane split of 32 five-bit codes, the loop shared by the
      `quantize` of Q5_0 and of Q5_1: `qh |= bit4(l) << i`,
      `qh |= bit4(h) << (i + 16)` and `ql[i] = (h & 0xf) << 4 | (l & 0xf)`. */
  method SplitFive(codes: seq<bv8>) returns (qh: Word, ql: seq<bv8>)
    requires |codes| == 32
    ensures PlaneHolds(qh, codes)
    ensures LowNibblesHold(ql, codes)
  {
    qh := WORD_ZERO;
    var a := new bv8[16];
    for i := 0 to 16
      invariant forall k :: 0 <= k < i ==> a[k] == ((codes[k + 16] & 0xF) << 4) | (codes[k] & 0xF)
      invariant forall k :: 0 <= k < i || 16 <= k < 16 + i ==> qh[k] == Bit4(codes[k])
      invariant forall k :: i <= k < 16 || 16 + i <= k < 32 ==> !qh[k]
    {
      var l := codes[i];
      var h := codes[i + 16];
      qh := qh[i := qh[i] || Bit4(l)];
      qh := qh[i + 16 := qh[i + 16] || Bit4(h)];
      a[i] := ((h & 0xF) << 4) | (l & 0xF);
    }
    ql := a[..];
  }

  /** `(qh >> k << 4) as u8 & 0x10` (and, for the upper half, the same bit
      reached as `(qh >> (k - 4)) as u8 & 0x10`): bit `k` of the plane moved
      to bit 4 of a byte. */
  function HighFlag(qh: Word, k: nat): (r: bv8)
    requires k < 32
    ensures r == 0 || r == 0x10
  {
    if qh[k] then 0x10 else 0
  }

  /** Code `i` as `dequantize` of Q5_0 and Q5_1 reads it back:
      a nibble of `ql` joined with its plane bit. */
  function Code5(qh: Word, ql: seq<bv8>, i: nat): (r: bv8)
    requires |ql| == 16 && i < 32
    ensures r < 32
  {
    if i < 16 then (ql[i] & 0xF) | HighFlag(qh, i)
    else (ql[i - 16] >> 4) | HighFlag(qh, i)
  }

  lemma FiveBits(c: bv8, b: bv8)
    requires c < 32
    ensures (c & 0xF) | (if Bit4(c) then 0x10 else 0) == c
    ensures ((((b & 0xF) as bv8) << 4) | (c & 0xF)) & 0xF == c & 0xF
    ensures (((c & 0xF) << 4) | (b & 0xF)) >> 4 == c & 0xF
  {
  }

  /** Reading back a split block recovers every 5-bit code. */
  lemma Code5Recovers(qh: Word, ql: seq<bv8>, codes: seq<bv8>)
    requires |codes| == 32 && AllBelow(codes, 32)
    requires PlaneHolds(qh, codes) && LowNibblesHold(ql, codes)
    ensures forall i :: 0 <= i < 32 ==> Code5(qh, ql, i) == codes[i]
  {
    forall i | 0 <= i < 32
      ensures Code5(qh, ql, i) == codes[i]
    {
      if i < 16 {
        FiveBits(codes[i], codes[i + 16]);
      } else {
        FiveBits(codes[i], codes[i - 16]);
      }
    }
  }

  /** `w >> k` on `u32`: bit `j` of the result is bit `j + k`, and zeros
      come in at the top. */
  function Shr(w: Word, k: nat): Word
    requires k <= 32
  {
    w[k..] + seq(k, _ => false)
  }

  /** `w << k` on `u32`: bit `j + k` of the result is bit `j`, and the bits
      shifted past the top are lost. */
  function Shl(w: Word, k: nat): Word
    requires k <= 32
  {
    seq(k, _ => false) + w[..32 - k]
  }

  /** `w as u8`: the low byte of the word. */
  function LowByte(w: Word): bv8
  {
    ByteOf(w[..8])
  }

  /** `l | (h as u8 & 0x10)`, the code the closure `f` of `dequantize`
      rebuilds from a nibble `l` and a shifted plane `h`. */
  function Join(l: bv8, h: Word): (r: bv8)
    ensures l < 16 ==> r < 32
  {
    l | (LowByte(h) & 0x10)
  }

  /** Masking a byte with `0x10` keeps only its bit 4. */
  lemma BitFourOf(b: seq<bool>)
    requires |b| == 8
    ensures ByteOf(b) & 0x10 == if b[4] then 0x10 else 0
  {
  }

  /** The two codes `dequantize` joins from byte `i` of `ql` and the shifted
      plane, `(qh >> i) << 4` for the lower code and `qh >> (i + 12)` for the
      upper one, are codes `i` and `i + 16` as `Code5` reads them. */
  lemma Code5Joined(qh: Word, ql: seq<bv8>, i: nat)
    requires |ql| == 16 && i < 16
    ensures Join(ql[i] & 0xF, Shl(Shr(qh, i), 4)) == Code5(qh, ql, i)
    ensures Join(ql[i] >> 4, Shr(qh, i + 12)) == Code5(qh, ql, i + 16)
  {
    var lo, hi := Shl(Shr(qh, i), 4), Shr(qh, i + 12);
    assert lo[4] == qh[i] && hi[4] == qh[i + 16];
    BitFourOf(lo[..8]);
    BitFourOf(hi[..8]);
  }

  /** `u16::to_le_bytes`. */
  function LeBytes16(x: bv16): (r: seq<bv8>)
    ensures |r| == 2
  {
    [(x & 0xFF) as bv8, (x >> 8) as bv8]
  }

  /** `u16::from_le_bytes`. */
  function FromLe16(b: seq<bv8>): bv16
    requires |b| == 2
  {
    (b[0] as bv16) | ((b[1] as bv16) << 8)
  }

  lemma FromLeBytes16(x: bv16)
    ensures FromLe16(LeBytes16(x)) == x
  {
  }

  lemma LeBytesFrom16(b: seq<bv8>)
    requires |b| == 2
    ensures LeBytes16(FromLe16(b)) == b
  {
  }

  /** `v as u8` for an `i8` value `v`: its two's-complement byte. */
  function I8Byte(v: int): (b: bv8)
    requires -128 <= v <= 127
  {
    var u := if v < 0 then v + 256 else v;
    ByteValue(u);
    u as bv8
  }

  /** `b as i8` for a byte `b`. */
  function ByteI8(b: bv8): (v: int)
    ensures -128 <= v <= 127
  {
    if b < 128 then b as int else b as int - 256
  }

  lemma I8ByteRoundTrip(v: int)
    requires -128 <= v <= 127
    ensures ByteI8(I8Byte(v)) == v
  {
    var u := if v < 0 then v + 256 else v;
    ByteValue(u);
  }

  lemma ByteI8RoundTrip(b: bv8)
    ensures I8Byte(ByteI8(b)) == b
  {
    ByteValue(b as int);
  }

  /** `i16::to_le_bytes`: the low byte, then the high byte as an `i8`. */
  function LeBytesI16(v: int): (r: seq<bv8>)
    requires -0x8000 <= v <= 0x7FFF
    ensures |r| == 2
  {
    ByteValue(v % 256);
    [(v % 256) as bv8, I8Byte(v / 256)]
  }

  /** `i16::from_le_bytes`. */
  function FromLeI16(b: seq<bv8>): (v: int)
    requires |b| == 2
    ensures -0x8000 <= v <= 0x7FFF
  {
    b[0] as int + 256 * ByteI8(b[1])
  }

  /** Euclidean division by 256 of a two-byte value. */
  lemma DivMod256(lo: int, hi: int)
    requires 0 <= lo < 256
    ensures (lo + 256 * hi) % 256 == lo && (lo + 256 * hi) / 256 == hi
  {
    var u := lo + 256 * hi;
    var q, r := u / 256, u % 256;
    assert u == 256 * q + r && 0 <= r < 256;
    assert 256 * (q - hi) == lo - r;
    assert q == hi;
  }

  lemma FromLeBytesI16(v: int)
    requires -0x8000 <= v <= 0x7FFF
    ensures FromLeI16(LeBytesI16(v)) == v
  {
    ByteValue(v % 256);
    I8ByteRoundTrip(v / 256);
  }

  lemma LeBytesFromI16(b: seq<bv8>)
    requires |b| == 2
    ensures LeBytesI16(FromLeI16(b)) == b
  {
    var lo, hi := b[0] as int, ByteI8(b[1]);
    var v := FromLeI16(b);
    assert v == lo + 256 * hi;
    DivMod256(lo, hi);
    assert v % 256 == lo && v / 256 == hi;
    ByteI8RoundTrip(b[1]);
    assert (lo as bv8) == b[0];
    var r := LeBytesI16(v);
    assert r[0] == b[0] && r[1] == b[1];
  }

  /** A run of `i8` values as bytes. */
  function I8Bytes(s: seq<int>): (r: seq<bv8>)
    requires forall i :: 0 <= i < |s| ==> -128 <= s[i] <= 127
    ensures |r| == |s|
  {
    seq(|s|, i requires 0 <= i < |s| => I8Byte(s[i]))
  }

  /** A run of bytes read as `i8` values. */
  function BytesI8(b: seq<bv8>): (r: seq<int>)
    ensures |r| == |b| && forall i :: 0 <= i < |b| ==> -128 <= r[i] <= 127
  {
    seq(|b|, i requires 0 <= i < |b| => ByteI8(b[i]))
  }

  lemma I8BytesRoundTrip(s: seq<int>)
    requires forall i :: 0 <= i < |s| ==> -128 <= s[i] <= 127
    ensures BytesI8(I8Bytes(s)) == s
  {
    forall i | 0 <= i < |s| ensures BytesI8(I8Bytes(s))[i] == s[i] {
      I8ByteRoundTrip(s[i]);
    }
  }

  lemma BytesI8RoundTrip(b: seq<bv8>)
    ensures I8Bytes(BytesI8(b)) == b
  {
    forall i | 0 <= i < |b| ensures I8Bytes(BytesI8(b))[i] == b[i] {
      ByteI8RoundTrip(b[i]);
    }
  }
}
