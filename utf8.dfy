// UTF-8 well-formedness, as the standard library's `str::from_utf8` checks it:
// the byte sequences of table 3-7 of the Unicode Standard (section 3.9), with
// `ValidUpTo` playing the part of `Utf8Error::valid_up_to`.

module Unicode {
  import Bits

  /** A continuation byte 10xxxxxx. */
  predicate Cont(b: bv8) { 0x80 <= b <= 0xBF }

  /** The allowed second byte of a three-byte sequence led by b0 (no overlongs, no surrogates). */
  predicate SecondOf3(b0: bv8, b1: bv8)
  {
    if b0 == 0xE0 then 0xA0 <= b1 <= 0xBF
    else if b0 == 0xED then 0x80 <= b1 <= 0x9F
    else Cont(b1)
  }

  /** The allowed second byte of a four-byte sequence led by b0 (no overlongs, nothing above U+10FFFF). */
  predicate SecondOf4(b0: bv8, b1: bv8)
  {
    if b0 == 0xF0 then 0x90 <= b1 <= 0xBF
    else if b0 == 0xF4 then 0x80 <= b1 <= 0x8F
    else Cont(b1)
  }

  /** Length of the well-formed sequence that starts s, or 0 when s does not start with one. */
  function SeqLen(s: seq<bv8>): (n: nat)
    ensures n <= |s| && n <= 4
    ensures |s| > 0 && s[0] <= 0x7F ==> n == 1
  {
    if |s| == 0 then 0
    else if s[0] <= 0x7F then 1
    else if 0xC2 <= s[0] <= 0xDF then
      if |s| >= 2 && Cont(s[1]) then 2 else 0
    else if 0xE0 <= s[0] <= 0xEF then
      if |s| >= 3 && SecondOf3(s[0], s[1]) && Cont(s[2]) then 3 else 0
    else if 0xF0 <= s[0] <= 0xF4 then
      if |s| >= 4 && SecondOf4(s[0], s[1]) && Cont(s[2]) && Cont(s[3]) then 4 else 0
    else 0
  }

  /** A sequence is recognised from its own bytes alone: what follows it does not matter. */
  lemma SeqLenLocal(s: seq<bv8>, t: seq<bv8>)
    requires SeqLen(s) > 0 && SeqLen(s) <= |t| && t[..SeqLen(s)] == s[..SeqLen(s)]
    ensures SeqLen(t) == SeqLen(s)
  {
    var n := SeqLen(s);
    assert t[0] == s[0];
    if n >= 2 { assert t[1] == s[1]; }
    if n >= 3 { assert t[2] == s[2]; }
    if n == 4 { assert t[3] == s[3]; }
  }

  /** Length of the longest prefix of s made of well-formed sequences. */
  function ValidUpTo(s: seq<bv8>): (n: nat)
    ensures n <= |s|
    decreases |s|
  {
    var k := SeqLen(s);
    if k == 0 then 0 else k + ValidUpTo(s[k..])
  }

  predicate IsUtf8(s: seq<bv8>) { ValidUpTo(s) == |s| }

  /** Reading one sequence off the front of a longer string. */
  lemma ValidUpToCons(s: seq<bv8>, rest: seq<bv8>)
    requires SeqLen(s) == |s| > 0
    ensures ValidUpTo(s + rest) == |s| + ValidUpTo(rest)
  {
    SeqLenLocal(s, s + rest);
    assert (s + rest)[|s|..] == rest;
  }

  /** The prefix that `valid_up_to` reports is itself well-formed. */
  lemma {:induction false} ValidPrefix(s: seq<bv8>)
    ensures IsUtf8(s[..ValidUpTo(s)])
    decreases |s|
  {
    var k := SeqLen(s);
    if k > 0 {
      var n := ValidUpTo(s[k..]);
      ValidPrefix(s[k..]);
      var head := s[..k];
      assert SeqLen(head) == k by { SeqLenLocal(s, head); }
      ValidUpToCons(head, s[k..][..n]);
      SplitPrefix(s, k, n);
    }
  }

  /** A prefix of `s` cut at `k` and `n` more bytes. */
  lemma SplitPrefix(s: seq<bv8>, k: nat, n: nat)
    requires k + n <= |s|
    ensures s[..k + n] == s[..k] + s[k..][..n]
  {
  }

  /** Well-formed strings concatenate to a well-formed string. */
  lemma {:induction false} ConcatUtf8(a: seq<bv8>, b: seq<bv8>)
    requires IsUtf8(a) && IsUtf8(b)
    ensures IsUtf8(a + b)
    decreases |a|
  {
    if |a| == 0 {
      assert a + b == b;
    } else {
      var k := SeqLen(a);
      assert k > 0;
      var head := a[..k];
      assert SeqLen(head) == k by { SeqLenLocal(a, head); }
      assert IsUtf8(a[k..]);
      ConcatUtf8(a[k..], b);
      var tail := a[k..] + b;
      ConsUtf8(head, tail);
      SplitConcat(a, b, k);
    }
  }

  /** Splitting the front string of a concatenation at `k`. */
  lemma SplitConcat(a: seq<bv8>, b: seq<bv8>, k: nat)
    requires k <= |a|
    ensures a + b == a[..k] + (a[k..] + b)
  {
    assert a == a[..k] + a[k..];
  }

  /** One well-formed sequence in front of a well-formed string. */
  lemma ConsUtf8(head: seq<bv8>, tail: seq<bv8>)
    requires SeqLen(head) == |head| > 0 && IsUtf8(tail)
    ensures IsUtf8(head + tail)
  {
    ValidUpToCons(head, tail);
  }

  /** The byte holding the small number x. */
  function Byte(x: int): (b: bv8)
    requires 0 <= x < 256
    ensures b as int == x
  {
    Bits.ByteValue(x);
    x as bv8
  }

  /** The continuation byte carrying the six bits d. */
  function ContByte(d: nat): (b: bv8)
    requires d < 64
    ensures Cont(b)
  {
    Byte(0x80 + d)
  }

  function Encode2(v: nat): (e: seq<bv8>)
    requires 0x80 <= v < 0x800
    ensures |e| == 2 && SeqLen(e) == 2
  {
    [Byte(0xC0 + v / 64), ContByte(v % 64)]
  }

  function Encode3(v: nat): (e: seq<bv8>)
    requires 0x800 <= v < 0x10000 && !(0xD800 <= v < 0xE000)
    ensures |e| == 3 && SeqLen(e) == 3
  {
    var hi, mid := v / 4096, v / 64 % 64;
    assert hi == 0 ==> mid >= 32;
    assert hi == 13 ==> mid < 32;
    var b0, b1 := Byte(0xE0 + hi), ContByte(mid);
    assert b0 == 0xE0 ==> hi == 0;
    assert b0 == 0xED ==> hi == 13;
    assert SecondOf3(b0, b1);
    var b2 := ContByte(v % 64);
    Len3(b0, b1, b2);
    [b0, b1, b2]
  }

  lemma Len3(b0: bv8, b1: bv8, b2: bv8)
    requires 0xE0 <= b0 <= 0xEF && SecondOf3(b0, b1) && Cont(b2)
    ensures SeqLen([b0, b1, b2]) == 3
  {
  }

  function Encode4(v: nat): (e: seq<bv8>)
    requires 0x10000 <= v <= 0x10FFFF
    ensures |e| == 4 && SeqLen(e) == 4
  {
    var hi, mid := v / 262144, v / 4096 % 64;
    assert hi == 0 ==> mid >= 16;
    assert hi == 4 ==> mid < 16;
    var b0, b1 := Byte(0xF0 + hi), ContByte(mid);
    assert b0 == 0xF0 ==> hi == 0;
    assert b0 == 0xF4 ==> hi == 4;
    assert SecondOf4(b0, b1);
    var b2, b3 := ContByte(v / 64 % 64), ContByte(v % 64);
    Len4(b0, b1, b2, b3);
    [b0, b1, b2, b3]
  }

  lemma Len4(b0: bv8, b1: bv8, b2: bv8, b3: bv8)
    requires 0xF0 <= b0 <= 0xF4 && SecondOf4(b0, b1) && Cont(b2) && Cont(b3)
    ensures SeqLen([b0, b1, b2, b3]) == 4
  {
  }

  /** The UTF-8 encoding of one Unicode scalar value. */
  function EncodeChar(c: char): (e: seq<bv8>)
    ensures 1 <= |e| <= 4 && SeqLen(e) == |e|
  {
    var v := c as int;
    if v < 0x80 then [Byte(v)]
    else if v < 0x800 then Encode2(v)
    else if v < 0x10000 then Encode3(v)
    else Encode4(v)
  }

  /** The UTF-8 encoding of a string: what a `&str` holds. */
  function Encode(s: string): (e: seq<bv8>)
    ensures |s| <= |e| <= 4 * |s|
  {
    if s == [] then [] else EncodeChar(s[0]) + Encode(s[1..])
  }

  /** Every encoded string is well-formed UTF-8 (`from_utf8` accepts it). */
  lemma {:induction false} EncodedIsUtf8(s: string)
    ensures IsUtf8(Encode(s))
  {
    if s != [] {
      EncodedIsUtf8(s[1..]);
      ValidUpToCons(EncodeChar(s[0]), Encode(s[1..]));
    }
  }

  /** A lone continuation byte, a surrogate and an over-long form are all refused at offset 0. */
  lemma Rejections()
    ensures ValidUpTo([0x80]) == 0
    ensures ValidUpTo([0xED, 0xA0, 0x80]) == 0
    ensures ValidUpTo([0xC0, 0x80]) == 0
    ensures ValidUpTo([0x61, 0xFF]) == 1
  {
    assert [0x61 as bv8, 0xFF][1..] == [0xFF];
  }
}
