// The GGUF byte reader: a cursor over a byte slice that skips and reads
// fixed-size values, strict booleans and u64-length-prefixed UTF-8 strings.
//
// The step functions below say what each operation does to the remaining
// bytes; the `GGufReader` class performs the same operations by moving its
// position, and each of its methods is proved to agree with its step function.

module Reader {
  import opened Unicode
  import Bits
  import opened Wrappers

  const ISIZE_MAX: int := 0x7FFF_FFFF_FFFF_FFFF

  /** `GGufReadError`; `Utf8` keeps what `Utf8Error::valid_up_to` reports. */
  datatype ReadError = Eos | Utf8(validUpTo: nat) | Bool(value: bv8)

  datatype Result<T> = Ok(value: T) | Err(error: ReadError)
  {
    predicate IsFailure() { Err? }

    function PropagateFailure<U>(): Result<U>
      requires Err?
    {
      Err(error)
    }

    function Extract(): T
      requires Ok?
    {
      value
    }
  }

  /** The result of one operation together with the bytes still unread after it. */
  datatype Step<T> = Step(result: Result<T>, rest: seq<bv8>)

  /** Size and alignment of a Rust type `T`. */
  datatype Layout = Layout(size: nat, align: nat)

  /** The invariant every type layout keeps: its size, rounded up to the alignment, fits in an isize. */
  predicate IsTypeLayout(t: Layout)
  {
    t.align >= 1 && t.size <= ISIZE_MAX - (t.align - 1)
  }

  const U8: Layout := Layout(1, 1)
  const U32: Layout := Layout(4, 4)
  const U64: Layout := Layout(8, 8)

  predicate IsSuffix(a: seq<bv8>, b: seq<bv8>)
  {
    |a| <= |b| && b[|b| - |a|..] == a
  }

  function Pow256(n: nat): (p: nat)
    ensures p >= 1
  {
    if n == 0 then 1 else 256 * Pow256(n - 1)
  }

  /** The unsigned number whose little-endian bytes are b (`u32::from_le_bytes`, `u64::from_le_bytes`). */
  function LeValue(b: seq<bv8>): (v: nat)
    ensures v < Pow256(|b|)
  {
    if b == [] then 0 else b[0] as nat + 256 * LeValue(b[1..])
  }

  /** The n little-endian bytes of v (`to_le_bytes`), the inverse of LeValue. */
  function LeBytes(v: nat, n: nat): (b: seq<bv8>)
    ensures |b| == n
  {
    if n == 0 then [] else [(v % 256) as bv8] + LeBytes(v / 256, n - 1)
  }

  lemma {:induction false} LeValueOfBytes(v: nat, n: nat)
    requires v < Pow256(n)
    ensures LeValue(LeBytes(v, n)) == v
  {
    if n > 0 {
      var lo, hi := v % 256, v / 256;
      assert v == lo + 256 * hi;
      assert hi < Pow256(n - 1);
      LeValueOfBytes(hi, n - 1);
      LeBytesCons(lo, hi, n - 1);
      var b := [lo as bv8] + LeBytes(hi, n - 1);
      assert b[1..] == LeBytes(hi, n - 1);
      Bits.ByteValue(lo);
    }
  }

  lemma LeBytesCons(lo: nat, hi: nat, n: nat)
    requires lo < 256
    ensures LeBytes(lo + 256 * hi, n + 1) == [lo as bv8] + LeBytes(hi, n)
  {
    Bits.DivMod256(lo, hi);
  }

  lemma {:induction false} LeBytesOfValue(b: seq<bv8>)
    ensures LeBytes(LeValue(b), |b|) == b
  {
    if b != [] {
      var lo, hi := b[0] as nat, LeValue(b[1..]);
      LeBytesOfValue(b[1..]);
      LeBytesCons(lo, hi, |b| - 1);
      assert LeValue(b) == lo + 256 * hi;
      assert (lo as bv8) == b[0];
      assert [b[0]] + b[1..] == b;
    }
  }

  /** The u64 length prefix at the front of rest. */
  function LenPrefix(rest: seq<bv8>): nat
    requires |rest| >= 8
  {
    LeValue(rest[..8])
  }

  /** `Layout::array::<T>(len)`: the size of len values of T, or None when it exceeds isize::MAX rounded down to T's alignment. */
  function ArrayLayout(t: Layout, len: nat): (r: Option<nat>)
    ensures r.Some? ==> r.value == len * t.size
    ensures t.size == 0 || len * t.size <= ISIZE_MAX - (t.align - 1) <==> r.Some?
  {
    if t.size != 0 && len * t.size > ISIZE_MAX - (t.align - 1) then None else Some(len * t.size)
  }

  /** `skip::<T>(len)` as written: the `unwrap` on the layout panics on its error. */
  function SkipAsWritten(rest: seq<bv8>, t: Layout, len: nat): (r: Run<Step<()>>)
    ensures r.Panicked? <==> ArrayLayout(t, len).None?
    ensures r.Done? ==> r.value == SkipStep(rest, t, len)
  {
    match ArrayLayout(t, len)
    case None => Panicked
    case Some(n) => Done(if n <= |rest| then Step(Ok(()), rest[n..]) else Step(Err(Eos), rest))
  }

  /** `skip::<T>(len)`, reporting `Eos` for every length the bytes cannot hold. */
  function SkipStep(rest: seq<bv8>, t: Layout, len: nat): (r: Step<()>)
    ensures r.result.Ok? <==> len * t.size <= |rest|
    ensures r.result.Ok? ==> rest == rest[..len * t.size] + r.rest
    ensures r.result.Err? ==> r == Step(Err(Eos), rest)
    ensures IsSuffix(r.rest, rest)
  {
    var n := len * t.size;
    if n <= |rest| then Step(Ok(()), rest[n..]) else Step(Err(Eos), rest)
  }

  /** `read::<T>()`: skip one T, then hand back the bytes it occupied. */
  function ReadStep(rest: seq<bv8>, t: Layout): (r: Step<seq<bv8>>)
    ensures r.result.Ok? <==> t.size <= |rest|
    ensures r.result.Ok? ==> r.result.value == rest[..t.size] && r.rest == rest[t.size..]
    ensures r.result.Err? ==> r == Step(Err(Eos), rest)
    ensures IsSuffix(r.rest, rest)
  {
    var s := SkipStep(rest, t, 1);
    match s.result
    case Err(e) => Step(Err(e), s.rest)
    case Ok(_) => Step(Ok(rest[..t.size]), s.rest)
  }

  /** `read::<T>()` for an unsigned integer type T: the bytes taken as little-endian. */
  function ReadLeStep(rest: seq<bv8>, t: Layout): (r: Step<nat>)
    ensures r.result.Ok? <==> t.size <= |rest|
    ensures r.result.Ok? ==> r.result.value == LeValue(rest[..t.size]) && r.rest == rest[t.size..]
    ensures r.result.Ok? ==> r.result.value < Pow256(t.size)
    ensures r.result.Err? ==> r == Step(Err(Eos), rest)
  {
    var s := ReadStep(rest, t);
    match s.result
    case Err(e) => Step(Err(e), s.rest)
    case Ok(bytes) => Step(Ok(LeValue(bytes)), s.rest)
  }

  /** `read_bool`: 0 and 1 only; the byte is consumed whatever it holds. */
  function ReadBoolStep(rest: seq<bv8>): (r: Step<bool>)
    ensures |rest| == 0 ==> r == Step(Err(Eos), rest)
    ensures |rest| > 0 ==> r.rest == rest[1..]
    ensures |rest| > 0 ==> (r.result == Ok(false) <==> rest[0] == 0)
    ensures |rest| > 0 ==> (r.result == Ok(true) <==> rest[0] == 1)
    ensures |rest| > 0 && rest[0] > 1 ==> r.result == Err(Bool(rest[0]))
  {
    var s := ReadStep(rest, U8);
    match s.result
    case Err(e) => Step(Err(e), s.rest)
    case Ok(b) =>
      if b[0] == 0 then Step(Ok(false), s.rest)
      else if b[0] == 1 then Step(Ok(true), s.rest)
      else Step(Err(Bool(b[0])), s.rest)
  }

  /** `read_str`: a u64 length, then that many bytes, which must be UTF-8. */
  function ReadStrStep(rest: seq<bv8>): (r: Step<seq<bv8>>)
    ensures r.result.Ok? <==> |rest| >= 8 && 8 + LenPrefix(rest) <= |rest| && IsUtf8(rest[8..8 + LenPrefix(rest)])
    ensures r.result.Ok? ==> r.result.value == rest[8..8 + LenPrefix(rest)] && r.rest == rest[8 + LenPrefix(rest)..]
    ensures r.result.Err? ==> r.rest == if |rest| < 8 then rest else rest[8..]
    ensures r.result.Err? && r.result.error.Utf8? ==>
      |rest| >= 8 && 8 + LenPrefix(rest) <= |rest| && r.result.error.validUpTo == ValidUpTo(rest[8..8 + LenPrefix(rest)]) < LenPrefix(rest)
    ensures r.result.Err? && !r.result.error.Utf8? ==> r.result.error == Eos
    ensures IsSuffix(r.rest, rest)
  {
    var l := ReadLeStep(rest, U64);
    match l.result
    case Err(e) => Step(Err(e), l.rest)
    case Ok(len) =>
      assert l.rest == rest[8..] && len == LenPrefix(rest);
      if len > |l.rest| then Step(Err(Eos), l.rest)
      else
        var s := l.rest[..len];
        assert s == rest[8..8 + len] && l.rest[len..] == rest[8 + len..];
        if !IsUtf8(s) then Step(Err(Utf8(ValidUpTo(s))), l.rest)
        else Step(Ok(s), l.rest[len..])
  }

  /** `skip_str`: a u64 length, then that many bytes, with no UTF-8 check. */
  function SkipStrStep(rest: seq<bv8>): (r: Step<()>)
    ensures r.result.Ok? <==> |rest| >= 8 && 8 + LenPrefix(rest) <= |rest|
    ensures r.result.Ok? ==> r.rest == rest[8 + LenPrefix(rest)..]
    ensures r.result.Err? ==> r.result.error == Eos && r.rest == if |rest| < 8 then rest else rest[8..]
  {
    var l := ReadLeStep(rest, U64);
    match l.result
    case Err(e) => Step(Err(e), l.rest)
    case Ok(len) => SkipStep(l.rest, U8, len)
  }

  /** `skip_str` as written: its `skip::<u8>` panics on a length above isize::MAX. */
  function SkipStrAsWritten(rest: seq<bv8>): (r: Run<Step<()>>)
    ensures r.Panicked? <==> |rest| >= 8 && LenPrefix(rest) > ISIZE_MAX
    ensures r.Done? ==> r.value == SkipStrStep(rest)
  {
    var l := ReadLeStep(rest, U64);
    match l.result
    case Err(e) => Done(Step(Err(e), l.rest))
    case Ok(len) => SkipAsWritten(l.rest, U8, len)
  }

  /** `read_arr_header`: the u32 code of the element type, then the u64 element count. */
  function ReadArrHeaderStep(rest: seq<bv8>): (r: Step<(nat, nat)>)
    ensures r.result.Ok? <==> |rest| >= 12
    ensures r.result.Ok? ==> r.result.value == (LeValue(rest[..4]), LeValue(rest[4..12])) && r.rest == rest[12..]
    ensures r.result.Err? ==> r.result.error == Eos && r.rest == if |rest| < 4 then rest else rest[4..]
  {
    var ty := ReadLeStep(rest, U32);
    match ty.result
    case Err(e) => Step(Err(e), ty.rest)
    case Ok(code) =>
      var len := ReadLeStep(ty.rest, U64);
      match len.result
      case Err(e) => Step(Err(e), len.rest)
      case Ok(n) =>
        assert rest[4..][..8] == rest[4..12];
        Step(Ok((code, n)), len.rest)
  }

  /** n consecutive `read::<u8>()` calls, collecting their bytes until the first error. */
  function ReadBytes(rest: seq<bv8>, n: nat): Step<seq<bv8>>
  {
    if n == 0 then Step(Ok([]), rest)
    else
      var first := ReadStep(rest, U8);
      match first.result
      case Err(e) => Step(Err(e), first.rest)
      case Ok(b) =>
        var more := ReadBytes(first.rest, n - 1);
        match more.result
        case Err(e) => Step(Err(e), more.rest)
        case Ok(bs) => Step(Ok(b + bs), more.rest)
  }

  /** Consecutive byte reads return the bytes in order; too few bytes ends in `Eos` with every byte consumed. */
  lemma {:induction false} ReadBytesInOrder(rest: seq<bv8>, n: nat)
    ensures n <= |rest| ==> ReadBytes(rest, n) == Step(Ok(rest[..n]), rest[n..])
    ensures n > |rest| ==> ReadBytes(rest, n) == Step(Err(Eos), [])
  {
    if n > 0 {
      if |rest| > 0 {
        ReadBytesInOrder(rest[1..], n - 1);
        if n <= |rest| {
          assert rest[..1] + rest[1..][..n - 1] == rest[..n];
          assert rest[1..][n - 1..] == rest[n..];
        }
      }
    }
  }

  /** The reads of the byte-order test: 1, 2, 3, 4, 5 in that order. */
  lemma ReadFixture()
    ensures ReadBytes([1, 2, 3, 4, 5], 5) == Step(Ok([1, 2, 3, 4, 5]), [])
  {
    ReadBytesInOrder([1, 2, 3, 4, 5], 5);
  }

  /** The reads of the boolean test: false, true, then the error for the byte 2. */
  lemma ReadBoolFixture()
    ensures ReadBoolStep([0, 1, 2]) == Step(Ok(false), [1, 2])
    ensures ReadBoolStep([1, 2]) == Step(Ok(true), [2])
    ensures ReadBoolStep([2]) == Step(Err(Bool(2)), [])
  {
  }

  /** Valid UTF-8 bytes after a length prefix that holds their length read back, leaving what followed. */
  lemma ReadStrAfterPrefix(prefix: seq<bv8>, e: seq<bv8>, tail: seq<bv8>)
    requires |prefix| == 8 && LeValue(prefix) == |e| && IsUtf8(e)
    ensures ReadStrStep(prefix + e + tail) == Step(Ok(e), tail)
  {
    var rest := prefix + e + tail;
    assert rest[..8] == prefix;
    assert rest[8..8 + |e|] == e;
    assert rest[8 + |e|..] == tail;
  }

  /** Valid UTF-8 bytes written after their u64 length read back, leaving what followed. */
  lemma ReadStrOfLength(e: seq<bv8>, tail: seq<bv8>)
    requires IsUtf8(e) && |e| < Pow256(8)
    ensures ReadStrStep(LeBytes(|e|, 8) + e + tail) == Step(Ok(e), tail)
  {
    LeValueOfBytes(|e|, 8);
    ReadStrAfterPrefix(LeBytes(|e|, 8), e, tail);
  }

  /** A string written as its u64 length and its UTF-8 encoding reads back as that encoding. */
  lemma ReadStrRoundTrip(s: string, tail: seq<bv8>)
    requires |Encode(s)| < Pow256(8)
    ensures ReadStrStep(LeBytes(|Encode(s)|, 8) + Encode(s) + tail) == Step(Ok(Encode(s)), tail)
  {
    EncodedIsUtf8(s);
    ReadStrOfLength(Encode(s), tail);
  }

  /** `skip_str` and `read_str` consume the same bytes: skipping fails exactly when reading runs out of bytes. */
  lemma SkipStrMatchesReadStr(rest: seq<bv8>)
    ensures SkipStrStep(rest).result.Err? <==> ReadStrStep(rest).result == Err(Eos)
    ensures ReadStrStep(rest).result.Ok? ==> SkipStrStep(rest).rest == ReadStrStep(rest).rest
    ensures ReadStrStep(rest).result.Err? ==> (if |rest| < 8 then rest else rest[8..]) == ReadStrStep(rest).rest
  {
  }

  /** As written, `skip_str` panics on a length prefix above isize::MAX, where `read_str` reports `Eos`. */
  lemma SkipStrPanicsWhereReadStrFails(rest: seq<bv8>)
    requires |rest| <= ISIZE_MAX
    requires |rest| >= 8 && LenPrefix(rest) > ISIZE_MAX
    ensures SkipStrAsWritten(rest).Panicked?
    ensures ReadStrStep(rest).result == Err(Eos)
    ensures SkipStrStep(rest) == Step(Err(Eos), rest[8..])
  {
  }

  /** The length prefix 2^63 in eight bytes is one such input. */
  lemma SkipStrPanicExample()
    ensures SkipStrAsWritten([0, 0, 0, 0, 0, 0, 0, 0x80]).Panicked?
    ensures ReadStrStep([0, 0, 0, 0, 0, 0, 0, 0x80]) == Step(Err(Eos), [])
  {
    TopBitPrefix();
  }

  /** Eight bytes with only the top bit set hold the length prefix 2^63. */
  lemma TopBitPrefix()
    ensures LenPrefix([0, 0, 0, 0, 0, 0, 0, 0x80]) == 0x8000_0000_0000_0000
  {
    var b1: seq<bv8> := [0x80];
    assert LeValue(b1) == 0x80 by { assert b1[1..] == []; }
    LeValueShift(b1);
    var b2 := [0 as bv8] + b1;
    LeValueShift(b2);
    var b3 := [0 as bv8] + b2;
    LeValueShift(b3);
    var b4 := [0 as bv8] + b3;
    LeValueShift(b4);
    var b5 := [0 as bv8] + b4;
    LeValueShift(b5);
    var b6 := [0 as bv8] + b5;
    LeValueShift(b6);
    var b7 := [0 as bv8] + b6;
    LeValueShift(b7);
    var b8 := [0 as bv8] + b7;
    assert b8 == [0, 0, 0, 0, 0, 0, 0, 0x80] && b8[..8] == b8;
  }

  /** A zero byte in front shifts the value up by a byte. */
  lemma LeValueShift(s: seq<bv8>)
    ensures LeValue([0 as bv8] + s) == 256 * LeValue(s)
  {
    assert ([0 as bv8] + s)[1..] == s;
  }

  /** Reading a single value never reaches the panic: one T always has a layout. */
  lemma ReadNeverPanics(rest: seq<bv8>, t: Layout)
    requires IsTypeLayout(t)
    ensures SkipAsWritten(rest, t, 1) == Done(SkipStep(rest, t, 1))
  {
  }

  /** `GGufReader`: the bytes it was made over and how many of them it has consumed. */
  class GGufReader {
    const data: seq<bv8>
    var pos: nat

    ghost predicate Valid()
      reads this
    {
      pos <= |data|
    }

    /** `new`: a reader at the start of data. */
    constructor (data: seq<bv8>)
      ensures Valid() && this.data == data && Remaining() == data
    {
      this.data := data;
      pos := 0;
    }

    /** `remaining`: the unread bytes, always a suffix of the data. */
    function Remaining(): (r: seq<bv8>)
      reads this
      requires Valid()
      ensures IsSuffix(r, data) && |r| == |data| - pos
    {
      data[pos..]
    }

    /** `skip::<T>(len)`. */
    method Skip(t: Layout, len: nat) returns (r: Result<()>)
      requires Valid()
      modifies this
      ensures Valid() && old(pos) <= pos
      ensures Step(r, Remaining()) == SkipStep(old(Remaining()), t, len)
    {
      var n := len * t.size;
      if n > |data| - pos {
        return Err(Eos);
      }
      pos := pos + n;
      return Ok(());
    }

    /** `read::<T>()`: the bytes of one T, read from where the cursor stood. */
    method Read(t: Layout) returns (r: Result<seq<bv8>>)
      requires Valid()
      modifies this
      ensures Valid() && old(pos) <= pos
      ensures Step(r, Remaining()) == ReadStep(old(Remaining()), t)
    {
      var start := pos;
      var skipped :- Skip(t, 1);
      assert data[start..][..t.size] == data[start..start + t.size];
      return Ok(data[start..start + t.size]);
    }

    /** `read_bool`. */
    method ReadBool() returns (r: Result<bool>)
      requires Valid()
      modifies this
      ensures Valid() && old(pos) <= pos
      ensures Step(r, Remaining()) == ReadBoolStep(old(Remaining()))
    {
      var b :- Read(U8);
      if b[0] == 0 {
        r := Ok(false);
      } else if b[0] == 1 {
        r := Ok(true);
      } else {
        r := Err(Bool(b[0]));
      }
    }

    /** `read_str`: the cursor moves past the string only when the string is valid. */
    method ReadStr() returns (r: Result<seq<bv8>>)
      requires Valid()
      modifies this
      ensures Valid() && old(pos) <= pos
      ensures Step(r, Remaining()) == ReadStrStep(old(Remaining()))
    {
      var lenBytes :- Read(U64);
      var len := LeValue(lenBytes);
      if len > |data| - pos {
        return Err(Eos);
      }
      var s := data[pos..pos + len];
      assert s == Remaining()[..len];
      if !IsUtf8(s) {
        return Err(Utf8(ValidUpTo(s)));
      }
      pos := pos + len;
      return Ok(s);
    }

    /** `skip_str`. */
    method SkipStr() returns (r: Result<()>)
      requires Valid()
      modifies this
      ensures Valid() && old(pos) <= pos
      ensures Step(r, Remaining()) == SkipStrStep(old(Remaining()))
    {
      var lenBytes :- Read(U64);
      r := Skip(U8, LeValue(lenBytes));
    }

    /** `read_arr_header`. */
    method ReadArrHeader() returns (r: Result<(nat, nat)>)
      requires Valid()
      modifies this
      ensures Valid() && old(pos) <= pos
      ensures Step(r, Remaining()) == ReadArrHeaderStep(old(Remaining()))
    {
      var ty :- Read(U32);
      var len :- Read(U64);
      return Ok((LeValue(ty), LeValue(len)));
    }
  }
}
