/** Numeric primitives shared by the block codecs.

    Single-precision arithmetic is modelled by exact `real` arithmetic; the
    rounding of every f32 operation is not part of this model.  The Rust
    casts from a float to an integer type round toward zero and saturate;
    casts between integer types wrap around.  Half-precision values are
    16-bit patterns whose conversions (the `half` crate) are supplied by the
    caller as functions. */
module Float {
  import opened Bits

  /** An IEEE 754 binary16 bit pattern, as stored in a block. */
  type Half = bv16

  /** `f16::ZERO`. */
  const HALF_ZERO: Half := 0

  const I32_MIN: int := -0x8000_0000
  const I32_MAX: int := 0x7FFF_FFFF

  /** A square root as the codecs use it: never negative on a number that
      is not negative. */
  ghost predicate RootNonneg(sqrt: real -> real)
  {
    forall v: real :: v >= 0.0 ==> sqrt(v) >= 0.0
  }

  function Abs(x: real): (r: real)
    ensures r >= 0.0 && (r == x || r == -x)
  {
    if x < 0.0 then -x else x
  }

  function Min(a: real, b: real): (r: real)
    ensures r <= a && r <= b && (r == a || r == b)
  {
    if a <= b then a else b
  }

  /** `f32::round`: the nearest integer, halfway cases away from zero. */
  function Round(x: real): (r: int)
    ensures x - 0.5 <= r as real <= x + 0.5
    ensures x >= 0.0 ==> r >= 0
    ensures x <= 0.0 ==> r <= 0
  {
    if x >= 0.0 then (x + 0.5).Floor else -((0.5 - x).Floor)
  }

  lemma RoundMonotone(x: real, y: real)
    requires x <= y
    ensures Round(x) <= Round(y)
  {
    if x >= 0.0 {
      assert (x + 0.5).Floor <= (y + 0.5).Floor;
    } else if y < 0.0 {
      assert (0.5 - y).Floor <= (0.5 - x).Floor;
    }
  }

  /** The integer part of `x`, rounding toward zero. */
  function Trunc(x: real): (r: int)
    ensures x >= 0.0 ==> 0.0 <= r as real <= x < r as real + 1.0
    ensures x < 0.0 ==> r as real - 1.0 < x <= r as real <= 0.0
  {
    if x >= 0.0 then x.Floor else -((-x).Floor)
  }

  /** `Ord::clamp(v, lo, hi)` on integers. */
  function Clamp(v: int, lo: int, hi: int): (r: int)
    requires lo <= hi
    ensures lo <= r <= hi
    ensures lo <= v <= hi ==> r == v
    ensures v < lo ==> r == lo
    ensures v > hi ==> r == hi
  {
    if v < lo then lo else if v > hi then hi else v
  }

  lemma ClampMonotone(v: int, w: int, lo: int, hi: int)
    requires lo <= hi && v <= w
    ensures Clamp(v, lo, hi) <= Clamp(w, lo, hi)
  {
  }

  /** `x as u8` for a float `x`: truncation toward zero, saturating at 0 and 255. */
  function F32ToU8(x: real): (r: int)
    ensures 0 <= r <= 255
    ensures 0.0 <= x < 256.0 ==> r == Trunc(x)
  {
    Clamp(Trunc(x), 0, 255)
  }

  /** `x as i8` for a float `x`: truncation toward zero, saturating at -128 and 127. */
  function F32ToI8(x: real): (r: int)
    ensures -128 <= r <= 127
    ensures -129.0 < x < 128.0 ==> r == Trunc(x)
  {
    Clamp(Trunc(x), -128, 127)
  }

  /** `v as u8` for an integer `v`: the low eight bits (two's complement wrap-around). */
  function WrapU8(v: int): (r: int)
    ensures 0 <= r <= 255
    ensures 0 <= v <= 255 ==> r == v
  {
    v % 256
  }

  /** `x.round() as i32`, the codecs' `nearest_int`. */
  function NearestInt(x: real): (r: int)
    ensures I32_MIN <= r <= I32_MAX
    ensures I32_MIN as real <= x <= I32_MAX as real ==> r == Round(x)
    ensures x >= 0.0 ==> r >= 0
  {
    Clamp(Round(x), I32_MIN, I32_MAX)
  }

  lemma NearestIntMonotone(x: real, y: real)
    requires x <= y
    ensures NearestInt(x) <= NearestInt(y)
  {
    RoundMonotone(x, y);
  }

  /** A code within half a step of the exact quotient `t` reproduces its
      sample `t * d` to within half of `|d|`. */
  lemma StepError(c: real, t: real, d: real, bound: real)
    requires t - bound <= c <= t + bound && bound >= 0.0
    ensures Abs(c * d - t * d) <= bound * Abs(d)
  {
    assert c * d - t * d == (c - t) * d;
    if d >= 0.0 {
      assert -bound * d <= (c - t) * d <= bound * d;
    } else {
      assert bound * d <= (c - t) * d <= -bound * d;
    }
  }

  /** The exact position of `x` on a grid that starts at `min` and has
      inverse step `recip`: `(x - min) * recip`. */
  function Position(x: real, min: real, recip: real): real
  {
    (x - min) * recip
  }

  /** The sample a code stands for, `c as f32 * delta + min`. */
  function Reconstruct(c: int, delta: real, min: real): real
  {
    (c as real) * delta + min
  }

  /** A code `c` within `bound` steps of the exact position of `x` above
      `min` reconstructs `x` to within `bound * |delta|`. */
  lemma AffineError(c: int, x: real, min: real, delta: real, bound: real)
    requires delta != 0.0 && bound >= 0.0
    requires Position(x, min, 1.0 / delta) - bound <= c as real <= Position(x, min, 1.0 / delta) + bound
    ensures Abs(Reconstruct(c, delta, min) - x) <= bound * Abs(delta)
  {
    var t := Position(x, min, 1.0 / delta);
    Quotient(x - min, delta);
    assert Reconstruct(c, delta, min) - x == (c as real) * delta - t * delta;
    StepError(c as real, t, delta, bound);
  }

  /** A sample inside `[min, max]` sits between positions 0 and `top` of
      the grid that splits the span into `top` steps. */
  lemma SpreadPosition(x: real, min: real, max: real, top: real)
    requires min < max && min <= x <= max && top > 0.0
    ensures 0.0 <= Position(x, min, 1.0 / ((max - min) / top)) <= top
  {
    var r := (x - min) / (max - min);
    assert Position(x, min, 1.0 / ((max - min) / top)) == top * r;
    Ratio(x - min, max - min);
    assert 0.0 <= r;
  }

  /** A sample no larger in magnitude than `m` sits between positions
      `-|top|` and `|top|` of the grid of step `m / top` from zero. */
  lemma CenteredPosition(x: real, m: real, top: real)
    requires m != 0.0 && top != 0.0 && Abs(x) <= Abs(m)
    ensures -Abs(top) <= Position(x, 0.0, 1.0 / (m / top)) <= Abs(top)
  {
    var r := x / m;
    assert Position(x, 0.0, 1.0 / (m / top)) == top * r;
    Ratio(x, m);
    if top > 0.0 {
      assert -top <= top * r <= top;
    } else {
      assert top <= top * r <= -top;
    }
  }

  /** `((t + 0.5) as u8).min(top)` for a position between 0 and `top`:
      the nearest code, within half a step. */
  lemma HalfUp(t: real, top: int)
    requires 0 <= top <= 255 && 0.0 <= t <= top as real
    ensures var u := F32ToU8(t + 0.5);
      t - 0.5 <= (if u < top then u else top) as real <= t + 0.5
  {
    assert F32ToU8(t + 0.5) == Trunc(t + 0.5);
  }

  /** A value no larger in magnitude than `m` is a fraction of it in `[-1, 1]`. */
  lemma Ratio(x: real, m: real)
    requires m != 0.0 && Abs(x) <= Abs(m)
    ensures -1.0 <= x / m <= 1.0
  {
    if m < 0.0 {
      var n := -m;
      assert x / m == -(x / n);
      assert -n <= x <= n;
      assert -1.0 <= x / n <= 1.0;
    }
  }

  /** `x / d` scaled back by `d`. */
  lemma Quotient(x: real, d: real)
    requires d != 0.0
    ensures x * (1.0 / d) * d == x
  {
  }

  /** `min_max` of the codec helpers: the smallest and the largest sample. */
  function MinMax(data: seq<real>): (r: (real, real))
    requires |data| > 0
    ensures r.0 in data && r.1 in data
    ensures forall i :: 0 <= i < |data| ==> r.0 <= data[i] <= r.1
  {
    if |data| == 1 then (data[0], data[0])
    else
      var rest := MinMax(data[1..]);
      assert forall i :: 1 <= i < |data| ==> data[i] == data[1..][i - 1];
      (if data[0] <= rest.0 then data[0] else rest.0,
       if data[0] >= rest.1 then data[0] else rest.1)
  }

  /** `max_by_abs` of the codec helpers: a sample of greatest magnitude, with its sign. */
  function MaxByAbs(data: seq<real>): (r: real)
    requires |data| > 0
    ensures r in data
    ensures forall i :: 0 <= i < |data| ==> Abs(data[i]) <= Abs(r)
  {
    if |data| == 1 then data[0]
    else
      var rest := MaxByAbs(data[1..]);
      assert forall i :: 1 <= i < |data| ==> data[i] == data[1..][i - 1];
      if Abs(data[0]) >= Abs(rest) then data[0] else rest
  }

  /** `max_abs` of the codec helpers: the greatest magnitude of a sample. */
  function MaxAbs(data: seq<real>): (r: real)
    requires |data| > 0
    ensures r >= 0.0
    ensures exists i :: 0 <= i < |data| && r == Abs(data[i])
    ensures forall i :: 0 <= i < |data| ==> Abs(data[i]) <= r
  {
    assert MaxByAbs(data) == data[IndexOf(data, MaxByAbs(data))];
    Abs(MaxByAbs(data))
  }

  function IndexOf(data: seq<real>, x: real): (i: nat)
    requires x in data
    ensures i < |data| && data[i] == x
  {
    if data[0] == x then 0 else 1 + IndexOf(data[1..], x)
  }

  /** A greatest magnitude of zero means that every sample is zero. */
  lemma MaxByAbsZero(data: seq<real>)
    requires |data| > 0
    ensures MaxByAbs(data) == 0.0 <==> forall i :: 0 <= i < |data| ==> data[i] == 0.0
  {
    if forall i :: 0 <= i < |data| ==> data[i] == 0.0 {
      var k := IndexOf(data, MaxByAbs(data));
      assert data[k] == 0.0;
    }
  }

  /** `DeltaMin`: a scale and an offset, both stored as half-precision values. */
  datatype DeltaMin = DeltaMin(delta: Half, min: Half)

  /** `DeltaMin::ZERO`. */
  const DELTA_MIN_ZERO: DeltaMin := DeltaMin(HALF_ZERO, HALF_ZERO)

  /** `DeltaMin::new(delta, min)`: both values rounded to half precision. */
  function NewDeltaMin(delta: real, min: real, fromF32: real -> Half): (r: DeltaMin)
    ensures r.delta == fromF32(delta) && r.min == fromF32(min)
  {
    DeltaMin(fromF32(delta), fromF32(min))
  }

  /** `DeltaMin::no_delta(min)`: a zero scale, with the constant kept as the offset. */
  function NoDelta(min: real, fromF32: real -> Half): (r: DeltaMin)
    ensures r.delta == HALF_ZERO && r.min == fromF32(min)
  {
    DeltaMin(HALF_ZERO, fromF32(min))
  }

  /** The four bytes of a `DeltaMin`: the scale, then the offset, each a
      little-endian half. */
  function DeltaMinBytes(dm: DeltaMin): (r: seq<bv8>)
    ensures |r| == 4
  {
    LeBytes16(dm.delta) + LeBytes16(dm.min)
  }

  function DeltaMinFrom(b: seq<bv8>): DeltaMin
    requires |b| == 4
  {
    DeltaMin(FromLe16(b[0..2]), FromLe16(b[2..4]))
  }

  lemma DeltaMinRoundTrip(dm: DeltaMin)
    ensures DeltaMinFrom(DeltaMinBytes(dm)) == dm
  {
    var b := DeltaMinBytes(dm);
    assert b[0..2] == LeBytes16(dm.delta) && b[2..4] == LeBytes16(dm.min);
    FromLeBytes16(dm.delta);
    FromLeBytes16(dm.min);
  }

  lemma DeltaMinBytesRoundTrip(b: seq<bv8>)
    requires |b| == 4
    ensures DeltaMinBytes(DeltaMinFrom(b)) == b
  {
    LeBytesFrom16(b[0..2]);
    LeBytesFrom16(b[2..4]);
    assert b == b[0..2] + b[2..4];
  }
}
