/** `make_qkx2_quants`, the search for the scale and offset of one Q4_K
    sub-block, over exact reals.  The proofs here establish the sign facts
    its caller relies on: the returned offset is never positive (so
    `the_min >= 0`), and with non-negative weights the returned scale is
    never negative, because a weighted least-squares fit of samples against
    codes that grow with the samples cannot have a negative slope. */
module Qkx2 {
  import opened Float
  import opened Wrappers

  /** `N_MAX`, the largest four-bit code. */
  const N_MAX: int := 15
  const R_MIN: real := -1.0
  const R_DELTA: real := 0.1
  const N_STEPS: int := 20
  /** `f32::MAX`, the initial best error. */
  const F32_MAX: real := 340282346638528859811704183484516925440.0

  predicate Nonneg(w: seq<real>)
  {
    forall i :: 0 <= i < |w| ==> w[i] >= 0.0
  }

  /** `sum_w` over the first `n` samples. */
  function SumW(w: seq<real>, n: nat): real
    requires n <= |w|
  {
    if n == 0 then 0.0 else SumW(w, n - 1) + w[n - 1]
  }

  /** `sum_x`: the weighted sum of the samples. */
  function SumWX(w: seq<real>, x: seq<real>, n: nat): real
    requires n <= |w| && n <= |x|
  {
    if n == 0 then 0.0 else SumWX(w, x, n - 1) + w[n - 1] * x[n - 1]
  }

  /** `sum_l`: the weighted sum of the codes. */
  function SumWL(w: seq<real>, l: seq<real>, n: nat): real
    requires n <= |w| && n <= |l|
  {
    if n == 0 then 0.0 else SumWL(w, l, n - 1) + w[n - 1] * l[n - 1]
  }

  /** `sum_l2`: the weighted sum of the squared codes. */
  function SumWL2(w: seq<real>, l: seq<real>, n: nat): real
    requires n <= |w| && n <= |l|
  {
    if n == 0 then 0.0 else SumWL2(w, l, n - 1) + w[n - 1] * (l[n - 1] * l[n - 1])
  }

  /** `sum_xl`: the weighted sum of the codes times the samples. */
  function SumWXL(w: seq<real>, l: seq<real>, x: seq<real>, n: nat): real
    requires n <= |w| && n <= |l| && n <= |x|
  {
    if n == 0 then 0.0 else SumWXL(w, l, x, n - 1) + w[n - 1] * l[n - 1] * x[n - 1]
  }

  /** The code of a sample at the scale of one step of the grid search:
      `nearest_int(iscale * (x - min)).clamp(0, N_MAX)`. */
  function GridCode(x: real, min: real, iscale: real): (c: int)
    ensures 0 <= c <= N_MAX
  {
    Clamp(NearestInt(GridPosition(x, min, iscale)), 0, N_MAX)
  }

  /** The exact position of a sample on the grid, `iscale * (x - min)`. */
  function GridPosition(x: real, min: real, iscale: real): real
  {
    iscale * (x - min)
  }

  function GridCodes(x: seq<real>, min: real, iscale: real): (r: seq<int>)
    ensures |r| == |x|
    ensures forall i :: 0 <= i < |x| ==> r[i] == GridCode(x[i], min, iscale)
  {
    seq(|x|, i requires 0 <= i < |x| => GridCode(x[i], min, iscale))
  }

  /** Codes as the `f32` values the sums are taken over. */
  function Reals(l: seq<int>): (r: seq<real>)
    ensures |r| == |l|
    ensures forall i :: 0 <= i < |l| ==> r[i] == l[i] as real
  {
    seq(|l|, i requires 0 <= i < |l| => l[i] as real)
  }

  /** Codes that never decrease as the samples grow. */
  ghost predicate Comonotone(x: seq<real>, l: seq<real>)
    requires |l| == |x|
  {
    forall i, j :: 0 <= i < |x| && 0 <= j < |x| && x[i] <= x[j] ==> l[i] <= l[j]
  }

  /** With a positive inverse scale, the grid codes grow with the samples. */
  lemma GridComonotone(x: seq<real>, min: real, iscale: real)
    requires iscale > 0.0
    ensures Comonotone(x, Reals(GridCodes(x, min, iscale)))
  {
    var c := GridCodes(x, min, iscale);
    var l := Reals(c);
    forall i, j | 0 <= i < |x| && 0 <= j < |x| && x[i] <= x[j]
      ensures l[i] <= l[j]
    {
      GridMonotone(x[i], x[j], min, iscale);
      assert c[i] <= c[j];
    }
  }

  lemma GridMonotone(u: real, v: real, min: real, iscale: real)
    requires u <= v && iscale > 0.0
    ensures GridCode(u, min, iscale) <= GridCode(v, min, iscale)
  {
    ScaleMonotone(u - min, v - min, iscale);
    assert GridPosition(u, min, iscale) <= GridPosition(v, min, iscale);
    NearestIntMonotone(GridPosition(u, min, iscale), GridPosition(v, min, iscale));
  }

  lemma ScaleMonotone(a: real, b: real, c: real)
    requires a <= b && c > 0.0
    ensures c * a <= c * b
  {
    assert c * b - c * a == c * (b - a);
  }

  /** One row of the double sum behind Chebyshev's inequality: the sum
      over `j < m` of `w[j] * (xi - x[j]) * (li - l[j])`. */
  function Row(w: seq<real>, l: seq<real>, x: seq<real>, xi: real, li: real, m: nat): real
    requires m <= |w| && m <= |l| && m <= |x|
  {
    if m == 0 then 0.0
    else Row(w, l, x, xi, li, m - 1) + w[m - 1] * ((xi - x[m - 1]) * (li - l[m - 1]))
  }

  lemma ProductNonneg(a: real, b: real)
    requires (a <= 0.0 && b <= 0.0) || (a >= 0.0 && b >= 0.0)
    ensures a * b >= 0.0
  {
  }

  /** A row is never negative when its sample and code lie on the same
      side of every other sample and code. */
  lemma {:induction false} RowNonneg(w: seq<real>, l: seq<real>, x: seq<real>, xi: real, li: real, m: nat)
    requires m <= |w| && m <= |l| && m <= |x| && Nonneg(w)
    requires forall j :: 0 <= j < m ==> (xi - x[j]) * (li - l[j]) >= 0.0
    ensures Row(w, l, x, xi, li, m) >= 0.0
  {
    if m > 0 {
      RowNonneg(w, l, x, xi, li, m - 1);
      var p := (xi - x[m - 1]) * (li - l[m - 1]);
      assert w[m - 1] >= 0.0 && p >= 0.0;
      ProductNonneg(w[m - 1], p);
    }
  }

  lemma {:induction false} RowSum(w: seq<real>, l: seq<real>, x: seq<real>, xi: real, li: real, m: nat)
    requires m <= |w| && m <= |l| && m <= |x|
    ensures Row(w, l, x, xi, li, m) ==
      xi * li * SumW(w, m) - xi * SumWL(w, l, m) - li * SumWX(w, x, m) + SumWXL(w, l, x, m)
  {
    if m > 0 {
      RowSum(w, l, x, xi, li, m - 1);
      RowSumStep(w, l, x, xi, li, m);
    }
  }

  lemma RowSumStep(w: seq<real>, l: seq<real>, x: seq<real>, xi: real, li: real, m: nat)
    requires 0 < m <= |w| && m <= |l| && m <= |x|
    requires Row(w, l, x, xi, li, m - 1) ==
      xi * li * SumW(w, m - 1) - xi * SumWL(w, l, m - 1) - li * SumWX(w, x, m - 1) + SumWXL(w, l, x, m - 1)
    ensures Row(w, l, x, xi, li, m) ==
      xi * li * SumW(w, m) - xi * SumWL(w, l, m) - li * SumWX(w, x, m) + SumWXL(w, l, x, m)
  {
    RowStep(SumW(w, m - 1), SumWL(w, l, m - 1), SumWX(w, x, m - 1), SumWXL(w, l, x, m - 1),
            w[m - 1], x[m - 1], l[m - 1], xi, li);
  }

  /** The algebra of one step of `RowSum`: the closed form over `m - 1`
      samples plus the term of sample `m - 1` is the closed form over `m`. */
  lemma RowStep(d: real, c: real, b: real, a: real, wj: real, xj: real, lj: real, xi: real, li: real)
    ensures (xi * li * d - xi * c - li * b + a) + wj * ((xi - xj) * (li - lj)) ==
      xi * li * (d + wj) - xi * (c + wj * lj) - li * (b + wj * xj) + (a + wj * lj * xj)
  {
  }

  /** The numerator of the least-squares slope, `sum_w * sum_xl - sum_x * sum_l`. */
  function SlopeNumerator(sw: real, sx: real, sl: real, sxl: real): real
  {
    sw * sxl - sx * sl
  }

  /** Chebyshev's sum inequality, weighted: when the codes grow with the
      samples, `sum_w * sum_xl - sum_x * sum_l >= 0` over every prefix.
      Adding sample `n - 1` adds its weight times its row against the
      samples before it. */
  lemma {:induction false} Chebyshev(w: seq<real>, l: seq<real>, x: seq<real>, n: nat)
    requires |w| == |l| == |x| && n <= |x|
    requires Nonneg(w) && Comonotone(x, l)
    ensures SlopeNumerator(SumW(w, n), SumWX(w, x, n), SumWL(w, l, n), SumWXL(w, l, x, n)) >= 0.0
  {
    if n > 0 {
      Chebyshev(w, l, x, n - 1);
      RowWeighted(w, l, x, n);
      ChebyshevInduct(w, l, x, n);
    }
  }

  /** The step of `Chebyshev`: the new sums differ from the old by the
      weighted row of the new sample. */
  lemma ChebyshevInduct(w: seq<real>, l: seq<real>, x: seq<real>, n: nat)
    requires |w| == |l| == |x| && 0 < n <= |x|
    requires SlopeNumerator(SumW(w, n - 1), SumWX(w, x, n - 1), SumWL(w, l, n - 1), SumWXL(w, l, x, n - 1)) >= 0.0
    requires w[n - 1] * Row(w, l, x, x[n - 1], l[n - 1], n - 1) >= 0.0
    ensures SlopeNumerator(SumW(w, n), SumWX(w, x, n), SumWL(w, l, n), SumWXL(w, l, x, n)) >= 0.0
  {
    RowSum(w, l, x, x[n - 1], l[n - 1], n - 1);
    ChebyshevStep(SumW(w, n - 1), SumWXL(w, l, x, n - 1), SumWX(w, x, n - 1), SumWL(w, l, n - 1),
                  w[n - 1], x[n - 1], l[n - 1]);
  }

  /** Sample `n - 1` weighted by its row against the samples before it is
      not negative. */
  lemma RowWeighted(w: seq<real>, l: seq<real>, x: seq<real>, n: nat)
    requires |w| == |l| == |x| && 0 < n <= |x|
    requires Nonneg(w) && Comonotone(x, l)
    ensures w[n - 1] * Row(w, l, x, x[n - 1], l[n - 1], n - 1) >= 0.0
  {
    var xi, li := x[n - 1], l[n - 1];
    forall j | 0 <= j < n - 1
      ensures (xi - x[j]) * (li - l[j]) >= 0.0
    {
      if x[j] <= xi {
        assert l[j] <= l[n - 1];
        ProductNonneg(xi - x[j], li - l[j]);
      } else {
        assert l[n - 1] <= l[j];
        ProductNonneg(xi - x[j], li - l[j]);
      }
    }
    RowNonneg(w, l, x, xi, li, n - 1);
    ProductNonneg(w[n - 1], Row(w, l, x, xi, li, n - 1));
  }

  /** The algebra of one step of `Chebyshev`, the sums `d, a, b, c` taken
      one sample `(wi, xi, li)` further. */
  lemma ChebyshevStep(d: real, a: real, b: real, c: real, wi: real, xi: real, li: real)
    ensures (d + wi) * (a + wi * li * xi) - (b + wi * xi) * (c + wi * li) ==
      (d * a - b * c) + wi * (xi * li * d - xi * c - li * b + a)
  {
  }

  lemma {:induction false} SumsNonneg(w: seq<real>, l: seq<real>, n: nat)
    requires n <= |w| && n <= |l| && Nonneg(w)
    requires forall k :: 0 <= k < n ==> l[k] >= 0.0
    ensures SumW(w, n) >= 0.0 && SumWL(w, l, n) >= 0.0 && SumWL2(w, l, n) >= 0.0
  {
    if n > 0 {
      SumsNonneg(w, l, n - 1);
      ProductNonneg(w[n - 1], l[n - 1]);
      ProductNonneg(w[n - 1], l[n - 1] * l[n - 1]);
    }
  }

  /** The weighted sum of samples is at most `max` times the total weight,
      with equality only when every weighted sample is `max`. */
  lemma {:induction false} BelowMax(w: seq<real>, x: seq<real>, max: real, n: nat)
    requires n <= |w| && n <= |x| && Nonneg(w)
    requires forall k :: 0 <= k < n ==> x[k] <= max
    ensures SumWX(w, x, n) <= Scaled(max, SumW(w, n))
    ensures SumWX(w, x, n) == Scaled(max, SumW(w, n)) ==> forall k :: 0 <= k < n ==> w[k] == 0.0 || x[k] == max
  {
    if n > 0 {
      BelowMax(w, x, max, n - 1);
      BelowStep(SumW(w, n - 1), SumWX(w, x, n - 1), w[n - 1], x[n - 1], max);
    }
  }

  /** The algebra of one step of `BelowMax`. */
  lemma BelowStep(sw: real, sx: real, wk: real, xk: real, max: real)
    requires sx <= Scaled(max, sw) && wk >= 0.0 && xk <= max
    ensures sx + wk * xk <= Scaled(max, sw + wk)
    ensures sx + wk * xk == Scaled(max, sw + wk) ==> sx == Scaled(max, sw) && (wk == 0.0 || xk == max)
  {
    ProductNonneg(wk, max - xk);
    assert Scaled(max, sw + wk) - (sx + wk * xk) == (Scaled(max, sw) - sx) + wk * (max - xk);
    if sx + wk * xk == Scaled(max, sw + wk) {
      ZeroProduct(wk, max - xk);
    }
  }

  lemma ZeroProduct(a: real, b: real)
    requires a * b == 0.0
    ensures a == 0.0 || b == 0.0
  {
  }

  /** Codes that are all `c` wherever the weight is not zero sum like a constant. */
  lemma {:induction false} ConstantCodes(w: seq<real>, l: seq<real>, c: real, n: nat)
    requires n <= |w| && n <= |l|
    requires forall k :: 0 <= k < n ==> w[k] == 0.0 || l[k] == c
    ensures SumWL(w, l, n) == Scaled(c, SumW(w, n))
  {
    if n > 0 {
      ConstantCodes(w, l, c, n - 1);
    }
  }

  /** The same for the squared codes. */
  lemma {:induction false} ConstantSquares(w: seq<real>, l: seq<real>, c: real, n: nat)
    requires n <= |w| && n <= |l|
    requires forall k :: 0 <= k < n ==> w[k] == 0.0 || l[k] == c
    ensures SumWL2(w, l, n) == Scaled(c, SumWL(w, l, n))
  {
    if n > 0 {
      ConstantSquares(w, l, c, n - 1);
    }
  }

  lemma Cancel(a: real, b: real, d: real)
    requires d != 0.0 && a * d == b * d
    ensures a == b
  {
    assert (a - b) * d == 0.0;
  }

  /** The offset identity `this_min * sum_w == sum_x - slope * sum_l`,
      times the determinant. */
  lemma OffsetIdentity(sw: real, sx: real, sl: real, sl2: real, sxl: real)
    ensures (sl2 * sx - sl * sxl) * sw == sx * (sw * sl2 - sl * sl) - (sw * sxl - sx * sl) * sl
  {
  }

  lemma DivideIdentity(bigM: real, bigN: real, d: real, sw: real, sx: real, sl: real)
    requires d != 0.0 && bigM * sw == sx * d - bigN * sl
    ensures (bigM / d) * sw == sx - (bigN / d) * sl
  {
    var m, s := bigM / d, bigN / d;
    assert bigM == m * d && bigN == s * d;
    assert (m * sw) * d == (sx - s * sl) * d;
    Cancel(m * sw, sx - s * sl, d);
  }

  lemma OffsetBelow(m: real, s: real, sw: real, sx: real, sl: real, max: real)
    requires sw > 0.0 && s >= 0.0 && sl >= 0.0 && sx <= max * sw
    requires m * sw == sx - s * sl
    ensures m <= max && (m == max ==> sx == max * sw)
  {
    ProductNonneg(s, sl);
    assert m * sw <= max * sw;
  }

  /** The algebra of the fit: with a positive determinant and a
      non-negative slope numerator, the fitted offset `this_min` does not
      exceed `max`, equals it only when the weighted mean is `max`, and when
      it is positive the fallback slope `sum_xl / sum_l2` is defined and not
      negative. */
  lemma FitAlgebra(sw: real, sx: real, sl: real, sl2: real, sxl: real, max: real)
    requires sw >= 0.0 && sl >= 0.0 && sl2 >= 0.0 && sx <= max * sw
    requires sw * sl2 - sl * sl > 0.0
    requires sw * sxl - sx * sl >= 0.0
    ensures sw > 0.0
    ensures var m := (sl2 * sx - sl * sxl) / (sw * sl2 - sl * sl);
      m <= max && (m == max ==> sx == max * sw) &&
      (m > 0.0 ==> sl2 > 0.0 && sxl / sl2 >= 0.0)
  {
    var d := sw * sl2 - sl * sl;
    var bigN := sw * sxl - sx * sl;
    var bigM := sl2 * sx - sl * sxl;
    if sw == 0.0 {
      assert false;
    }
    OffsetIdentity(sw, sx, sl, sl2, sxl);
    DivideIdentity(bigM, bigN, d, sw, sx, sl);
    var m := bigM / d;
    OffsetBelow(m, bigN / d, sw, sx, sl, max);
    if m > 0.0 {
      assert bigM > 0.0;
      assert sl2 > 0.0 by {
        ProductNonneg(sl, sl);
        if sl2 == 0.0 { assert false; }
      }
      FallbackIdentity(sw, sx, sl, sl2, sxl);
      FallbackSign(sxl, d, bigN, bigM, sl, sl2);
    }
  }

  /** The fallback identity `sum_xl * det == slope * sum_l2 + offset * sum_l`,
      with slope and offset times the determinant. */
  lemma FallbackIdentity(sw: real, sx: real, sl: real, sl2: real, sxl: real)
    ensures sxl * (sw * sl2 - sl * sl) == (sw * sxl - sx * sl) * sl2 + (sl2 * sx - sl * sxl) * sl
  {
  }

  lemma FallbackSign(sxl: real, d: real, bigN: real, bigM: real, sl: real, sl2: real)
    requires d > 0.0 && bigN >= 0.0 && bigM > 0.0 && sl >= 0.0 && sl2 > 0.0
    requires sxl * d == bigN * sl2 + bigM * sl
    ensures sxl / sl2 >= 0.0
  {
    ProductNonneg(bigN, sl2);
    ProductNonneg(bigM, sl);
  }

  /** A positive determinant `sum_w * sum_l2 - sum_l * sum_l` leaves
      `sum_l2` non-zero, so the fallback slope `sum_xl / sum_l2` is defined. */
  lemma DeterminantSquares(sw: real, sl: real, sl2: real)
    requires sw * sl2 - sl * sl > 0.0
    ensures sl2 != 0.0
  {
    ProductNonneg(sl, sl);
  }

  /** The fit `Solve` returns, under the conditions a grid step meets: a
      slope that is not negative and an offset that is neither positive
      nor as large as `max`. */
  lemma SolveFacts(sw: real, sx: real, sl: real, sl2: real, sxl: real, max: real)
    requires sw >= 0.0 && sl >= 0.0 && sl2 >= 0.0 && sx < Scaled(max, sw)
    requires SlopeNumerator(sw, sx, sl, sxl) >= 0.0
    ensures Solve(sw, sx, sl, sl2, sxl).Some? ==>
      var fit := Solve(sw, sx, sl, sl2, sxl).value;
      fit.0 >= 0.0 && fit.1 <= 0.0 && fit.1 < max
  {
    var d := sw * sl2 - sl * sl;
    SolveCases(sw, sx, sl, sl2, sxl);
    if d > 0.0 {
      FitAlgebra(sw, sx, sl, sl2, sxl, max);
      var bigN := sw * sxl - sx * sl;
      assert bigN / d >= 0.0;
      assert sx < max * sw;
    }
  }

  /** `Solve` written out over the sums themselves, as `make_qkx2_quants`
      computes it. */
  lemma SolveCases(sw: real, sx: real, sl: real, sl2: real, sxl: real)
    ensures var d := sw * sl2 - sl * sl;
      Solve(sw, sx, sl, sl2, sxl) ==
        if d > 0.0 then
          if (sl2 * sx - sl * sxl) / d > 0.0 then Some((sxl / sl2, 0.0))
          else Some(((sw * sxl - sx * sl) / d, (sl2 * sx - sl * sxl) / d))
        else None
  {
  }

  /** The determinant of the least-squares system, `sum_w * sum_l2 - sum_l * sum_l`. */
  function Determinant(sw: real, sl: real, sl2: real): real
  {
    sw * sl2 - sl * sl
  }

  /** The determinant of codes that are all `c` is zero. */
  lemma FlatDeterminant(w: seq<real>, l: seq<real>, c: real, n: nat)
    requires n <= |w| && n <= |l|
    requires forall k :: 0 <= k < n ==> w[k] == 0.0 || l[k] == c
    ensures Determinant(SumW(w, n), SumWL(w, l, n), SumWL2(w, l, n)) == 0.0
  {
    ConstantCodes(w, l, c, n);
    ConstantSquares(w, l, c, n);
    FlatAlgebra(SumW(w, n), c);
  }

  lemma FlatAlgebra(sw: real, c: real)
    ensures Determinant(sw, Scaled(c, sw), Scaled(c, Scaled(c, sw))) == 0.0
  {
  }

  /** `c * s`, kept whole so that sums equal to it can be substituted. */
  function Scaled(c: real, s: real): real
  {
    c * s
  }

  /** A fit of one sub-block: its codes, its scale, its offset (`min`)
      and its weighted squared error `mad`. */
  datatype Fit = Fit(codes: seq<int>, scale: real, min: real, mad: real)

  /** The inverse scale of step `step` of the grid search,
      `(R_MIN + R_DELTA * step + N_MAX) / (max - min)`. */
  function IScale(step: int, min: real, max: real): (r: real)
    requires min < max && 0 <= step <= N_STEPS
    ensures r > 0.0
  {
    var top := R_MIN + R_DELTA * (step as real) + N_MAX as real;
    assert top >= 14.0;
    top / (max - min)
  }

  /** `this_scale * l + this_min - x`, the error of one reconstructed sample. */
  function Residual(scale: real, li: real, min: real, xi: real): real
  {
    scale * li + min - xi
  }

  /** `mad` over the first `n` samples: the weighted sum of squared residuals. */
  function Mad(w: seq<real>, l: seq<real>, x: seq<real>, scale: real, min: real, n: nat): real
    requires n <= |w| && n <= |l| && n <= |x|
  {
    if n == 0 then 0.0
    else Mad(w, l, x, scale, min, n - 1) + w[n - 1] * Residual(scale, l[n - 1], min, x[n - 1]) * Residual(scale, l[n - 1], min, x[n - 1])
  }

  /** The weighted least-squares fit of samples against codes from their
      sums, where the determinant `sum_w * sum_l2 - sum_l * sum_l` is
      positive: the slope and the offset, the offset clamped at zero with
      the slope refitted through the origin when it comes out positive. */
  function Solve(sw: real, sx: real, sl: real, sl2: real, sxl: real): Option<(real, real)>
  {
    var d := Determinant(sw, sl, sl2);
    if d > 0.0 then
      DeterminantSquares(sw, sl, sl2);
      var thisScale := (sw * sxl - sx * sl) / d;
      var thisMin := (sl2 * sx - sl * sxl) / d;
      if thisMin > 0.0 then Some((sxl / sl2, 0.0)) else Some((thisScale, thisMin))
    else None
  }

  /** One step of the grid search from offset `min`: the codes at the
      step's inverse scale, and, where `Solve` fits them, the fit with its
      error. */
  function StepFit(x: seq<real>, w: seq<real>, min: real, max: real, step: int): Option<Fit>
    requires |w| == |x| && min < max && 0 <= step <= N_STEPS
  {
    var codes := GridCodes(x, min, IScale(step, min, max));
    var l := Reals(codes);
    var n := |x|;
    var fit := Solve(SumW(w, n), SumWX(w, x, n), SumWL(w, l, n), SumWL2(w, l, n), SumWXL(w, l, x, n));
    if fit.Some? then Some(Fit(codes, fit.value.0, fit.value.1, Mad(w, l, x, fit.value.0, fit.value.1, n)))
    else None
  }

  /** What `make_qkx2_quants` relies on to keep searching: non-negative
      weights, `max` bounding every sample, and a kept fit with codes in
      range, a scale that is not negative and an offset below `max` that
      is not positive. */
  predicate Searchable(x: seq<real>, w: seq<real>, max: real, best: Fit)
  {
    |w| == |x| && Nonneg(w) && (forall k :: 0 <= k < |x| ==> x[k] <= max) &&
    CodesFit(best.codes, |x|) && best.scale >= 0.0 && best.min <= 0.0 && best.min < max
  }

  /** Codes of a sub-block: one per sample, each in `[0, N_MAX]`. */
  predicate CodesFit(codes: seq<int>, n: nat)
  {
    |codes| == n && forall i :: 0 <= i < n ==> 0 <= codes[i] <= N_MAX
  }

  /** The fit kept after one step: the step's fit where it has a strictly
      smaller error, the kept one otherwise. */
  function Keep(c: Option<Fit>, best: Fit): Fit
  {
    if c.Some? && c.value.mad < best.mad then c.value else best
  }

  /** The grid search from step `step` on.  A step's grid starts from the
      offset of the fit kept so far, as `min` is updated in place. */
  function Search(x: seq<real>, w: seq<real>, max: real, step: nat, best: Fit): (r: Fit)
    requires Searchable(x, w, max, best)
    ensures Searchable(x, w, max, r)
    decreases N_STEPS + 1 - step
  {
    if step > N_STEPS then best
    else
      StepFacts(x, w, best.min, max, step);
      Search(x, w, max, step + 1, Keep(StepFit(x, w, best.min, max, step), best))
  }

  /** A grid step's fit, from samples bounded by `max` with non-negative
      weights, keeps everything `Searchable` asks of a fit. */
  lemma StepFacts(x: seq<real>, w: seq<real>, min: real, max: real, step: int)
    requires |w| == |x| && min < max && 0 <= step <= N_STEPS && Nonneg(w)
    requires forall k :: 0 <= k < |x| ==> x[k] <= max
    ensures StepFit(x, w, min, max, step).Some? ==>
      var fit := StepFit(x, w, min, max, step).value;
      CodesFit(fit.codes, |x|) && fit.scale >= 0.0 && fit.min <= 0.0 && fit.min < max
  {
    var iscale := IScale(step, min, max);
    var codes := GridCodes(x, min, iscale);
    var l := Reals(codes);
    var n := |x|;
    GridComonotone(x, min, iscale);
    Chebyshev(w, l, x, n);
    SumsNonneg(w, l, n);
    BelowMax(w, x, max, n);
    if SumWX(w, x, n) == Scaled(max, SumW(w, n)) {
      FlatStep(x, w, min, iscale, max);
    } else {
      SolveFacts(SumW(w, n), SumWX(w, x, n), SumWL(w, l, n), SumWL2(w, l, n), SumWXL(w, l, x, n), max);
    }
  }

  /** Where every weighted sample is `max`, every weighted code is the
      same and the determinant of the step is zero. */
  lemma FlatStep(x: seq<real>, w: seq<real>, min: real, iscale: real, max: real)
    requires |w| == |x|
    requires forall k :: 0 <= k < |x| ==> w[k] == 0.0 || x[k] == max
    ensures Determinant(SumW(w, |x|), SumWL(w, Reals(GridCodes(x, min, iscale)), |x|),
                        SumWL2(w, Reals(GridCodes(x, min, iscale)), |x|)) == 0.0
  {
    FlatCodes(x, w, min, iscale, max);
    FlatDeterminant(w, Reals(GridCodes(x, min, iscale)), GridCode(max, min, iscale) as real, |x|);
  }

  /** Samples that are `max` wherever they weigh anything have the code
      of `max` wherever they weigh anything. */
  lemma FlatCodes(x: seq<real>, w: seq<real>, min: real, iscale: real, max: real)
    requires |w| == |x|
    requires forall k :: 0 <= k < |x| ==> w[k] == 0.0 || x[k] == max
    ensures forall k :: 0 <= k < |x| ==>
      w[k] == 0.0 || Reals(GridCodes(x, min, iscale))[k] == GridCode(max, min, iscale) as real
  {
  }

  /** The first codes, `nearest_int((x - min) / scale).clamp(0, N_MAX)`. */
  function InitialCode(x: real, min: real, scale: real): (c: int)
    requires scale != 0.0
    ensures 0 <= c <= N_MAX
  {
    Clamp(NearestInt((x - min) / scale), 0, N_MAX)
  }

  function InitialCodes(x: seq<real>, min: real, scale: real): (r: seq<int>)
    requires scale != 0.0
    ensures |r| == |x|
    ensures forall i :: 0 <= i < |x| ==> r[i] == InitialCode(x[i], min, scale)
  {
    seq(|x|, i requires 0 <= i < |x| => InitialCode(x[i], min, scale))
  }

  function ZeroCodes(n: nat): (r: seq<int>)
    ensures |r| == n && forall i :: 0 <= i < n ==> r[i] == 0
  {
    if n == 0 then [] else ZeroCodes(n - 1) + [0]
  }

  /** The offset the search starts from: the smallest sample, or zero
      when every sample is positive. */
  function StartMin(x: seq<real>): (r: real)
    requires |x| > 0
    ensures r <= 0.0 && r <= MinMax(x).1
  {
    var lo := MinMax(x).0;
    if lo > 0.0 then 0.0 else lo
  }

  /** The fit before the grid search: codes rounded at `(max - min) / N_MAX`. */
  function StartFit(x: seq<real>): (r: Fit)
    requires |x| > 0 && StartMin(x) < MinMax(x).1
  {
    var min, max := StartMin(x), MinMax(x).1;
    var scale := (max - min) / (N_MAX as real);
    Fit(InitialCodes(x, min, scale), scale, min, F32_MAX)
  }

  /** `make_qkx2_quants` of samples `x` with weights `w`: the codes, the
      scale and the offset `min` it settles on (the caller receives `-min`
      as `the_min`); `mad` is the error of the chosen step, `f32::MAX`
      when no step was taken. */
  function Qkx2(x: seq<real>, w: seq<real>): (r: Fit)
    requires |x| > 0 && |w| == |x| && Nonneg(w)
  {
    var min, max := StartMin(x), MinMax(x).1;
    if max == min then Fit(ZeroCodes(|x|), 0.0, min, F32_MAX)
    else
      StartSearchable(x, w);
      Search(x, w, max, 0, StartFit(x))
  }

  lemma StartSearchable(x: seq<real>, w: seq<real>)
    requires |x| > 0 && |w| == |x| && Nonneg(w) && StartMin(x) < MinMax(x).1
    ensures Searchable(x, w, MinMax(x).1, StartFit(x))
  {
    var min, max := StartMin(x), MinMax(x).1;
    assert (max - min) / (N_MAX as real) > 0.0;
  }

  /** `make_qkx2_quants` returns codes in `[0, N_MAX]`, one per sample, a
      scale that is not negative, and an offset that is not positive, so
      `the_min = -min` is not negative. */
  lemma Qkx2Bounds(x: seq<real>, w: seq<real>)
    requires |x| > 0 && |w| == |x| && Nonneg(w)
    ensures CodesFit(Qkx2(x, w).codes, |x|)
    ensures Qkx2(x, w).scale >= 0.0 && Qkx2(x, w).min <= 0.0
  {
  }

  /** The fit the search settles on has an error no larger than the fit
      it started from. */
  lemma {:induction false} SearchNoWorse(x: seq<real>, w: seq<real>, max: real, step: nat, best: Fit)
    requires Searchable(x, w, max, best)
    ensures Search(x, w, max, step, best).mad <= best.mad
    decreases N_STEPS + 1 - step
  {
    if step <= N_STEPS {
      StepFacts(x, w, best.min, max, step);
      SearchNoWorse(x, w, max, step + 1, Keep(StepFit(x, w, best.min, max, step), best));
    }
  }

  /** Nor than the fit of the step it tries next. */
  lemma SearchStepLeast(x: seq<real>, w: seq<real>, max: real, step: nat, best: Fit)
    requires Searchable(x, w, max, best) && step <= N_STEPS
    ensures StepFit(x, w, best.min, max, step).Some? ==>
      Search(x, w, max, step, best).mad <= StepFit(x, w, best.min, max, step).value.mad
  {
    StepFacts(x, w, best.min, max, step);
    SearchNoWorse(x, w, max, step + 1, Keep(StepFit(x, w, best.min, max, step), best));
  }

  /** Samples that are all one value `c <= 0` are stored as zero codes, a
      zero scale and offset `c`. */
  lemma Qkx2Flat(x: seq<real>, w: seq<real>)
    requires |x| > 0 && |w| == |x| && Nonneg(w)
    requires x[0] <= 0.0 && forall i :: 0 <= i < |x| ==> x[i] == x[0]
    ensures Qkx2(x, w) == Fit(ZeroCodes(|x|), 0.0, x[0], F32_MAX)
  {
    var mm := MinMax(x);
    assert mm.0 == x[IndexOf(x, mm.0)] && mm.1 == x[IndexOf(x, mm.1)];
  }
}
