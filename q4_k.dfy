/** The `Q4K` block: 256 samples in eight sub-blocks of 32, each with its
    own six-bit scale and six-bit offset relative to a shared scale and
    offset, and one four-bit code per sample. */
module Q4_K {
  import opened Float
  import opened Bits
  import opened Qkx2
  import opened Wrappers

  /** `make_qkx2_quants(x, weights, l, the_min, l_aux)`, with `l` the
      slice `l[off..off + |x|]` of the block's code array: the codes, the
      scale it returns and the offset it stores in `the_min` are those of
      `Qkx2`, as `-min`.  Only that slice of `l` changes. */
  method MakeQkx2Quants(x: seq<real>, weights: seq<real>, l: array<int>, off: nat, lAux: array<int>)
    returns (theMin: real, scale: real)
    requires |x| > 0 && |weights| == |x| && Nonneg(weights)
    requires off + |x| <= l.Length && |x| <= lAux.Length && l != lAux
    modifies l, lAux
    ensures l[off..off + |x|] == Qkx2.Qkx2(x, weights).codes
    ensures theMin == -Qkx2.Qkx2(x, weights).min && scale == Qkx2.Qkx2(x, weights).scale
    ensures forall k :: 0 <= k < l.Length && !(off <= k < off + |x|) ==> l[k] == old(l[k])
  {
    var n := |x|;
    var (lo, max) := MinMax(x);
    var min := lo;
    var sumW, sumX := WeightSums(x, weights);
    if min > 0.0 {
      min := 0.0;
    }
    if max == min {
      Fill(l, off, n, 0);
      assert l[off..off + n] == ZeroCodes(n);
      theMin := -min;
      scale := 0.0;
      return;
    }
    scale := (max - min) / (N_MAX as real);
    SeedCodes(x, min, scale, l, off);
    StartSearchable(x, weights);
    scale, min := SearchGrid(x, weights, sumW, sumX, max, l, off, lAux, StartFit(x), scale, min);
    theMin := -min;
  }

  /** `sum_w` and `sum_x`, the first loop of `make_qkx2_quants`. */
  method WeightSums(x: seq<real>, weights: seq<real>) returns (sumW: real, sumX: real)
    requires |weights| == |x|
    ensures sumW == SumW(weights, |x|) && sumX == SumWX(weights, x, |x|)
  {
    sumW, sumX := 0.0, 0.0;
    for i := 0 to |x|
      invariant sumW == SumW(weights, i) && sumX == SumWX(weights, x, i)
    {
      var w := weights[i];
      sumW := sumW + w;
      sumX := sumX + w * x[i];
    }
  }

  /** `l.fill(v)` on the slice `l[off..off + n]`. */
  method Fill(l: array<int>, off: nat, n: nat, v: int)
    requires off + n <= l.Length
    modifies l
    ensures forall k :: off <= k < off + n ==> l[k] == v
    ensures forall k :: 0 <= k < l.Length && !(off <= k < off + n) ==> l[k] == old(l[k])
  {
    forall k | off <= k < off + n {
      l[k] := v;
    }
  }

  /** The codes before the grid search,
      `nearest_int((x[i] - min) / scale).clamp(0, N_MAX)`. */
  method SeedCodes(x: seq<real>, min: real, scale: real, l: array<int>, off: nat)
    requires scale != 0.0 && off + |x| <= l.Length
    modifies l
    ensures l[off..off + |x|] == InitialCodes(x, min, scale)
    ensures forall k :: 0 <= k < l.Length && !(off <= k < off + |x|) ==> l[k] == old(l[k])
  {
    for i := 0 to |x|
      invariant forall k :: 0 <= k < i ==> l[off + k] == InitialCode(x[k], min, scale)
      invariant forall k :: 0 <= k < l.Length && !(off <= k < off + |x|) ==> l[k] == old(l[k])
    {
      var d := x[i] - min;
      l[off + i] := Clamp(NearestInt(d / scale), 0, N_MAX);
    }
    assert l[off..off + |x|] == InitialCodes(x, min, scale);
  }

  /** The grid search of `make_qkx2_quants`, steps `0..=N_STEPS`, from the
      fit `start` held in `l`, `scale` and `min`: a step's fit replaces the
      one held when its error is strictly smaller, and the fit held at the
      end is `Search`'s. */
  method SearchGrid(x: seq<real>, weights: seq<real>, sumW: real, sumX: real, max: real,
                    l: array<int>, off: nat, lAux: array<int>, ghost start: Fit, scale0: real, min0: real)
    returns (scale: real, min: real)
    requires Searchable(x, weights, max, start) && start.mad == F32_MAX
    requires sumW == SumW(weights, |x|) && sumX == SumWX(weights, x, |x|)
    requires off + |x| <= l.Length && |x| <= lAux.Length && l != lAux
    requires l[off..off + |x|] == start.codes && scale0 == start.scale && min0 == start.min
    modifies l, lAux
    ensures var r := Search(x, weights, max, 0, start);
      l[off..off + |x|] == r.codes && scale == r.scale && min == r.min
    ensures forall k :: 0 <= k < l.Length && !(off <= k < off + |x|) ==> l[k] == old(l[k])
  {
    scale, min := scale0, min0;
    var bestMad := F32_MAX;
    ghost var cur := start;
    ghost var r := Search(x, weights, max, 0, start);
    ghost var before := l[..];
    for step := 0 to N_STEPS + 1
      invariant Held(x, weights, max, l, off, cur, scale, min, bestMad)
      invariant Toward(x, weights, max, step, cur, r)
      invariant Outside(l[..], before, off, |x|)
    {
      scale, min, bestMad, cur := SearchRound(x, weights, sumW, sumX, max, l, off, lAux, step, cur, scale, min, bestMad);
    }
  }

  /** `l` is `before` outside `[off, off + n)`. */
  ghost predicate Outside(l: seq<int>, before: seq<int>, off: nat, n: nat)
  {
    |l| == |before| && forall k :: 0 <= k < |l| && !(off <= k < off + n) ==> l[k] == before[k]
  }

  /** Searching on from step `step` with the fit `cur` comes to `r`. */
  ghost predicate Toward(x: seq<real>, weights: seq<real>, max: real, step: nat, cur: Fit, r: Fit)
  {
    Searchable(x, weights, max, cur) && Search(x, weights, max, step, cur) == r
  }

  /** The fit `cur` is the one held in `l[off..]`, `scale`, `min` and `mad`. */
  ghost predicate Held(x: seq<real>, weights: seq<real>, max: real, l: array<int>, off: nat, cur: Fit,
                 scale: real, min: real, mad: real)
    reads l
  {
    Searchable(x, weights, max, cur) && off + |x| <= l.Length &&
    l[off..off + |x|] == cur.codes && scale == cur.scale && min == cur.min && mad == cur.mad
  }

  /** One round of the grid search: step `step` from the fit `cur` held in
      `l`, `scale`, `min` and `mad`, after which the fit `Keep` chooses is
      held. */
  method SearchRound(x: seq<real>, weights: seq<real>, sumW: real, sumX: real, max: real,
                     l: array<int>, off: nat, lAux: array<int>, step: int, ghost cur: Fit,
                     scale0: real, min0: real, mad0: real)
    returns (scale: real, min: real, bestMad: real, ghost next: Fit)
    requires Held(x, weights, max, l, off, cur, scale0, min0, mad0) && 0 <= step <= N_STEPS
    requires sumW == SumW(weights, |x|) && sumX == SumWX(weights, x, |x|)
    requires |x| <= lAux.Length && l != lAux
    modifies l, lAux
    ensures Held(x, weights, max, l, off, next, scale, min, bestMad)
    ensures forall r :: Toward(x, weights, max, step, cur, r) ==> Toward(x, weights, max, step + 1, next, r)
    ensures forall k :: 0 <= k < l.Length && !(off <= k < off + |x|) ==> l[k] == old(l[k])
  {
    scale, min, bestMad := scale0, min0, mad0;
    var found, thisScale, thisMin, mad := GridStep(x, weights, sumW, sumX, min, max, step, lAux);
    if found && mad < bestMad {
      CopyFromSlice(l, off, lAux, |x|);
      bestMad, scale, min := mad, thisScale, thisMin;
    }
    StepFacts(x, weights, cur.min, max, step);
    next := Keep(StepFit(x, weights, cur.min, max, step), cur);
  }

  /** `l[off..off + n].copy_from_slice(&l_aux[..n])`. */
  method CopyFromSlice(l: array<int>, off: nat, lAux: array<int>, n: nat)
    requires off + n <= l.Length && n <= lAux.Length && l != lAux
    modifies l
    ensures l[off..off + n] == lAux[..n]
    ensures forall k :: 0 <= k < l.Length && !(off <= k < off + n) ==> l[k] == old(l[k])
  {
    forall k | 0 <= k < n {
      l[off + k] := lAux[k];
    }
    assert l[off..off + n] == lAux[..n];
  }

  /** One step of the grid search of `make_qkx2_quants` from offset `min`:
      the codes go to `l_aux`, and where the determinant of their sums is
      positive the step's slope, offset and error come back with `found`;
      together they are `StepFit`. */
  method GridStep(x: seq<real>, weights: seq<real>, sumW: real, sumX: real, min: real, max: real,
                  step: int, lAux: array<int>)
    returns (found: bool, thisScale: real, thisMin: real, mad: real)
    requires |weights| == |x| && |x| <= lAux.Length && min < max && 0 <= step <= N_STEPS
    requires sumW == SumW(weights, |x|) && sumX == SumWX(weights, x, |x|)
    modifies lAux
    ensures lAux[..|x|] == GridCodes(x, min, IScale(step, min, max))
    ensures found == StepFit(x, weights, min, max, step).Some?
    ensures found ==> StepFit(x, weights, min, max, step).value == Fit(lAux[..|x|], thisScale, thisMin, mad)
  {
    var iscale := (R_MIN + R_DELTA * (step as real) + N_MAX as real) / (max - min);
    assert iscale == IScale(step, min, max);
    ghost var codes := GridCodes(x, min, iscale);
    var sumL, sumL2, sumXL := GridSums(x, weights, min, iscale, lAux, codes);
    StepSolved(x, weights, min, max, step, sumW, sumX, sumL, sumL2, sumXL);
    SolveCases(sumW, sumX, sumL, sumL2, sumXL);
    var dVal := sumW * sumL2 - sumL * sumL;
    found, thisScale, thisMin, mad := false, 0.0, 0.0, 0.0;
    if dVal > 0.0 {
      thisScale := (sumW * sumXL - sumX * sumL) / dVal;
      thisMin := (sumL2 * sumX - sumL * sumXL) / dVal;
      if thisMin > 0.0 {
        DeterminantSquares(sumW, sumL, sumL2);
        thisMin := 0.0;
        thisScale := sumXL / sumL2;
      }
      mad := WeightedError(x, weights, lAux, thisScale, thisMin);
      found := true;
    }
  }

  /** `StepFit` in terms of the sums of the step's codes. */
  lemma StepSolved(x: seq<real>, w: seq<real>, min: real, max: real, step: int,
                   sw: real, sx: real, sl: real, sl2: real, sxl: real)
    requires |w| == |x| && min < max && 0 <= step <= N_STEPS
    requires var l := Reals(GridCodes(x, min, IScale(step, min, max)));
      sw == SumW(w, |x|) && sx == SumWX(w, x, |x|) &&
      sl == SumWL(w, l, |x|) && sl2 == SumWL2(w, l, |x|) && sxl == SumWXL(w, l, x, |x|)
    ensures var codes := GridCodes(x, min, IScale(step, min, max));
      StepFit(x, w, min, max, step) ==
        match Solve(sw, sx, sl, sl2, sxl)
        case None => None
        case Some(fit) => Some(Fit(codes, fit.0, fit.1, Mad(w, Reals(codes), x, fit.0, fit.1, |x|)))
  {
  }

  /** The codes, with their sums, of one grid step: `l_aux[i]` is the code
      of `x[i]` at inverse scale `iscale` from `min` (as `codes` lists
      them), and the three sums are `sum_l`, `sum_l2` and `sum_xl` over
      them. */
  method GridSums(x: seq<real>, weights: seq<real>, min: real, iscale: real, lAux: array<int>,
                  ghost codes: seq<int>)
    returns (sumL: real, sumL2: real, sumXL: real)
    requires |weights| == |x| && |x| <= lAux.Length && |codes| == |x|
    requires forall k {:trigger GridCode(x[k], min, iscale)} :: 0 <= k < |x| ==> codes[k] == GridCode(x[k], min, iscale)
    modifies lAux
    ensures lAux[..|x|] == codes
    ensures forall k :: |x| <= k < lAux.Length ==> lAux[k] == old(lAux[k])
    ensures var l := Reals(codes);
      sumL == SumWL(weights, l, |x|) && sumL2 == SumWL2(weights, l, |x|) && sumXL == SumWXL(weights, l, x, |x|)
  {
    sumL, sumL2, sumXL := 0.0, 0.0, 0.0;
    for i := 0 to |x|
      invariant forall k :: 0 <= k < i ==> lAux[k] == codes[k]
      invariant forall k :: |x| <= k < lAux.Length ==> lAux[k] == old(lAux[k])
      invariant Summed(weights, Reals(codes), x, i, sumL, sumL2, sumXL)
    {
      var li := GridCode(x[i], min, iscale);
      lAux[i] := li;
      sumL, sumL2, sumXL := SumsRound(weights, x, i, li, codes, sumL, sumL2, sumXL);
    }
  }

  /** The three sums of `GridSums` after `i` samples. */
  ghost predicate Summed(w: seq<real>, l: seq<real>, x: seq<real>, i: nat, sumL: real, sumL2: real, sumXL: real)
    requires i <= |w| && i <= |l| && i <= |x|
  {
    sumL == SumWL(w, l, i) && sumL2 == SumWL2(w, l, i) && sumXL == SumWXL(w, l, x, i)
  }

  /** The sums part of one round of that loop. */
  method SumsRound(weights: seq<real>, x: seq<real>, i: nat, li: int, ghost codes: seq<int>,
                   sumL: real, sumL2: real, sumXL: real)
    returns (sumL': real, sumL2': real, sumXL': real)
    requires i < |weights| && i < |x| && |codes| == |x| && codes[i] == li
    requires Summed(weights, Reals(codes), x, i, sumL, sumL2, sumXL)
    ensures Summed(weights, Reals(codes), x, i + 1, sumL', sumL2', sumXL')
  {
    var w := weights[i];
    sumL' := sumL + w * (li as real);
    sumL2' := sumL2 + w * ((li * li) as real);
    sumXL' := sumXL + w * (li as real) * x[i];
    SumsStepped(weights, Reals(codes), x, i, li, sumL, sumL2, sumXL);
  }

  /** The three sums after sample `i` are those before it plus its terms. */
  lemma SumsStepped(w: seq<real>, l: seq<real>, x: seq<real>, i: nat, li: int, sumL: real, sumL2: real, sumXL: real)
    requires i < |w| && i < |l| && i < |x| && l[i] == li as real
    requires Summed(w, l, x, i, sumL, sumL2, sumXL)
    ensures Summed(w, l, x, i + 1, sumL + w[i] * (li as real), sumL2 + w[i] * ((li * li) as real),
                   sumXL + w[i] * (li as real) * x[i])
  {
    SumsAdvance(w, l, x, i, li);
  }

  /** Adding the terms of sample `i`, with code `li`, to the three sums. */
  lemma SumsAdvance(w: seq<real>, l: seq<real>, x: seq<real>, i: nat, li: int)
    requires i < |w| && i < |l| && i < |x| && l[i] == li as real
    ensures SumWL(w, l, i + 1) == SumWL(w, l, i) + w[i] * (li as real)
    ensures SumWL2(w, l, i + 1) == SumWL2(w, l, i) + w[i] * ((li * li) as real)
    ensures SumWXL(w, l, x, i + 1) == SumWXL(w, l, x, i) + w[i] * (li as real) * x[i]
  {
    assert (li * li) as real == l[i] * l[i];
  }

  /** The weighted squared error `mad` of a fit of codes `l_aux[..n]`. */
  method WeightedError(x: seq<real>, weights: seq<real>, lAux: array<int>, scale: real, min: real)
    returns (mad: real)
    requires |weights| == |x| && |x| <= lAux.Length
    ensures mad == Mad(weights, Reals(lAux[..|x|]), x, scale, min, |x|)
  {
    ghost var l := Reals(lAux[..|x|]);
    mad := 0.0;
    for i := 0 to |x|
      invariant mad == Mad(weights, l, x, scale, min, i)
    {
      assert l[i] == lAux[i] as real;
      var diff := scale * (lAux[i] as real) + min - x[i];
      mad := mad + weights[i] * diff * diff;
    }
  }

  // The scale table

  /** `Q4K { delta_min, scales, qs }`: the shared scale and offset, the
      12-byte table of eight six-bit sub-block scales and offsets, and
      256 four-bit codes in 128 bytes. */
  datatype Block = Block(deltaMin: DeltaMin, scales: seq<bv8>, qs: seq<bv8>)

  predicate Valid(b: Block)
  {
    |b.scales| == 12 && |b.qs| == 128
  }

  /** `Q4K::ZEROS`. */
  const ZEROS: Block := Block(DELTA_MIN_ZERO, Zeros(12), Zeros(128))

  /** `Q4K::get_scale_min_k4(j, scales)`: the six-bit scale and offset of
      sub-block `j`.  The first four sit in the low six bits of bytes
      `j` and `j + 4`; the last four take their low nibbles from byte
      `j + 4` and their top two bits from the top of bytes `j - 4` and `j`. */
  function GetScaleMinK4(j: nat, scales: seq<bv8>): (r: (bv8, bv8))
    requires j < 8 && |scales| == 12
    ensures r.0 < 64 && r.1 < 64
  {
    if j < 4 then (scales[j] & 63, scales[j + 4] & 63)
    else
      ((scales[j + 4] & 0x0F) | ((scales[j - 4] >> 6) << 4),
       (scales[j + 4] >> 4) | ((scales[j] >> 6) << 4))
  }

  /** Byte `k` of the table after the first `j` rounds of the packing loop
      of `quantize`, starting from zeros: rounds `j < 4` store `ls` and `lm`
      in bytes `j` and `j + 4`; rounds `j >= 4` store both low nibbles in
      byte `j + 4` and OR the top two bits of each into bytes `j - 4` and `j`. */
  function TableByte(ls: seq<bv8>, lm: seq<bv8>, j: nat, k: nat): bv8
    requires |ls| == 8 && |lm| == 8 && k < 12
  {
    if k < 4 then
      (if k < j then ls[k] else 0) | (if k + 4 < j then (ls[k + 4] >> 4) << 6 else 0)
    else if k < 8 then
      (if k - 4 < j then lm[k - 4] else 0) | (if k < j then (lm[k] >> 4) << 6 else 0)
    else if k - 4 < j then (ls[k - 4] & 0xF) | ((lm[k - 4] & 0xF) << 4)
    else 0
  }

  /** The table the packing loop of `quantize` writes for the six-bit
      scales `ls` and offsets `lm` of the eight sub-blocks. */
  function PackedTable(ls: seq<bv8>, lm: seq<bv8>): (t: seq<bv8>)
    requires |ls| == 8 && |lm| == 8
    ensures |t| == 12
  {
    seq(12, k requires 0 <= k < 12 => TableByte(ls, lm, 8, k))
  }

  predicate SixBits(s: seq<bv8>)
  {
    forall j :: 0 <= j < |s| ==> s[j] < 64
  }

  /** Reading sub-block `j` back from the packed table gives the scale and
      offset that were packed, for every six-bit pair. */
  lemma ScaleTableRoundTrip(ls: seq<bv8>, lm: seq<bv8>, j: nat)
    requires |ls| == 8 && |lm| == 8 && SixBits(ls) && SixBits(lm) && j < 8
    ensures GetScaleMinK4(j, PackedTable(ls, lm)) == (ls[j], lm[j])
  {
    if j < 4 {
      FirstFour(ls, lm, j);
    } else {
      LastFour(ls, lm, j);
    }
  }

  lemma FirstFour(ls: seq<bv8>, lm: seq<bv8>, j: nat)
    requires |ls| == 8 && |lm| == 8 && SixBits(ls) && SixBits(lm) && j < 4
    ensures GetScaleMinK4(j, PackedTable(ls, lm)) == (ls[j], lm[j])
  {
    FirstBytes(ls, lm, j);
    LowSix(ls[j], ls[j + 4]);
    LowSix(lm[j], lm[j + 4]);
  }

  /** The two bytes that hold the pair of sub-block `j < 4`. */
  lemma FirstBytes(ls: seq<bv8>, lm: seq<bv8>, j: nat)
    requires |ls| == 8 && |lm| == 8 && j < 4
    ensures var t := PackedTable(ls, lm);
      t[j] == ls[j] | ((ls[j + 4] >> 4) << 6) && t[j + 4] == lm[j] | ((lm[j + 4] >> 4) << 6)
  {
  }

  lemma LastFour(ls: seq<bv8>, lm: seq<bv8>, j: nat)
    requires |ls| == 8 && |lm| == 8 && SixBits(ls) && SixBits(lm) && 4 <= j < 8
    ensures GetScaleMinK4(j, PackedTable(ls, lm)) == (ls[j], lm[j])
  {
    LastBytes(ls, lm, j);
    Nibbles(ls[j], lm[j], ls[j - 4], lm[j - 4]);
  }

  /** The three bytes that hold the pair of sub-block `j >= 4`. */
  lemma LastBytes(ls: seq<bv8>, lm: seq<bv8>, j: nat)
    requires |ls| == 8 && |lm| == 8 && 4 <= j < 8
    ensures var t := PackedTable(ls, lm);
      t[j + 4] == (ls[j] & 0xF) | ((lm[j] & 0xF) << 4) &&
      t[j - 4] == ls[j - 4] | ((ls[j] >> 4) << 6) &&
      t[j] == lm[j - 4] | ((lm[j] >> 4) << 6)
  {
  }

  lemma LowSix(a: bv8, b: bv8)
    requires a < 64 && b < 64
    ensures (a | ((b >> 4) << 6)) & 63 == a
  {
  }

  lemma Nibbles(s: bv8, m: bv8, s4: bv8, m4: bv8)
    requires s < 64 && m < 64 && s4 < 64 && m4 < 64
    ensures (((s & 0xF) | ((m & 0xF) << 4)) & 0x0F) | (((s4 | ((s >> 4) << 6)) >> 6) << 4) == s
    ensures (((s & 0xF) | ((m & 0xF) << 4)) >> 4) | (((m4 | ((m >> 4) << 6)) >> 6) << 4) == m
  {
  }

  /** The six-bit scales of a table, `get_scale_min_k4(j).0` for each `j`. */
  function TableScales(t: seq<bv8>): (ls: seq<bv8>)
    requires |t| == 12
    ensures |ls| == 8 && SixBits(ls)
    ensures forall j :: 0 <= j < 8 ==> ls[j] == GetScaleMinK4(j, t).0
  {
    seq(8, j requires 0 <= j < 8 => GetScaleMinK4(j, t).0)
  }

  /** The six-bit offsets of a table, `get_scale_min_k4(j).1` for each `j`. */
  function TableMins(t: seq<bv8>): (lm: seq<bv8>)
    requires |t| == 12
    ensures |lm| == 8 && SixBits(lm)
    ensures forall j :: 0 <= j < 8 ==> lm[j] == GetScaleMinK4(j, t).1
  {
    seq(8, j requires 0 <= j < 8 => GetScaleMinK4(j, t).1)
  }

  /** Unpacking the eight pairs of any 12-byte table and packing them again
      reproduces the table bit for bit: no two pairs share a bit and no bit
      is left unused. */
  lemma TableRepack(t: seq<bv8>)
    requires |t| == 12
    ensures PackedTable(TableScales(t), TableMins(t)) == t
  {
    var ls, lm := TableScales(t), TableMins(t);
    forall k | 0 <= k < 12
      ensures PackedTable(ls, lm)[k] == t[k]
    {
      if k < 4 {
        assert ls[k] == t[k] & 63 && ls[k + 4] == (t[k + 8] & 0x0F) | ((t[k] >> 6) << 4);
        TopTwo(t[k], t[k + 8]);
      } else if k < 8 {
        assert lm[k - 4] == t[k] & 63 && lm[k] == (t[k + 4] >> 4) | ((t[k] >> 6) << 4);
        TopTwoHigh(t[k], t[k + 4]);
      } else {
        assert ls[k - 4] == (t[k] & 0x0F) | ((t[k - 8] >> 6) << 4);
        assert lm[k - 4] == (t[k] >> 4) | ((t[k - 4] >> 6) << 4);
        LowNibbles(t[k], t[k - 8], t[k - 4]);
      }
    }
  }

  lemma TopTwo(a: bv8, c: bv8)
    ensures (a & 63) | (((((c & 0x0F) | ((a >> 6) << 4))) >> 4) << 6) == a
  {
  }

  lemma TopTwoHigh(a: bv8, c: bv8)
    ensures (a & 63) | ((((c >> 4) | ((a >> 6) << 4)) >> 4) << 6) == a
  {
  }

  lemma LowNibbles(c: bv8, a: bv8, b: bv8)
    ensures ((((c & 0x0F) | ((a >> 6) << 4)) & 0xF) | ((((c >> 4) | ((b >> 6) << 4)) & 0xF) << 4)) == c
  {
  }

  // The sub-block fits of `quantize`.

  /** `sum_x2`: the sum of the squares of the first `n` samples. */
  function SumSquares(x: seq<real>, n: nat): (r: real)
    requires n <= |x|
    ensures r >= 0.0
  {
    if n == 0 then 0.0 else SumSquares(x, n - 1) + x[n - 1] * x[n - 1]
  }

  /** The weights of a sub-block, `av_x + |x[i]|` where `av_x` is the root
      of the mean square of its samples: none is negative. */
  function Weights(x: seq<real>, sqrt: real -> real): (w: seq<real>)
    requires |x| == 32 && RootNonneg(sqrt)
    ensures |w| == 32 && Nonneg(w)
    ensures forall i :: 0 <= i < 32 ==> w[i] >= Abs(x[i])
  {
    var avX := sqrt(SumSquares(x, 32) / 32.0);
    seq(32, i requires 0 <= i < 32 => avX + Abs(x[i]))
  }

  /** Samples `32 j .. 32 j + 32`, sub-block `j`. */
  function Chunk(data: seq<real>, j: nat): (x: seq<real>)
    requires |data| == 256 && j < 8
    ensures |x| == 32
  {
    data[32 * j..32 * j + 32]
  }

  /** The fit `make_qkx2_quants` makes of sub-block `j` with its weights. */
  function SubFit(data: seq<real>, sqrt: real -> real, j: nat): Fit
    requires |data| == 256 && j < 8 && RootNonneg(sqrt)
  {
    var x := Chunk(data, j);
    Qkx2.Qkx2(x, Weights(x, sqrt))
  }

  /** A table of eight fits that are those of the sub-blocks of `data`,
      linked to `SubFit` only where `SubFit` itself is mentioned (so that
      stating it does not unfold every fit). */
  ghost predicate FitsOf(data: seq<real>, sqrt: real -> real, f: seq<Fit>)
    requires |data| == 256 && RootNonneg(sqrt)
  {
    |f| == 8 && forall j {:trigger SubFit(data, sqrt, j)} :: 0 <= j < 8 ==> SubFit(data, sqrt, j) == f[j]
  }

  /** Fits as `make_qkx2_quants` leaves them: 32 codes in `[0, 15]`, a
      scale that is not negative and an offset that is not positive. */
  predicate FitsInRange(f: seq<Fit>)
  {
    forall j :: 0 <= j < |f| ==> CodesFit(f[j].codes, 32) && f[j].scale >= 0.0 && f[j].min <= 0.0
  }

  /** The fits of the eight sub-blocks. */
  function SubFits(data: seq<real>, sqrt: real -> real): (f: seq<Fit>)
    requires |data| == 256 && RootNonneg(sqrt)
    ensures FitsOf(data, sqrt, f) && FitsInRange(f)
  {
    var f := seq(8, j requires 0 <= j < 8 => SubFit(data, sqrt, j));
    forall j | 0 <= j < 8
      ensures CodesFit(f[j].codes, 32) && f[j].scale >= 0.0 && f[j].min <= 0.0
    {
      var x := Chunk(data, j);
      Qkx2Bounds(x, Weights(x, sqrt));
    }
    f
  }

  /** A table that `FitsOf` links to the sub-blocks is `SubFits`. */
  lemma FitsOfUnique(data: seq<real>, sqrt: real -> real, f: seq<Fit>)
    requires |data| == 256 && RootNonneg(sqrt) && FitsOf(data, sqrt, f)
    ensures f == SubFits(data, sqrt)
  {
    var g := SubFits(data, sqrt);
    forall j | 0 <= j < 8
      ensures f[j] == g[j]
    {
      assert SubFit(data, sqrt, j) == g[j];
    }
  }

  /** `scales`: the scale of each fit. */
  function FitScales(f: seq<Fit>): (s: seq<real>)
    ensures |s| == |f| && forall j :: 0 <= j < |f| ==> s[j] == f[j].scale
  {
    seq(|f|, j requires 0 <= j < |f| => f[j].scale)
  }

  /** `mins`: the `the_min` of each fit, its offset negated. */
  function FitMins(f: seq<Fit>): (s: seq<real>)
    ensures |s| == |f| && forall j :: 0 <= j < |f| ==> s[j] == -f[j].min
  {
    seq(|f|, j requires 0 <= j < |f| => -f[j].min)
  }

  /** `max_scale` or `max_min` after `n` rounds: zero, raised to any value
      greater than the one held.  It is the largest of zero and the first
      `n` values. */
  function Peak(s: seq<real>, n: nat): real
    requires n <= |s|
  {
    if n == 0 then 0.0
    else
      var p := Peak(s, n - 1);
      if s[n - 1] > p then s[n - 1] else p
  }

  /** The largest of zero and all of `s`: `max_scale` or `max_min` after
      the first loop of `quantize`. */
  function Largest(s: seq<real>): real
  {
    Peak(s, |s|)
  }

  /** The peak is the largest of zero and the first `n` values: it is not
      negative, no value lies above it, and it is zero or one of them. */
  lemma {:induction false} PeakBounds(s: seq<real>, n: nat)
    requires n <= |s|
    ensures Peak(s, n) >= 0.0
    ensures forall k :: 0 <= k < n ==> s[k] <= Peak(s, n)
    ensures Peak(s, n) == 0.0 || exists k :: 0 <= k < n && s[k] == Peak(s, n)
  {
    if n > 0 {
      PeakBounds(s, n - 1);
    }
  }

  /** No one of the first `n` values lies above their peak. */
  lemma {:induction false} PeakAbove(s: seq<real>, n: nat, k: nat)
    requires k < n <= |s|
    ensures s[k] <= Peak(s, n)
  {
    if k < n - 1 {
      PeakAbove(s, n - 1, k);
    }
  }

  /** The first loop of `quantize`: each sub-block's codes go to its slice
      of `l`, its scale to `scales` and its `the_min` to `mins`, and
      `max_scale` and `max_min` follow the largest of each.  `f` is the
      table of the sub-blocks' fits. */
  method FitSubBlocks(data: seq<real>, sqrt: real -> real, l: array<int>, lAux: array<int>, ghost f: seq<Fit>)
    returns (scales: seq<real>, mins: seq<real>, maxScale: real, maxMin: real)
    requires |data| == 256 && l.Length == 256 && lAux.Length == 32 && l != lAux
    requires RootNonneg(sqrt) && FitsOf(data, sqrt, f)
    modifies l, lAux
    ensures scales == FitScales(f) && mins == FitMins(f)
    ensures maxScale == Largest(FitScales(f)) && maxMin == Largest(FitMins(f))
    ensures forall j :: 0 <= j < 8 ==> l[32 * j..32 * j + 32] == f[j].codes
  {
    var weights := new real[32](_ => 0.0);
    var sc := new real[8](_ => 0.0);
    var mn := new real[8](_ => 0.0);
    maxScale, maxMin := 0.0, 0.0;
    for j := 0 to 8
      invariant Fitted(f, l, sc, mn, maxScale, maxMin, j)
    {
      maxScale, maxMin := FitRound(data, sqrt, j, weights, l, lAux, sc, mn, maxScale, maxMin, f);
    }
    scales, mins := sc[..], mn[..];
    FittedAll(f, l, sc, mn, maxScale, maxMin);
  }

  /** The state of that loop after `j` rounds. */
  ghost predicate Fitted(f: seq<Fit>, l: array<int>, sc: array<real>, mn: array<real>, maxScale: real, maxMin: real, j: nat)
    reads l, sc, mn
    requires |f| == 8 && l.Length == 256 && sc.Length == 8 && mn.Length == 8 && j <= 8
  {
    (forall k :: 0 <= k < j ==> sc[k] == f[k].scale && mn[k] == -f[k].min) &&
    maxScale == Peak(FitScales(f), j) && maxMin == Peak(FitMins(f), j) &&
    (forall k :: 0 <= k < j ==> |f[k].codes| == 32) &&
    (forall k, i :: 0 <= k < j && 0 <= i < 32 ==> l[32 * k + i] == f[k].codes[i])
  }

  /** After all eight rounds the arrays hold the table's scales and offsets. */
  lemma FittedAll(f: seq<Fit>, l: array<int>, sc: array<real>, mn: array<real>, maxScale: real, maxMin: real)
    requires |f| == 8 && l.Length == 256 && sc.Length == 8 && mn.Length == 8
    requires Fitted(f, l, sc, mn, maxScale, maxMin, 8)
    ensures sc[..] == FitScales(f) && mn[..] == FitMins(f)
    ensures forall j :: 0 <= j < 8 ==> l[32 * j..32 * j + 32] == f[j].codes
  {
  }

  /** Round `j` of that loop. */
  method FitRound(data: seq<real>, sqrt: real -> real, j: nat, weights: array<real>, l: array<int>, lAux: array<int>,
                  sc: array<real>, mn: array<real>, maxScale: real, maxMin: real, ghost f: seq<Fit>)
    returns (maxScale': real, maxMin': real)
    requires |data| == 256 && j < 8 && weights.Length == 32 && l.Length == 256 && lAux.Length == 32
    requires sc.Length == 8 && mn.Length == 8 && l != lAux && sc != mn && sc != weights && mn != weights
    requires RootNonneg(sqrt) && FitsOf(data, sqrt, f)
    requires Fitted(f, l, sc, mn, maxScale, maxMin, j)
    modifies weights, l, lAux, sc, mn
    ensures Fitted(f, l, sc, mn, maxScale', maxMin', j + 1)
  {
    var theMin, scale := FitSubBlock(data, sqrt, j, weights, l, lAux, f);
    mn[j] := theMin;
    sc[j] := scale;
    maxScale', maxMin' := maxScale, maxMin;
    if scale > maxScale' {
      maxScale' := scale;
    }
    if mn[j] > maxMin' {
      maxMin' := mn[j];
    }
  }

  /** One round of that loop: `sum_x2`, the weights, and `make_qkx2_quants`
      on sub-block `j`, which changes only its own slice of `l`. */
  method FitSubBlock(data: seq<real>, sqrt: real -> real, j: nat, weights: array<real>, l: array<int>, lAux: array<int>,
                     ghost f: seq<Fit>)
    returns (theMin: real, scale: real)
    requires |data| == 256 && j < 8 && weights.Length == 32 && l.Length == 256 && lAux.Length == 32
    requires l != lAux && RootNonneg(sqrt) && FitsOf(data, sqrt, f)
    modifies weights, l, lAux
    ensures l[32 * j..32 * j + 32] == f[j].codes
    ensures theMin == -f[j].min && scale == f[j].scale
    ensures forall k :: 0 <= k < 256 && !(32 * j <= k < 32 * j + 32) ==> l[k] == old(l[k])
  {
    var x := data[32 * j..32 * j + 32];
    var sumX2 := SquareSum(x);
    var avX := sqrt(sumX2 / 32.0);
    FillWeights(x, avX, weights);
    var w := weights[..];
    SubFitOf(data, sqrt, j, x, avX, w, f);
    theMin, scale := MakeQkx2Quants(x, w, l, 32 * j, lAux);
  }

  /** The weights loop: `weights[i] = av_x + |x[i]|`. */
  method FillWeights(x: seq<real>, avX: real, weights: array<real>)
    requires |x| == 32 && weights.Length == 32
    modifies weights
    ensures forall k :: 0 <= k < 32 ==> weights[k] == avX + Abs(x[k])
  {
    for lw := 0 to 32
      invariant forall k :: 0 <= k < lw ==> weights[k] == avX + Abs(x[k])
    {
      weights[lw] := avX + Abs(x[lw]);
    }
  }

  /** The weights written by that round are those of `Weights`, so the fit
      `make_qkx2_quants` makes with them is the table's entry `j`. */
  lemma SubFitOf(data: seq<real>, sqrt: real -> real, j: nat, x: seq<real>, avX: real, w: seq<real>, f: seq<Fit>)
    requires |data| == 256 && j < 8 && x == data[32 * j..32 * j + 32] && |w| == 32
    requires RootNonneg(sqrt) && FitsOf(data, sqrt, f)
    requires avX == sqrt(SumSquares(x, 32) / 32.0)
    requires forall k :: 0 <= k < 32 ==> w[k] == avX + Abs(x[k])
    ensures Nonneg(w) && f[j] == Qkx2.Qkx2(x, w)
  {
    assert w == Weights(x, sqrt);
    assert SubFit(data, sqrt, j) == f[j];
  }

  /** The `sum_x2` loop. */
  method SquareSum(x: seq<real>) returns (sumX2: real)
    ensures sumX2 == SumSquares(x, |x|)
  {
    sumX2 := 0.0;
    for i := 0 to |x|
      invariant sumX2 == SumSquares(x, i)
    {
      var val := x[i];
      sumX2 := sumX2 + val * val;
    }
  }

  // The scale table.

  /** `nearest_int(inv * v).min(63) as u8`, the six-bit level of a
      sub-block scale or offset. */
  function Level(inv: real, v: real): bv8
  {
    var n := NearestInt(inv * v);
    WrapU8(if n < 63 then n else 63) as bv8
  }

  /** The level of a non-negative value is a six-bit number. */
  lemma LevelBelow(inv: real, v: real)
    requires inv >= 0.0 && v >= 0.0
    ensures Level(inv, v) < 64
  {
    ProductNonneg(inv, v);
  }

  /** For a value no larger than `max` at `inv = 63 / max`, the cut at 63
      takes nothing away: the level is the rounded product. */
  lemma LevelUncut(inv: real, v: real, max: real)
    requires 0.0 <= v <= max && max > 0.0 && inv == Inverse(max)
    ensures Level(inv, v) as int == Round(inv * v)
  {
    BelowSixtyThree(inv, v, max);
    RoundedLevel(inv, v);
  }

  /** A product between 0 and 63 is not cut: its level is its rounding. */
  lemma RoundedLevel(inv: real, v: real)
    requires 0.0 <= inv * v <= 63.0
    ensures Level(inv, v) as int == Round(inv * v)
  {
    var n := NearestInt(inv * v);
    assert n == Round(inv * v) && 0 <= n <= 63;
    ByteValue(n);
  }

  lemma BelowSixtyThree(inv: real, v: real, max: real)
    requires 0.0 <= v <= max && max > 0.0 && inv == Inverse(max)
    ensures 0.0 <= inv * v <= 63.0
  {
    ProductNonneg(inv, v);
    assert inv * max == 63.0;
    assert inv * v <= inv * max;
  }

  /** `inv_scale` and `inv_min`: `63 / max`, or zero when `max` is not positive. */
  function Inverse(max: real): (r: real)
    ensures r >= 0.0
  {
    if max > 0.0 then 63.0 / max else 0.0
  }

  function Levels(inv: real, vs: seq<real>): (r: seq<bv8>)
    requires |vs| == 8
    ensures |r| == 8 && forall j :: 0 <= j < 8 ==> r[j] == Level(inv, vs[j])
  {
    seq(8, j requires 0 <= j < 8 => Level(inv, vs[j]))
  }

  /** The second loop of `quantize`: the six-bit levels `ls` of `scales`
      and `lm` of `mins` packed into a table that starts from zeros. */
  method PackScales(scales: seq<real>, mins: seq<real>, invScale: real, invMin: real) returns (t: seq<bv8>)
    requires |scales| == 8 && |mins| == 8
    ensures t == PackedTable(Levels(invScale, scales), Levels(invMin, mins))
  {
    ghost var ls, lm := Levels(invScale, scales), Levels(invMin, mins);
    var y := new bv8[12](_ => 0);
    for j := 0 to 8
      invariant forall k :: 0 <= k < 12 ==> y[k] == TableByte(ls, lm, j, k)
    {
      var ns := NearestInt(invScale * scales[j]);
      var lsj := WrapU8(if ns < 63 then ns else 63) as bv8;
      var nm := NearestInt(invMin * mins[j]);
      var lmj := WrapU8(if nm < 63 then nm else 63) as bv8;
      assert lsj == ls[j] && lmj == lm[j];
      StoreLevels(y, j, lsj, lmj);
      forall k | 0 <= k < 12
        ensures y[k] == TableByte(ls, lm, j + 1, k)
      {
        TableStep(ls, lm, j, k);
      }
    }
    t := y[..];
  }

  /** The stores of round `j` of the packing loop, of the levels `s` and `m`. */
  method StoreLevels(y: array<bv8>, j: nat, s: bv8, m: bv8)
    requires y.Length == 12 && j < 8
    modifies y
    ensures forall k :: 0 <= k < 12 ==> y[k] == RoundByte(old(y[k]), s, m, j, k)
  {
    if j < 4 {
      y[j] := s;
      y[j + 4] := m;
    } else {
      var lo, top := y[j - 4], y[j];
      y[j + 4] := (s & 0xF) | ((m & 0xF) << 4);
      y[j - 4] := lo | ((s >> 4) << 6);
      y[j] := top | ((m >> 4) << 6);
    }
  }

  /** Byte `k`, holding `b`, after round `j` stores the levels `s` and `m`:
      rounds `0 .. 4` store whole levels in bytes `j` and `j + 4`, rounds
      `4 .. 8` their low nibbles in byte `j + 4` and their top two bits in
      bytes `j - 4` and `j`. */
  function RoundByte(b: bv8, s: bv8, m: bv8, j: nat, k: nat): bv8
  {
    if j < 4 then (if k == j then s else if k == j + 4 then m else b)
    else if k == j + 4 then (s & 0xF) | ((m & 0xF) << 4)
    else if k == j - 4 then b | ((s >> 4) << 6)
    else if k == j then b | ((m >> 4) << 6)
    else b
  }

  /** What round `j` of the packing loop does to byte `k`. */
  lemma TableStep(ls: seq<bv8>, lm: seq<bv8>, j: nat, k: nat)
    requires |ls| == 8 && |lm| == 8 && j < 8 && k < 12
    ensures TableByte(ls, lm, j + 1, k) == RoundByte(TableByte(ls, lm, j, k), ls[j], lm[j], j, k)
  {
    if j < 4 {
      LowRound(ls, lm, j, k);
    } else {
      HighRound(ls, lm, j, k);
    }
  }

  /** Rounds `0 .. 4` store whole bytes into bytes still zero. */
  lemma LowRound(ls: seq<bv8>, lm: seq<bv8>, j: nat, k: nat)
    requires |ls| == 8 && |lm| == 8 && j < 4 && k < 12
    ensures TableByte(ls, lm, j + 1, k) ==
      if k == j then ls[j] else if k == j + 4 then lm[j] else TableByte(ls, lm, j, k)
  {
    if k < 4 {
    } else if k < 8 {
    } else {
    }
  }

  /** Rounds `4 .. 8` store one byte of nibbles and OR two high pairs into
      bytes already written. */
  lemma HighRound(ls: seq<bv8>, lm: seq<bv8>, j: nat, k: nat)
    requires |ls| == 8 && |lm| == 8 && 4 <= j < 8 && k < 12
    ensures TableByte(ls, lm, j + 1, k) ==
      if k == j + 4 then (ls[j] & 0xF) | ((lm[j] & 0xF) << 4)
      else if k == j - 4 then TableByte(ls, lm, j, k) | ((ls[j] >> 4) << 6)
      else if k == j then TableByte(ls, lm, j, k) | ((lm[j] >> 4) << 6)
      else TableByte(ls, lm, j, k)
  {
    if k < 4 {
    } else if k < 8 {
    } else {
    }
  }


  // Requantization with the stored scales.

  /** The scale `d` of sub-block `j` as it is read back from the table:
      the block scale times the six-bit level. */
  function SubScale(t: seq<bv8>, dm: DeltaMin, toF32: Half -> real, j: nat): real
    requires |t| == 12 && j < 8
  {
    Times(toF32(dm.delta), GetScaleMinK4(j, t).0)
  }

  /** `d * level as f32`: a block scale or offset times a level or code. */
  function Times(d: real, level: bv8): real
  {
    d * (level as int) as real
  }

  /** The offset `dm` of sub-block `j` read back the same way. */
  function SubMin(t: seq<bv8>, dm: DeltaMin, toF32: Half -> real, j: nat): real
    requires |t| == 12 && j < 8
  {
    Times(toF32(dm.min), GetScaleMinK4(j, t).1)
  }

  /** `nearest_int((x + dm) / d).clamp(0, 15)`. */
  function RequantCode(x: real, d: real, dm: real): (c: int)
    requires d != 0.0
    ensures 0 <= c <= 15
  {
    Clamp(NearestInt((x + dm) / d), 0, 15)
  }

  /** Code `i` of sub-block `j` after the third loop of `quantize`, which
      found the codes `l`: a sub-block whose read-back scale is zero is
      skipped, any other is coded again against its read-back scale and
      offset. */
  function Requantized(data: seq<real>, t: seq<bv8>, dm: DeltaMin, toF32: Half -> real, l: seq<int>, j: nat, i: nat): int
    requires |data| == 256 && |t| == 12 && |l| == 256 && j < 8 && i < 32
  {
    var d := SubScale(t, dm, toF32, j);
    if d == 0.0 then l[32 * j + i] else RequantCode(data[32 * j + i], d, SubMin(t, dm, toF32, j))
  }

  /** The third loop of `quantize`. */
  method Requantize(data: seq<real>, t: seq<bv8>, dm: DeltaMin, toF32: Half -> real, l: array<int>)
    requires |data| == 256 && |t| == 12 && l.Length == 256
    modifies l
    ensures forall j, i :: 0 <= j < 8 && 0 <= i < 32 ==>
      l[32 * j + i] == Requantized(data, t, dm, toF32, old(l[..]), j, i)
  {
    ghost var prev := l[..];
    for j := 0 to 8
      invariant Requantified(data, t, dm, toF32, prev, l, j)
    {
      var (sc, m) := GetScaleMinK4(j, t);
      var d := Times(toF32(dm.delta), sc);
      assert d == SubScale(t, dm, toF32, j);
      if d == 0.0 {
        SkipRound(data, t, dm, toF32, prev, l, j);
        continue;
      }
      var dmv := Times(toF32(dm.min), m);
      assert dmv == SubMin(t, dm, toF32, j);
      RecodeRound(data, t, dm, toF32, prev, l, j, d, dmv);
    }
  }

  /** The state of that loop after `j` rounds: the first `j` sub-blocks are
      done and the rest still hold the codes `prev` found. */
  ghost predicate Requantified(data: seq<real>, t: seq<bv8>, dm: DeltaMin, toF32: Half -> real, prev: seq<int>,
                               l: array<int>, j: nat)
    reads l
    requires |data| == 256 && |t| == 12 && |prev| == 256 && l.Length == 256 && j <= 8
  {
    (forall k, i :: 0 <= k < j && 0 <= i < 32 ==> l[32 * k + i] == Requantized(data, t, dm, toF32, prev, k, i)) &&
    (forall k :: 32 * j <= k < 256 ==> l[k] == prev[k])
  }

  /** A round whose scale is zero changes nothing. */
  lemma SkipRound(data: seq<real>, t: seq<bv8>, dm: DeltaMin, toF32: Half -> real, prev: seq<int>,
                  l: array<int>, j: nat)
    requires |data| == 256 && |t| == 12 && |prev| == 256 && l.Length == 256 && j < 8
    requires Requantified(data, t, dm, toF32, prev, l, j) && SubScale(t, dm, toF32, j) == 0.0
    ensures Requantified(data, t, dm, toF32, prev, l, j + 1)
  {
    forall i | 0 <= i < 32
      ensures l[32 * j + i] == Requantized(data, t, dm, toF32, prev, j, i)
    {
      Skipped(data, t, dm, toF32, prev, j, i);
    }
  }

  /** A round with a scale codes its sub-block again. */
  method RecodeRound(data: seq<real>, t: seq<bv8>, dm: DeltaMin, toF32: Half -> real, ghost prev: seq<int>,
                     l: array<int>, j: nat, d: real, dmv: real)
    requires |data| == 256 && |t| == 12 && |prev| == 256 && l.Length == 256 && j < 8
    requires Requantified(data, t, dm, toF32, prev, l, j)
    requires d == SubScale(t, dm, toF32, j) && d != 0.0 && dmv == SubMin(t, dm, toF32, j)
    modifies l
    ensures Requantified(data, t, dm, toF32, prev, l, j + 1)
  {
    RequantizeChunk(data, j, d, dmv, l);
    forall i | 0 <= i < 32
      ensures l[32 * j + i] == Requantized(data, t, dm, toF32, prev, j, i)
    {
      Recoded(data, t, dm, toF32, prev, j, i, d, dmv);
    }
  }

  /** A sub-block whose read-back scale is zero keeps the codes it had. */
  lemma Skipped(data: seq<real>, t: seq<bv8>, dm: DeltaMin, toF32: Half -> real, l: seq<int>, j: nat, i: nat)
    requires |data| == 256 && |t| == 12 && |l| == 256 && j < 8 && i < 32
    requires SubScale(t, dm, toF32, j) == 0.0
    ensures Requantized(data, t, dm, toF32, l, j, i) == l[32 * j + i]
  {
  }

  /** Any other is coded against `d` and `dm` as the loop computes them. */
  lemma Recoded(data: seq<real>, t: seq<bv8>, dm: DeltaMin, toF32: Half -> real, l: seq<int>, j: nat, i: nat,
                d: real, dmv: real)
    requires |data| == 256 && |t| == 12 && |l| == 256 && j < 8 && i < 32
    requires d == SubScale(t, dm, toF32, j) && d != 0.0
    requires dmv == SubMin(t, dm, toF32, j)
    ensures Requantized(data, t, dm, toF32, l, j, i) == RequantCode(data[32 * j + i], d, dmv)
  {
  }

  /** The inner loop for sub-block `j`, with `d != 0`. */
  method RequantizeChunk(data: seq<real>, j: nat, d: real, dmv: real, l: array<int>)
    requires |data| == 256 && j < 8 && l.Length == 256 && d != 0.0
    modifies l
    ensures forall k :: 32 * j <= k < 32 * j + 32 ==> l[k] == RequantCode(data[k], d, dmv)
    ensures forall k :: 0 <= k < 256 && !(32 * j <= k < 32 * j + 32) ==> l[k] == old(l[k])
  {
    for ii := 0 to 32
      invariant forall k :: 32 * j <= k < 32 * j + ii ==> l[k] == RequantCode(data[k], d, dmv)
      invariant forall k :: 0 <= k < 256 && !(32 * j <= k < 32 * j + ii) ==> l[k] == old(l[k])
    {
      l[32 * j + ii] := RequantCode(data[32 * j + ii], d, dmv);
    }
  }

  // The packed codes.

  predicate CodesIn(l: seq<int>)
  {
    forall k :: 0 <= k < |l| ==> 0 <= l[k] <= 15
  }

  /** Byte `i` of run `c` of the packed codes: `l[64 c + i] | (l[64 c + 32 + i] << 4)`. */
  function QsByte(l: seq<int>, c: nat, i: nat): bv8
    requires |l| == 256 && CodesIn(l) && c < 4 && i < 32
  {
    Pair(l[64 * c + i] as bv8, l[64 * c + 32 + i] as bv8)
  }

  /** The fourth loop of `quantize`: each run of 64 codes becomes 32 bytes,
      code `i` of the run in the low nibble of byte `i` and code `32 + i`
      in its high nibble. */
  method PackQs(l: seq<int>) returns (qs: seq<bv8>)
    requires |l| == 256 && CodesIn(l)
    ensures |qs| == 128
    ensures forall c, i :: 0 <= c < 4 && 0 <= i < 32 ==> qs[32 * c + i] == QsByte(l, c, i)
  {
    var y := new bv8[128](_ => 0);
    var qPtr := 0;
    var j := 0;
    ghost var c := 0;
    while j < 256
      invariant c <= 4 && j == 64 * c && qPtr == 32 * c
      invariant forall c', i :: 0 <= c' < c && 0 <= i < 32 ==> y[32 * c' + i] == QsByte(l, c', i)
    {
      qPtr := PackRun(l, y, j, qPtr, c);
      j := j + 64;
      c := c + 1;
    }
    qs := y[..];
  }

  /** One run of that loop, from code `j` into byte `qPtr`. */
  method PackRun(l: seq<int>, y: array<bv8>, j: nat, qPtr: nat, ghost c: nat) returns (qPtr': nat)
    requires |l| == 256 && CodesIn(l) && y.Length == 128 && c < 4 && j == 64 * c && qPtr == 32 * c
    modifies y
    ensures qPtr' == qPtr + 32
    ensures forall i :: 0 <= i < 32 ==> y[32 * c + i] == QsByte(l, c, i)
    ensures forall k :: 0 <= k < 32 * c ==> y[k] == old(y[k])
  {
    qPtr' := qPtr;
    for li := 0 to 32
      invariant qPtr' == qPtr + li
      invariant forall i :: 0 <= i < li ==> y[32 * c + i] == QsByte(l, c, i)
      invariant forall k :: 0 <= k < 128 && !(qPtr <= k < qPtr') ==> y[k] == old(y[k])
    {
      y[qPtr'] := (l[j + li] as bv8) | ((l[j + li + 32] as bv8) << 4);
      qPtr' := qPtr' + 1;
    }
  }

  /** Code `i` of sub-block `s` as `dequantize` reads it: sub-blocks `2 c`
      and `2 c + 1` share bytes `32 c .. 32 c + 32`, the even one in the low
      nibbles and the odd one in the high nibbles. */
  function CodeAt(b: Block, s: nat, i: nat): (r: bv8)
    requires Valid(b) && s < 8 && i < 32
    ensures r <= 15
  {
    var q := b.qs[32 * (s / 2) + i];
    if s % 2 == 0 then Lo(q) else Hi(q)
  }

  /** Sample `k` as `dequantize` computes it: code `k % 32` of sub-block
      `k / 32` times that sub-block's scale, less its offset. */
  function Value(b: Block, toF32: Half -> real, k: nat): real
    requires Valid(b) && k < 256
  {
    Reconstructed(CodeAt(b, k / 32, k % 32), SubScale(b.scales, b.deltaMin, toF32, k / 32), SubMin(b.scales, b.deltaMin, toF32, k / 32))
  }

  /** `d * q as f32 - m`. */
  function Reconstructed(q: bv8, d: real, m: real): real
  {
    Times(d, q) - m
  }

  /** `Q4K::dequantize`: chunk `c` of 64 samples holds sub-blocks `2 c`
      (the low nibbles of `qs[32 c .. 32 c + 32]`) and `2 c + 1` (the high
      nibbles). */
  method Dequantize(b: Block, toF32: Half -> real) returns (ans: seq<real>)
    requires Valid(b)
    ensures |ans| == 256
    ensures forall k :: 0 <= k < 256 ==> ans[k] == Value(b, toF32, k)
  {
    ghost var v := SampleTable(b, toF32);
    var y := new real[256](_ => 0.0);
    var d := toF32(b.deltaMin.delta);
    var min := toF32(b.deltaMin.min);
    var sub := 0;
    for jChunk := 0 to 4
      invariant sub == 2 * jChunk
      invariant forall k :: 0 <= k < 64 * jChunk ==> y[k] == v[k]
    {
      DequantizeChunk(b, toF32, y, jChunk, d, min, sub, v);
      sub := sub + 2;
    }
    ans := y[..];
  }

  /** The 256 samples of a block as one table, linked to `Value` only where
      `Value` itself is mentioned (which keeps the loops of `Dequantize`
      from unfolding the nibbles at every index). */
  lemma SampleTable(b: Block, toF32: Half -> real) returns (v: seq<real>)
    requires Valid(b)
    ensures IsSampleTable(b, toF32, v)
  {
    v := seq(256, k requires 0 <= k < 256 => Value(b, toF32, k));
  }

  ghost predicate IsSampleTable(b: Block, toF32: Half -> real, v: seq<real>)
    requires Valid(b)
  {
    |v| == 256 && forall k {:trigger Value(b, toF32, k)} :: 0 <= k < 256 ==> Value(b, toF32, k) == v[k]
  }

  /** The body of the loop of `dequantize` over chunk `c`, whose
      sub-blocks are `sub` and `sub + 1`. */
  method DequantizeChunk(b: Block, toF32: Half -> real, y: array<real>, c: nat, d: real, min: real, sub: nat,
                         ghost v: seq<real>)
    requires Valid(b) && y.Length == 256 && c < 4 && sub == 2 * c && IsSampleTable(b, toF32, v)
    requires d == toF32(b.deltaMin.delta) && min == toF32(b.deltaMin.min)
    modifies y
    ensures forall k :: 64 * c <= k < 64 * c + 64 ==> y[k] == v[k]
    ensures forall k :: 0 <= k < 256 && !(64 * c <= k < 64 * c + 64) ==> y[k] == old(y[k])
  {
    var (sc1, m1) := GetScaleMinK4(sub, b.scales);
    var d1 := Times(d, sc1);
    var min1 := Times(min, m1);
    var (sc2, m2) := GetScaleMinK4(sub + 1, b.scales);
    var d2 := Times(d, sc2);
    var min2 := Times(min, m2);
    ChunkLoop(b, toF32, y, c, d1, min1, d2, min2, v);
  }

  /** The inner loop of `dequantize` over chunk `c`, with the scales and
      offsets of its two sub-blocks. */
  method ChunkLoop(b: Block, toF32: Half -> real, y: array<real>, c: nat, d1: real, min1: real, d2: real, min2: real,
                   ghost v: seq<real>)
    requires Valid(b) && y.Length == 256 && c < 4 && IsSampleTable(b, toF32, v)
    requires d1 == SubScale(b.scales, b.deltaMin, toF32, 2 * c) && min1 == SubMin(b.scales, b.deltaMin, toF32, 2 * c)
    requires d2 == SubScale(b.scales, b.deltaMin, toF32, 2 * c + 1) && min2 == SubMin(b.scales, b.deltaMin, toF32, 2 * c + 1)
    modifies y
    ensures forall k :: 64 * c <= k < 64 * c + 64 ==> y[k] == v[k]
    ensures forall k :: 0 <= k < 256 && !(64 * c <= k < 64 * c + 64) ==> y[k] == old(y[k])
  {
    for i := 0 to 32
      invariant forall k :: 64 * c <= k < 64 * c + i ==> y[k] == v[k]
      invariant forall k :: 64 * c + 32 <= k < 64 * c + 32 + i ==> y[k] == v[k]
      invariant forall k :: 0 <= k < 256 && !(64 * c <= k < 64 * c + 64) ==> y[k] == old(y[k])
    {
      var q := b.qs[32 * c + i];
      ChunkCodes(b, toF32, c, i, v);
      y[64 * c + i] := Reconstructed(q & 0x0F, d1, min1);
      y[64 * c + 32 + i] := Reconstructed(q >> 4, d2, min2);
    }
  }

  /** Samples `64 c + i` and `64 c + 32 + i` come from the low and the high
      nibble of `qs[32 c + i]`. */
  lemma ChunkCodes(b: Block, toF32: Half -> real, c: nat, i: nat, v: seq<real>)
    requires Valid(b) && c < 4 && i < 32 && IsSampleTable(b, toF32, v)
    ensures v[64 * c + i] ==
      Reconstructed(b.qs[32 * c + i] & 0x0F, SubScale(b.scales, b.deltaMin, toF32, 2 * c), SubMin(b.scales, b.deltaMin, toF32, 2 * c))
    ensures v[64 * c + 32 + i] ==
      Reconstructed(b.qs[32 * c + i] >> 4, SubScale(b.scales, b.deltaMin, toF32, 2 * c + 1), SubMin(b.scales, b.deltaMin, toF32, 2 * c + 1))
  {
    assert (64 * c + i) / 32 == 2 * c && (64 * c + i) % 32 == i;
    assert (64 * c + 32 + i) / 32 == 2 * c + 1 && (64 * c + 32 + i) % 32 == i;
    assert (2 * c) / 2 == c && (2 * c) % 2 == 0;
    assert (2 * c + 1) / 2 == c && (2 * c + 1) % 2 == 1;
    assert v[64 * c + i] == Value(b, toF32, 64 * c + i);
    assert v[64 * c + 32 + i] == Value(b, toF32, 64 * c + 32 + i);
  }

  // The whole of `quantize`.

  /** The codes of the eight fits laid end to end, as `l` holds them after
      the first loop of `quantize`. */
  function FittedCodes(f: seq<Fit>): (l: seq<int>)
    requires |f| == 8 && FitsInRange(f)
    ensures |l| == 256 && CodesIn(l)
  {
    seq(256, k requires 0 <= k < 256 => f[k / 32].codes[k % 32])
  }

  /** `Q4K::quantize`: the sub-blocks are fitted, their scales and offsets
      go to the table as six-bit levels of the largest of each, and the
      codes are fitted again against the scales read back from the table. */
  method Quantize(data: seq<real>, sqrt: real -> real, fromF32: real -> Half, toF32: Half -> real) returns (b: Block)
    requires |data| == 256 && RootNonneg(sqrt)
    ensures Valid(b) && QuantizedFrom(data, toF32, fromF32, SubFits(data, sqrt), b)
  {
    b := QuantizeWith(data, sqrt, fromF32, toF32, SubFits(data, sqrt));
  }

  /** What `quantize` stores, given the fits `f` its first loop finds. */
  ghost predicate QuantizedFrom(data: seq<real>, toF32: Half -> real, fromF32: real -> Half, f: seq<Fit>, b: Block)
    requires |data| == 256 && |f| == 8 && FitsInRange(f) && Valid(b)
  {
    QuantizedScales(fromF32, f, b) && QuantizedCodes(data, toF32, f, b)
  }

  /** The block scale and offset are the largest fitted scale and offset
      over 63, and the table holds the six-bit levels of every fitted scale
      and offset against those largest values. */
  ghost predicate QuantizedScales(fromF32: real -> Half, f: seq<Fit>, b: Block)
    requires |f| == 8 && Valid(b)
  {
    var maxScale, maxMin := Largest(FitScales(f)), Largest(FitMins(f));
    b.deltaMin == DeltaMin(fromF32(maxScale / 63.0), fromF32(maxMin / 63.0)) &&
    b.scales == PackedTable(Levels(Inverse(maxScale), FitScales(f)), Levels(Inverse(maxMin), FitMins(f)))
  }

  /** Every code is the fitted one coded again against the scale and offset
      read back from the table. */
  ghost predicate QuantizedCodes(data: seq<real>, toF32: Half -> real, f: seq<Fit>, b: Block)
    requires |data| == 256 && |f| == 8 && FitsInRange(f) && Valid(b)
  {
    forall s, i :: 0 <= s < 8 && 0 <= i < 32 ==>
      CodeAt(b, s, i) as int == Requantized(data, b.scales, b.deltaMin, toF32, FittedCodes(f), s, i)
  }

  /** `Quantize`, given the fits `f` its first loop finds. */
  method QuantizeWith(data: seq<real>, sqrt: real -> real, fromF32: real -> Half, toF32: Half -> real, ghost f: seq<Fit>)
    returns (b: Block)
    requires |data| == 256 && RootNonneg(sqrt) && FitsOf(data, sqrt, f) && FitsInRange(f)
    ensures Valid(b) && QuantizedFrom(data, toF32, fromF32, f, b)
  {
    var l := new int[256](_ => 0);
    var lAux := new int[32](_ => 0);
    var scales, mins, maxScale, maxMin := FitSubBlocks(data, sqrt, l, lAux, f);
    var t, dm := PackTable(scales, mins, maxScale, maxMin, fromF32);
    FittedAllCodes(l[..], f);
    ghost var fitted := l[..];
    Requantize(data, t, dm, toF32, l);
    ghost var codes := l[..];
    RequantizedIn(data, t, dm, toF32, fitted, codes);
    var qs := PackQs(l[..]);
    b := Block(dm, t, qs);
    PackedCodes(b, codes);
    QuantizedParts(data, toF32, fromF32, f, b, codes);
  }

  /** The second loop of `quantize` and the block scale and offset: levels
      against `63 / max_scale` and `63 / max_min` (zero where the largest
      value is zero), and the largest values over 63. */
  method PackTable(scales: seq<real>, mins: seq<real>, maxScale: real, maxMin: real, fromF32: real -> Half)
    returns (t: seq<bv8>, dm: DeltaMin)
    requires |scales| == 8 && |mins| == 8
    ensures t == PackedTable(Levels(Inverse(maxScale), scales), Levels(Inverse(maxMin), mins))
    ensures dm == DeltaMin(fromF32(maxScale / 63.0), fromF32(maxMin / 63.0))
  {
    var invScale := if maxScale > 0.0 then 63.0 / maxScale else 0.0;
    var invMin := if maxMin > 0.0 then 63.0 / maxMin else 0.0;
    t := PackScales(scales, mins, invScale, invMin);
    dm := DeltaMin(fromF32(maxScale / 63.0), fromF32(maxMin / 63.0));
  }

  /** The parts of `quantize` make up its result. */
  lemma QuantizedParts(data: seq<real>, toF32: Half -> real, fromF32: real -> Half, f: seq<Fit>, b: Block, codes: seq<int>)
    requires |data| == 256 && |f| == 8 && FitsInRange(f) && Valid(b) && |codes| == 256
    requires var maxScale, maxMin := Largest(FitScales(f)), Largest(FitMins(f));
      b.deltaMin == DeltaMin(fromF32(maxScale / 63.0), fromF32(maxMin / 63.0)) &&
      b.scales == PackedTable(Levels(Inverse(maxScale), FitScales(f)), Levels(Inverse(maxMin), FitMins(f)))
    requires forall s, i :: 0 <= s < 8 && 0 <= i < 32 ==> CodeAt(b, s, i) as int == codes[32 * s + i]
    requires forall j, i :: 0 <= j < 8 && 0 <= i < 32 ==>
      codes[32 * j + i] == Requantized(data, b.scales, b.deltaMin, toF32, FittedCodes(f), j, i)
    ensures QuantizedFrom(data, toF32, fromF32, f, b)
  {
  }

  /** `l` after the first loop holds the fitted codes. */
  lemma FittedAllCodes(l: seq<int>, f: seq<Fit>)
    requires |l| == 256 && |f| == 8 && FitsInRange(f)
    requires forall j :: 0 <= j < 8 ==> l[32 * j..32 * j + 32] == f[j].codes
    ensures l == FittedCodes(f)
  {
    forall k | 0 <= k < 256
      ensures l[k] == FittedCodes(f)[k]
    {
      var j, i := k / 32, k % 32;
      assert k == 32 * j + i;
      assert l[32 * j..32 * j + 32][i] == l[k];
    }
  }

  /** After the third loop every code is still in `[0, 15]`. */
  lemma RequantizedIn(data: seq<real>, t: seq<bv8>, dm: DeltaMin, toF32: Half -> real, fitted: seq<int>, codes: seq<int>)
    requires |data| == 256 && |t| == 12 && |fitted| == 256 && |codes| == 256 && CodesIn(fitted)
    requires forall j, i :: 0 <= j < 8 && 0 <= i < 32 ==> codes[32 * j + i] == Requantized(data, t, dm, toF32, fitted, j, i)
    ensures CodesIn(codes)
  {
    forall k | 0 <= k < 256
      ensures 0 <= codes[k] <= 15
    {
      var j, i := k / 32, k % 32;
      assert k == 32 * j + i;
      assert codes[32 * j + i] == Requantized(data, t, dm, toF32, fitted, j, i);
    }
  }

  /** The packed bytes give back every code through `CodeAt`. */
  lemma PackedCodes(b: Block, codes: seq<int>)
    requires Valid(b) && |codes| == 256 && CodesIn(codes)
    requires forall c, i :: 0 <= c < 4 && 0 <= i < 32 ==> b.qs[32 * c + i] == QsByte(codes, c, i)
    ensures forall s, i :: 0 <= s < 8 && 0 <= i < 32 ==> CodeAt(b, s, i) as int == codes[32 * s + i]
  {
    forall s, i | 0 <= s < 8 && 0 <= i < 32
      ensures CodeAt(b, s, i) as int == codes[32 * s + i]
    {
      var c := s / 2;
      assert b.qs[32 * c + i] == QsByte(codes, c, i);
      var lo, hi := codes[64 * c + i], codes[64 * c + 32 + i];
      PairNibbles(lo as bv8, hi as bv8);
      ByteValue(lo);
      ByteValue(hi);
      if s % 2 == 0 {
        assert 32 * s + i == 64 * c + i;
      } else {
        assert 32 * s + i == 64 * c + 32 + i;
      }
    }
  }

  // What a quantized block holds.

  /** Reading the table of a quantized block back gives, for every
      sub-block, the six-bit levels of its fitted scale and offset; when the
      largest value is not zero, no level is cut at 63, so each is the
      rounded ratio to the largest value, times 63. */
  lemma TableLevels(fromF32: real -> Half, f: seq<Fit>, b: Block, j: nat)
    requires |f| == 8 && FitsInRange(f) && Valid(b) && j < 8
    requires QuantizedScales(fromF32, f, b)
    ensures var scales, mins := FitScales(f), FitMins(f);
      var maxScale, maxMin := Largest(scales), Largest(mins);
      GetScaleMinK4(j, b.scales) == (Level(Inverse(maxScale), f[j].scale), Level(Inverse(maxMin), -f[j].min)) &&
      b.deltaMin.delta == fromF32(maxScale / 63.0) && b.deltaMin.min == fromF32(maxMin / 63.0)
  {
    FitsNonneg(f);
    LevelTable(FitScales(f), FitMins(f), j);
    StoredScales(fromF32, f, b);
  }

  /** Fitted scales and `the_min` offsets are not negative. */
  lemma FitsNonneg(f: seq<Fit>)
    requires FitsInRange(f)
    ensures Nonneg(FitScales(f)) && Nonneg(FitMins(f))
  {
    forall k | 0 <= k < |f|
      ensures FitScales(f)[k] >= 0.0 && FitMins(f)[k] >= 0.0
    {
      assert f[k].scale >= 0.0 && f[k].min <= 0.0;
    }
  }

  /** The table packed from the levels of non-negative scales and offsets
      against their largest values reads back as those levels. */
  lemma LevelTable(scales: seq<real>, mins: seq<real>, j: nat)
    requires |scales| == 8 && |mins| == 8 && Nonneg(scales) && Nonneg(mins) && j < 8
    ensures var maxScale, maxMin := Largest(scales), Largest(mins);
      GetScaleMinK4(j, PackedTable(Levels(Inverse(maxScale), scales), Levels(Inverse(maxMin), mins)))
        == (Level(Inverse(maxScale), scales[j]), Level(Inverse(maxMin), mins[j]))
  {
    LevelsReadBack(Inverse(Largest(scales)), Inverse(Largest(mins)), scales, mins, j);
  }

  /** The table packed from the levels of non-negative values reads back as
      those levels. */
  lemma LevelsReadBack(invScale: real, invMin: real, scales: seq<real>, mins: seq<real>, j: nat)
    requires |scales| == 8 && |mins| == 8 && Nonneg(scales) && Nonneg(mins) && j < 8
    requires invScale >= 0.0 && invMin >= 0.0
    ensures GetScaleMinK4(j, PackedTable(Levels(invScale, scales), Levels(invMin, mins)))
      == (Level(invScale, scales[j]), Level(invMin, mins[j]))
  {
    var ls, lm := Levels(invScale, scales), Levels(invMin, mins);
    forall k | 0 <= k < 8
      ensures ls[k] < 64 && lm[k] < 64
    {
      LevelBelow(invScale, scales[k]);
      LevelBelow(invMin, mins[k]);
    }
    ScaleTableRoundTrip(ls, lm, j);
  }

  /** Against the largest of non-negative values, a level is not cut. */
  lemma PeakUncut(vs: seq<real>, j: nat, max: real)
    requires |vs| == 8 && Nonneg(vs) && j < 8 && max == Largest(vs)
    ensures max > 0.0 ==> Level(Inverse(max), vs[j]) as int == Round(Inverse(max) * vs[j])
  {
    if max > 0.0 {
      PeakAbove(vs, |vs|, j);
      LevelUncut(Inverse(max), vs[j], max);
    }
  }

  /** Code `i` of fit `j` sits at `32 j + i` of the fitted codes. */
  lemma FittedCodesAt(f: seq<Fit>, j: nat, i: nat)
    requires |f| == 8 && FitsInRange(f) && j < 8 && i < 32
    ensures FittedCodes(f)[32 * j + i] == f[j].codes[i]
  {
    assert (32 * j + i) / 32 == j && (32 * j + i) % 32 == i;
  }

  /** A sub-block whose scale reads back as zero keeps the codes of its fit. */
  lemma ZeroScaleKeepsFit(data: seq<real>, toF32: Half -> real, f: seq<Fit>, b: Block, s: nat, i: nat)
    requires |data| == 256 && |f| == 8 && FitsInRange(f) && Valid(b) && s < 8 && i < 32
    requires QuantizedCodes(data, toF32, f, b) && SubScale(b.scales, b.deltaMin, toF32, s) == 0.0
    ensures CodeAt(b, s, i) as int == f[s].codes[i]
  {
    assert CodeAt(b, s, i) as int == Requantized(data, b.scales, b.deltaMin, toF32, FittedCodes(f), s, i);
    FittedCodesAt(f, s, i);
  }

  /** Any other sub-block is coded again as `nearest_int((x + dm) / d)`
      clamped to `[0, 15]`, with the scale `d` and offset `dm` read back. */
  lemma ScaleRecodes(data: seq<real>, toF32: Half -> real, f: seq<Fit>, b: Block, s: nat, i: nat)
    requires |data| == 256 && |f| == 8 && FitsInRange(f) && Valid(b) && s < 8 && i < 32
    requires QuantizedCodes(data, toF32, f, b) && SubScale(b.scales, b.deltaMin, toF32, s) != 0.0
    ensures CodeAt(b, s, i) as int ==
      RequantCode(data[32 * s + i], SubScale(b.scales, b.deltaMin, toF32, s), SubMin(b.scales, b.deltaMin, toF32, s))
  {
    assert CodeAt(b, s, i) as int == Requantized(data, b.scales, b.deltaMin, toF32, FittedCodes(f), s, i);
  }

  /** Dequantizing a quantized block gives every sample as its code times
      the stored block scale times the sub-block's scale level, less the
      stored block offset times its offset level. */
  lemma DequantizeQuantize(toF32: Half -> real, fromF32: real -> Half, f: seq<Fit>, b: Block, s: nat, i: nat)
    requires |f| == 8 && FitsInRange(f) && Valid(b) && s < 8 && i < 32
    requires QuantizedScales(fromF32, f, b)
    ensures var maxScale, maxMin := Largest(FitScales(f)), Largest(FitMins(f));
      Value(b, toF32, 32 * s + i) ==
        Times(Times(toF32(fromF32(maxScale / 63.0)), Level(Inverse(maxScale), f[s].scale)), CodeAt(b, s, i))
        - Times(toF32(fromF32(maxMin / 63.0)), Level(Inverse(maxMin), -f[s].min))
  {
    var maxScale, maxMin := Largest(FitScales(f)), Largest(FitMins(f));
    TableLevels(fromF32, f, b, s);
    ValueOfLevels(b, toF32, s, i, toF32(fromF32(maxScale / 63.0)), toF32(fromF32(maxMin / 63.0)),
                  Level(Inverse(maxScale), f[s].scale), Level(Inverse(maxMin), -f[s].min));
  }

  /** Sample `32 s + i` from the block scale `d` and offset `m` and the
      sub-block's levels `ls` and `lm` read from the table. */
  lemma ValueOfLevels(b: Block, toF32: Half -> real, s: nat, i: nat, d: real, m: real, ls: bv8, lm: bv8)
    requires Valid(b) && s < 8 && i < 32
    requires GetScaleMinK4(s, b.scales) == (ls, lm) && toF32(b.deltaMin.delta) == d && toF32(b.deltaMin.min) == m
    ensures Value(b, toF32, 32 * s + i) == Times(Times(d, ls), CodeAt(b, s, i)) - Times(m, lm)
  {
    SampleAt(b, toF32, s, i);
  }

  /** The block scale and offset stored are the largest fitted ones over 63. */
  lemma StoredScales(fromF32: real -> Half, f: seq<Fit>, b: Block)
    requires |f| == 8 && Valid(b) && QuantizedScales(fromF32, f, b)
    ensures b.deltaMin.delta == fromF32(Largest(FitScales(f)) / 63.0)
    ensures b.deltaMin.min == fromF32(Largest(FitMins(f)) / 63.0)
  {
  }

  /** Sample `32 s + i` is code `i` of sub-block `s`. */
  lemma SampleAt(b: Block, toF32: Half -> real, s: nat, i: nat)
    requires Valid(b) && s < 8 && i < 32
    ensures Value(b, toF32, 32 * s + i) ==
      Reconstructed(CodeAt(b, s, i), SubScale(b.scales, b.deltaMin, toF32, s), SubMin(b.scales, b.deltaMin, toF32, s))
  {
    assert (32 * s + i) / 32 == s && (32 * s + i) % 32 == i;
  }

  /** `Q4K::ZEROS` is a block, and with a zero block scale and offset every
      sample comes back as zero. */
  lemma ZeroBlock(toF32: Half -> real, k: nat)
    requires toF32(HALF_ZERO) == 0.0 && k < 256
    ensures Valid(ZEROS) && Value(ZEROS, toF32, k) == 0.0
  {
  }

  // The `#[repr(C)]` layout.

  /** `delta_min`, then `scales`, then `qs`: 144 bytes. */
  function ToBytes(b: Block): (r: seq<bv8>)
    requires Valid(b)
    ensures |r| == 144
  {
    DeltaMinBytes(b.deltaMin) + b.scales + b.qs
  }

  function FromBytes(s: seq<bv8>): (b: Block)
    requires |s| == 144
    ensures Valid(b)
  {
    Block(DeltaMinFrom(s[..4]), s[4..16], s[16..])
  }

  lemma FromToBytes(b: Block)
    requires Valid(b)
    ensures FromBytes(ToBytes(b)) == b
  {
    var s := ToBytes(b);
    assert s[..4] == DeltaMinBytes(b.deltaMin) && s[4..16] == b.scales && s[16..] == b.qs;
    DeltaMinRoundTrip(b.deltaMin);
  }

  lemma ToFromBytes(s: seq<bv8>)
    requires |s| == 144
    ensures ToBytes(FromBytes(s)) == s
  {
    DeltaMinBytesRoundTrip(s[..4]);
    assert s == s[..4] + s[4..16] + s[16..];
  }

  /** The block kept as test data in the source, in its three parts. */
  const FIXTURE_DELTA_MIN: seq<bv8> := [92, 8, 236, 19]
  const FIXTURE_SCALES: seq<bv8> := [171, 175, 162, 191, 177, 191, 155, 189, 249, 88, 150, 160]
  const FIXTURE_QS: seq<bv8> := [
    167, 166, 5, 228, 125, 219, 169, 102, 135, 91, 216, 165, 84, 251, 232, 200, 180, 196, 244, 143, 222,
    236, 192, 168, 42, 155, 166, 214, 103, 255, 45, 201, 148, 146, 68, 100, 64, 69, 72, 23,
    161, 9, 151, 177, 151, 119, 236, 84, 109, 180, 119, 118, 66, 139, 223, 136, 139, 133, 164,
    109, 156, 164, 141, 101, 55, 90, 174, 120, 73, 172, 23, 134, 128, 105, 90, 106, 7, 112,
    246, 198, 138, 141, 187, 101, 88, 107, 123, 70, 186, 168, 193, 0, 123, 137, 119, 149, 176,
    104, 234, 191, 75, 140, 233, 150, 125, 121, 169, 182, 158, 165, 200, 234, 10, 182, 178, 91,
    170, 170, 217, 186, 71, 58, 202, 204, 184, 229, 153, 100]
  const FIXTURE: seq<bv8> := FIXTURE_DELTA_MIN + FIXTURE_SCALES + FIXTURE_QS

  /** Read as a block, the test data has block scale `0x085C` and offset
      `0x13EC` (as half-precision bit patterns) and these eight pairs of
      six-bit scale and offset levels. */
  lemma FixtureBlock()
    ensures |FIXTURE| == 144
    ensures var b := FromBytes(FIXTURE);
      b.deltaMin == DeltaMin(0x085C, 0x13EC) &&
      GetScaleMinK4(0, b.scales) == (43, 49) && GetScaleMinK4(1, b.scales) == (47, 63) &&
      GetScaleMinK4(2, b.scales) == (34, 27) && GetScaleMinK4(3, b.scales) == (63, 61) &&
      GetScaleMinK4(4, b.scales) == (41, 47) && GetScaleMinK4(5, b.scales) == (40, 37) &&
      GetScaleMinK4(6, b.scales) == (38, 41) && GetScaleMinK4(7, b.scales) == (32, 42)
  {
    assert |FIXTURE_QS| == 128;
    var b := FromBytes(FIXTURE);
    assert b.scales == FIXTURE_SCALES;
    assert FIXTURE[..4] == FIXTURE_DELTA_MIN;
    assert FIXTURE_DELTA_MIN[0..2] == [92, 8] && FIXTURE_DELTA_MIN[2..4] == [236, 19];
  }
}
