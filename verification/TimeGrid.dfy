/** Step-aligned time arithmetic. */
module TimeGrid {

  /** Go's remainder: it truncates toward zero. */
  function GoMod(a: int, b: int): int
    requires b > 0
  {
    if a >= 0 then a % b else -((-a) % b)
  }

  /** `t` is a multiple of `step`, said without multiplication. */
  ghost predicate Aligned(t: int, step: int)
    requires step > 0
    decreases if t >= 0 then t else -t
  {
    t == 0 || (t >= step && Aligned(t - step, step)) || (t <= -step && Aligned(t + step, step))
  }

  lemma {:induction false} MultipleIsAligned(q: int, step: int)
    requires step > 0
    ensures Aligned(q * step, step)
    decreases if q >= 0 then q else -q
  {
    if q > 0 {
      MultipleIsAligned(q - 1, step);
      assert q * step == (q - 1) * step + step;
      AddStep((q - 1) * step, step);
    } else if q < 0 {
      MultipleIsAligned(q + 1, step);
      assert (q + 1) * step == q * step + step;
      AddStep(q * step, step);
    }
  }

  lemma {:induction false} AlignedIsMultiple(t: int, step: int) returns (q: int)
    requires step > 0 && Aligned(t, step)
    ensures t == q * step
    decreases if t >= 0 then t else -t
  {
    q := 0;
    if t > 0 {
      q := AlignedIsMultiple(t - step, step);
      q := q + 1;
    } else if t < 0 {
      q := AlignedIsMultiple(t + step, step);
      q := q - 1;
    }
  }

  function AlignDown(t: int, step: int): (r: int)
    requires step > 0
    ensures Aligned(r, step) && -step < t - r < step
  {
    AlignDownIsAligned(t, step);
    t - GoMod(t, step)
  }

  lemma AlignDownIsAligned(t: int, step: int)
    requires step > 0
    ensures Aligned(t - GoMod(t, step), step)
  {
    var q := if t >= 0 then t / step else -((-t) / step);
    MultipleIsAligned(q, step);
    if t >= 0 {
      EuclideanSplit(t, step);
    } else {
      EuclideanSplit(-t, step);
      assert q * step == -(((-t) / step) * step);
    }
  }

  lemma EuclideanSplit(t: int, step: int)
    requires step > 0
    ensures t - t % step == (t / step) * step
  {
  }

  lemma AddStep(t: int, step: int)
    requires step > 0
    ensures Aligned(t + step, step) <==> Aligned(t, step)
  {
  }

  /** Two different aligned times are at least one step apart. */
  lemma {:induction false} AlignedGap(a: int, b: int, step: int)
    requires step > 0 && Aligned(a, step) && Aligned(b, step) && a < b
    ensures a + step <= b
    decreases if a >= 0 then a else 0, if b <= 0 then -b else 0
  {
    if a > 0 {
      AlignedGap(a - step, b - step, step);
    } else if b < 0 {
      AlignedGap(a + step, b + step, step);
    }
  }

  lemma AlignedGapIf(a: int, b: int, step: int)
    requires step > 0 && Aligned(a, step) && Aligned(b, step)
    ensures a < b ==> a + step <= b
  {
    if a < b {
      AlignedGap(a, b, step);
    }
  }

  lemma AlignDownBelow(t: int, step: int)
    requires step > 0 && t >= 0
    ensures AlignDown(t, step) <= t
  {
  }

  /** Times at least one step apart are aligned to grid times at least one step apart. */
  lemma AlignDownSpreads(t: int, u: int, step: int)
    requires step > 0 && 0 <= t && t + step <= u
    ensures AlignDown(t, step) + step <= AlignDown(u, step)
  {
    AlignDownBelow(t, step);
    AlignedGap(AlignDown(t, step), AlignDown(u, step), step);
  }

  /** An aligned time from `lo` on is a number of steps after `lo`. */
  lemma {:induction false} GridIndex(lo: int, t: int, step: int) returns (i: nat)
    requires step > 0 && Aligned(lo, step) && Aligned(t, step) && lo <= t
    ensures t == lo + i * step
    decreases t - lo
  {
    if t == lo {
      return 0;
    }
    AlignedGap(lo, t, step);
    AddStep(t - step, step);
    i := GridIndex(lo, t - step, step);
    OneMoreStep(i, step);
    i := i + 1;
  }

  lemma OneMoreStep(i: int, step: int)
    ensures (i + 1) * step == i * step + step
  {
  }

  lemma {:induction false} AddSteps(t: int, i: nat, step: int)
    requires step > 0 && Aligned(t, step)
    ensures Aligned(t + i * step, step)
  {
    if i > 0 {
      AddSteps(t, i - 1, step);
      AddStep(t + (i - 1) * step, step);
      OneMoreStep(i - 1, step);
    }
  }

  /** Multiples of a positive step are ordered as their factors. */
  lemma StepsOrdered(i: int, n: int, step: int)
    requires step > 0
    ensures i * step < n * step <==> i < n
  {
    Difference(n, i, step);
    if i < n {
      NotNegative(n - i - 1, step);
      OneMoreStep(n - i - 1, step);
    } else {
      NotNegative(i - n, step);
      Difference(i, n, step);
    }
  }

  lemma Difference(a: int, b: int, step: int)
    ensures (a - b) * step == a * step - b * step
  {
  }

  lemma NotNegative(a: int, step: int)
    requires a >= 0 && step > 0
    ensures a * step >= 0
  {
  }

  /** The aligned times not after `t` are those not after its aligned time. */
  lemma NotAfter(g: int, t: int, step: int)
    requires step > 0 && t >= 0 && Aligned(g, step)
    ensures g <= t <==> g <= AlignDown(t, step)
    ensures g > t - step <==> g >= AlignDown(t, step)
  {
    AlignDownBelow(t, step);
    var a := AlignDown(t, step);
    AlignedGapIf(a, g, step);
    AlignedGapIf(g, a, step);
  }

  ghost predicate OnGrid(g: int, step: int)
    requires step > 0
  {
    Aligned(g, step)
  }

  /** A grid time lies after `from` and not after `to`. */
  ghost predicate GridTimeIn(from: int, to: int, step: int)
    requires step > 0
  {
    exists g :: OnGrid(g, step) && from < g <= to
  }

  /** The aligned time of `y` is more than `shift` steps after that of `x` exactly when a grid time
      lies more than `shift` steps after `x` and not after `y`. */
  lemma GridTimeBetweenIff(x: int, y: int, shift: nat, step: int)
    requires step > 0 && x >= 0 && y >= 0
    ensures AlignDown(x, step) + shift * step < AlignDown(y, step) <==>
      GridTimeIn(x + shift * step, y, step)
  {
    var a, b := AlignDown(x, step), AlignDown(y, step);
    AlignDownBelow(x, step);
    AlignDownBelow(y, step);
    AddSteps(a, shift, step);
    if a + shift * step < b {
      AlignedGap(a + shift * step, b, step);
      assert OnGrid(b, step) && x + shift * step < b <= y;
    } else {
      forall g | OnGrid(g, step) && x + shift * step < g
        ensures y < g
      {
        NotAfter(g, y, step);
      }
    }
  }
}
