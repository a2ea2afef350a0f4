/** The read path of the graph component: `Query` lays cached samples over the points read from
    disk and returns a dense time grid.  The specification is a pointwise overlay by timestamp. */
module GraphQuery {
  import opened TimeGrid

  /** A float of the source: NaN is an explicit missing value, every other value an exact real. */
  datatype Value = Missing | Num(v: real)

  /** One point of a response (RRDData). */
  datatype Point = Point(ts: int, val: Value)

  /** A cached sample (GraphItem). */
  datatype Item = Item(ts: int, value: real)

  datatype DsType = Gauge | Counter | Derive | Other

  /** What the index knows of a counter. */
  datatype Indexed = Unknown | Known(dsType: DsType, step: int)

  const RRA1_POINT_CNT := 720

  // ----- specification

  ghost predicate Increasing(items: seq<Item>)
  {
    forall i, j :: 0 <= i < j < |items| ==> items[i].ts < items[j].ts
  }

  ghost predicate AlignedItems(items: seq<Item>, step: int)
    requires step > 0
  {
    forall i :: 0 <= i < |items| ==> Aligned(items[i].ts, step)
  }

  /** The points are one step apart and step-aligned: "continuous, without jumps". */
  ghost predicate Grid(pts: seq<Point>, step: int)
    requires step > 0
  {
    && (forall k :: 0 <= k < |pts| ==> Aligned(pts[k].ts, step))
    && (forall k :: 1 <= k < |pts| ==> pts[k].ts == pts[k-1].ts + step)
  }

  /** What a disk read asked to begin at `startTs` delivers. */
  ghost predicate DiskGrid(datas: seq<Point>, startTs: int, step: int)
    requires step > 0
  {
    Grid(datas, step) && (datas == [] || datas[0].ts <= startTs)
  }

  /** The value cached at the k-th sample: the sample itself for gauges, for counters the rate
      towards the next sample when that is exactly one step later and not smaller. */
  ghost function CachedPoint(items: seq<Item>, dsType: DsType, step: int, k: nat): Value
    requires step > 0 && k < |items|
  {
    match dsType
    case Gauge => Num(items[k].value)
    case Other => Missing
    case _ =>
      if k + 1 < |items| && items[k+1].ts == items[k].ts + step && items[k+1].value >= items[k].value
      then Num((items[k+1].value - items[k].value) / (step as real))
      else Missing
  }

  ghost function CachedAt(items: seq<Item>, dsType: DsType, step: int, t: int): Value
    requires step > 0
  {
    if exists k :: 0 <= k < |items| && items[k].ts == t
    then var k :| 0 <= k < |items| && items[k].ts == t; CachedPoint(items, dsType, step, k)
    else Missing
  }

  ghost function DiskAt(datas: seq<Point>, t: int): Value
  {
    if exists k :: 0 <= k < |datas| && datas[k].ts == t
    then var k :| 0 <= k < |datas| && datas[k].ts == t; datas[k].val
    else Missing
  }

  function Over(c: Value, d: Value): Value { if c.Num? then c else d }

  type Step = s: int | 0 < s witness 1

  /** Where values come from: the cache, the disk, or the one laid over the other. */
  datatype Source =
    | Cached(items: seq<Item>, dsType: DsType, step: Step)
    | Disk(datas: seq<Point>)
    | Overlaid(upper: Source, lower: Source)

  /** The value of a source at a time.  The simple thing a query must equal is the pointwise
      overlay: the cached value where there is one, else the disk value. */
  ghost function At(src: Source, t: int): Value
  {
    match src
    case Cached(items, dsType, step) => CachedAt(items, dsType, step, t)
    case Disk(datas) => DiskAt(datas, t)
    case Overlaid(upper, lower) => Over(At(upper, t), At(lower, t))
  }

  /** `pts` is a contiguous stretch of the grid of window [lo, hi] holding the values of `f`,
      and `f` is missing on the rest of the window's grid. */
  ghost predicate Represents(pts: seq<Point>, f: Source, lo: int, hi: int, step: int)
    requires step > 0
  {
    Grid(pts, step) && Carries(pts, f, lo, hi) && MissingOutside(pts, f, lo, hi, step)
  }

  ghost predicate Carries(pts: seq<Point>, f: Source, lo: int, hi: int)
  {
    forall k :: 0 <= k < |pts| ==> lo <= pts[k].ts <= hi && pts[k].val == At(f, pts[k].ts)
  }

  ghost predicate MissingOutside(pts: seq<Point>, f: Source, lo: int, hi: int, step: int)
    requires step > 0
  {
    forall t {:trigger At(f, t)} :: lo <= t <= hi && Aligned(t, step) && Outside(pts, t) ==> At(f, t) == Missing
  }

  ghost predicate Outside(pts: seq<Point>, t: int)
  {
    pts == [] || t < pts[0].ts || t > pts[|pts|-1].ts
  }

  // ----- lemmas about the specification

  lemma {:induction false} GridMonotone(pts: seq<Point>, step: int, i: nat, j: nat)
    requires step > 0 && Grid(pts, step) && i < j < |pts|
    ensures pts[i].ts + step <= pts[j].ts
    decreases j
  {
    if i < j - 1 {
      GridMonotone(pts, step, i, j - 1);
    }
  }

  lemma CachedAtSample(items: seq<Item>, dsType: DsType, step: int, k: nat)
    requires step > 0 && Increasing(items) && k < |items|
    ensures CachedAt(items, dsType, step, items[k].ts) == CachedPoint(items, dsType, step, k)
  {
    var t := items[k].ts;
    assert forall j :: 0 <= j < |items| && items[j].ts == t ==> j == k;
  }

  lemma DiskAtPoint(datas: seq<Point>, step: int, k: nat)
    requires step > 0 && Grid(datas, step) && k < |datas|
    ensures DiskAt(datas, datas[k].ts) == datas[k].val
  {
    forall j | 0 <= j < |datas| && datas[j].ts == datas[k].ts
      ensures j == k
    {
      if j < k { GridMonotone(datas, step, j, k); }
      if k < j { GridMonotone(datas, step, k, j); }
    }
  }

  /** No negative rate is ever produced from the cache of a counter. */
  lemma CachedRateNonNegative(items: seq<Item>, dsType: DsType, step: int, t: int)
    requires step > 0 && dsType in {Counter, Derive}
    ensures var c := CachedAt(items, dsType, step, t); c.Num? ==> c.v >= 0.0
  {
    if exists k :: 0 <= k < |items| && items[k].ts == t {
      forall k: nat | k < |items| && CachedPoint(items, dsType, step, k).Num?
        ensures CachedPoint(items, dsType, step, k).v >= 0.0
      {
        QuotientNonNegative(items[k+1].value - items[k].value, step as real);
      }
    }
  }

  lemma QuotientNonNegative(a: real, b: real)
    requires a >= 0.0 && b > 0.0
    ensures a / b >= 0.0
  {
    assert (a / b) * b == a;
  }

  // ----- formatting the cached samples

  /** The next sample at or after grid time `ts` is `items[idx]`. */
  ghost predicate Cursor(items: seq<Item>, ts: int, idx: int)
  {
    && 0 <= idx <= |items|
    && (forall j :: 0 <= j < idx ==> items[j].ts < ts)
    && (forall j :: idx <= j < |items| ==> ts <= items[j].ts)
  }

  ghost predicate AtSample(items: seq<Item>, ts: int, idx: int)
  {
    0 <= idx < |items| && items[idx].ts == ts
  }

  lemma CursorStep(items: seq<Item>, dsType: DsType, step: int, ts: int, idx: nat)
    requires step > 0 && Increasing(items) && AlignedItems(items, step)
    requires Aligned(ts, step) && Cursor(items, ts, idx)
    ensures Aligned(ts + step, step)
    ensures Cursor(items, ts + step, if AtSample(items, ts, idx) then idx + 1 else idx)
    ensures CachedAt(items, dsType, step, ts)
         == if AtSample(items, ts, idx) then CachedPoint(items, dsType, step, idx) else Missing
  {
    AddStep(ts, step);
    if AtSample(items, ts, idx) {
      CachedAtSample(items, dsType, step, idx);
    }
    forall j | 0 <= j < |items| && ts < items[j].ts
      ensures ts + step <= items[j].ts
    {
      AlignedGap(ts, items[j].ts, step);
    }
  }

  lemma CursorEnd(items: seq<Item>, dsType: DsType, step: int, ts: int)
    requires step > 0 && items != [] && Increasing(items) && ts >= items[|items|-1].ts
    requires dsType == Gauge ==> ts > items[|items|-1].ts
    ensures forall t :: t >= ts ==> CachedAt(items, dsType, step, t) == Missing
  {
    CachedAtSample(items, dsType, step, |items| - 1);
  }

  lemma CursorStart(items: seq<Item>, f: Source, dsType: DsType, lo: int, hi: int, step: int)
    requires step > 0 && items != [] && Increasing(items) && f == Cached(items, dsType, step)
    ensures Cursor(items, items[0].ts, 0)
    ensures FormatInv([], f, lo, hi, step, items[0].ts)
  {
  }

  /** Appends a grid point when it falls into the window. */
  method Emit(cache: seq<Point>, ghost f: Source, lo: int, hi: int, ghost step: int, ts: int, val: Value)
    returns (cache': seq<Point>)
    requires step > 0 && Aligned(ts, step) && At(f, ts) == val && FormatInv(cache, f, lo, hi, step, ts)
    ensures FormatInv(cache', f, lo, hi, step, ts + step)
  {
    ExtendCache(cache, f, lo, hi, step, ts, val);
    cache' := if ts >= lo && ts <= hi then cache + [Point(ts, val)] else cache;
  }

  /** Formats the cached samples of a gauge into grid points within the window. */
  method FormatGauge(items: seq<Item>, step: int, lo: int, hi: int) returns (cache: seq<Point>)
    requires step > 0 && items != [] && Increasing(items) && AlignedItems(items, step)
    ensures Represents(cache, Cached(items, Gauge, step), lo, hi, step)
  {
    cache := [];
    var ts, itemEndTs, itemIdx := items[0].ts, items[|items|-1].ts, 0;
    ghost var f := Cached(items, Gauge, step);
    CursorStart(items, f, Gauge, lo, hi, step);
    while ts <= itemEndTs
      invariant Aligned(ts, step) && Cursor(items, ts, itemIdx)
      invariant FormatInv(cache, f, lo, hi, step, ts)
      decreases itemEndTs - ts
    {
      CursorStep(items, Gauge, step, ts, itemIdx);
      var val := Missing;
      if itemIdx < |items| && ts == items[itemIdx].ts {
        val := Num(items[itemIdx].value);
        itemIdx := itemIdx + 1;
      }
      cache := Emit(cache, f, lo, hi, step, ts, val);
      ts := ts + step;
    }
    CursorEnd(items, Gauge, step, ts);
    FormatDone(cache, f, lo, hi, step, ts);
  }

  /** Formats the cached samples of a counter into rates within the window. */
  method FormatCounter(items: seq<Item>, dsType: DsType, step: int, lo: int, hi: int) returns (cache: seq<Point>)
    requires step > 0 && items != [] && Increasing(items) && AlignedItems(items, step)
    requires dsType == Counter || dsType == Derive
    ensures Represents(cache, Cached(items, dsType, step), lo, hi, step)
  {
    cache := [];
    var size := |items|;
    var ts, itemEndTs, itemIdx := items[0].ts, items[size-1].ts, 0;
    ghost var f := Cached(items, dsType, step);
    CursorStart(items, f, dsType, lo, hi, step);
    while ts < itemEndTs
      invariant Aligned(ts, step) && Cursor(items, ts, itemIdx)
      invariant FormatInv(cache, f, lo, hi, step, ts)
      decreases itemEndTs - ts
    {
      CursorStep(items, dsType, step, ts, itemIdx);
      var val := Missing;
      if itemIdx < size - 1 && ts == items[itemIdx].ts {
        if ts == items[itemIdx+1].ts - step && items[itemIdx+1].value >= items[itemIdx].value {
          val := Num((items[itemIdx+1].value - items[itemIdx].value) / (step as real));
        }
        itemIdx := itemIdx + 1;
      }
      cache := Emit(cache, f, lo, hi, step, ts, val);
      ts := ts + step;
    }
    CursorEnd(items, dsType, step, ts);
    FormatDone(cache, f, lo, hi, step, ts);
  }

  function Handled(hi: int, ts: int): int { if hi < ts then hi else ts - 1 }

  /** After handling all grid times below `ts`, the cache represents `f` up to there. */
  ghost predicate FormatInv(cache: seq<Point>, f: Source, lo: int, hi: int, step: int, ts: int)
    requires step > 0
  {
    && Represents(cache, f, lo, Handled(hi, ts), step)
    && (cache != [] && ts <= hi ==> cache[|cache|-1].ts == ts - step)
  }

  lemma ExtendCache(cache: seq<Point>, f: Source, lo: int, hi: int, step: int, ts: int, val: Value)
    requires step > 0 && Aligned(ts, step) && At(f, ts) == val
    requires FormatInv(cache, f, lo, hi, step, ts)
    ensures FormatInv(if lo <= ts <= hi then cache + [Point(ts, val)] else cache, f, lo, hi, step, ts + step)
  {
    if lo <= ts <= hi {
      ExtendInside(cache, f, lo, hi, step, ts, val);
    } else {
      ExtendOutside(cache, f, lo, hi, step, ts);
    }
  }

  lemma ExtendInside(cache: seq<Point>, f: Source, lo: int, hi: int, step: int, ts: int, val: Value)
    requires step > 0 && Aligned(ts, step) && At(f, ts) == val && lo <= ts <= hi
    requires FormatInv(cache, f, lo, hi, step, ts)
    ensures FormatInv(cache + [Point(ts, val)], f, lo, hi, step, ts + step)
  {
    var cache', to, to' := cache + [Point(ts, val)], Handled(hi, ts), Handled(hi, ts + step);
    AppendGrid(cache, Point(ts, val), step);
    AppendCarries(cache, f, lo, to, to', ts, val);
    AppendMissing(cache, f, lo, to, to', step, ts, val);
  }

  lemma AppendCarries(cache: seq<Point>, f: Source, lo: int, to: int, to': int, ts: int, val: Value)
    requires Carries(cache, f, lo, to) && At(f, ts) == val && lo <= ts <= to' && to <= to'
    ensures Carries(cache + [Point(ts, val)], f, lo, to')
  {
  }

  lemma AppendMissing(cache: seq<Point>, f: Source, lo: int, to: int, to': int, step: int, ts: int, val: Value)
    requires step > 0 && Aligned(ts, step) && to == ts - 1 && to' < ts + step
    requires MissingOutside(cache, f, lo, to, step)
    requires cache != [] ==> cache[0].ts <= to && cache[|cache|-1].ts == ts - step
    ensures MissingOutside(cache + [Point(ts, val)], f, lo, to', step)
  {
    var cache' := cache + [Point(ts, val)];
    forall t | lo <= t <= to' && Aligned(t, step) && Outside(cache', t)
      ensures At(f, t) == Missing
    {
      AlignedGapIf(ts, t, step);
      assert Outside(cache, t) && t < ts;
    }
  }

  lemma ExtendOutside(cache: seq<Point>, f: Source, lo: int, hi: int, step: int, ts: int)
    requires step > 0 && Aligned(ts, step) && !(lo <= ts <= hi)
    requires FormatInv(cache, f, lo, hi, step, ts)
    ensures FormatInv(cache, f, lo, hi, step, ts + step)
  {
    SkipMissing(cache, f, lo, hi, step, ts);
    SkipCarries(cache, f, lo, Handled(hi, ts), Handled(hi, ts + step));
  }

  lemma SkipCarries(cache: seq<Point>, f: Source, lo: int, to: int, to': int)
    requires Carries(cache, f, lo, to) && to <= to'
    ensures Carries(cache, f, lo, to')
  {
  }

  lemma SkipMissing(cache: seq<Point>, f: Source, lo: int, hi: int, step: int, ts: int)
    requires step > 0 && Aligned(ts, step) && !(lo <= ts <= hi)
    requires MissingOutside(cache, f, lo, Handled(hi, ts), step)
    ensures MissingOutside(cache, f, lo, Handled(hi, ts + step), step)
  {
    forall t | lo <= t <= Handled(hi, ts + step) && Aligned(t, step) && Outside(cache, t)
      ensures At(f, t) == Missing
    {
      AlignedGapIf(ts, t, step);
    }
  }

  lemma AppendGrid(pts: seq<Point>, p: Point, step: int)
    requires step > 0 && Grid(pts, step) && Aligned(p.ts, step)
    requires pts != [] ==> pts[|pts|-1].ts + step == p.ts
    ensures Grid(pts + [p], step)
  {
  }

  lemma FormatDone(cache: seq<Point>, f: Source, lo: int, hi: int, step: int, ts: int)
    requires step > 0
    requires FormatInv(cache, f, lo, hi, step, ts)
    requires forall t :: t >= ts ==> At(f, t) == Missing
    ensures Represents(cache, f, lo, hi, step)
  {
  }

  // ----- merging

  /** Keeps the disk points that fall into the window. */
  method FilterWindow(datas: seq<Point>, lo: int, hi: int, step: int) returns (merged: seq<Point>)
    requires step > 0 && Aligned(lo, step) && Grid(datas, step)
    ensures Represents(merged, Disk(datas), lo, hi, step)
    ensures DiskGrid(datas, lo, step) && merged != [] ==> merged[0].ts == lo
  {
    ghost var first;
    merged, first := CollectWindow(datas, lo, hi, step);
    SliceRepresents(datas, lo, hi, step, first, merged);
    FirstInWindow(datas, lo, step, first, |merged|);
  }

  method CollectWindow(datas: seq<Point>, lo: int, hi: int, ghost step: int) returns (merged: seq<Point>, ghost first: nat)
    requires step > 0 && Grid(datas, step)
    ensures WindowSlice(datas, lo, hi, first, |merged|, |datas|)
    ensures merged == datas[first..first + |merged|]
  {
    merged, first := [], 0;
    for i := 0 to |datas|
      invariant WindowSlice(datas, lo, hi, first, |merged|, i)
      invariant merged == datas[first..first + |merged|]
    {
      WindowSliceStep(datas, lo, hi, step, first, |merged|, i);
      if datas[i].ts >= lo && datas[i].ts <= hi {
        SliceAppend(datas, first, i);
        merged := merged + [datas[i]];
      } else if datas[i].ts < lo {
        first := i + 1;
      }
    }
  }

  lemma SliceAppend(datas: seq<Point>, first: nat, i: nat)
    requires first <= i < |datas|
    ensures datas[first..i] + [datas[i]] == datas[first..i+1]
  {
  }

  /** Among the first i points, those in the window are the n points from `first` on. */
  ghost predicate WindowSlice(datas: seq<Point>, lo: int, hi: int, first: nat, n: nat, i: nat)
  {
    && first + n <= i <= |datas|
    && (forall k :: 0 <= k < first ==> datas[k].ts < lo)
    && (first < i ==> datas[first].ts >= lo)
    && (forall k :: first <= k < first + n ==> datas[k].ts <= hi)
    && (first + n < i ==> datas[first + n].ts > hi)
  }

  lemma WindowSliceStep(datas: seq<Point>, lo: int, hi: int, step: int, first: nat, n: nat, i: nat)
    requires step > 0 && Grid(datas, step) && WindowSlice(datas, lo, hi, first, n, i) && i < |datas|
    ensures var t := datas[i].ts;
      if lo <= t <= hi then first + n == i && WindowSlice(datas, lo, hi, first, n + 1, i + 1)
      else if t < lo then n == 0 && WindowSlice(datas, lo, hi, i + 1, 0, i + 1)
      else WindowSlice(datas, lo, hi, first, n, i + 1)
  {
    LaterThan(datas, step, first, i);
    LaterThan(datas, step, first + n, i);
  }

  lemma LaterThan(pts: seq<Point>, step: int, i: nat, j: nat)
    requires step > 0 && Grid(pts, step) && i <= j < |pts|
    ensures i < j ==> pts[i].ts < pts[j].ts
  {
    if i < j { GridMonotone(pts, step, i, j); }
  }

  lemma GridIncreasing(pts: seq<Point>, step: int)
    requires step > 0 && Grid(pts, step)
    ensures forall i, j :: 0 <= i < j < |pts| ==> pts[i].ts < pts[j].ts
  {
    forall i, j | 0 <= i < j < |pts|
      ensures pts[i].ts < pts[j].ts
    {
      GridMonotone(pts, step, i, j);
    }
  }

  lemma SliceRepresents(datas: seq<Point>, lo: int, hi: int, step: int, first: nat, slice: seq<Point>)
    requires step > 0 && Grid(datas, step) && WindowSlice(datas, lo, hi, first, |slice|, |datas|)
    requires slice == datas[first..first + |slice|]
    ensures Represents(slice, Disk(datas), lo, hi, step)
  {
    SliceGrid(datas, step, first, |slice|);
    SliceCarries(datas, lo, hi, step, first, slice);
    SliceMissing(datas, lo, hi, step, first, slice);
  }

  lemma SliceCarries(datas: seq<Point>, lo: int, hi: int, step: int, first: nat, slice: seq<Point>)
    requires step > 0 && Grid(datas, step) && WindowSlice(datas, lo, hi, first, |slice|, |datas|)
    requires slice == datas[first..first + |slice|]
    ensures Carries(slice, Disk(datas), lo, hi)
  {
    forall k | 0 <= k < |slice|
      ensures lo <= slice[k].ts <= hi && slice[k].val == At(Disk(datas), slice[k].ts)
    {
      InSlice(datas, lo, step, first, first + k);
      assert slice[k] == datas[first + k];
    }
  }

  lemma SliceMissing(datas: seq<Point>, lo: int, hi: int, step: int, first: nat, slice: seq<Point>)
    requires step > 0 && Grid(datas, step) && WindowSlice(datas, lo, hi, first, |slice|, |datas|)
    requires slice == datas[first..first + |slice|]
    ensures MissingOutside(slice, Disk(datas), lo, hi, step)
  {
    forall t | lo <= t <= hi && Outside(slice, t)
      ensures At(Disk(datas), t) == Missing
    {
      NotInSlice(datas, lo, hi, step, first, |slice|, t);
    }
  }

  lemma FirstInWindow(datas: seq<Point>, lo: int, step: int, first: nat, n: nat)
    requires step > 0 && Aligned(lo, step) && Grid(datas, step) && first + n <= |datas|
    requires forall k :: 0 <= k < first ==> datas[k].ts < lo
    requires first < |datas| ==> datas[first].ts >= lo
    ensures DiskGrid(datas, lo, step) && n > 0 ==> datas[first].ts == lo
  {
    assert 0 < first < |datas| ==> datas[first].ts == datas[first - 1].ts + step;
    if n > 0 {
      AlignedGapIf(lo, datas[first].ts, step);
    }
  }

  lemma SliceGrid(datas: seq<Point>, step: int, first: nat, n: nat)
    requires step > 0 && Grid(datas, step) && first + n <= |datas|
    ensures Grid(datas[first..first + n], step)
  {
  }

  lemma InSlice(datas: seq<Point>, lo: int, step: int, first: nat, k: nat)
    requires step > 0 && Grid(datas, step) && first <= k < |datas| && lo <= datas[first].ts
    ensures lo <= datas[k].ts && datas[k].val == At(Disk(datas), datas[k].ts)
  {
    LaterThan(datas, step, first, k);
    DiskAtPoint(datas, step, k);
  }

  lemma NotInSlice(datas: seq<Point>, lo: int, hi: int, step: int, first: nat, n: nat, t: int)
    requires step > 0 && Grid(datas, step)
    requires first + n <= |datas| && lo <= t <= hi
    requires forall k :: 0 <= k < first ==> datas[k].ts < lo
    requires first + n < |datas| ==> datas[first + n].ts > hi
    requires Outside(datas[first..first + n], t)
    ensures DiskAt(datas, t) == Missing
  {
    GridIncreasing(datas, step);
    forall k | 0 <= k < |datas|
      ensures datas[k].ts != t
    {
      if first <= k < first + n {
        assert datas[first].ts <= datas[k].ts <= datas[first + n - 1].ts;
      }
    }
  }

  /** Walks back to the last disk point before the cache begins; -1 when there is none. */
  method FindJunction(disk: seq<Point>, cacheTs: int, step: int) returns (idx: int)
    requires step > 0 && Grid(disk, step)
    ensures -1 <= idx < |disk|
    ensures idx >= 0 ==> disk[idx].ts < cacheTs
    ensures forall k :: idx < k < |disk| ==> cacheTs <= disk[k].ts
  {
    idx := |disk| - 1;
    while idx >= 0 && disk[idx].ts >= cacheTs
      invariant -1 <= idx < |disk|
      invariant forall k :: idx < k < |disk| ==> cacheTs <= disk[k].ts
    {
      idx := idx - 1;
    }
  }

  /** The missing points strictly between the last disk point and the first cached point. */
  method FillGap(lastTs: int, cacheTs: int, step: int) returns (gap: seq<Point>)
    requires step > 0 && Aligned(lastTs, step) && Aligned(cacheTs, step)
    ensures Grid(gap, step) && forall k :: 0 <= k < |gap| ==> gap[k].val == Missing
    ensures gap == [] ==> cacheTs <= lastTs + step
    ensures gap != [] ==> gap[0].ts == lastTs + step && gap[|gap|-1].ts == cacheTs - step
  {
    gap := [];
    var ts := lastTs + step;
    AddStep(lastTs, step);
    while ts < cacheTs
      invariant Aligned(ts, step) && Grid(gap, step)
      invariant forall k :: 0 <= k < |gap| ==> gap[k].val == Missing
      invariant gap == [] ==> ts == lastTs + step
      invariant gap != [] ==> gap[0].ts == lastTs + step && gap[|gap|-1].ts == ts - step && ts <= cacheTs
      decreases cacheTs - ts
    {
      gap := gap + [Point(ts, Missing)];
      AlignedGap(ts, cacheTs, step);
      AddStep(ts, step);
      ts := ts + step;
    }
  }

  /** Position k of the merged points after the first n cached points, laid from `off` on, are in. */
  ghost function MergedAt(base: seq<Point>, diskSize: nat, cache: seq<Point>, off: nat, n: nat, k: nat): Point
    requires diskSize <= |base| && n <= |cache| && k < Longer(|base|, off + n) && off <= |base|
  {
    if off <= k < off + n && (k >= diskSize || cache[k-off].val.Num?) then cache[k-off] else base[k]
  }

  function Longer(a: nat, b: nat): nat { if a < b then b else a }

  /** `cache` begins at position `off` of `base`, or right behind it. */
  ghost predicate Joined(base: seq<Point>, cache: seq<Point>, off: nat, step: int)
    requires cache != []
  {
    && off <= |base|
    && (off < |base| ==> base[off].ts == cache[0].ts)
    && (0 < off == |base| ==> base[off-1].ts + step == cache[0].ts)
  }

  ghost predicate IsMerge(merged: seq<Point>, base: seq<Point>, diskSize: nat, cache: seq<Point>, off: nat)
    requires diskSize <= |base| && off <= |base|
  {
    && |merged| == Longer(|base|, off + |cache|)
    && forall k :: 0 <= k < |merged| ==> merged[k] == MergedAt(base, diskSize, cache, off, |cache|, k)
  }

  function JoinAt(base: seq<Point>, diskSize: nat, start: nat): nat
  {
    if start < diskSize then start else |base|
  }

  /** Overwrites and appends the cached points in place. */
  method LayCached(base: seq<Point>, diskSize: nat, cache: seq<Point>, start: nat) returns (merged: seq<Point>)
    requires start <= diskSize <= |base| && (start < diskSize ==> diskSize == |base|)
    ensures IsMerge(merged, base, diskSize, cache, JoinAt(base, diskSize, start))
  {
    merged := base;
    var rrdDataIdx := start;
    ghost var off := JoinAt(base, diskSize, start);
    for cacheIdx := 0 to |cache|
      invariant rrdDataIdx == start + cacheIdx
      invariant |merged| == Longer(|base|, off + cacheIdx)
      invariant forall k :: 0 <= k < |merged| ==> merged[k] == MergedAt(base, diskSize, cache, off, cacheIdx, k)
    {
      if rrdDataIdx < diskSize {
        if cache[cacheIdx].val != Missing {
          merged := merged[rrdDataIdx := cache[cacheIdx]];
        }
      } else {
        merged := merged + [cache[cacheIdx]];
      }
      rrdDataIdx := rrdDataIdx + 1;
    }
  }

  /** In the overlap both sequences carry the same times. */
  lemma {:induction false} SameTimes(base: seq<Point>, cache: seq<Point>, off: nat, step: int, c: nat)
    requires step > 0 && Grid(base, step) && Grid(cache, step) && cache != []
    requires Joined(base, cache, off, step) && c < |cache| && off + c < |base|
    ensures base[off + c].ts == cache[c].ts
  {
    if c > 0 {
      SameTimes(base, cache, off, step, c - 1);
    }
  }

  lemma MergeTimes(merged: seq<Point>, base: seq<Point>, diskSize: nat, cache: seq<Point>, off: nat, step: int)
    requires step > 0 && Grid(base, step) && Grid(cache, step) && cache != []
    requires Joined(base, cache, off, step) && diskSize <= |base| && IsMerge(merged, base, diskSize, cache, off)
    ensures forall k :: 0 <= k < |base| ==> merged[k].ts == base[k].ts
    ensures forall c :: 0 <= c < |cache| ==> merged[off + c].ts == cache[c].ts
  {
    forall c | 0 <= c < |cache| && off + c < |base|
      ensures base[off + c].ts == cache[c].ts
    {
      SameTimes(base, cache, off, step, c);
    }
  }

  lemma MergeGrid(merged: seq<Point>, base: seq<Point>, cache: seq<Point>, off: nat, step: int)
    requires step > 0 && Grid(base, step) && Grid(cache, step) && cache != []
    requires Joined(base, cache, off, step) && |merged| == Longer(|base|, off + |cache|)
    requires forall k :: 0 <= k < |base| ==> merged[k].ts == base[k].ts
    requires forall c :: 0 <= c < |cache| ==> merged[off + c].ts == cache[c].ts
    ensures Grid(merged, step)
  {
    forall k | 0 <= k < |merged|
      ensures Aligned(merged[k].ts, step)
      ensures k >= 1 ==> merged[k].ts == merged[k-1].ts + step
    {
      if k >= |base| {
        var c := k - off;
        assert merged[off + c].ts == cache[c].ts;
        if c >= 1 {
          assert merged[off + (c - 1)].ts == cache[c - 1].ts;
        }
      }
    }
  }

  /** Overlays the cached points on the disk points: find the junction, fix the missing stretch,
      lay the cached points. */
  method MergeCached(disk: seq<Point>, cache: seq<Point>, ghost d: Source, ghost c: Source,
                     lo: int, hi: int, step: int)
    returns (merged: seq<Point>)
    requires step > 0 && Represents(disk, d, lo, hi, step) && Represents(cache, c, lo, hi, step)
    requires disk != [] && cache != [] ==> disk[0].ts <= cache[0].ts
    ensures Represents(merged, Overlaid(c, d), lo, hi, step)
  {
    merged := disk;
    if |cache| > 0 {
      var idx := FindJunction(disk, cache[0].ts, step);
      var lastTs := if idx >= 0 then disk[idx].ts else cache[0].ts;
      var gap := FillGap(lastTs, cache[0].ts, step);
      GapFacts(disk, cache, gap, idx, step);
      merged := LayCached(disk + gap, |disk|, cache, idx + 1);
      MergeRepresents(merged, disk, gap, cache, idx + 1, d, c, lo, hi, step);
    }
  }

  /** The junction and the gap join the two grids. */
  lemma GapFacts(disk: seq<Point>, cache: seq<Point>, gap: seq<Point>, idx: int, step: int)
    requires step > 0 && Grid(disk, step) && Grid(cache, step) && Grid(gap, step) && cache != []
    requires disk != [] ==> disk[0].ts <= cache[0].ts
    requires -1 <= idx < |disk| && (idx >= 0 ==> disk[idx].ts < cache[0].ts)
    requires forall k :: idx < k < |disk| ==> cache[0].ts <= disk[k].ts
    requires var lastTs := if idx >= 0 then disk[idx].ts else cache[0].ts;
      && (gap == [] ==> cache[0].ts <= lastTs + step)
      && (gap != [] ==> gap[0].ts == lastTs + step && gap[|gap|-1].ts == cache[0].ts - step)
    ensures gap != [] ==> idx + 1 == |disk| && disk != []
    ensures Grid(disk + gap, step)
    ensures Joined(disk + gap, cache, JoinAt(disk + gap, |disk|, idx + 1), step)
  {
    if gap != [] {
      GapAfterDisk(disk, cache[0].ts, gap, idx, step);
    } else {
      assert disk + gap == disk;
      if idx >= 0 {
        AlignedGap(disk[idx].ts, cache[0].ts, step);
      }
    }
  }

  lemma GapAfterDisk(disk: seq<Point>, cacheTs: int, gap: seq<Point>, idx: int, step: int)
    requires step > 0 && Grid(disk, step) && Grid(gap, step) && gap != [] && -1 <= idx < |disk|
    requires forall k :: idx < k < |disk| ==> cacheTs <= disk[k].ts
    requires gap[0].ts == (if idx >= 0 then disk[idx].ts else cacheTs) + step
    requires gap[|gap|-1].ts == cacheTs - step
    ensures idx + 1 == |disk| && disk != [] && Grid(disk + gap, step)
  {
    assert 0 <= idx < |disk| - 1 ==> disk[idx + 1].ts == disk[idx].ts + step;
    LaterThan(gap, step, 0, |gap| - 1);
  }

  lemma MergeRepresents(merged: seq<Point>, disk: seq<Point>, gap: seq<Point>, cache: seq<Point>, start: nat,
                        d: Source, c: Source, lo: int, hi: int, step: int)
    requires step > 0 && Represents(disk, d, lo, hi, step) && Represents(cache, c, lo, hi, step)
    requires disk != [] && cache != [] ==> disk[0].ts <= cache[0].ts
    requires cache != [] && start <= |disk| && Grid(disk + gap, step)
    requires gap != [] ==> start == |disk| && disk != []
    requires forall k :: 0 <= k < |gap| ==> gap[k].val == Missing
    requires Joined(disk + gap, cache, JoinAt(disk + gap, |disk|, start), step)
    requires IsMerge(merged, disk + gap, |disk|, cache, JoinAt(disk + gap, |disk|, start))
    ensures Represents(merged, Overlaid(c, d), lo, hi, step)
  {
    var base := disk + gap;
    var off := JoinAt(base, |disk|, start);
    MergeTimes(merged, base, |disk|, cache, off, step);
    MergeGrid(merged, base, cache, off, step);
    GridIncreasing(merged, step);
    forall k | 0 <= k < |merged|
      ensures lo <= merged[k].ts <= hi && merged[k].val == Over(At(c, merged[k].ts), At(d, merged[k].ts))
    {
      MergedPoint(merged, disk, gap, cache, off, d, c, lo, hi, step, k);
    }
    forall t | lo <= t <= hi && Aligned(t, step) && Outside(merged, t)
      ensures Over(At(c, t), At(d, t)) == Missing
    {
      OutsideBoth(merged, disk, gap, cache, off, t);
    }
  }

  lemma OutsideBoth(merged: seq<Point>, disk: seq<Point>, gap: seq<Point>, cache: seq<Point>, off: nat, t: int)
    requires cache != [] && off <= |disk + gap| && |merged| == Longer(|disk + gap|, off + |cache|)
    requires disk != [] ==> disk[0].ts <= cache[0].ts
    requires disk == [] ==> off == 0
    requires forall i, j :: 0 <= i < j < |merged| ==> merged[i].ts < merged[j].ts
    requires forall i :: 0 <= i < |disk + gap| ==> merged[i].ts == (disk + gap)[i].ts
    requires forall i :: 0 <= i < |cache| ==> merged[off + i].ts == cache[i].ts
    requires Outside(merged, t)
    ensures Outside(disk, t) && Outside(cache, t)
  {
    assert merged[off].ts == cache[0].ts;
    assert merged[off + (|cache| - 1)].ts == cache[|cache|-1].ts;
    if disk != [] {
      assert merged[0].ts == disk[0].ts;
      assert merged[|disk|-1].ts == disk[|disk|-1].ts;
    }
  }

  /** One merged point lies in the window and carries the overlaid value. */
  lemma MergedPoint(merged: seq<Point>, disk: seq<Point>, gap: seq<Point>, cache: seq<Point>, off: nat,
                    d: Source, c: Source, lo: int, hi: int, step: int, k: nat)
    requires step > 0 && Represents(disk, d, lo, hi, step) && Represents(cache, c, lo, hi, step)
    requires cache != [] && off <= |disk + gap| && (off < |disk + gap| ==> gap == [])
    requires gap != [] ==> disk != []
    requires forall k :: 0 <= k < |gap| ==> gap[k].val == Missing
    requires Grid(merged, step) && forall i, j :: 0 <= i < j < |merged| ==> merged[i].ts < merged[j].ts
    requires IsMerge(merged, disk + gap, |disk|, cache, off) && k < |merged|
    requires forall i :: 0 <= i < |disk + gap| ==> merged[i].ts == (disk + gap)[i].ts
    requires forall i :: 0 <= i < |cache| ==> merged[off + i].ts == cache[i].ts
    ensures lo <= merged[k].ts <= hi && merged[k].val == Over(At(c, merged[k].ts), At(d, merged[k].ts))
  {
    var t := merged[k].ts;
    assert merged[off].ts == cache[0].ts;
    assert merged[off + (|cache| - 1)].ts == cache[|cache|-1].ts;
    if k < off || k >= off + |cache| {
      assert Outside(cache, t);
    } else {
      assert merged[off + (k - off)].ts == cache[k - off].ts;
    }
    if k < |disk| {
      assert disk[k] == (disk + gap)[k];
    } else {
      if disk != [] {
        assert merged[|disk|-1].ts == disk[|disk|-1].ts;
      }
      assert Outside(disk, t);
    }
    if disk != [] {
      assert merged[0].ts == disk[0].ts;
    }
  }

  // ----- the response

  /** Walks the window's grid and picks the merged point or a missing one. */
  method Regrid(merged: seq<Point>, ghost f: Source, lo: int, hi: int, step: int, size: nat)
    returns (ret: seq<Point>)
    requires step > 0 && Aligned(lo, step) && lo + size * step <= hi + step
    requires Represents(merged, f, lo, hi, step)
    ensures |ret| == size && Gridded(ret, f, lo, step)
  {
    ret := [];
    var mergedIdx, ts := 0, lo;
    GridIncreasing(merged, step);
    for i := 0 to size
      invariant |ret| == i && Gridded(ret, f, lo, step)
      invariant ts == lo + i * step && Aligned(ts, step)
      invariant PointCursor(merged, ts, mergedIdx)
    {
      WithinWindow(lo, hi, step, i, size);
      PointCursorStep(merged, f, lo, hi, step, ts, mergedIdx);
      GriddedAppend(ret, f, lo, step, ts);
      if mergedIdx < |merged| && ts == merged[mergedIdx].ts {
        ret := ret + [merged[mergedIdx]];
        mergedIdx := mergedIdx + 1;
      } else {
        ret := ret + [Point(ts, Missing)];
      }
      ts := ts + step;
    }
  }

  /** Point i is at `lo` plus i steps and carries the value there. */
  ghost predicate Gridded(ret: seq<Point>, f: Source, lo: int, step: int)
  {
    forall i :: 0 <= i < |ret| ==> ret[i] == Point(lo + i * step, At(f, lo + i * step))
  }

  lemma GriddedAppend(ret: seq<Point>, f: Source, lo: int, step: int, ts: int)
    requires Gridded(ret, f, lo, step) && ts == lo + |ret| * step
    ensures Gridded(ret + [Point(ts, At(f, ts))], f, lo, step)
    ensures ts + step == lo + (|ret| + 1) * step
  {
  }

  ghost predicate PointCursor(merged: seq<Point>, ts: int, idx: int)
  {
    && 0 <= idx <= |merged|
    && (idx > 0 ==> merged[idx-1].ts < ts)
    && (idx < |merged| ==> ts <= merged[idx].ts)
  }

  lemma WithinWindow(lo: int, hi: int, step: int, i: nat, size: nat)
    requires step > 0 && i < size && lo + size * step <= hi + step
    ensures lo <= lo + i * step <= hi
  {
    assert (size - i - 1) * step >= 0;
    assert size * step == (size - i - 1) * step + i * step + step;
  }

  lemma PointCursorStep(merged: seq<Point>, f: Source, lo: int, hi: int, step: int, ts: int, idx: nat)
    requires step > 0 && Represents(merged, f, lo, hi, step)
    requires Aligned(ts, step) && lo <= ts <= hi && PointCursor(merged, ts, idx)
    ensures Aligned(ts + step, step)
    ensures var hit := idx < |merged| && merged[idx].ts == ts;
      PointCursor(merged, ts + step, if hit then idx + 1 else idx) &&
      Point(ts, At(f, ts)) == if hit then merged[idx] else Point(ts, Missing)
  {
    AddStep(ts, step);
    if idx < |merged| && ts < merged[idx].ts {
      AlignedGap(ts, merged[idx].ts, step);
    }
    assert 0 < idx < |merged| ==> merged[idx].ts == merged[idx-1].ts + step;
    if 0 < idx {
      AlignedGapIf(merged[idx-1].ts, ts, step);
    }
  }

  /** What a query answers. */
  ghost predicate Answers(values: seq<Point>, indexed: Indexed, start: int, end: int,
                          items: seq<Item>, datas: seq<Point>, now: int)
    requires indexed.Known? ==> indexed.step > 0
  {
    if indexed.Unknown? then values == [] else
      var step := indexed.step;
      var lo := AlignDown(start, step);
      var hi := AlignDown(end, step) + step;
      if hi - lo - step < 1 then values == []
      else if Consolidated(lo, now, step) || items == [] then values == datas
      else
        && |values| == RetSize(indexed.dsType, lo, hi, step)
        && Gridded(values, Overlaid(Cached(items, indexed.dsType, step), Disk(datas)), lo, step)
  }

  /** The window begins before the finest archive does, so disk points are averages. */
  predicate Consolidated(lo: int, now: int, step: int)
    requires step > 0
  {
    lo < AlignDown(now, step) - RRA1_POINT_CNT * step
  }

  method Query(indexed: Indexed, start: int, end: int, items: seq<Item>, datas: seq<Point>, now: int)
    returns (values: seq<Point>)
    requires indexed.Known? ==> indexed.step > 0 && Increasing(items) && AlignedItems(items, indexed.step)
    requires indexed.Known? && !Consolidated(AlignDown(start, indexed.step), now, indexed.step) ==>
      DiskGrid(datas, AlignDown(start, indexed.step), indexed.step)
    ensures Answers(values, indexed, start, end, items, datas, now)
  {
    if indexed.Unknown? {
      return [];
    }
    var dsType, step := indexed.dsType, indexed.step;
    var startTs, endTs := AlignDown(start, step), AlignDown(end, step) + step;
    if endTs - startTs - step < 1 {
      return [];
    }
    var rra1StartTs := AlignDown(now, step) - RRA1_POINT_CNT * step;
    if startTs < rra1StartTs {
      return datas;
    }
    if |items| < 1 {
      return datas;
    }
    values := MergeWindow(dsType, step, startTs, endTs, items, datas);
  }

  method FormatCache(items: seq<Item>, dsType: DsType, step: int, lo: int, hi: int) returns (cache: seq<Point>)
    requires step > 0 && items != [] && Increasing(items) && AlignedItems(items, step)
    ensures Represents(cache, Cached(items, dsType, step), lo, hi, step)
  {
    cache := [];
    if dsType == Derive || dsType == Counter {
      cache := FormatCounter(items, dsType, step, lo, hi);
    } else if dsType == Gauge {
      cache := FormatGauge(items, step, lo, hi);
    }
  }

  /** The number of grid points of a response; a gauge also gets the window's end. */
  function RetSize(dsType: DsType, lo: int, hi: int, step: int): (n: nat)
    requires step > 0 && lo < hi
    ensures lo + n * step <= hi + step
  {
    var q := (hi - lo) / step;
    EuclideanSplit(hi - lo, step);
    assert (q + 1) * step == q * step + step;
    if dsType == Gauge then q + 1 else q
  }

  /** The merging block of a query over a non-empty window and cache. */
  method MergeWindow(dsType: DsType, step: int, startTs: int, endTs: int, items: seq<Item>, datas: seq<Point>)
    returns (values: seq<Point>)
    requires step > 0 && items != [] && Increasing(items) && AlignedItems(items, step)
    requires Aligned(startTs, step) && startTs < endTs && DiskGrid(datas, startTs, step)
    ensures |values| == RetSize(dsType, startTs, endTs, step)
    ensures Gridded(values, Overlaid(Cached(items, dsType, step), Disk(datas)), startTs, step)
  {
    var cache := FormatCache(items, dsType, step, startTs, endTs);
    var disk := FilterWindow(datas, startTs, endTs, step);
    ghost var c, d := Cached(items, dsType, step), Disk(datas);
    var merged := MergeCached(disk, cache, d, c, startTs, endTs, step);
    values := Regrid(merged, Overlaid(c, d), startTs, endTs, step, RetSize(dsType, startTs, endTs, step));
  }

  // ----- what an answer holds

  /** A query that merges cache and disk: the window is not empty, the disk points are not averages,
      and something is cached. */
  predicate Merges(indexed: Indexed, start: int, end: int, items: seq<Item>, now: int)
    requires indexed.Known? ==> indexed.step > 0
  {
    && indexed.Known? && items != []
    && AlignDown(start, indexed.step) < AlignDown(end, indexed.step)
    && !Consolidated(AlignDown(start, indexed.step), now, indexed.step)
  }

  ghost predicate HasTime(values: seq<Point>, t: int)
  {
    exists i :: 0 <= i < |values| && values[i].ts == t
  }

  lemma RetSizeExact(dsType: DsType, lo: int, hi: int, step: int)
    requires step > 0 && lo < hi && Aligned(lo, step) && Aligned(hi, step)
    ensures lo + RetSize(dsType, lo, hi, step) * step == hi + if dsType == Gauge then step else 0
  {
    var q := GridIndex(lo, hi, step);
    EuclideanSplit(hi - lo, step);
    QuotientIs(q, step);
    OneMoreStep(q, step);
  }

  lemma QuotientIs(q: nat, step: int)
    requires step > 0
    ensures (q * step) / step == q
  {
    EuclideanSplit(q * step, step);
    var d := (q * step) / step;
    StepsOrdered(d, q + 1, step);
    StepsOrdered(q, d + 1, step);
    OneMoreStep(d, step);
    OneMoreStep(q, step);
  }

  /** The times of a merged answer: the aligned times of the window, its end only for a gauge. */
  lemma AnsweredTimes(values: seq<Point>, f: Source, dsType: DsType, lo: int, hi: int, step: int, t: int)
    requires step > 0 && lo < hi && Aligned(lo, step) && Aligned(hi, step)
    requires |values| == RetSize(dsType, lo, hi, step) && Gridded(values, f, lo, step)
    ensures HasTime(values, t) <==> Aligned(t, step) && lo <= t && (t < hi || (dsType == Gauge && t == hi))
  {
    RetSizeExact(dsType, lo, hi, step);
    var n, past := |values|, hi + if dsType == Gauge then step else 0;
    AddStep(hi, step);
    if i :| 0 <= i < |values| && values[i].ts == t {
      GridTimeBefore(lo, step, i, n, past, t);
      AlignedGapIf(hi, t, step);
    }
    if Aligned(t, step) && lo <= t && (t < hi || (dsType == Gauge && t == hi)) {
      var i := TimeHasIndex(lo, step, n, past, t);
      assert values[i].ts == t;
    }
  }

  lemma GridTimeBefore(lo: int, step: int, i: nat, n: nat, past: int, t: int)
    requires step > 0 && Aligned(lo, step) && i < n && lo + n * step == past && t == lo + i * step
    ensures Aligned(t, step) && lo <= t < past
  {
    AddSteps(lo, i, step);
    StepsOrdered(i, n, step);
    StepsOrdered(-1, i, step);
    NotNegative(i, step);
  }

  lemma TimeHasIndex(lo: int, step: int, n: nat, past: int, t: int) returns (i: nat)
    requires step > 0 && Aligned(lo, step) && Aligned(t, step) && lo <= t < past && lo + n * step == past
    ensures i < n && t == lo + i * step
  {
    i := GridIndex(lo, t, step);
    StepsOrdered(i, n, step);
  }

  lemma OverlaidAt(items: seq<Item>, dsType: DsType, step: Step, datas: seq<Point>, t: int)
    ensures At(Overlaid(Cached(items, dsType, step), Disk(datas)), t) == Over(CachedAt(items, dsType, step, t), DiskAt(datas, t))
  {
  }

  /** At a time it has, a merged answer carries the cached value, else the disk value. */
  lemma AnsweredValue(values: seq<Point>, items: seq<Item>, dsType: DsType, step: Step, datas: seq<Point>, lo: int, i: nat)
    requires Gridded(values, Overlaid(Cached(items, dsType, step), Disk(datas)), lo, step) && i < |values|
    ensures values[i].val == Over(CachedAt(items, dsType, step, values[i].ts), DiskAt(datas, values[i].ts))
  {
    OverlaidAt(items, dsType, step, datas, values[i].ts);
  }

  lemma MergedAnswer(values: seq<Point>, indexed: Indexed, start: int, end: int,
                     items: seq<Item>, datas: seq<Point>, now: int, t: int)
    requires indexed.Known? && indexed.step > 0 && Merges(indexed, start, end, items, now)
    requires Answers(values, indexed, start, end, items, datas, now)
    ensures var lo, hi := AlignDown(start, indexed.step), AlignDown(end, indexed.step) + indexed.step;
      HasTime(values, t) <==> Aligned(t, indexed.step) && lo <= t && (t < hi || (indexed.dsType == Gauge && t == hi))
    ensures HasTime(values, t) ==>
      Point(t, Over(CachedAt(items, indexed.dsType, indexed.step, t), DiskAt(datas, t))) in values
  {
    var step := indexed.step;
    var lo, hi := AlignDown(start, step), AlignDown(end, step) + step;
    AddStep(AlignDown(end, step), step);
    AnsweredTimes(values, Overlaid(Cached(items, indexed.dsType, step), Disk(datas)), indexed.dsType, lo, hi, step, t);
    if i :| 0 <= i < |values| && values[i].ts == t {
      AnsweredValue(values, items, indexed.dsType, step, datas, lo, i);
      assert values[i] == Point(t, Over(CachedAt(items, indexed.dsType, step, t), DiskAt(datas, t)));
    }
  }

  /** For times from zero on, a query over a window with a grid time in it, reaching back no more than
      720 steps, answers exactly the grid times from the last one not after `start` up to `end`, for
      a gauge one more. */
  lemma QueryTimes(values: seq<Point>, indexed: Indexed, start: int, end: int,
                   items: seq<Item>, datas: seq<Point>, now: int, t: int)
    requires indexed.Known? && indexed.step > 0 && items != [] && start >= 0 && end >= 0 && now >= 0
    requires GridTimeIn(start, end, indexed.step) && !GridTimeIn(start + 720 * indexed.step, now, indexed.step)
    requires Answers(values, indexed, start, end, items, datas, now)
    ensures HasTime(values, t) <==>
      Aligned(t, indexed.step) && start - indexed.step < t &&
      (t <= end || (indexed.dsType == Gauge && t <= end + indexed.step))
  {
    var step := indexed.step;
    MergesIff(indexed, start, end, items, now);
    MergedAnswer(values, indexed, start, end, items, datas, now, t);
    if Aligned(t, step) {
      AddStep(t - step, step);
      NotAfter(t, start, step);
      NotAfter(t, end, step);
      NotAfter(t - step, end, step);
      AlignedGapIf(AlignDown(end, step), t, step);
    }
  }

  /** When a query merges, in terms of the times it is given. */
  lemma MergesIff(indexed: Indexed, start: int, end: int, items: seq<Item>, now: int)
    requires indexed.Known? && indexed.step > 0 && start >= 0 && end >= 0 && now >= 0
    ensures Merges(indexed, start, end, items, now) <==>
      items != [] && GridTimeIn(start, end, indexed.step) && !GridTimeIn(start + 720 * indexed.step, now, indexed.step)
  {
    var step := indexed.step;
    GridTimeBetweenIff(start, end, 0, step);
    GridTimeBetweenIff(start, now, 720, step);
    assert start + 0 * step == start;
  }

  /** What the other queries answer. */
  lemma QueryOtherwise(values: seq<Point>, indexed: Indexed, start: int, end: int,
                       items: seq<Item>, datas: seq<Point>, now: int)
    requires (indexed.Known? ==> indexed.step > 0) && start >= 0 && end >= 0 && now >= 0
    requires Answers(values, indexed, start, end, items, datas, now)
    ensures indexed.Unknown? || !GridTimeIn(start, end, indexed.step) ==> values == []
    ensures indexed.Known? && GridTimeIn(start, end, indexed.step) ==>
      (items == [] || GridTimeIn(start + 720 * indexed.step, now, indexed.step) ==> values == datas)
  {
    if indexed.Known? {
      GridTimeBetweenIff(start, end, 0, indexed.step);
      GridTimeBetweenIff(start, now, 720, indexed.step);
      assert start + 0 * indexed.step == start;
    }
  }

  /** Every gauge sample cached within the window is in the answer. */
  lemma GaugeSampleAnswered(values: seq<Point>, indexed: Indexed, start: int, end: int,
                            items: seq<Item>, datas: seq<Point>, now: int, k: nat)
    requires indexed.Known? && indexed.step > 0 && indexed.dsType == Gauge && Merges(indexed, start, end, items, now)
    requires Increasing(items) && AlignedItems(items, indexed.step) && k < |items|
    requires AlignDown(start, indexed.step) <= items[k].ts <= AlignDown(end, indexed.step) + indexed.step
    requires Answers(values, indexed, start, end, items, datas, now)
    ensures Point(items[k].ts, Num(items[k].value)) in values
  {
    MergedAnswer(values, indexed, start, end, items, datas, now, items[k].ts);
    CachedAtSample(items, Gauge, indexed.step, k);
  }

  /** A counter sample whose next one is a step later and not smaller has a rate. */
  predicate HasRate(items: seq<Item>, step: int, k: nat)
    requires k < |items|
  {
    k + 1 < |items| && items[k+1].ts == items[k].ts + step && items[k+1].value >= items[k].value
  }

  /** Over a step the rate makes up the difference of the samples. */
  ghost predicate IsRate(v: real, items: seq<Item>, step: int, k: nat)
    requires k + 1 < |items|
  {
    v * (step as real) == items[k+1].value - items[k].value
  }

  lemma CachedRate(items: seq<Item>, dsType: DsType, step: int, k: nat) returns (v: real)
    requires step > 0 && (dsType == Counter || dsType == Derive) && Increasing(items) && k < |items| && HasRate(items, step, k)
    ensures CachedAt(items, dsType, step, items[k].ts) == Num(v) && IsRate(v, items, step, k)
  {
    CachedAtSample(items, dsType, step, k);
    v := RateOverStep(items[k+1].value - items[k].value, step as real);
  }

  /** Every rate of a cached counter within the window is in the answer. */
  lemma CounterRateAnswered(values: seq<Point>, indexed: Indexed, start: int, end: int,
                            items: seq<Item>, datas: seq<Point>, now: int, k: nat) returns (v: real)
    requires indexed.Known? && indexed.step > 0 && (indexed.dsType == Counter || indexed.dsType == Derive)
    requires Merges(indexed, start, end, items, now)
    requires Increasing(items) && AlignedItems(items, indexed.step) && k < |items| && HasRate(items, indexed.step, k)
    requires AlignDown(start, indexed.step) <= items[k].ts <= AlignDown(end, indexed.step)
    requires Answers(values, indexed, start, end, items, datas, now)
    ensures Point(items[k].ts, Num(v)) in values && IsRate(v, items, indexed.step, k)
  {
    CachedValueAnswered(values, indexed, start, end, items, datas, now, k);
    v := CachedRate(items, indexed.dsType, indexed.step, k);
  }

  lemma CachedValueAnswered(values: seq<Point>, indexed: Indexed, start: int, end: int,
                            items: seq<Item>, datas: seq<Point>, now: int, k: nat)
    requires indexed.Known? && indexed.step > 0 && Merges(indexed, start, end, items, now)
    requires AlignedItems(items, indexed.step) && k < |items|
    requires AlignDown(start, indexed.step) <= items[k].ts <= AlignDown(end, indexed.step)
    requires Answers(values, indexed, start, end, items, datas, now)
    ensures var c := CachedAt(items, indexed.dsType, indexed.step, items[k].ts); c.Num? ==> Point(items[k].ts, c) in values
  {
    MergedAnswer(values, indexed, start, end, items, datas, now, items[k].ts);
  }

  lemma RateOverStep(a: real, b: real) returns (v: real)
    requires b > 0.0
    ensures v == a / b && v * b == a
  {
    v := a / b;
  }

  /** The cache has nothing to say of a time. */
  ghost predicate Uncached(items: seq<Item>, dsType: DsType, step: int, t: int)
  {
    forall k :: 0 <= k < |items| && items[k].ts == t ==> dsType == Other || (dsType != Gauge && !HasRate(items, step, k))
  }

  lemma UncachedMissing(items: seq<Item>, dsType: DsType, step: int, t: int)
    requires step > 0 && Uncached(items, dsType, step, t)
    ensures CachedAt(items, dsType, step, t) == Missing
  {
  }

  /** Every disk point of an answered time of which the cache says nothing is in the answer. */
  lemma DiskPointAnswered(values: seq<Point>, indexed: Indexed, start: int, end: int,
                          items: seq<Item>, datas: seq<Point>, now: int, k: nat)
    requires indexed.Known? && indexed.step > 0 && Merges(indexed, start, end, items, now)
    requires Grid(datas, indexed.step) && k < |datas| && Uncached(items, indexed.dsType, indexed.step, datas[k].ts)
    requires AlignDown(start, indexed.step) <= datas[k].ts <= AlignDown(end, indexed.step)
    requires Answers(values, indexed, start, end, items, datas, now)
    ensures datas[k] in values
  {
    MergedAnswer(values, indexed, start, end, items, datas, now, datas[k].ts);
    UncachedMissing(items, indexed.dsType, indexed.step, datas[k].ts);
    DiskAtPoint(datas, indexed.step, k);
  }

  /** A time with neither has a missing value. */
  lemma NothingElseAnswered(values: seq<Point>, indexed: Indexed, start: int, end: int,
                            items: seq<Item>, datas: seq<Point>, now: int, i: nat)
    requires indexed.Known? && indexed.step > 0 && Merges(indexed, start, end, items, now)
    requires Answers(values, indexed, start, end, items, datas, now) && i < |values|
    requires Uncached(items, indexed.dsType, indexed.step, values[i].ts) && !HasTime(datas, values[i].ts)
    ensures values[i].val == Missing
  {
    AnsweredValue(values, items, indexed.dsType, indexed.step, datas, AlignDown(start, indexed.step), i);
    UncachedMissing(items, indexed.dsType, indexed.step, values[i].ts);
  }
}
