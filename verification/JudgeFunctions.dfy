/** The window functions of the judge: what each loop decides over the newest points of a series. */
module JudgeFunctions {
  import opened JudgeHistory
  import opened Sequences
  import Statistics

  function Abs(x: real): real { if x < 0.0 then -x else x }

  /** The comparison of a rule; an operator the source does not know never triggers. */
  predicate CheckIsTriggered(leftValue: real, operator: string, rightValue: real)
  {
    if operator == "=" || operator == "==" then Abs(leftValue - rightValue) < 0.0001
    else if operator == "!=" then Abs(leftValue - rightValue) > 0.0001
    else if operator == "<" then leftValue < rightValue
    else if operator == "<=" then leftValue <= rightValue
    else if operator == ">" then leftValue > rightValue
    else if operator == ">=" then leftValue >= rightValue
    else false
  }

  // ----- what the functions mean

  ghost predicate IsMaximum(m: real, vs: seq<Evidence>)
  {
    && (exists i :: 0 <= i < |vs| && vs[i].value == m)
    && (forall i :: 0 <= i < |vs| ==> vs[i].value <= m)
  }

  ghost predicate IsMinimum(m: real, vs: seq<Evidence>)
  {
    && (exists i :: 0 <= i < |vs| && vs[i].value == m)
    && (forall i :: 0 <= i < |vs| ==> m <= vs[i].value)
  }

  ghost predicate AllHold(vs: seq<Evidence>, op: string, right: real)
  {
    forall i :: 0 <= i < |vs| ==> CheckIsTriggered(vs[i].value, op, right)
  }

  /** The positions at which the test holds. */
  ghost function Hits(vs: seq<Evidence>, op: string, right: real): set<int>
  {
    set i | 0 <= i < |vs| && CheckIsTriggered(vs[i].value, op, right)
  }

  /** Some older point differs from the newest one by a value that passes the test. */
  ghost predicate SomeDiffHolds(vs: seq<Evidence>, op: string, right: real)
  {
    exists i :: 1 <= i < |vs| && CheckIsTriggered(vs[0].value - vs[i].value, op, right)
  }

  function Percent(diff: real, base: real): real
    requires base != 0.0
  {
    diff / base * 100.0
  }

  /** The percentage is the one by which the newest point differs from a non-zero older one. */
  ghost predicate IsPercentage(vs: seq<Evidence>, p: real)
  {
    exists i :: 1 <= i < |vs| && vs[i].value != 0.0 && p == Percent(vs[0].value - vs[i].value, vs[i].value)
  }

  /** Some non-zero older point differs from the newest one by a percentage that passes the test. */
  ghost predicate SomePercentHolds(vs: seq<Evidence>, op: string, right: real)
  {
    exists p :: IsPercentage(vs, p) && CheckIsTriggered(p, op, right)
  }

  /** Each of the `limit` newest points differs from an aged one by a value that passes the test. */
  ghost predicate AgedHolds(vs: seq<Evidence>, aged: nat, limit: nat, op: string, right: real)
    requires aged < |vs| && limit <= |vs|
  {
    forall j :: 0 <= j < limit ==> CheckIsTriggered(vs[j].value - vs[aged].value, op, right)
  }

  /** None of the newest `num` points is zero, and every pair of one of the `num` oldest points and
      one of the `limit` newest points passes the test. */
  ghost predicate KDiffHolds(vs: seq<Evidence>, num: nat, limit: nat, op: string, right: real)
    requires |vs| == num + limit
  {
    && 1 <= num && 1 <= limit
    && (forall i :: 0 <= i < num ==> vs[i].value != 0.0)
    && (forall aged :: limit <= aged < limit + num ==> AgedHolds(vs, aged, limit, op, right))
  }

  // ----- the loops

  method MaxOf(vs: seq<Evidence>) returns (max: real)
    requires vs != []
    ensures IsMaximum(max, vs)
  {
    max := vs[0].value;
    for i := 1 to |vs|
      invariant exists k :: 0 <= k < |vs| && vs[k].value == max
      invariant forall k :: 0 <= k < i ==> vs[k].value <= max
    {
      if max < vs[i].value {
        max := vs[i].value;
      }
    }
  }

  method MinOf(vs: seq<Evidence>) returns (min: real)
    requires vs != []
    ensures IsMinimum(min, vs)
  {
    min := vs[0].value;
    for i := 1 to |vs|
      invariant exists k :: 0 <= k < |vs| && vs[k].value == min
      invariant forall k :: 0 <= k < i ==> min <= vs[k].value
    {
      if min > vs[i].value {
        min := vs[i].value;
      }
    }
  }

  method CheckAll(vs: seq<Evidence>, op: string, right: real) returns (isTriggered: bool)
    ensures isTriggered == AllHold(vs, op, right)
  {
    isTriggered := true;
    for i := 0 to |vs|
      invariant isTriggered && forall k :: 0 <= k < i ==> CheckIsTriggered(vs[k].value, op, right)
    {
      isTriggered := CheckIsTriggered(vs[i].value, op, right);
      if !isTriggered {
        break;
      }
    }
  }

  method CheckLookup(vs: seq<Evidence>, num: int, op: string, right: real) returns (isTriggered: bool)
    ensures isTriggered == (1 <= num <= |Hits(vs, op, right)|)
  {
    var n := 0;
    for i := 0 to |vs|
      invariant n == |Hits(vs[..i], op, right)| && (num < 1 || n < num)
    {
      HitsStep(vs, i, op, right);
      if CheckIsTriggered(vs[i].value, op, right) {
        n := n + 1;
        if n == num {
          HitsPrefix(vs, i + 1, op, right);
          return true;
        }
      }
    }
    assert vs[..|vs|] == vs;
    return false;
  }

  method CheckDiff(vs: seq<Evidence>, op: string, right: real) returns (leftValue: real, isTriggered: bool)
    requires vs != []
    ensures isTriggered == SomeDiffHolds(vs, op, right)
    ensures isTriggered ==> CheckIsTriggered(leftValue, op, right)
    ensures isTriggered ==> exists i :: 1 <= i < |vs| && leftValue == vs[0].value - vs[i].value
  {
    var first := vs[0].value;
    leftValue, isTriggered := 0.0, false;
    for i := 1 to |vs|
      invariant !isTriggered && forall k :: 1 <= k < i ==> !CheckIsTriggered(first - vs[k].value, op, right)
    {
      leftValue := first - vs[i].value;
      isTriggered := CheckIsTriggered(leftValue, op, right);
      if isTriggered {
        break;
      }
    }
  }

  method CheckPDiff(vs: seq<Evidence>, op: string, right: real) returns (leftValue: real, isTriggered: bool)
    requires vs != []
    ensures isTriggered == SomePercentHolds(vs, op, right)
    ensures isTriggered ==> IsPercentage(vs, leftValue) && CheckIsTriggered(leftValue, op, right)
  {
    var first := vs[0].value;
    leftValue, isTriggered := 0.0, false;
    for i := 1 to |vs|
      invariant !isTriggered
      invariant forall k :: 1 <= k < i && vs[k].value != 0.0 ==>
        !CheckIsTriggered(Percent(first - vs[k].value, vs[k].value), op, right)
    {
      if vs[i].value != 0.0 {
        leftValue := Percent(first - vs[i].value, vs[i].value);
        isTriggered := CheckIsTriggered(leftValue, op, right);
        if isTriggered {
          break;
        }
      }
    }
  }

  method SumOf(vs: seq<Evidence>) returns (sum: real)
    ensures sum == Statistics.Sum(Values(vs))
  {
    sum := 0.0;
    for i := 0 to |vs|
      invariant sum == Statistics.Sum(Values(vs)[..i])
    {
      assert Values(vs)[..i+1][..i] == Values(vs)[..i];
      sum := sum + vs[i].value;
    }
    assert Values(vs)[..|vs|] == Values(vs);
  }

  method CheckKDiff(vs: seq<Evidence>, num: nat, limit: nat, op: string, right: real)
    returns (leftValue: real, isTriggered: bool)
    requires |vs| == num + limit
    ensures isTriggered == KDiffHolds(vs, num, limit, op, right)
    ensures isTriggered ==> leftValue == vs[limit-1].value - vs[limit].value
  {
    leftValue, isTriggered := 0.0, false;
    for i := 0 to num
      invariant forall k :: 0 <= k < i ==> vs[k].value != 0.0
      invariant forall aged :: |vs| - i <= aged < |vs| ==> AgedHolds(vs, aged, limit, op, right)
      invariant isTriggered == (i > 0) && (i > 0 ==> limit > 0)
      invariant isTriggered ==> leftValue == vs[limit-1].value - vs[limit + num - i].value
    {
      isTriggered := false;
      if vs[i].value == 0.0 {
        return;
      }
      leftValue, isTriggered := CheckAged(vs, limit + num - 1 - i, limit, op, right, leftValue);
      if !isTriggered {
        return;
      }
    }
  }

  /** The inner loop of kdiff: one aged point against the newest ones. */
  method CheckAged(vs: seq<Evidence>, aged: nat, limit: nat, op: string, right: real, left0: real)
    returns (leftValue: real, holds: bool)
    requires aged < |vs| && limit <= |vs|
    ensures holds == (limit > 0 && AgedHolds(vs, aged, limit, op, right))
    ensures holds ==> leftValue == vs[limit-1].value - vs[aged].value
  {
    leftValue, holds := left0, false;
    for j := 0 to limit
      invariant AgedHolds(vs, aged, j, op, right) && holds == (j > 0)
      invariant holds ==> leftValue == vs[j-1].value - vs[aged].value
    {
      leftValue := vs[j].value - vs[aged].value;
      holds := CheckIsTriggered(leftValue, op, right);
      if !holds {
        return;
      }
    }
  }

  method CheckStdDeviation(vs: seq<Evidence>, right: real, sqrt: real -> real) returns (isTriggered: bool)
    requires vs != []
    ensures isTriggered == Statistics.IsOutlier(Values(vs), right, sqrt)
  {
    var leftValue, datas := vs[0].value, [];
    for i := 0 to |vs|
      invariant datas == Values(vs)[..i]
    {
      datas := datas + [vs[i].value];
    }
    assert datas == Values(vs);
    var std := Statistics.ComputeStdDeviation(datas, sqrt);
    var mean := Statistics.ComputeMean(datas);
    isTriggered := false;
    var upperBound, lowerBound := mean + right * std, mean - right * std;
    if leftValue < lowerBound || leftValue > upperBound {
      isTriggered := true;
    }
  }

  // ----- dispatch

  datatype Function =
    | Max(limit: int)
    | Min(limit: int)
    | All(limit: int)
    | Lookup(num: int, limit: int)
    | Sum(limit: int)
    | Avg(limit: int)
    | Diff(limit: int)
    | PDiff(limit: int)
    | StdDev(limit: int)
    | KDiff(stable: nat, changed: nat)

  /** The number of history points a function asks for. */
  function Need(fn: Function): int
  {
    match fn
    case Diff(limit) => limit + 1
    case PDiff(limit) => limit + 1
    case KDiff(num, limit) => limit + num
    case _ => fn.limit
  }

  /** When a function triggers on the points it asked for. */
  ghost predicate Triggers(fn: Function, vs: seq<Evidence>, op: string, right: real, sqrt: real -> real)
    requires 1 <= |vs| == Need(fn)
  {
    match fn
    case Max(_) => exists m :: IsMaximum(m, vs) && CheckIsTriggered(m, op, right)
    case Min(_) => exists m :: IsMinimum(m, vs) && CheckIsTriggered(m, op, right)
    case All(_) => AllHold(vs, op, right)
    case Lookup(num, _) => 1 <= num <= |Hits(vs, op, right)|
    case Sum(_) => CheckIsTriggered(Statistics.Sum(Values(vs)), op, right)
    case Avg(_) => CheckIsTriggered(Statistics.Mean(Values(vs)), op, right)
    case Diff(_) => SomeDiffHolds(vs, op, right)
    case PDiff(_) => SomePercentHolds(vs, op, right)
    case StdDev(_) => Statistics.IsOutlier(Values(vs), right, sqrt)
    case KDiff(num, limit) => KDiffHolds(vs, num, limit, op, right)
  }

  lemma MaximumUnique(m: real, m': real, vs: seq<Evidence>)
    requires IsMaximum(m, vs) && IsMaximum(m', vs)
    ensures m == m'
  {
  }

  lemma MinimumUnique(m: real, m': real, vs: seq<Evidence>)
    requires IsMinimum(m, vs) && IsMinimum(m', vs)
    ensures m == m'
  {
  }

  /** The value an alarm reports: the extremum, the newest point, or the difference that passed. */
  ghost predicate Reports(fn: Function, vs: seq<Evidence>, leftValue: real, op: string, right: real)
    requires 1 <= |vs| == Need(fn)
  {
    match fn
    case Max(_) => IsMaximum(leftValue, vs)
    case Min(_) => IsMinimum(leftValue, vs)
    case Diff(_) => CheckIsTriggered(leftValue, op, right) && exists i :: 1 <= i < |vs| && leftValue == vs[0].value - vs[i].value
    case Sum(_) => leftValue == Statistics.Sum(Values(vs))
    case Avg(_) => leftValue == Statistics.Mean(Values(vs))
    case PDiff(_) => CheckIsTriggered(leftValue, op, right) && IsPercentage(vs, leftValue)
    case KDiff(_, limit) => 1 <= limit < |vs| && leftValue == vs[limit-1].value - vs[limit].value
    case _ => leftValue == vs[0].value
  }

  method Compute(fn: Function, L: SafeLinkedList, op: string, right: real, sqrt: real -> real)
    returns (vs: seq<Evidence>, leftValue: real, isTriggered: bool, isEnough: bool)
    requires L.Valid()
    ensures vs == Window(L.L, Need(fn)) && isEnough == Enough(L.L, Need(fn))
    ensures isEnough ==> |vs| == Need(fn) && isTriggered == Triggers(fn, vs, op, right, sqrt)
    ensures !isEnough ==> !isTriggered
    ensures isTriggered ==> Reports(fn, vs, leftValue, op, right)
  {
    leftValue, isTriggered := 0.0, false;
    vs, isEnough := L.HistoryData(Need(fn));
    if isEnough {
      leftValue, isTriggered := Decide(fn, vs, op, right, sqrt);
    }
  }

  method Decide(fn: Function, vs: seq<Evidence>, op: string, right: real, sqrt: real -> real)
    returns (leftValue: real, isTriggered: bool)
    requires 1 <= |vs| == Need(fn)
    ensures isTriggered == Triggers(fn, vs, op, right, sqrt)
    ensures isTriggered ==> Reports(fn, vs, leftValue, op, right)
  {
    leftValue := vs[0].value;
    match fn {
      case Max(_) =>
        leftValue := MaxOf(vs);
        isTriggered := CheckIsTriggered(leftValue, op, right);
        forall m | IsMaximum(m, vs) ensures m == leftValue { MaximumUnique(leftValue, m, vs); }
      case Min(_) =>
        leftValue := MinOf(vs);
        isTriggered := CheckIsTriggered(leftValue, op, right);
        forall m | IsMinimum(m, vs) ensures m == leftValue { MinimumUnique(leftValue, m, vs); }
      case All(_) =>
        isTriggered := CheckAll(vs, op, right);
      case Lookup(num, _) =>
        isTriggered := CheckLookup(vs, num, op, right);
      case Diff(_) =>
        leftValue, isTriggered := CheckDiff(vs, op, right);
      case Sum(_) =>
        leftValue := SumOf(vs);
        isTriggered := CheckIsTriggered(leftValue, op, right);
      case Avg(limit) =>
        leftValue := SumOf(vs);
        leftValue := leftValue / (limit as real);
        isTriggered := CheckIsTriggered(leftValue, op, right);
      case PDiff(_) =>
        leftValue, isTriggered := CheckPDiff(vs, op, right);
      case StdDev(_) =>
        isTriggered := CheckStdDeviation(vs, right, sqrt);
      case KDiff(num, limit) =>
        leftValue, isTriggered := CheckKDiff(vs, num, limit, op, right);
    }
  }

  /** A stddev(#n) rule whose factor r >= 0 has r*r >= n-1 never triggers, on any history. */
  lemma StdDevNeverTriggers(vs: seq<Evidence>, limit: int, op: string, right: real, sqrt: real -> real)
    requires 1 <= |vs| == limit && Statistics.IsSqrt(sqrt)
    requires right >= 0.0 && right * right >= (limit - 1) as real
    ensures !Triggers(StdDev(limit), vs, op, right, sqrt)
  {
    Statistics.NeverOutlier(Values(vs), right, sqrt);
  }

  /** The list is a history on which stddev(#n) triggers. */
  ghost predicate StdDevTriggersOn(L: seq<JudgeItem>, n: int, op: string, right: real, sqrt: real -> real)
  {
    Descending(L) && Enough(L, n) && Triggers(StdDev(n), Window(L, n), op, right, sqrt)
  }

  /** The same for the list after a run of pushes. */
  ghost predicate StdDevTriggersAfter(items: seq<JudgeItem>, remain: nat, n: int, op: string, right: real, sqrt: real -> real)
  {
    StdDevTriggersOn(Pushes(items, remain), n, op, right, sqrt)
  }

  predicate StdDevPossible(n: int, right: real)
  {
    n >= 2 && (right < 0.0 || right * right < (n - 1) as real)
  }

  /** A stddev(#n) rule with factor r triggers on some history exactly when n >= 2 and r is negative
      or r*r < n-1. */
  lemma StdDevPossibleIff(n: int, op: string, right: real, sqrt: real -> real)
    requires Statistics.IsSqrt(sqrt)
    ensures (exists L :: StdDevTriggersOn(L, n, op, right, sqrt)) <==> StdDevPossible(n, right)
  {
    if L :| StdDevTriggersOn(L, n, op, right, sqrt) {
      TriggeringIsPossible(L, n, op, right, sqrt);
    }
    if StdDevPossible(n, right) {
      var items, L := SpikeTriggers(n, op, right, sqrt);
    }
  }

  /** Exactly then it also triggers after some run of pushes. */
  lemma StdDevReachableIff(n: int, op: string, right: real, sqrt: real -> real)
    requires Statistics.IsSqrt(sqrt)
    ensures (exists items, remain :: StdDevTriggersAfter(items, remain, n, op, right, sqrt)) <==> StdDevPossible(n, right)
  {
    if items, remain :| StdDevTriggersAfter(items, remain, n, op, right, sqrt) {
      TriggeringIsPossible(Pushes(items, remain), n, op, right, sqrt);
    }
    if StdDevPossible(n, right) {
      var items, L := SpikeTriggers(n, op, right, sqrt);
      assert StdDevTriggersAfter(items, n, n, op, right, sqrt);
    }
  }

  lemma TriggeringIsPossible(L: seq<JudgeItem>, n: int, op: string, right: real, sqrt: real -> real)
    requires Statistics.IsSqrt(sqrt) && StdDevTriggersOn(L, n, op, right, sqrt)
    ensures StdDevPossible(n, right)
  {
    var values := Values(Window(L, n));
    assert |values| == n && Statistics.IsOutlier(values, right, sqrt);
    Statistics.OutlierPossibleIff(n, right, sqrt);
  }

  /** Gauge samples of the given values, one second apart, the last value first in time. */
  ghost function Gauges(values: seq<real>): (items: seq<JudgeItem>)
    ensures |items| == |values|
  {
    seq(|values|, i requires 0 <= i < |values| => JudgeItem(i + 1, values[|values|-1-i], 'G'))
  }

  lemma SpikeTriggers(n: int, op: string, right: real, sqrt: real -> real) returns (items: seq<JudgeItem>, L: seq<JudgeItem>)
    requires Statistics.IsSqrt(sqrt) && StdDevPossible(n, right)
    ensures L == Pushes(items, n) && StdDevTriggersOn(L, n, op, right, sqrt)
  {
    var values := Statistics.Spike(n);
    items := Gauges(values);
    HistoryIsNewestAccepted(items, n);
    AllAccepted(items);
    L := Pushes(items, n);
    assert L == Reverse(items);
    WindowOfGauges(values, L);
    Statistics.SpikeIsOutlier(n, right, sqrt);
  }

  lemma WindowOfGauges(values: seq<real>, L: seq<JudgeItem>)
    requires values != [] && L == Reverse(Gauges(values))
    ensures Descending(L) && Enough(L, |values|) && Values(Window(L, |values|)) == values
  {
    assert forall i :: 0 <= i < |L| ==> L[i] == JudgeItem(|L| - i, values[i], 'G');
  }

  ghost function Values(vs: seq<Evidence>): seq<real>
  {
    seq(|vs|, i requires 0 <= i < |vs| => vs[i].value)
  }

  // ----- counting hits

  lemma HitsStep(vs: seq<Evidence>, i: nat, op: string, right: real)
    requires i < |vs|
    ensures |Hits(vs[..i+1], op, right)|
         == |Hits(vs[..i], op, right)| + if CheckIsTriggered(vs[i].value, op, right) then 1 else 0
  {
    var before, after := Hits(vs[..i], op, right), Hits(vs[..i+1], op, right);
    if CheckIsTriggered(vs[i].value, op, right) {
      assert after == before + {i};
    } else {
      assert after == before;
    }
  }

  lemma Subset(a: set<int>, b: set<int>)
    requires a <= b
    ensures |a| <= |b|
  {
    assert b == a + (b - a);
  }

  lemma HitsPrefix(vs: seq<Evidence>, i: nat, op: string, right: real)
    requires i <= |vs|
    ensures |Hits(vs[..i], op, right)| <= |Hits(vs, op, right)|
  {
    Subset(Hits(vs[..i], op, right), Hits(vs, op, right));
  }

  lemma {:induction false} HitsAtMost(vs: seq<Evidence>, op: string, right: real)
    ensures |Hits(vs, op, right)| <= |vs|
    ensures |Hits(vs, op, right)| == |vs| <==> AllHold(vs, op, right)
  {
    if vs != [] {
      var init := vs[..|vs|-1];
      HitsAtMost(init, op, right);
      HitsStep(vs, |vs| - 1, op, right);
      assert vs[..|vs|] == vs;
      assert AllHold(vs, op, right) <==> AllHold(init, op, right) && CheckIsTriggered(vs[|vs|-1].value, op, right);
    }
  }

  // ----- laws of the test

  /** The order tests split all pairs of values, mirror each other, and are monotone; the strict ones
      fail and the weak ones hold at equal values. */
  lemma OrderTests(a: real, b: real, c: real)
    ensures CheckIsTriggered(a, "<", b) <==> !CheckIsTriggered(a, ">=", b)
    ensures CheckIsTriggered(a, ">", b) <==> !CheckIsTriggered(a, "<=", b)
    ensures CheckIsTriggered(a, "<", b) <==> CheckIsTriggered(b, ">", a)
    ensures CheckIsTriggered(a, "<=", b) <==> CheckIsTriggered(b, ">=", a)
    ensures !CheckIsTriggered(a, "<", a) && CheckIsTriggered(a, "<=", a) && CheckIsTriggered(a, ">=", a)
    ensures a <= c && CheckIsTriggered(a, ">", b) ==> CheckIsTriggered(c, ">", b)
    ensures a != b ==> (CheckIsTriggered(a, "<", b) <==> !CheckIsTriggered(b, "<", a))
    ensures CheckIsTriggered(a + 1.0, ">", a)
  {
  }

  /** "=" and "==" agree, hold at equal values, exclude "!=", and with it leave out only the pairs at
      the tolerance; both depend on the distance only. */
  lemma EqualityTests(a: real, b: real, d: real)
    ensures CheckIsTriggered(a, "=", b) <==> CheckIsTriggered(a, "==", b)
    ensures CheckIsTriggered(a, "=", a)
    ensures !(CheckIsTriggered(a, "=", b) && CheckIsTriggered(a, "!=", b))
    ensures !CheckIsTriggered(a, "=", b) && !CheckIsTriggered(a, "!=", b) <==> a - b == 0.0001 || b - a == 0.0001
    ensures CheckIsTriggered(a, "=", b) <==> CheckIsTriggered(b, "=", a)
    ensures CheckIsTriggered(a, "=", b) <==> CheckIsTriggered(a + d, "=", b + d)
    ensures CheckIsTriggered(a, "=", b) ==> -0.0001 < a - b < 0.0001
  {
  }

  lemma UnknownOperatorNeverTriggers(a: real, op: string, b: real)
    requires op !in {"=", "==", "!=", "<", "<=", ">", ">="}
    ensures !CheckIsTriggered(a, op, b)
  {
  }

  predicate Complementary(op: string, op': string)
  {
    (op, op') in {("<", ">="), (">=", "<"), (">", "<="), ("<=", ">")}
  }

  /** The function decides by one number. */
  predicate ByOneNumber(fn: Function)
  {
    fn.Max? || fn.Min? || fn.Sum? || fn.Avg?
  }

  lemma {:induction false} ExtremesExist(vs: seq<Evidence>) returns (min: real, max: real)
    requires vs != []
    ensures IsMinimum(min, vs) && IsMaximum(max, vs)
  {
    var last := vs[|vs|-1].value;
    if |vs| == 1 {
      return last, last;
    }
    var init := vs[..|vs|-1];
    var min0, max0 := ExtremesExist(init);
    min, max := if last < min0 then last else min0, if last > max0 then last else max0;
    var i :| 0 <= i < |init| && init[i].value == min0;
    var j :| 0 <= j < |init| && init[j].value == max0;
    assert vs[i].value == min0 && vs[j].value == max0;
  }

  /** On a complete window, max, min, sum and avg answer complementary tests complementarily. */
  lemma ComplementaryAnswers(fn: Function, vs: seq<Evidence>, op: string, op': string, right: real, sqrt: real -> real)
    requires ByOneNumber(fn) && 1 <= |vs| == Need(fn) && Complementary(op, op')
    ensures Triggers(fn, vs, op, right, sqrt) <==> !Triggers(fn, vs, op', right, sqrt)
  {
    var min, max := ExtremesExist(vs);
    forall m | IsMaximum(m, vs) ensures m == max { MaximumUnique(m, max, vs); }
    forall m | IsMinimum(m, vs) ensures m == min { MinimumUnique(m, min, vs); }
  }

  // ----- what the functions look at

  /** A gauge history is long enough for max, min, all, sum, avg, stddev and lookup over n points when
      it has n, for diff and pdiff when it has n older ones, for kdiff when it has both stretches. */
  lemma PointsNeeded(L: seq<JudgeItem>, n: int, num: int, stable: nat, changed: nat)
    requires L != [] && L[0].IsGauge() && n >= 1
    ensures forall fn :: fn in {Max(n), Min(n), All(n), Sum(n), Avg(n), StdDev(n), Lookup(num, n)} ==>
      (Enough(L, Need(fn)) <==> |L| >= n)
    ensures forall fn :: fn in {Diff(n), PDiff(n)} ==> (Enough(L, Need(fn)) <==> |L| - 1 >= n)
    ensures Enough(L, Need(KDiff(stable, changed))) <==> 1 <= stable + changed <= |L|
  {
  }

  /** diff(#n) compares the newest point with each of the n points before it. */
  lemma DiffLooksBack(L: seq<JudgeItem>, n: int, op: string, right: real, sqrt: real -> real)
    requires Descending(L) && L != [] && L[0].IsGauge() && 0 <= n < |L|
    ensures Triggers(Diff(n), Window(L, Need(Diff(n))), op, right, sqrt) <==>
      exists i :: 1 <= i <= n && CheckIsTriggered(L[0].value - L[i].value, op, right)
  {
    var vs := Window(L, Need(Diff(n)));
    assert |vs| == n + 1 && forall i :: 0 <= i <= n ==> vs[i].value == L[i].value;
    if i :| 1 <= i <= n && CheckIsTriggered(L[0].value - L[i].value, op, right) {
      assert CheckIsTriggered(vs[0].value - vs[i].value, op, right);
    }
  }

  /** pdiff(#n) does so in percent of those of them that are not zero: a percentage is one when its
      hundredth part of the older point is the difference. */
  lemma PDiffLooksBack(L: seq<JudgeItem>, n: int, op: string, right: real, sqrt: real -> real)
    requires Descending(L) && L != [] && L[0].IsGauge() && 0 <= n < |L|
    ensures Triggers(PDiff(n), Window(L, Need(PDiff(n))), op, right, sqrt) <==>
      exists i, p :: 1 <= i <= n && PercentageOf(p, L[0].value - L[i].value, L[i].value) && CheckIsTriggered(p, op, right)
  {
    var vs := Window(L, Need(PDiff(n)));
    assert |vs| == n + 1 && forall i :: 0 <= i <= n ==> vs[i].value == L[i].value;
    if p :| IsPercentage(vs, p) && CheckIsTriggered(p, op, right) {
      var i :| 1 <= i < |vs| && vs[i].value != 0.0 && p == Percent(vs[0].value - vs[i].value, vs[i].value);
      PercentIff(p, vs[0].value - vs[i].value, vs[i].value);
      assert PercentageOf(p, L[0].value - L[i].value, L[i].value);
    }
    if i, p :| 1 <= i <= n && PercentageOf(p, L[0].value - L[i].value, L[i].value) && CheckIsTriggered(p, op, right) {
      PercentIff(p, vs[0].value - vs[i].value, vs[i].value);
      assert IsPercentage(vs, p);
    }
  }

  predicate PercentageOf(p: real, diff: real, base: real)
  {
    base != 0.0 && p * base == 100.0 * diff
  }

  lemma PercentIff(p: real, diff: real, base: real)
    requires base != 0.0
    ensures PercentageOf(p, diff, base) <==> p == Percent(diff, base)
  {
    var q := diff / base;
    QuotientTimes(diff, base);
    assert (q * 100.0) * base == 100.0 * diff;
    if p * base == 100.0 * diff {
      assert (p - q * 100.0) * base == 0.0;
    }
  }

  /** kdiff(#s,c) compares each of the c newest points with each of the s points before them, provided
      none of the s newest points is zero. */
  lemma KDiffCompares(L: seq<JudgeItem>, s: nat, c: nat, op: string, right: real, sqrt: real -> real)
    requires Descending(L) && L != [] && L[0].IsGauge() && 1 <= s && 1 <= c && s + c <= |L|
    ensures Triggers(KDiff(s, c), Window(L, Need(KDiff(s, c))), op, right, sqrt) <==>
      && (forall i :: 0 <= i < s ==> L[i].value != 0.0)
      && (forall i, j :: 0 <= i < c <= j < c + s ==> CheckIsTriggered(L[i].value - L[j].value, op, right))
  {
    var vs := Window(L, Need(KDiff(s, c)));
    assert |vs| == s + c && forall i :: 0 <= i < s + c ==> vs[i].value == L[i].value;
    if KDiffHolds(vs, s, c, op, right) {
      forall i, j | 0 <= i < c <= j < c + s
        ensures CheckIsTriggered(L[i].value - L[j].value, op, right)
      {
        assert AgedHolds(vs, j, c, op, right);
      }
    }
  }

  // ----- the functions agree

  /** all(#n) and lookup(#n,n) decide alike. */
  lemma AllIffLookupAll(vs: seq<Evidence>, n: int, op: string, right: real, sqrt: real -> real)
    requires 1 <= |vs| == n
    ensures Triggers(All(n), vs, op, right, sqrt) <==> Triggers(Lookup(n, n), vs, op, right, sqrt)
  {
    HitsAtMost(vs, op, right);
  }

  /** lookup(#k,n) triggers exactly when some k of the points pass. */
  lemma LookupCounts(vs: seq<Evidence>, k: int, n: int, op: string, right: real, sqrt: real -> real)
    requires 1 <= |vs| == n
    ensures Triggers(Lookup(k, n), vs, op, right, sqrt) <==>
      1 <= k && exists chosen: set<int> :: |chosen| == k && forall i :: i in chosen ==> Passes(vs, i, op, right)
  {
    var hits := Hits(vs, op, right);
    assert forall i :: i in hits <==> Passes(vs, i, op, right);
    if 1 <= k <= |hits| {
      var i := FirstHits(vs, k, op, right);
      var chosen := Hits(vs[..i], op, right);
      assert forall x :: x in chosen ==> Passes(vs, x, op, right);
    }
    if chosen: set<int> :| |chosen| == k && forall i :: i in chosen ==> Passes(vs, i, op, right) {
      Subset(chosen, hits);
    }
  }

  predicate Passes(vs: seq<Evidence>, i: int, op: string, right: real)
  {
    0 <= i < |vs| && CheckIsTriggered(vs[i].value, op, right)
  }

  /** Some first points hold exactly k of the hits. */
  lemma {:induction false} FirstHits(vs: seq<Evidence>, k: nat, op: string, right: real) returns (i: nat)
    requires k <= |Hits(vs, op, right)|
    ensures i <= |vs| && |Hits(vs[..i], op, right)| == k
  {
    assert vs[..|vs|] == vs;
    if |Hits(vs, op, right)| == k {
      return |vs|;
    }
    assert vs != [] by {
      assert Hits([], op, right) == {};
    }
    var init := vs[..|vs|-1];
    HitsStep(vs, |vs| - 1, op, right);
    i := FirstHits(init, k, op, right);
    assert init[..i] == vs[..i];
  }

  /** Above a threshold all(#n) is min(#n). */
  lemma AllIffMinAbove(vs: seq<Evidence>, n: int, op: string, right: real, sqrt: real -> real)
    requires 1 <= |vs| == n && (op == ">" || op == ">=")
    ensures Triggers(All(n), vs, op, right, sqrt) <==> Triggers(Min(n), vs, op, right, sqrt)
  {
    var min, _ := ExtremesExist(vs);
    forall m | IsMinimum(m, vs) ensures m == min { MinimumUnique(m, min, vs); }
    var k :| 0 <= k < |vs| && vs[k].value == min;
    if AllHold(vs, op, right) {
      assert CheckIsTriggered(vs[k].value, op, right);
    }
  }

  /** Below a threshold all(#n) is max(#n). */
  lemma AllIffMaxBelow(vs: seq<Evidence>, n: int, op: string, right: real, sqrt: real -> real)
    requires 1 <= |vs| == n && (op == "<" || op == "<=")
    ensures Triggers(All(n), vs, op, right, sqrt) <==> Triggers(Max(n), vs, op, right, sqrt)
  {
    var _, max := ExtremesExist(vs);
    forall m | IsMaximum(m, vs) ensures m == max { MaximumUnique(m, max, vs); }
    var k :| 0 <= k < |vs| && vs[k].value == max;
    if AllHold(vs, op, right) {
      assert CheckIsTriggered(vs[k].value, op, right);
    }
  }

  /** Above a threshold max(#n) is lookup(#1,n). */
  lemma SomeIffMaxAbove(vs: seq<Evidence>, n: int, op: string, right: real, sqrt: real -> real)
    requires 1 <= |vs| == n && (op == ">" || op == ">=")
    ensures Triggers(Lookup(1, n), vs, op, right, sqrt) <==> Triggers(Max(n), vs, op, right, sqrt)
  {
    var _, max := ExtremesExist(vs);
    forall m | IsMaximum(m, vs) ensures m == max { MaximumUnique(m, max, vs); }
    var k :| 0 <= k < |vs| && vs[k].value == max;
    var hits := Hits(vs, op, right);
    if CheckIsTriggered(max, op, right) {
      assert k in hits;
    }
    if hits != {} {
      var i :| i in hits;
      assert vs[i].value <= max;
    }
  }

  lemma {:induction false} SumBetween(values: seq<real>, low: real, high: real) returns (n: real, sum: real)
    requires forall i :: 0 <= i < |values| ==> low <= values[i] <= high
    ensures n == |values| as real && sum == Statistics.Sum(values) && n * low <= sum <= n * high
  {
    if values == [] {
      return 0.0, 0.0;
    }
    var n0, sum0 := SumBetween(values[..|values|-1], low, high);
    n, sum := n0 + 1.0, sum0 + values[|values|-1];
    OneMoreTimes(n0, low);
    OneMoreTimes(n0, high);
  }

  lemma OneMoreTimes(n: real, x: real)
    ensures (n + 1.0) * x == n * x + x
  {
  }

  lemma QuotientBetween(n: real, sum: real, low: real, high: real)
    requires n > 0.0 && n * low <= sum <= n * high
    ensures low <= sum / n <= high
  {
    var q := sum / n;
    assert n * q == sum;
    Statistics.CancelFactor(n, low, q);
    Statistics.CancelFactor(n, q, high);
  }

  /** The average lies between the minimum and the maximum. */
  lemma AverageBetween(vs: seq<Evidence>, min: real, max: real)
    requires IsMinimum(min, vs) && IsMaximum(max, vs)
    ensures min <= Statistics.Mean(Values(vs)) <= max
  {
    var n, sum := SumBetween(Values(vs), min, max);
    QuotientBetween(n, sum, min, max);
  }

  /** Above a threshold all(#n) implies avg(#n), and avg(#n) implies max(#n). */
  lemma AllThenAverageThenMax(vs: seq<Evidence>, n: int, op: string, right: real, sqrt: real -> real)
    requires 1 <= |vs| == n && (op == ">" || op == ">=")
    ensures Triggers(All(n), vs, op, right, sqrt) ==> Triggers(Avg(n), vs, op, right, sqrt)
    ensures Triggers(Avg(n), vs, op, right, sqrt) ==> Triggers(Max(n), vs, op, right, sqrt)
  {
    var min, max := ExtremesExist(vs);
    AverageBetween(vs, min, max);
    AllIffMinAbove(vs, n, op, right, sqrt);
    forall m | IsMinimum(m, vs) ensures m == min { MinimumUnique(m, min, vs); }
  }

  /** sum(#n) against n times a threshold is avg(#n) against the threshold. */
  lemma SumIsScaledAverage(vs: seq<Evidence>, n: int, op: string, right: real, sqrt: real -> real)
    requires 1 <= |vs| == n && op in {"<", "<=", ">", ">="}
    ensures Triggers(Sum(n), vs, op, (n as real) * right, sqrt) <==> Triggers(Avg(n), vs, op, right, sqrt)
  {
    ScaledOrder(Statistics.Sum(Values(vs)), n as real, right);
  }

  lemma ScaledOrder(sum: real, n: real, right: real)
    requires n > 0.0
    ensures sum / n < right <==> sum < n * right
    ensures sum / n > right <==> sum > n * right
  {
    var q := sum / n;
    assert n * q == sum;
    if q < right {
      Statistics.StrictFactor(n, q, right);
    } else if q > right {
      Statistics.StrictFactor(n, right, q);
    }
  }
}
