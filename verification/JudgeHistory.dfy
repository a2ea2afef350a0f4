/** The judge's bounded, newest-first history of each series and the windows cut from it. */
module JudgeHistory {
  import opened Sequences

  /** A sample; `judgeType` is the first letter of the source's JudgeType string. */
  datatype JudgeItem = JudgeItem(ts: int, value: real, judgeType: char) {
    predicate IsGauge() { judgeType == 'G' || judgeType == 'g' }
  }

  /** One point of evidence (HistoryData). */
  datatype Evidence = Evidence(ts: int, value: real)

  // ----- specification

  ghost predicate Descending(L: seq<JudgeItem>)
  {
    forall i, j :: 0 <= i < j < |L| ==> L[i].ts > L[j].ts
  }

  ghost predicate Ascending(a: seq<JudgeItem>)
  {
    forall i, j :: 0 <= i < j < |a| ==> a[i].ts < a[j].ts
  }

  /** A repeated, late or non-positive timestamp is dropped unless the list is empty. */
  predicate Accepts(L: seq<JudgeItem>, v: JudgeItem)
  {
    L == [] || (v.ts > L[0].ts && v.ts > 0)
  }

  function Take<T>(s: seq<T>, n: nat): seq<T>
  {
    if |s| <= n then s else s[..n]
  }

  function Pushed(L: seq<JudgeItem>, v: JudgeItem, maxCount: nat): seq<JudgeItem>
  {
    if Accepts(L, v) then Take([v] + L, maxCount) else L
  }

  function Smaller(a: nat, b: nat): nat { if a < b then a else b }

  function RateOf(newer: JudgeItem, older: JudgeItem): real
    requires newer.ts > older.ts
  {
    (newer.value - older.value) / ((newer.ts - older.ts) as real)
  }

  /** How many points a window of the given limit gets, and whether that is enough. */
  function Available(L: seq<JudgeItem>): nat
  {
    if L == [] then 0 else if L[0].IsGauge() then |L| else |L| - 1
  }

  /** The newest `limit` values of a gauge, or rates of a counter, newest first. */
  ghost function Window(L: seq<JudgeItem>, limit: int): seq<Evidence>
    requires Descending(L)
  {
    var n := if limit < 1 then 0 else Smaller(limit, Available(L));
    seq(n, i requires 0 <= i < n =>
      Evidence(L[i].ts, if L[0].IsGauge() then L[i].value else RateOf(L[i], L[i+1])))
  }

  ghost predicate Enough(L: seq<JudgeItem>, limit: int)
  {
    1 <= limit <= Available(L)
  }

  // ----- the list

  class SafeLinkedList {
    var L: seq<JudgeItem>

    ghost predicate Valid()
      reads this
    {
      Descending(L)
    }

    constructor (first: JudgeItem)
      ensures Valid() && L == [first]
    {
      L := [first];
    }

    /** Pushes a sample and trims the oldest ones; a negative bound would trim an empty list. */
    method PushFrontAndMaintain(v: JudgeItem, maxCount: int) returns (needJudge: bool)
      requires Valid() && 0 <= maxCount
      modifies this
      ensures Valid()
      ensures needJudge == Accepts(old(L), v)
      ensures L == Pushed(old(L), v, maxCount)
    {
      var sz := |L|;
      if sz > 0 {
        if v.ts <= L[0].ts || v.ts <= 0 {
          return false;
        }
      }
      L := [v] + L;
      sz := sz + 1;
      if sz <= maxCount {
        return true;
      }
      ghost var full := L;
      var del := sz - maxCount;
      for i := 0 to del
        invariant L == full[..sz - i]
      {
        L := L[..|L|-1];
      }
      return true;
    }

    /** At most `limit` points; `isEnough` says whether all of them are there. */
    method HistoryData(limit: int) returns (vs: seq<Evidence>, isEnough: bool)
      requires Valid()
      ensures vs == Window(L, limit)
      ensures isEnough == Enough(L, limit)
    {
      if limit < 1 {
        return [], false;
      }
      var size := |L|;
      if size == 0 {
        return [], false;
      }
      var n := limit;
      isEnough := true;
      if L[0].IsGauge() {
        if size < n {
          n, isEnough := size, false;
        }
        vs := NewestValues(n);
      } else {
        if size < n + 1 {
          n, isEnough := size - 1, false;
        }
        vs := NewestRates(n);
      }
    }

    method NewestValues(n: nat) returns (vs: seq<Evidence>)
      requires n <= |L|
      ensures |vs| == n && forall k :: 0 <= k < n ==> vs[k] == Evidence(L[k].ts, L[k].value)
    {
      vs := [];
      for i := 0 to n
        invariant |vs| == i && forall k :: 0 <= k < i ==> vs[k] == Evidence(L[k].ts, L[k].value)
      {
        vs := vs + [Evidence(L[i].ts, L[i].value)];
      }
    }

    method NewestRates(n: nat) returns (vs: seq<Evidence>)
      requires Valid() && n < |L|
      ensures |vs| == n && forall k :: 0 <= k < n ==> vs[k] == Evidence(L[k].ts, RateOf(L[k], L[k+1]))
    {
      vs := [];
      for i := 0 to n
        invariant |vs| == i && forall k :: 0 <= k < i ==> vs[k] == Evidence(L[k].ts, RateOf(L[k], L[k+1]))
      {
        var diffVal, diffTs := L[i].value - L[i+1].value, L[i].ts - L[i+1].ts;
        vs := vs + [Evidence(L[i].ts, diffVal / (diffTs as real))];
      }
    }
  }

  // ----- the map of lists

  class JudgeItemMap {
    var M: map<string, SafeLinkedList>

    /** Every key has its own list. */
    ghost predicate Valid()
      reads this, M.Values
    {
      && (forall k :: k in M ==> M[k].Valid())
      && (forall k, k' :: k in M && k' in M && k != k' ==> M[k] != M[k'])
    }

    ghost function Contents(): map<string, seq<JudgeItem>>
      reads this, M.Values
    {
      map k | k in M :: M[k].L
    }

    constructor ()
      ensures Valid() && Contents() == map[]
    {
      M := map[];
    }

    method Set(key: string, val: SafeLinkedList)
      requires Valid() && val.Valid() && val !in M.Values
      modifies this
      ensures Valid() && M.Values <= old(M.Values) + {val}
      ensures Contents() == old(Contents())[key := val.L]
    {
      M := M[key := val];
    }

    /** Pushes a sample of one series; the others are untouched. */
    method PushFrontAndMaintain(key: string, val: JudgeItem, maxCount: int) returns (needJudge: bool)
      requires Valid() && 0 <= maxCount
      modifies this, M.Values
      ensures Valid()
      ensures needJudge == (key !in old(M) || Accepts(old(M[key].L), val))
      ensures Contents() ==
        old(Contents())[key := if key in old(M) then Pushed(old(M[key].L), val, maxCount) else [val]]
    {
      if key in M {
        var linkedList := M[key];
        needJudge := linkedList.PushFrontAndMaintain(val, maxCount);
      } else {
        var safeList := new SafeLinkedList(val);
        Set(key, safeList);
        needJudge := true;
      }
    }

    /** Drops the series whose newest sample is older than `before`. */
    method CleanStale(before: int)
      requires Valid()
      modifies this
      ensures Valid()
      ensures Contents() == map k | k in old(Contents()) && !IsStale(old(Contents())[k], before) :: old(Contents())[k]
      ensures forall k :: k in Contents() && Contents()[k] != [] ==> Contents()[k][0].ts >= before
      ensures forall k :: k in old(Contents()) && k !in Contents() ==>
        old(Contents())[k] != [] && old(Contents())[k][0].ts < before
    {
      var todo := M.Keys;
      var keys: set<string> := {};
      while todo != {}
        invariant todo <= M.Keys && keys <= M.Keys
        invariant forall k :: k in M && k !in todo ==> (k in keys <==> IsStale(M[k].L, before))
        invariant forall k :: k in keys ==> k !in todo
      {
        var key :| key in todo;
        todo := todo - {key};
        if M[key].L != [] && M[key].L[0].ts < before {
          keys := keys + {key};
        }
      }
      M := M - keys;
    }
  }

  predicate IsStale(L: seq<JudgeItem>, before: int)
  {
    L != [] && L[0].ts < before
  }

  // ----- whole runs

  /** The samples of a run that are accepted, oldest first: each later than all before it. */
  function Accepted(items: seq<JudgeItem>): seq<JudgeItem>
  {
    if items == [] then [] else
      var a := Accepted(items[..|items|-1]);
      var v := items[|items|-1];
      if a == [] || (v.ts > a[|a|-1].ts && v.ts > 0) then a + [v] else a
  }

  /** The list after a run of pushes: the first makes the list, the others go through the push. */
  function Pushes(items: seq<JudgeItem>, remain: nat): seq<JudgeItem>
  {
    if items == [] then []
    else if |items| == 1 then [items[0]]
    else Pushed(Pushes(items[..|items|-1], remain), items[|items|-1], remain)
  }

  lemma TakePush<T>(v: T, full: seq<T>, n: nat)
    requires n >= 1
    ensures Take([v] + Take(full, n), n) == Take([v] + full, n)
  {
  }

  /** For every run, the list is the newest `remain` accepted samples, newest first. */
  lemma {:induction false} HistoryIsNewestAccepted(items: seq<JudgeItem>, remain: nat)
    requires remain >= 1
    ensures Pushes(items, remain) == Take(Reverse(Accepted(items)), remain)
  {
    if |items| == 1 {
      assert items[..0] == [];
      assert Accepted(items) == [items[0]];
    } else if |items| > 1 {
      var init, v := items[..|items|-1], items[|items|-1];
      HistoryIsNewestAccepted(init, remain);
      NewestPush(Accepted(init), v, remain);
    }
  }

  /** Accepting at the list and accepting at the end of the accepted samples agree. */
  lemma NewestPush(a: seq<JudgeItem>, v: JudgeItem, remain: nat)
    requires remain >= 1
    ensures Pushed(Take(Reverse(a), remain), v, remain)
         == Take(Reverse(if a == [] || (v.ts > a[|a|-1].ts && v.ts > 0) then a + [v] else a), remain)
  {
    TakePush(v, Reverse(a), remain);
    assert (a + [v])[..|a|] == a;
  }

  /** The list of every run is strictly decreasing in time, so no window divides by zero. */
  lemma HistoryDescending(items: seq<JudgeItem>, remain: nat)
    requires remain >= 1
    ensures Descending(Pushes(items, remain))
  {
    HistoryIsNewestAccepted(items, remain);
    AcceptedIncreasing(items);
  }

  /** The accepted samples of any run are strictly increasing in time. */
  lemma {:induction false} AcceptedIncreasing(items: seq<JudgeItem>)
    ensures Ascending(Accepted(items))
  {
    if items != [] {
      AcceptedIncreasing(items[..|items|-1]);
    }
  }

  /** A run of strictly increasing positive timestamps is accepted as a whole. */
  lemma {:induction false} AllAccepted(items: seq<JudgeItem>)
    requires Ascending(items) && forall i :: 0 <= i < |items| ==> items[i].ts > 0
    ensures Accepted(items) == items
  {
    if items != [] {
      AllAccepted(items[..|items|-1]);
    }
  }

  /** What the k-th rate of a counter window says the counter moved over its gap. */
  ghost function Moved(L: seq<JudgeItem>, vs: seq<Evidence>, k: nat): real
    requires k < |vs| && k + 1 < |L|
  {
    vs[k].value * ((L[k].ts - L[k+1].ts) as real)
  }

  /** Sum of rate times gap over the first n points of a counter window. */
  ghost function Travelled(L: seq<JudgeItem>, vs: seq<Evidence>, n: nat): real
    requires n <= |vs| && n < |L|
  {
    if n == 0 then 0.0 else Travelled(L, vs, n - 1) + Moved(L, vs, n - 1)
  }

  /** In a counter window the rates times the gaps add up to newest minus oldest raw value. */
  lemma WindowTelescopes(L: seq<JudgeItem>, limit: int, n: nat)
    requires Descending(L) && L != [] && !L[0].IsGauge() && n <= |Window(L, limit)|
    ensures Travelled(L, Window(L, limit), n) == L[0].value - L[n].value
  {
    var vs := Window(L, limit);
    forall k | 0 <= k < n
      ensures Moved(L, vs, k) == L[k].value - L[k+1].value
    {
      WindowRate(L, limit, k);
      MovedAtRate(L, vs, k);
    }
    Telescopes(L, vs, n);
  }

  lemma {:induction false} Telescopes(L: seq<JudgeItem>, vs: seq<Evidence>, n: nat)
    requires n <= |vs| && n < |L| && forall k :: 0 <= k < n ==> Moved(L, vs, k) == L[k].value - L[k+1].value
    ensures Travelled(L, vs, n) == L[0].value - L[n].value
  {
    if n > 0 {
      Telescopes(L, vs, n - 1);
      assert Moved(L, vs, n - 1) == L[n-1].value - L[n].value;
    }
  }

  lemma MovedAtRate(L: seq<JudgeItem>, vs: seq<Evidence>, k: nat)
    requires k < |vs| && k + 1 < |L| && L[k].ts > L[k+1].ts && vs[k].value == RateOf(L[k], L[k+1])
    ensures Moved(L, vs, k) == L[k].value - L[k+1].value
  {
    RateTimesGap(L[k], L[k+1]);
  }

  lemma WindowRate(L: seq<JudgeItem>, limit: int, k: nat)
    requires Descending(L) && L != [] && !L[0].IsGauge() && k < |Window(L, limit)|
    ensures Window(L, limit)[k].value == RateOf(L[k], L[k+1])
  {
  }

  lemma RateTimesGap(newer: JudgeItem, older: JudgeItem)
    requires newer.ts > older.ts
    ensures RateOf(newer, older) * ((newer.ts - older.ts) as real) == newer.value - older.value
  {
    QuotientTimes(newer.value - older.value, (newer.ts - older.ts) as real);
  }

  lemma QuotientTimes(a: real, b: real)
    requires b != 0.0
    ensures (a / b) * b == a
  {
  }
}
