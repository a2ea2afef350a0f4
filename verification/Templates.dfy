/** Ancestor chains of templates and the pruning of chains that another chain subsumes. */
module Templates {
  import opened Sequences

  datatype Template = Template(parentId: int)

  type Tpls = map<int, Template>

  const MAX_DEPTH := 10

  // ----- ancestor paths

  predicate Known(tpls: Tpls, tid: int)
  {
    tid > 0 && tid in tpls
  }

  /** Root-first: each template is followed by its child, and the first has no known parent. */
  ghost predicate IsAncestorPath(tpls: Tpls, p: seq<int>)
  {
    && p != []
    && (forall i :: 0 <= i < |p| ==> Known(tpls, p[i]))
    && (forall i, j :: 0 <= i && j == i + 1 && j < |p| ==> tpls[p[j]].parentId == p[i])
    && !Known(tpls, tpls[p[0]].parentId)
  }

  ghost predicate PathTo(tpls: Tpls, p: seq<int>, tid: int)
  {
    IsAncestorPath(tpls, p) && p[|p|-1] == tid
  }

  /** The path a template is given: its ancestor path when that has at most 9 templates, else none. */
  ghost predicate IsChain(tpls: Tpls, c: seq<int>, tid: int)
  {
    if c != [] then PathTo(tpls, c, tid) && |c| < MAX_DEPTH
    else forall p :: PathTo(tpls, p, tid) ==> |p| >= MAX_DEPTH
  }

  /** Two ancestor paths that meet agree below the meeting point. */
  lemma {:induction false} PathsAgree(tpls: Tpls, p: seq<int>, q: seq<int>, i: nat, j: nat)
    requires IsAncestorPath(tpls, p) && IsAncestorPath(tpls, q)
    requires i < |p| && j < |q| && p[i] == q[j]
    ensures i == j && p[..i+1] == q[..j+1]
  {
    assert i > 0 ==> tpls[p[i]].parentId == p[i-1];
    assert j > 0 ==> tpls[q[j]].parentId == q[j-1];
    if i > 0 && j > 0 {
      PathsAgree(tpls, p, q, i - 1, j - 1);
      assert p[..i+1] == p[..i] + [p[i]] && q[..j+1] == q[..j] + [q[j]];
    }
  }

  lemma PathUnique(tpls: Tpls, p: seq<int>, q: seq<int>, tid: int)
    requires PathTo(tpls, p, tid) && PathTo(tpls, q, tid)
    ensures p == q
  {
    PathsAgree(tpls, p, q, |p| - 1, |q| - 1);
    assert p[..|p|] == p && q[..|q|] == q;
  }

  lemma ChainUnique(tpls: Tpls, c: seq<int>, c': seq<int>, tid: int)
    requires IsChain(tpls, c, tid) && IsChain(tpls, c', tid)
    ensures c == c'
  {
    if c != [] && c' != [] {
      PathUnique(tpls, c, c', tid);
    }
  }

  /** No template occurs twice in an ancestor path. */
  lemma PathDuplicateFree(tpls: Tpls, p: seq<int>, i: nat, j: nat)
    requires IsAncestorPath(tpls, p) && i < j < |p|
    ensures p[i] != p[j]
  {
    if p[i] == p[j] {
      PathsAgree(tpls, p, p, i, j);
    }
  }

  // ----- the walk

  /** The first n steps upward from tid, youngest first, all known; `next` comes after them. */
  ghost predicate Walk(tpls: Tpls, w: seq<int>, tid: int, next: int)
  {
    && (forall i :: 0 <= i < |w| ==> Known(tpls, w[i]))
    && (forall i, j :: 0 <= i && j == i + 1 && j < |w| ==> tpls[w[i]].parentId == w[j])
    && (if w == [] then next == tid else w[0] == tid && tpls[w[|w|-1]].parentId == next)
  }

  lemma WalkIsPath(tpls: Tpls, w: seq<int>, tid: int, next: int)
    requires Walk(tpls, w, tid, next) && w != [] && !Known(tpls, next)
    ensures PathTo(tpls, Reverse(w), tid)
  {
  }

  /** A walk follows any ancestor path as long as that lasts. */
  lemma {:induction false} WalkFollowsPath(tpls: Tpls, w: seq<int>, tid: int, next: int, p: seq<int>, i: nat)
    requires Walk(tpls, w, tid, next) && PathTo(tpls, p, tid) && i < |w|
    ensures i < |p| && w[i] == p[|p| - 1 - i]
  {
    if i > 0 {
      WalkFollowsPath(tpls, w, tid, next, p, i - 1);
      var k := |p| - i;
      assert tpls[w[i-1]].parentId == w[i];
      if k > 0 {
        assert tpls[p[k]].parentId == p[k-1];
      }
    }
  }

  lemma PathsEndKnown(tpls: Tpls, tid: int)
    ensures forall p :: PathTo(tpls, p, tid) ==> Known(tpls, tid)
  {
    forall p | PathTo(tpls, p, tid)
      ensures Known(tpls, tid)
    {
      assert Known(tpls, p[|p|-1]);
    }
  }

  method ParentIds(tpls: Tpls, tid: int) returns (ret: seq<int>)
    ensures IsChain(tpls, ret, tid)
  {
    ret := [];
    var cur, depth := tid, 0;
    while cur > 0 && cur in tpls
      invariant depth == |ret| < MAX_DEPTH && Walk(tpls, ret, tid, cur)
      decreases MAX_DEPTH - depth
    {
      ret := ret + [cur];
      cur := tpls[cur].parentId;
      depth := depth + 1;
      if depth == MAX_DEPTH {
        forall p | PathTo(tpls, p, tid)
          ensures |p| >= MAX_DEPTH
        {
          WalkFollowsPath(tpls, ret, tid, cur, p, MAX_DEPTH - 1);
        }
        return [];
      }
    }
    var sz := |ret|;
    if sz == 0 {
      PathsEndKnown(tpls, tid);
      return;
    }
    WalkIsPath(tpls, ret, tid, cur);
    var desc := new int[sz](_ => 0);
    for i := 0 to sz
      invariant forall k :: 0 <= k < i ==> desc[sz - k - 1] == ret[k]
    {
      desc[sz - i - 1] := ret[i];
    }
    assert desc[..] == Reverse(ret) by {
      forall k | 0 <= k < sz
        ensures desc[k] == ret[sz - k - 1]
      {
        assert desc[sz - (sz - k - 1) - 1] == ret[sz - k - 1];
      }
    }
    ret := desc[..];
  }

  // ----- buckets

  ghost function ChainOf(tpls: Tpls, tid: int): (c: seq<int>)
    ensures IsChain(tpls, c, tid)
  {
    if exists p :: PathTo(tpls, p, tid) && |p| < MAX_DEPTH
    then var p :| PathTo(tpls, p, tid) && |p| < MAX_DEPTH; p
    else []
  }

  /** A template gets its ancestor path when that has up to nine templates, and nothing otherwise. */
  lemma ChainLimit(tpls: Tpls, tid: int, p: seq<int>)
    ensures PathTo(tpls, p, tid) && |p| <= 9 ==> ChainOf(tpls, tid) == p
    ensures PathTo(tpls, p, tid) && |p| > 9 ==> ChainOf(tpls, tid) == []
    ensures (forall q :: !PathTo(tpls, q, tid)) ==> ChainOf(tpls, tid) == []
    ensures forall x :: x in ChainOf(tpls, tid) ==> x > 0 && x in tpls
  {
    if PathTo(tpls, p, tid) {
      var c := ChainOf(tpls, tid);
      if c != [] {
        PathUnique(tpls, p, c, tid);
      }
    }
  }

  /** The buckets of the bound templates, in order: the chains that are not empty. */
  ghost function Buckets(tpls: Tpls, tids: seq<int>): seq<seq<int>>
  {
    if tids == [] then [] else
      var c := ChainOf(tpls, tids[|tids|-1]);
      Buckets(tpls, tids[..|tids|-1]) + if c == [] then [] else [c]
  }

  method CollectBuckets(tpls: Tpls, tids: seq<int>) returns (b: seq<seq<int>>)
    ensures b == Buckets(tpls, tids)
  {
    b := [];
    for i := 0 to |tids|
      invariant b == Buckets(tpls, tids[..i])
    {
      var ids := ParentIds(tpls, tids[i]);
      ChainUnique(tpls, ids, ChainOf(tpls, tids[i]), tids[i]);
      assert tids[..i+1][..i] == tids[..i];
      if |ids| > 0 {
        b := b + [ids];
      }
    }
    assert tids[..|tids|] == tids;
  }

  /** Every bucket is an ancestor path short enough to be given. */
  ghost predicate ChainList(tpls: Tpls, b: seq<seq<int>>)
  {
    forall k :: 0 <= k < |b| ==> IsAncestorPath(tpls, b[k]) && |b[k]| < MAX_DEPTH
  }

  function Leaf(c: seq<int>): int
    requires c != []
  {
    c[|c|-1]
  }

  lemma {:induction false} BucketsAreChains(tpls: Tpls, tids: seq<int>)
    ensures ChainList(tpls, Buckets(tpls, tids))
    ensures forall c :: c in Buckets(tpls, tids) ==> c != [] && Leaf(c) in tids
  {
    if tids != [] {
      BucketsAreChains(tpls, tids[..|tids|-1]);
    }
  }

  lemma {:induction false} BoundHasBucket(tpls: Tpls, tids: seq<int>, tid: int)
    requires tid in tids && ChainOf(tpls, tid) != []
    ensures ChainOf(tpls, tid) in Buckets(tpls, tids)
  {
    if tid != tids[|tids|-1] {
      BoundHasBucket(tpls, tids[..|tids|-1], tid);
    }
  }

  // ----- subsumption

  method SliceIntEq(a: seq<int>, b: seq<int>) returns (eq: bool)
    ensures eq == (a == b)
  {
    if |a| != |b| {
      return false;
    }
    for i := 0 to |a|
      invariant forall k :: 0 <= k < i ==> a[k] == b[k]
    {
      if a[i] != b[i] {
        return false;
      }
    }
    return true;
  }

  ghost predicate Within(a: seq<int>, b: seq<int>)
  {
    forall i :: 0 <= i < |a| ==> a[i] in b
  }

  method SliceIntLt(a: seq<int>, b: seq<int>) returns (lt: bool)
    ensures lt == Within(a, b)
  {
    for i := 0 to |a|
      invariant forall k :: 0 <= k < i ==> a[k] in b
    {
      var contains := SliceIntContains(b, a[i]);
      if !contains {
        return false;
      }
    }
    return true;
  }

  method SliceIntContains(list: seq<int>, target: int) returns (found: bool)
    ensures found == (target in list)
  {
    for i := 0 to |list|
      invariant target !in list[..i]
    {
      if list[i] == target {
        return true;
      }
    }
    return false;
  }

  /** Among ancestor paths, being contained, having one's leaf contained and being a prefix agree. */
  lemma WithinIsPrefix(tpls: Tpls, a: seq<int>, b: seq<int>)
    requires IsAncestorPath(tpls, a) && IsAncestorPath(tpls, b)
    ensures Within(a, b) <==> a <= b
    ensures Leaf(a) in b <==> a <= b
  {
    if Leaf(a) in b {
      var j :| 0 <= j < |b| && b[j] == Leaf(a);
      PathsAgree(tpls, a, b, |a| - 1, j);
      assert a[..|a|] == a;
    }
    if a <= b {
      assert forall i :: 0 <= i < |a| ==> a[i] == b[i];
    }
    if Within(a, b) {
      assert a[|a|-1] in b;
    }
  }

  // ----- pruning

  /** The scan drops bucket i when it meets a different bucket that contains it before it meets
      another bucket equal to it. */
  ghost predicate Dropped(b: seq<seq<int>>, i: nat)
    requires i < |b|
  {
    exists j :: 0 <= j < |b| && b[j] != b[i] && Within(b[i], b[j]) && NoneEqualBefore(b, i, j)
  }

  ghost predicate NoneEqualBefore(b: seq<seq<int>>, i: nat, j: nat)
    requires i < |b| && j <= |b|
  {
    forall k :: 0 <= k < j && k != i ==> b[k] != b[i]
  }

  method IsValid(b: seq<seq<int>>, i: nat) returns (valid: bool)
    requires i < |b|
    ensures valid == !Dropped(b, i)
  {
    valid := true;
    for j := 0 to |b|
      invariant valid && NoneEqualBefore(b, i, j)
      invariant forall k :: 0 <= k < j && b[k] != b[i] ==> !Within(b[i], b[k])
    {
      if i != j {
        var eq := SliceIntEq(b[i], b[j]);
        if eq {
          break;
        }
        var lt := SliceIntLt(b[i], b[j]);
        if lt {
          valid := false;
          break;
        }
      }
    }
  }

  /** The buckets that are not dropped, in order. */
  ghost function KeptUpTo(b: seq<seq<int>>, n: nat): seq<seq<int>>
    requires n <= |b|
  {
    if n == 0 then [] else KeptUpTo(b, n - 1) + if Dropped(b, n - 1) then [] else [b[n-1]]
  }

  method Prune(b: seq<seq<int>>) returns (uniq: seq<seq<int>>)
    ensures uniq == KeptUpTo(b, |b|)
  {
    uniq := [];
    for i := 0 to |b|
      invariant uniq == KeptUpTo(b, i)
    {
      var valid := IsValid(b, i);
      if valid {
        uniq := uniq + [b[i]];
      }
    }
  }

  lemma {:induction false} KeptIff(b: seq<seq<int>>, n: nat, c: seq<int>)
    requires n <= |b|
    ensures c in KeptUpTo(b, n) <==> exists i :: 0 <= i < n && b[i] == c && !Dropped(b, i)
  {
    if n > 0 {
      KeptIff(b, n - 1, c);
    }
  }

  // ----- what pruning keeps

  /** Some bucket properly extends the chain. */
  ghost predicate Subsumed(b: seq<seq<int>>, c: seq<int>)
  {
    exists d :: 0 <= d < |b| && c < b[d]
  }

  lemma DroppedIsSubsumed(tpls: Tpls, b: seq<seq<int>>, i: nat)
    requires ChainList(tpls, b) && i < |b| && Dropped(b, i)
    ensures Subsumed(b, b[i])
  {
    var j :| 0 <= j < |b| && b[j] != b[i] && Within(b[i], b[j]) && NoneEqualBefore(b, i, j);
    WithinIsPrefix(tpls, b[i], b[j]);
    assert b[i] < b[j];
  }

  /** Every bucket is a prefix of a kept one, duplicates or not. */
  lemma {:induction false} KeptCovers(tpls: Tpls, b: seq<seq<int>>, i: nat) returns (k: nat)
    requires ChainList(tpls, b) && i < |b|
    ensures k < |b| && !Dropped(b, k) && b[i] <= b[k]
    decreases MAX_DEPTH - |b[i]|
  {
    if Dropped(b, i) {
      DroppedIsSubsumed(tpls, b, i);
      var d :| 0 <= d < |b| && b[i] < b[d];
      k := KeptCovers(tpls, b, d);
    } else {
      k := i;
    }
  }

  /** A doubly bound template that has a bound descendant comes after some bound descendant. */
  ghost predicate DescendantsFirst(b: seq<seq<int>>)
  {
    forall i, j :: 0 <= i < j < |b| && b[i] == b[j] && Subsumed(b, b[i]) ==>
      exists d :: 0 <= d < i && b[i] < b[d]
  }

  /** Pruning keeps exactly the chains nothing extends. */
  ghost predicate KeepsMaximal(b: seq<seq<int>>)
  {
    forall i :: 0 <= i < |b| ==> (Dropped(b, i) <==> Subsumed(b, b[i]))
  }

  lemma FirstExtension(b: seq<seq<int>>, c: seq<int>) returns (d: nat)
    requires Subsumed(b, c)
    ensures d < |b| && c < b[d] && forall k :: 0 <= k < d ==> !(c < b[k])
  {
    d := 0;
    while !(c < b[d])
      invariant d < |b| && forall k :: 0 <= k < d ==> !(c < b[k])
      invariant exists e :: d <= e < |b| && c < b[e]
      decreases |b| - d
    {
      d := d + 1;
    }
  }

  lemma DuplicateHasEarlier(b: seq<seq<int>>, i: nat, k: nat)
    requires DescendantsFirst(b) && i < |b| && k < |b| && i != k && b[i] == b[k] && Subsumed(b, b[i])
    ensures exists d :: 0 <= d < k && b[i] < b[d]
  {
    var lo, hi := if k < i then k else i, if k < i then i else k;
    assert b[lo] == b[hi] && Subsumed(b, b[lo]);
  }

  lemma SubsumedIsDropped(tpls: Tpls, b: seq<seq<int>>, i: nat)
    requires ChainList(tpls, b) && DescendantsFirst(b) && i < |b| && Subsumed(b, b[i])
    ensures Dropped(b, i)
  {
    var d := FirstExtension(b, b[i]);
    WithinIsPrefix(tpls, b[i], b[d]);
    forall k: nat | k < |b| && k != i && b[k] == b[i]
      ensures exists d' :: 0 <= d' < k && b[i] < b[d']
    {
      DuplicateHasEarlier(b, i, k);
    }
    assert NoneEqualBefore(b, i, d);
  }

  lemma EarlyDuplicateIsKept(tpls: Tpls, b: seq<seq<int>>, i: nat, j: nat)
    requires ChainList(tpls, b) && i < j < |b| && b[i] == b[j]
    requires forall d :: 0 <= d < i ==> !(b[i] < b[d])
    ensures !Dropped(b, j)
  {
    forall d | 0 <= d < |b| && b[d] != b[j] && Within(b[j], b[d])
      ensures !NoneEqualBefore(b, j, d)
    {
      WithinIsPrefix(tpls, b[j], b[d]);
      assert b[i] < b[d];
      assert i < d;
    }
  }

  /** Pruning keeps exactly the maximal chains iff no doubly bound template with a bound
      descendant is listed before all of those descendants. */
  lemma KeepsMaximalIff(tpls: Tpls, b: seq<seq<int>>)
    requires ChainList(tpls, b)
    ensures KeepsMaximal(b) <==> DescendantsFirst(b)
  {
    if DescendantsFirst(b) {
      forall i | 0 <= i < |b|
        ensures Dropped(b, i) <==> Subsumed(b, b[i])
      {
        if Dropped(b, i) { DroppedIsSubsumed(tpls, b, i); }
        if Subsumed(b, b[i]) { SubsumedIsDropped(tpls, b, i); }
      }
    }
    if KeepsMaximal(b) {
      forall i, j | 0 <= i < j < |b| && b[i] == b[j] && Subsumed(b, b[i])
        ensures exists d :: 0 <= d < i && b[i] < b[d]
      {
        assert Dropped(b, j) <==> Subsumed(b, b[j]);
        if forall d :: 0 <= d < i ==> !(b[i] < b[d]) {
          EarlyDuplicateIsKept(tpls, b, i, j);
        }
      }
    }
  }

  ghost predicate DistinctIds(tids: seq<int>)
  {
    forall i, j :: 0 <= i < j < |tids| ==> tids[i] != tids[j]
  }

  ghost predicate DistinctChains(b: seq<seq<int>>)
  {
    forall i, j :: 0 <= i < j < |b| ==> b[i] != b[j]
  }

  /** Distinct bound templates have distinct chains. */
  lemma {:induction false} DistinctBuckets(tpls: Tpls, tids: seq<int>)
    requires DistinctIds(tids)
    ensures DistinctChains(Buckets(tpls, tids))
  {
    if tids != [] {
      var init, tid := tids[..|tids|-1], tids[|tids|-1];
      DistinctBuckets(tpls, init);
      BucketsAreChains(tpls, init);
      var b, c := Buckets(tpls, init), ChainOf(tpls, tid);
      if c != [] {
        forall i | 0 <= i < |b|
          ensures b[i] != c
        {
          assert b[i] in b;
          assert Leaf(b[i]) in init && tid !in init;
        }
      }
    }
  }

  /** With distinct bound templates a bucket is dropped iff another bound template with a
      non-empty chain descends from its template. */
  lemma DistinctKeepsMaximal(tpls: Tpls, tids: seq<int>, i: nat)
    requires DistinctIds(tids) && i < |Buckets(tpls, tids)|
    ensures var b := Buckets(tpls, tids);
      b[i] != [] && (Dropped(b, i) <==> exists j :: 0 <= j < |b| && j != i && Leaf(b[i]) in b[j])
  {
    var b := Buckets(tpls, tids);
    BucketsAreChains(tpls, tids);
    DistinctBuckets(tpls, tids);
    KeepsMaximalIff(tpls, b);
    assert DescendantsFirst(b);
    forall j | 0 <= j < |b|
      ensures Leaf(b[i]) in b[j] <==> b[i] <= b[j]
    {
      WithinIsPrefix(tpls, b[i], b[j]);
    }
    if Dropped(b, i) {
      var j :| 0 <= j < |b| && b[i] < b[j];
      assert Leaf(b[i]) in b[j];
    }
    if j :| 0 <= j < |b| && j != i && Leaf(b[i]) in b[j] {
      assert b[i] < b[j];
    }
  }

  /** Binding template 1 twice and its child 2 once keeps the subsumed chain of 1. */
  lemma DuplicateBindingKeepsSubsumedChain()
    ensures var b := Buckets(map[1 := Template(0), 2 := Template(1)], [1, 1, 2]);
      b == [[1], [1], [1, 2]] && Subsumed(b, b[0]) && !Dropped(b, 0)
  {
    var tpls := map[1 := Template(0), 2 := Template(1)];
    assert PathTo(tpls, [1], 1) && PathTo(tpls, [1, 2], 2);
    ChainUnique(tpls, [1], ChainOf(tpls, 1), 1);
    ChainUnique(tpls, [1, 2], ChainOf(tpls, 2), 2);
    assert [1, 1, 2][..2] == [1, 1] && [1, 1][..1] == [1] && [1][..0] == [];
    assert Buckets(tpls, [1]) == [[1]];
    assert Buckets(tpls, [1, 1]) == [[1], [1]];
    var b := [[1], [1], [1, 2]];
    assert b[0] < b[2];
    forall j | 0 <= j < |b| && b[j] != b[0]
      ensures !NoneEqualBefore(b, 0, j)
    {
      assert j == 2 && b[1] == b[0];
    }
  }
}
