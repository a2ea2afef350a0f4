/** Which strategies a host gets from its bound templates: along each kept chain the youngest
    template that defines a (metric, tags) key wins. */
module Inheritance {
  import opened Options
  import opened Templates
  import Tags

  /** A strategy and the template it belongs to. */
  datatype Strategy = Strategy(id: int, metric: string, tags: map<string, string>, tpl: int)

  /** Template id to its strategies. */
  type Index = map<int, seq<Strategy>>

  /** The key strategies override each other by. */
  ghost function Uuid(s: Strategy): string
  {
    "metric:" + s.metric + "/tags:" + Tags.Canonical(s.tags)
  }

  // ----- specification

  ghost predicate Lists(index: Index, tid: int, s: Strategy)
  {
    tid in index && s in index[tid]
  }

  /** Strategies are listed under their own template and ids identify them. */
  ghost predicate WellFormed(index: Index)
  {
    && (forall t, s :: Lists(index, t, s) ==> s.tpl == t)
    && (forall t, t', s, s' :: Lists(index, t, s) && Lists(index, t', s') && s.id == s'.id ==> s == s')
  }

  ghost predicate Defines(index: Index, tid: int, uuid: string)
  {
    exists s :: Lists(index, tid, s) && Uuid(s) == uuid
  }

  /** `s` belongs to a template of the chain and no younger one defines its key. */
  ghost predicate Wins(index: Index, bucket: seq<int>, s: Strategy)
  {
    exists p :: 0 <= p < |bucket| && Lists(index, bucket[p], s) &&
      forall q :: p < q < |bucket| ==> !Defines(index, bucket[q], Uuid(s))
  }

  ghost predicate Yields(index: Index, bucket: seq<int>, id: int)
  {
    exists s :: Wins(index, bucket, s) && s.id == id
  }

  ghost predicate NonEmptyChains(kept: seq<seq<int>>)
  {
    forall k :: 0 <= k < |kept| ==> kept[k] != []
  }

  /** `o` is a winner of one of the first n kept chains, none before that chain yields its id, and
      it carries the youngest template of that chain. */
  ghost predicate Sound(index: Index, kept: seq<seq<int>>, n: nat, o: Strategy)
    requires n <= |kept| && NonEmptyChains(kept)
  {
    exists k, s :: 0 <= k < n && Wins(index, kept[k], s) && o == s.(tpl := Leaf(kept[k])) &&
      forall k' :: 0 <= k' < k ==> !Yields(index, kept[k'], o.id)
  }

  ghost function Ids(out: seq<Strategy>): set<int>
  {
    set i | 0 <= i < |out| :: out[i].id
  }

  ghost predicate DistinctStrategies(out: seq<Strategy>)
  {
    forall i, j :: 0 <= i < j < |out| ==> out[i].id != out[j].id
  }

  /** The answer for the kept chains: every winner's id once, each entry sound. */
  ghost predicate IsAnswer(index: Index, kept: seq<seq<int>>, n: nat, out: seq<Strategy>)
    requires n <= |kept| && NonEmptyChains(kept)
  {
    && DistinctStrategies(out)
    && (forall o :: o in out ==> Sound(index, kept, n, o))
    && (forall k, s :: 0 <= k < n && Wins(index, kept[k], s) ==> s.id in Ids(out))
  }

  // ----- indexing

  /** Groups the strategies by template, skipping missing ones and those without a template. */
  method Tpl2Strategies(strategies: map<int, Option<Strategy>>) returns (ret: Index)
    requires forall k :: k in strategies && strategies[k].Some? ==> strategies[k].value.id == k
    ensures WellFormed(ret)
    ensures forall t, s :: Lists(ret, t, s) <==> Indexed(strategies, {}, t, s)
  {
    ret := map[];
    var todo := strategies.Keys;
    while todo != {}
      invariant todo <= strategies.Keys
      invariant forall t, s :: Lists(ret, t, s) <==> Indexed(strategies, todo, t, s)
    {
      NonEmptyHasElement(todo);
      var k :| k in todo;
      ghost var before := todo;
      todo := todo - {k};
      if strategies[k].Some? {
        ret := Append(ret, strategies[k].value);
      }
      assert forall t, s :: Indexed(strategies, todo, t, s) <==>
        (Indexed(strategies, before, t, s) || (strategies[k] == Some(s) && s.tpl == t));
    }
  }

  lemma NonEmptyHasElement(ids: set<int>)
    ensures (forall k :: k !in ids) ==> ids == {}
  {
    if forall k :: k !in ids {
      assert ids == {};
    }
  }

  /** The strategy is stored under its id, belongs to the template, and is not left to do. */
  ghost predicate Indexed(strategies: map<int, Option<Strategy>>, todo: set<int>, t: int, s: Strategy)
  {
    s.tpl == t && s.id in strategies && s.id !in todo && strategies[s.id] == Some(s)
  }

  method Append(index: Index, s: Strategy) returns (r: Index)
    ensures forall t, x :: Lists(r, t, x) <==> Lists(index, t, x) || (t == s.tpl && x == s)
  {
    if s.tpl in index {
      r := index[s.tpl := index[s.tpl] + [s]];
    } else {
      r := index[s.tpl := [s]];
    }
  }

  // ----- one chain

  ghost predicate InGroup(m: map<string, seq<Strategy>>, uuid: string, s: Strategy)
  {
    uuid in m && s in m[uuid]
  }

  /** Groups one template's strategies by key. */
  method GroupByUuid(stras: seq<Strategy>) returns (m: map<string, seq<Strategy>>)
    ensures forall u, s :: InGroup(m, u, s) <==> s in stras && Uuid(s) == u
    ensures forall u :: u in m ==> exists s :: s in stras && Uuid(s) == u
  {
    m := map[];
    for i := 0 to |stras|
      invariant forall u, s :: InGroup(m, u, s) <==> s in stras[..i] && Uuid(s) == u
      invariant forall u :: u in m ==> m[u] != []
    {
      var tags := Tags.SortedTags(stras[i].tags);
      var uuid := "metric:" + stras[i].metric + "/tags:" + tags;
      m := AppendTo(m, uuid, stras[i]);
      assert stras[..i+1] == stras[..i] + [stras[i]];
    }
    forall u | u in m
      ensures exists s :: s in stras && Uuid(s) == u
    {
      assert InGroup(m, u, m[u][0]);
    }
  }

  method AppendTo(m: map<string, seq<Strategy>>, uuid: string, s: Strategy) returns (r: map<string, seq<Strategy>>)
    requires forall u :: u in m ==> m[u] != []
    ensures forall u, x :: InGroup(r, u, x) <==> InGroup(m, u, x) || (u == uuid && x == s)
    ensures forall u :: u in r ==> r[u] != []
  {
    if uuid in m {
      r := m[uuid := m[uuid] + [s]];
    } else {
      r := m[uuid := [s]];
    }
  }

  lemma WinsStep(index: Index, bucket: seq<int>, i: nat, s: Strategy)
    requires i < |bucket|
    ensures Wins(index, bucket[..i+1], s) <==>
      Lists(index, bucket[i], s) || (Wins(index, bucket[..i], s) && !Defines(index, bucket[i], Uuid(s)))
  {
    if Lists(index, bucket[i], s) {
      assert bucket[..i+1][i] == bucket[i];
    } else {
      if Wins(index, bucket[..i], s) && !Defines(index, bucket[i], Uuid(s)) {
        WinsLonger(index, bucket, i, s);
      }
      if Wins(index, bucket[..i+1], s) {
        WinsShorter(index, bucket, i, s);
      }
    }
  }

  lemma WinsLonger(index: Index, bucket: seq<int>, i: nat, s: Strategy)
    requires i < |bucket| && Wins(index, bucket[..i], s) && !Defines(index, bucket[i], Uuid(s))
    ensures Wins(index, bucket[..i+1], s)
  {
    var shorter, longer := bucket[..i], bucket[..i+1];
    var p :| 0 <= p < |shorter| && Lists(index, shorter[p], s) &&
      forall q :: p < q < |shorter| ==> !Defines(index, shorter[q], Uuid(s));
    assert longer[p] == shorter[p];
    assert forall q :: p < q < |longer| ==> longer[q] == if q == i then bucket[i] else shorter[q];
  }

  lemma WinsShorter(index: Index, bucket: seq<int>, i: nat, s: Strategy)
    requires i < |bucket| && Wins(index, bucket[..i+1], s) && !Lists(index, bucket[i], s)
    ensures Wins(index, bucket[..i], s) && !Defines(index, bucket[i], Uuid(s))
  {
    var shorter, longer := bucket[..i], bucket[..i+1];
    var p :| 0 <= p < |longer| && Lists(index, longer[p], s) &&
      forall q :: p < q < |longer| ==> !Defines(index, longer[q], Uuid(s));
    assert p < i && shorter[p] == longer[p];
    assert longer[i] == bucket[i];
    assert forall q :: p < q < |shorter| ==> shorter[q] == longer[q];
  }

  /** `m` holds exactly the winners of a chain, by key. */
  ghost predicate HoldsWinners(m: map<string, seq<Strategy>>, index: Index, bucket: seq<int>)
  {
    forall u, s :: InGroup(m, u, s) <==> Uuid(s) == u && Wins(index, bucket, s)
  }

  ghost predicate HoldsTemplate(group: map<string, seq<Strategy>>, index: Index, tid: int)
  {
    && (forall u, s :: InGroup(group, u, s) <==> Lists(index, tid, s) && Uuid(s) == u)
    && (forall u :: u in group ==> Defines(index, tid, u))
  }

  lemma Override(m: map<string, seq<Strategy>>, group: map<string, seq<Strategy>>, index: Index, bucket: seq<int>, i: nat)
    requires i < |bucket| && HoldsWinners(m, index, bucket[..i]) && HoldsTemplate(group, index, bucket[i])
    ensures HoldsWinners(m + group, index, bucket[..i+1])
  {
    forall u, s
      ensures InGroup(m + group, u, s) <==> Uuid(s) == u && Wins(index, bucket[..i+1], s)
    {
      WinsStep(index, bucket, i, s);
      assert InGroup(m, u, s) <==> Uuid(s) == u && Wins(index, bucket[..i], s);
      assert InGroup(group, u, s) <==> Lists(index, bucket[i], s) && Uuid(s) == u;
      if Defines(index, bucket[i], u) {
        var x :| Lists(index, bucket[i], x) && Uuid(x) == u;
        assert InGroup(group, u, x);
      }
    }
  }

  /** The final map of one chain: old templates first, so younger ones override. */
  method BucketStrategies(index: Index, bucket: seq<int>) returns (m: map<string, seq<Strategy>>)
    ensures HoldsWinners(m, index, bucket)
  {
    m := map[];
    for i := 0 to |bucket|
      invariant HoldsWinners(m, index, bucket[..i])
    {
      var group := TemplateStrategies(index, bucket[i]);
      Override(m, group, index, bucket, i);
      m := m + group;
    }
    assert bucket[..|bucket|] == bucket;
  }

  method TemplateStrategies(index: Index, tid: int) returns (group: map<string, seq<Strategy>>)
    ensures HoldsTemplate(group, index, tid)
  {
    group := map[];
    if tid in index {
      group := GroupByUuid(index[tid]);
      forall u | u in group
        ensures Defines(index, tid, u)
      {
        var s :| s in index[tid] && Uuid(s) == u;
        assert Lists(index, tid, s);
      }
    }
  }

  // ----- emitting

  ghost function Elems(ss: seq<Strategy>): set<Strategy>
  {
    set s | s in ss
  }

  /** What emitting adds: new ids only, each a given strategy moved to the chain's leaf. */
  ghost predicate Emitted(out0: seq<Strategy>, out: seq<Strategy>, from: set<Strategy>, leaf: int)
  {
    && out0 <= out && DistinctStrategies(out)
    && Ids(out) == Ids(out0) + (set s | s in from :: s.id)
    && (forall o :: o in out ==> o in out0 || (o.id !in Ids(out0) && exists s :: s in from && o == s.(tpl := leaf)))
  }

  method EmitList(ss: seq<Strategy>, leaf: int, out0: seq<Strategy>, seen0: set<int>)
    returns (out: seq<Strategy>, seen: set<int>)
    requires DistinctStrategies(out0) && seen0 == Ids(out0)
    ensures Emitted(out0, out, Elems(ss), leaf) && seen == Ids(out)
  {
    out, seen := out0, seen0;
    for i := 0 to |ss|
      invariant Emitted(out0, out, Elems(ss[..i]), leaf) && seen == Ids(out)
    {
      var valStrategy := ss[i];
      ghost var before := out;
      if valStrategy.id !in seen {
        if valStrategy.tpl != leaf {
          valStrategy := valStrategy.(tpl := leaf);
        }
        out := out + [valStrategy];
        seen := seen + {valStrategy.id};
      }
      EmitStep(out0, before, out, ss, i, leaf);
    }
    assert ss[..|ss|] == ss;
  }

  lemma IdsAppend(out: seq<Strategy>, o: Strategy)
    ensures Ids(out + [o]) == Ids(out) + {o.id}
  {
    var out' := out + [o];
    assert forall i :: 0 <= i < |out| ==> out'[i] == out[i];
    assert out'[|out|].id in Ids(out');
  }

  lemma EmitStep(out0: seq<Strategy>, before: seq<Strategy>, out: seq<Strategy>, ss: seq<Strategy>, i: nat, leaf: int)
    requires i < |ss| && Emitted(out0, before, Elems(ss[..i]), leaf)
    requires out == if ss[i].id in Ids(before) then before else before + [ss[i].(tpl := leaf)]
    ensures Emitted(out0, out, Elems(ss[..i+1]), leaf)
    ensures Ids(out) == Ids(before) + {ss[i].id}
  {
    EmitOne(before, out, ss[i], leaf);
    EmittedTwice(out0, before, out, Elems(ss[..i]), {ss[i]}, leaf);
    ElemsStep(ss, i);
  }

  lemma ElemsStep(ss: seq<Strategy>, i: nat)
    requires i < |ss|
    ensures Elems(ss[..i+1]) == Elems(ss[..i]) + {ss[i]}
  {
    assert ss[..i+1] == ss[..i] + [ss[i]];
  }

  lemma EmitOne(before: seq<Strategy>, out: seq<Strategy>, s: Strategy, leaf: int)
    requires DistinctStrategies(before)
    requires out == if s.id in Ids(before) then before else before + [s.(tpl := leaf)]
    ensures Emitted(before, out, {s}, leaf) && Ids(out) == Ids(before) + {s.id}
  {
    IdsAppend(before, s.(tpl := leaf));
    assert (set x | x in {s} :: x.id) == {s.id};
    if s.id !in Ids(before) {
      assert forall i :: 0 <= i < |before| ==> before[i].id in Ids(before);
    }
  }

  lemma EmittedTwice(out0: seq<Strategy>, out1: seq<Strategy>, out2: seq<Strategy>,
                     first: set<Strategy>, second: set<Strategy>, leaf: int)
    requires Emitted(out0, out1, first, leaf) && Emitted(out1, out2, second, leaf)
    ensures Emitted(out0, out2, first + second, leaf)
  {
  }

  ghost function Members(m: map<string, seq<Strategy>>, keys: set<string>): set<Strategy>
    requires keys <= m.Keys
  {
    set u, s | u in keys && s in m[u] :: s
  }

  lemma MembersStep(m: map<string, seq<Strategy>>, done: set<string>, u: string)
    requires done <= m.Keys && u in m
    ensures Members(m, done + {u}) == Members(m, done) + Elems(m[u])
  {
  }

  lemma GroupEmitted(m: map<string, seq<Strategy>>, leaf: int, out0: seq<Strategy>, before: seq<Strategy>,
                     out: seq<Strategy>, done: set<string>, u: string)
    requires done <= m.Keys && u in m
    requires Emitted(out0, before, Members(m, done), leaf) && Emitted(before, out, Elems(m[u]), leaf)
    ensures Emitted(out0, out, Members(m, done + {u}), leaf)
  {
    EmittedTwice(out0, before, out, Members(m, done), Elems(m[u]), leaf);
    MembersStep(m, done, u);
  }

  /** Emits all groups of one chain, in any order of the keys. */
  method EmitGroups(m: map<string, seq<Strategy>>, leaf: int, out0: seq<Strategy>, seen0: set<int>)
    returns (out: seq<Strategy>, seen: set<int>)
    requires DistinctStrategies(out0) && seen0 == Ids(out0)
    ensures Emitted(out0, out, Members(m, m.Keys), leaf) && seen == Ids(out)
  {
    out, seen := out0, seen0;
    var todo := m.Keys;
    while todo != {}
      invariant todo <= m.Keys
      invariant Emitted(out0, out, Members(m, m.Keys - todo), leaf) && seen == Ids(out)
    {
      var u :| u in todo;
      ghost var before, done := out, m.Keys - todo;
      out, seen := EmitList(m[u], leaf, out, seen);
      todo := todo - {u};
      GroupEmitted(m, leaf, out0, before, out, done, u);
      assert m.Keys - todo == done + {u};
    }
    assert m.Keys - {} == m.Keys;
  }

  lemma AnswerStep(index: Index, kept: seq<seq<int>>, k: nat, m: map<string, seq<Strategy>>,
                   out0: seq<Strategy>, out: seq<Strategy>)
    requires k < |kept| && NonEmptyChains(kept)
    requires IsAnswer(index, kept, k, out0) && HoldsWinners(m, index, kept[k])
    requires Emitted(out0, out, Members(m, m.Keys), Leaf(kept[k]))
    ensures IsAnswer(index, kept, k + 1, out)
  {
    var from := Members(m, m.Keys);
    forall s
      ensures s in from <==> Wins(index, kept[k], s)
    {
      assert InGroup(m, Uuid(s), s) <==> Wins(index, kept[k], s);
      if s in from {
        var u :| u in m && s in m[u];
        assert InGroup(m, u, s);
      }
    }
    forall o | o in out
      ensures Sound(index, kept, k + 1, o)
    {
      if o in out0 {
        assert Sound(index, kept, k, o);
      } else {
        NewIsSound(index, kept, k, out0, from, o);
      }
    }
  }

  lemma YieldedAreSeen(index: Index, kept: seq<seq<int>>, k: nat, out0: seq<Strategy>)
    requires k <= |kept| && NonEmptyChains(kept) && IsAnswer(index, kept, k, out0)
    ensures forall k', id :: 0 <= k' < k && Yields(index, kept[k'], id) ==> id in Ids(out0)
  {
  }

  lemma NewIsSound(index: Index, kept: seq<seq<int>>, k: nat, out0: seq<Strategy>, from: set<Strategy>, o: Strategy)
    requires k < |kept| && NonEmptyChains(kept)
    requires IsAnswer(index, kept, k, out0) && forall s :: s in from ==> Wins(index, kept[k], s)
    requires o.id !in Ids(out0) && exists s :: s in from && o == s.(tpl := Leaf(kept[k]))
    ensures Sound(index, kept, k + 1, o)
  {
    var s :| s in from && o == s.(tpl := Leaf(kept[k]));
    YieldedAreSeen(index, kept, k, out0);
    assert Wins(index, kept[k], s);
  }

  // ----- the whole calculation

  ghost function Kept(tpls: Tpls, tids: seq<int>): seq<seq<int>>
  {
    var b := Buckets(tpls, tids);
    KeptUpTo(b, |b|)
  }

  lemma KeptNonEmpty(tpls: Tpls, tids: seq<int>)
    ensures NonEmptyChains(Kept(tpls, tids))
  {
    var b := Buckets(tpls, tids);
    BucketsAreChains(tpls, tids);
    var kept := Kept(tpls, tids);
    forall k | 0 <= k < |kept|
      ensures kept[k] != []
    {
      KeptIff(b, |b|, kept[k]);
    }
  }

  /** The strategies of a host: what the kept chains of its bound templates answer. */
  method CalcInheritStrategies(tpls: Tpls, tids: seq<int>, index: Index) returns (out: seq<Strategy>)
    ensures NonEmptyChains(Kept(tpls, tids))
    ensures IsAnswer(index, Kept(tpls, tids), |Kept(tpls, tids)|, out)
  {
    var buckets := CollectBuckets(tpls, tids);
    var kept := Prune(buckets);
    KeptNonEmpty(tpls, tids);
    out := AnswerChains(index, kept);
  }

  method AnswerChains(index: Index, kept: seq<seq<int>>) returns (out: seq<Strategy>)
    requires NonEmptyChains(kept)
    ensures IsAnswer(index, kept, |kept|, out)
  {
    out := [];
    var seen := {};
    for k := 0 to |kept|
      invariant IsAnswer(index, kept, k, out) && seen == Ids(out)
    {
      var m := BucketStrategies(index, kept[k]);
      ghost var before := out;
      out, seen := EmitGroups(m, Leaf(kept[k]), out, seen);
      AnswerStep(index, kept, k, m, before, out);
    }
  }

  // ----- consequences

  /** With ids that identify strategies, a strategy is returned iff it wins along some kept chain. */
  lemma ReturnedIffWins(index: Index, kept: seq<seq<int>>, out: seq<Strategy>, s: Strategy)
    requires WellFormed(index) && NonEmptyChains(kept)
    requires IsAnswer(index, kept, |kept|, out) && Lists(index, s.tpl, s)
    ensures (exists t :: s.(tpl := t) in out) <==> exists k :: 0 <= k < |kept| && Wins(index, kept[k], s)
  {
    if t :| s.(tpl := t) in out {
      var o := s.(tpl := t);
      assert Sound(index, kept, |kept|, o);
      var k, w :| 0 <= k < |kept| && Wins(index, kept[k], w) && o == w.(tpl := Leaf(kept[k]));
      assert w == s;
    }
    if k :| 0 <= k < |kept| && Wins(index, kept[k], s) {
      assert s.id in Ids(out);
      var i :| 0 <= i < |out| && out[i].id == s.id;
      var o := out[i];
      assert o in out && Sound(index, kept, |kept|, o);
      var k', w :| 0 <= k' < |kept| && Wins(index, kept[k'], w) && o == w.(tpl := Leaf(kept[k']));
      assert w == s;
      assert s.(tpl := o.tpl) == o;
    }
  }

  /** The template has a chain that no other bound template descends from. */
  ghost predicate IsYoungest(tpls: Tpls, tids: seq<int>, t: int)
  {
    && t in tids && ChainOf(tpls, t) != []
    && forall t' :: t' in tids && t' != t ==> t !in ChainOf(tpls, t')
  }

  /** A bound template's chain is extended by another bucket iff another bound template descends
      from it. */
  lemma SubsumedIffNotYoungest(tpls: Tpls, tids: seq<int>, t: int)
    requires t in tids && ChainOf(tpls, t) != []
    ensures Subsumed(Buckets(tpls, tids), ChainOf(tpls, t)) <==> !IsYoungest(tpls, tids, t)
  {
    var b, c := Buckets(tpls, tids), ChainOf(tpls, t);
    if d :| 0 <= d < |b| && c < b[d] {
      LeafIsBound(tpls, tids, b[d]);
      ExtendsIff(tpls, c, b[d]);
    }
    if t' :| t' in tids && t' != t && t in ChainOf(tpls, t') {
      BoundHasBucket(tpls, tids, t');
      ExtendsIff(tpls, c, ChainOf(tpls, t'));
    }
  }

  /** Between chains, being properly extended is having one's leaf in a chain of another leaf. */
  lemma ExtendsIff(tpls: Tpls, c: seq<int>, c': seq<int>)
    requires IsAncestorPath(tpls, c) && IsAncestorPath(tpls, c')
    ensures c < c' <==> Leaf(c) != Leaf(c') && Leaf(c) in c'
  {
    WithinIsPrefix(tpls, c, c');
    if c < c' {
      PathDuplicateFree(tpls, c', |c| - 1, |c'| - 1);
    }
  }

  /** Unless a doubly bound template precedes its bound descendants, the kept chains are those of
      the youngest bound templates. */
  lemma KeptIffYoungest(tpls: Tpls, tids: seq<int>, t: int)
    requires DescendantsFirst(Buckets(tpls, tids)) && t in tids && ChainOf(tpls, t) != []
    ensures ChainOf(tpls, t) in Kept(tpls, tids) <==> IsYoungest(tpls, tids, t)
  {
    var b, c := Buckets(tpls, tids), ChainOf(tpls, t);
    BoundHasBucket(tpls, tids, t);
    BucketsAreChains(tpls, tids);
    KeepsMaximalIff(tpls, b);
    KeptIff(b, |b|, c);
    SubsumedIffNotYoungest(tpls, tids, t);
  }

  lemma LeafIsBound(tpls: Tpls, tids: seq<int>, c: seq<int>)
    requires c in Buckets(tpls, tids)
    ensures c != [] && Leaf(c) in tids && ChainOf(tpls, Leaf(c)) == c
  {
    BucketsAreChains(tpls, tids);
    ChainUnique(tpls, c, ChainOf(tpls, Leaf(c)), Leaf(c));
  }

  /** Some kept chain lets the strategy win, so it is returned. */
  ghost predicate WinsKept(tpls: Tpls, tids: seq<int>, index: Index, s: Strategy)
  {
    exists k :: 0 <= k < |Kept(tpls, tids)| && Wins(index, Kept(tpls, tids)[k], s)
  }

  /** The strategy wins along the chain of a bound template that no other one descends from. */
  ghost predicate WinsYoungest(tpls: Tpls, tids: seq<int>, index: Index, s: Strategy)
  {
    exists t :: IsYoungest(tpls, tids, t) && Wins(index, ChainOf(tpls, t), s)
  }

  lemma KeptWinsIffYoungestWins(tpls: Tpls, tids: seq<int>, index: Index, s: Strategy)
    requires DescendantsFirst(Buckets(tpls, tids))
    ensures WinsKept(tpls, tids, index, s) <==> WinsYoungest(tpls, tids, index, s)
  {
    if k :| 0 <= k < |Kept(tpls, tids)| && Wins(index, Kept(tpls, tids)[k], s) {
      KeptIsYoungest(tpls, tids, k);
    }
    if t :| IsYoungest(tpls, tids, t) && Wins(index, ChainOf(tpls, t), s) {
      var k := YoungestIsKept(tpls, tids, t);
    }
  }

  lemma KeptIsYoungest(tpls: Tpls, tids: seq<int>, k: nat)
    requires DescendantsFirst(Buckets(tpls, tids)) && k < |Kept(tpls, tids)|
    ensures exists t :: IsYoungest(tpls, tids, t) && ChainOf(tpls, t) == Kept(tpls, tids)[k]
  {
    var b, c := Buckets(tpls, tids), Kept(tpls, tids)[k];
    KeptIff(b, |b|, c);
    LeafIsBound(tpls, tids, c);
    KeptIffYoungest(tpls, tids, Leaf(c));
  }

  lemma YoungestIsKept(tpls: Tpls, tids: seq<int>, t: int) returns (k: nat)
    requires DescendantsFirst(Buckets(tpls, tids)) && IsYoungest(tpls, tids, t)
    ensures k < |Kept(tpls, tids)| && Kept(tpls, tids)[k] == ChainOf(tpls, t)
  {
    KeptIffYoungest(tpls, tids, t);
    k :| 0 <= k < |Kept(tpls, tids)| && Kept(tpls, tids)[k] == ChainOf(tpls, t);
  }

  /** From bindings to answer: unless a doubly bound template precedes its bound descendants, a
      strategy is returned iff it wins along the chain of a bound template that no other bound
      template descends from. */
  lemma ReturnedIffYoungestWins(tpls: Tpls, tids: seq<int>, index: Index, out: seq<Strategy>, s: Strategy)
    requires WellFormed(index) && DescendantsFirst(Buckets(tpls, tids)) && Lists(index, s.tpl, s)
    requires NonEmptyChains(Kept(tpls, tids)) && IsAnswer(index, Kept(tpls, tids), |Kept(tpls, tids)|, out)
    ensures (exists t :: s.(tpl := t) in out) <==> WinsYoungest(tpls, tids, index, s)
  {
    ReturnedIffWins(index, Kept(tpls, tids), out, s);
    KeptWinsIffYoungestWins(tpls, tids, index, s);
  }

  /** Distinct bound templates need no condition. */
  lemma ReturnedForDistinctBindings(tpls: Tpls, tids: seq<int>, index: Index, out: seq<Strategy>, s: Strategy)
    requires WellFormed(index) && DistinctIds(tids) && Lists(index, s.tpl, s)
    requires NonEmptyChains(Kept(tpls, tids)) && IsAnswer(index, Kept(tpls, tids), |Kept(tpls, tids)|, out)
    ensures (exists t :: s.(tpl := t) in out) <==> WinsYoungest(tpls, tids, index, s)
  {
    DistinctBuckets(tpls, tids);
    ReturnedIffYoungestWins(tpls, tids, index, out, s);
  }

  /** Every template defines one strategy under the same key. */
  ghost function SameKeyEverywhere(tpls: Tpls): Index
  {
    map u | u in tpls :: [SameKey(u)]
  }

  function SameKey(u: int): Strategy
  {
    Strategy(u, "m", map[], u)
  }

  /** When every template defines the key, only a chain's leaf wins along it. */
  lemma OnlyLeafWins(tpls: Tpls, c: seq<int>, t: int)
    requires IsAncestorPath(tpls, c) && t in tpls
    ensures Wins(SameKeyEverywhere(tpls), c, SameKey(t)) <==> Leaf(c) == t
  {
    var index, s := SameKeyEverywhere(tpls), SameKey(t);
    forall u
      ensures Lists(index, u, s) <==> u == t
      ensures Known(tpls, u) ==> Defines(index, u, Uuid(s))
    {
      assert Known(tpls, u) ==> Lists(index, u, SameKey(u)) && Uuid(SameKey(u)) == Uuid(s);
    }
    if Leaf(c) == t {
      assert Lists(index, c[|c|-1], s);
    }
  }

  /** Override works for every set of strategies exactly when no doubly bound template with a bound
      descendant is listed before all of those descendants. */
  lemma OverrideWorksIff(tpls: Tpls, tids: seq<int>)
    ensures (forall index: Index, s: Strategy :: WellFormed(index) && Lists(index, s.tpl, s) ==>
              (WinsKept(tpls, tids, index, s) <==> WinsYoungest(tpls, tids, index, s)))
       <==> DescendantsFirst(Buckets(tpls, tids))
  {
    var b := Buckets(tpls, tids);
    if DescendantsFirst(b) {
      forall index: Index, s: Strategy | WellFormed(index) && Lists(index, s.tpl, s)
        ensures WinsKept(tpls, tids, index, s) <==> WinsYoungest(tpls, tids, index, s)
      {
        KeptWinsIffYoungestWins(tpls, tids, index, s);
      }
    } else {
      var i, j :| 0 <= i < j < |b| && b[i] == b[j] && Subsumed(b, b[i]) && forall d :: 0 <= d < i ==> !(b[i] < b[d]);
      OverrideFails(tpls, tids, i, j);
      SameKeyWellFormed(tpls);
      var t :| t in tpls && OverrideFailsFor(tpls, tids, SameKeyEverywhere(tpls), SameKey(t));
      assert Lists(SameKeyEverywhere(tpls), SameKey(t).tpl, SameKey(t));
    }
  }

  /** A subsumed chain that a double binding keeps: its template is not a youngest one. */
  lemma OverrideFails(tpls: Tpls, tids: seq<int>, i: nat, j: nat)
    requires var b := Buckets(tpls, tids);
      i < j < |b| && b[i] == b[j] && Subsumed(b, b[i]) && forall d :: 0 <= d < i ==> !(b[i] < b[d])
    ensures exists t :: t in tpls && OverrideFailsFor(tpls, tids, SameKeyEverywhere(tpls), SameKey(t))
  {
    var b := Buckets(tpls, tids);
    BucketsAreChains(tpls, tids);
    LeafIsBound(tpls, tids, b[j]);
    EarlyDuplicateIsKept(tpls, b, i, j);
    KeptIff(b, |b|, b[j]);
    var t := Leaf(b[j]);
    SubsumedIffNotYoungest(tpls, tids, t);
    assert Known(tpls, t);
    KeptLeafWins(tpls, tids, t);
    YoungestDoNotWin(tpls, tids, t);
    assert OverrideFailsFor(tpls, tids, SameKeyEverywhere(tpls), SameKey(t));
  }

  ghost predicate OverrideFailsFor(tpls: Tpls, tids: seq<int>, index: Index, s: Strategy)
  {
    WinsKept(tpls, tids, index, s) && !WinsYoungest(tpls, tids, index, s)
  }

  lemma KeptLeafWins(tpls: Tpls, tids: seq<int>, t: int)
    requires t in tpls && ChainOf(tpls, t) != [] && ChainOf(tpls, t) in Kept(tpls, tids)
    ensures WinsKept(tpls, tids, SameKeyEverywhere(tpls), SameKey(t))
  {
    OnlyLeafWins(tpls, ChainOf(tpls, t), t);
    var k :| 0 <= k < |Kept(tpls, tids)| && Kept(tpls, tids)[k] == ChainOf(tpls, t);
  }

  lemma YoungestDoNotWin(tpls: Tpls, tids: seq<int>, t: int)
    requires t in tpls && !IsYoungest(tpls, tids, t)
    ensures !WinsYoungest(tpls, tids, SameKeyEverywhere(tpls), SameKey(t))
  {
    forall t' | IsYoungest(tpls, tids, t')
      ensures !Wins(SameKeyEverywhere(tpls), ChainOf(tpls, t'), SameKey(t))
    {
      OnlyLeafWins(tpls, ChainOf(tpls, t'), t);
    }
  }

  lemma SameKeyWellFormed(tpls: Tpls)
    ensures WellFormed(SameKeyEverywhere(tpls))
    ensures forall t :: t in tpls ==> Lists(SameKeyEverywhere(tpls), t, SameKey(t))
  {
  }

  /** The answer does not depend on any iteration order: two answers hold the same strategies. */
  lemma AnswersAgree(index: Index, kept: seq<seq<int>>, out: seq<Strategy>, out': seq<Strategy>, o: Strategy)
    requires WellFormed(index) && NonEmptyChains(kept)
    requires IsAnswer(index, kept, |kept|, out) && IsAnswer(index, kept, |kept|, out')
    ensures o in out ==> o in out'
  {
    if o in out {
      assert Sound(index, kept, |kept|, o);
      var k, s :| 0 <= k < |kept| && Wins(index, kept[k], s) && o == s.(tpl := Leaf(kept[k]));
      assert s.id in Ids(out');
      var i :| 0 <= i < |out'| && out'[i].id == s.id;
      assert out'[i] in out';
      SoundUnique(index, kept, o, out'[i]);
    }
  }

  /** Every returned strategy belongs to a template of the chain of the bound template it carries, and
      no younger template of that chain defines its key. */
  lemma AnswersAreBound(tpls: Tpls, tids: seq<int>, index: Index, out: seq<Strategy>, o: Strategy)
    requires NonEmptyChains(Kept(tpls, tids)) && IsAnswer(index, Kept(tpls, tids), |Kept(tpls, tids)|, out) && o in out
    ensures o.tpl in tids && ChainOf(tpls, o.tpl) in Kept(tpls, tids)
    ensures exists s :: Wins(index, ChainOf(tpls, o.tpl), s) && o == s.(tpl := o.tpl)
  {
    var kept, b := Kept(tpls, tids), Buckets(tpls, tids);
    assert Sound(index, kept, |kept|, o);
    var k, s :| 0 <= k < |kept| && Wins(index, kept[k], s) && o == s.(tpl := Leaf(kept[k]));
    KeptIff(b, |b|, kept[k]);
    LeafIsBound(tpls, tids, kept[k]);
  }

  /** At most one sound entry has a given id. */
  lemma SoundUnique(index: Index, kept: seq<seq<int>>, o: Strategy, o': Strategy)
    requires WellFormed(index) && NonEmptyChains(kept) && o.id == o'.id
    requires Sound(index, kept, |kept|, o) && Sound(index, kept, |kept|, o')
    ensures o == o'
  {
    var k, s :| 0 <= k < |kept| && Wins(index, kept[k], s) && o == s.(tpl := Leaf(kept[k])) &&
      forall j :: 0 <= j < k ==> !Yields(index, kept[j], o.id);
    var k', s' :| 0 <= k' < |kept| && Wins(index, kept[k'], s') && o' == s'.(tpl := Leaf(kept[k'])) &&
      forall j :: 0 <= j < k' ==> !Yields(index, kept[j], o'.id);
    WinnersIdentified(index, kept[k], kept[k'], s, s');
    assert Yields(index, kept[k], o.id) && Yields(index, kept[k'], o.id);
  }

  lemma WinnersIdentified(index: Index, c: seq<int>, c': seq<int>, s: Strategy, s': Strategy)
    requires WellFormed(index) && Wins(index, c, s) && Wins(index, c', s') && s.id == s'.id
    ensures s == s'
  {
    var p :| 0 <= p < |c| && Lists(index, c[p], s);
    var p' :| 0 <= p' < |c'| && Lists(index, c'[p'], s');
  }

  /** Keys separate (metric, tags) pairs when metrics have no '/' and tags are clean. */
  lemma UuidInjective(s: Strategy, s': Strategy)
    requires '/' !in s.metric && '/' !in s'.metric && Tags.Clean(s.tags) && Tags.Clean(s'.tags)
    requires Uuid(s) == Uuid(s')
    ensures s.metric == s'.metric && s.tags == s'.tags
  {
    var c, c' := Tags.Canonical(s.tags), Tags.Canonical(s'.tags);
    UuidTail(s);
    UuidTail(s');
    MetricEnds(s.metric, "tags:" + c, Uuid(s)[7..]);
    MetricEnds(s'.metric, "tags:" + c', Uuid(s')[7..]);
    assert ("tags:" + c)[5..] == c && ("tags:" + c')[5..] == c';
    Tags.CanonicalInjective(s.tags, s'.tags);
  }

  lemma UuidTail(s: Strategy)
    ensures |Uuid(s)| >= 7 && Uuid(s)[7..] == s.metric + "/" + ("tags:" + Tags.Canonical(s.tags))
  {
  }

  lemma MetricEnds(metric: string, rest: string, a: string)
    requires '/' !in metric && a == metric + "/" + rest
    ensures Tags.IndexOf(a, '/') == |metric| && a[..|metric|] == metric && a[|metric|+1..] == rest
  {
    assert a[..|metric|] == metric;
    Tags.IndexOfIs(a, '/', |metric|);
  }

  /** A doubly bound parent listed before its child defeats the child's override: whatever key the
      two strategies share, the parent's is returned as well. */
  lemma DuplicateBindingDefeatsOverride(parent: Strategy, out: seq<Strategy>, index: Index)
    requires WellFormed(index) && Lists(index, 1, parent)
    requires var kept := Kept(map[1 := Template(0), 2 := Template(1)], [1, 1, 2]);
      NonEmptyChains(kept) && IsAnswer(index, kept, |kept|, out)
    ensures exists t :: parent.(tpl := t) in out
  {
    var tpls := map[1 := Template(0), 2 := Template(1)];
    DuplicateBindingKeepsSubsumedChain();
    var b, kept := Buckets(tpls, [1, 1, 2]), Kept(tpls, [1, 1, 2]);
    KeptIff(b, |b|, [1]);
    assert b[0] == [1];
    var k :| 0 <= k < |kept| && kept[k] == [1];
    assert Lists(index, kept[k][0], parent);
    assert Wins(index, kept[k], parent);
    ReturnedIffWins(index, kept, out, parent);
  }
}
