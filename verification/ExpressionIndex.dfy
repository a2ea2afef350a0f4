/** The tag index over alarm expressions: judging through the index finds exactly the expressions
    a full scan would, each once. */
module ExpressionIndex {

  type TagMap = map<string, string>

  datatype Expression = Expression(id: int, metric: string, tags: TagMap)

  /** The parts of a sample that expressions look at. */
  datatype Sample = Sample(endpoint: string, metric: string, tags: TagMap)

  // ----- specification

  function Key(metric: string, k: string, v: string): string
  {
    metric + "/" + k + "=" + v
  }

  ghost predicate HasKey(metric: string, tags: TagMap, key: string)
  {
    exists k :: k in tags && key == Key(metric, k, tags[k])
  }

  /** The sample's tags, with its endpoint as a tag unless it has a tag of that name. */
  function EffectiveTags(item: Sample): TagMap
  {
    map["endpoint" := item.endpoint] + item.tags
  }

  ghost predicate Matches(tags: TagMap, own: TagMap)
  {
    forall k :: k in tags ==> k in own && own[k] == tags[k]
  }

  /** What a scan over all expressions would judge. */
  ghost predicate ScanSelects(e: Expression, item: Sample)
  {
    e.metric == item.metric && e.tags != map[] && Matches(e.tags, EffectiveTags(item))
  }

  /** What the index selects: an expression that shares a key string with the sample and matches. */
  ghost predicate IndexSelects(e: Expression, item: Sample)
  {
    Matches(e.tags, EffectiveTags(item)) &&
    exists key :: HasKey(e.metric, e.tags, key) && ItemHasKey(item, key)
  }

  ghost predicate ItemHasKey(item: Sample, key: string)
  {
    HasKey(item.metric, item.tags, key) || key == Key(item.metric, "endpoint", item.endpoint)
  }

  ghost predicate UniqueIds(exps: seq<Expression>)
  {
    forall e, e' :: e in exps && e' in exps && e.id == e'.id ==> e == e'
  }

  /** In terms of the tags alone: every tag of the expression is a tag of the sample, or it is the
      endpoint and the sample has no tag of that name. */
  lemma ScanSelectsIff(e: Expression, item: Sample)
    ensures ScanSelects(e, item) <==>
      && e.metric == item.metric && e.tags != map[]
      && (forall k :: k in e.tags && k in item.tags ==> item.tags[k] == e.tags[k])
      && (forall k :: k in e.tags && k !in item.tags ==> k == "endpoint" && e.tags[k] == item.endpoint)
  {
    var own := EffectiveTags(item);
    assert forall k :: k in own <==> k in item.tags || k == "endpoint";
    assert forall k :: k in own ==> own[k] == if k in item.tags then item.tags[k] else item.endpoint;
  }

  // ----- building the index

  type Index = map<string, seq<Expression>>

  ghost predicate Entry(m: Index, key: string, e: Expression)
  {
    key in m && e in m[key]
  }

  method RebuildExpressionMap(exps: seq<Expression>) returns (m: Index)
    ensures forall key, e :: Entry(m, key, e) <==> e in exps && HasKey(e.metric, e.tags, key)
  {
    m := map[];
    for i := 0 to |exps|
      invariant forall key, e :: Entry(m, key, e) <==> e in exps[..i] && HasKey(e.metric, e.tags, key)
    {
      m := AddExpression(m, exps[i]);
      assert exps[..i+1] == exps[..i] + [exps[i]];
    }
    assert exps[..|exps|] == exps;
  }

  /** Enters one expression under each of its tags, in any order. */
  method AddExpression(m0: Index, exp: Expression) returns (m: Index)
    ensures forall key, e :: Entry(m, key, e) <==> Entry(m0, key, e) || (e == exp && HasKey(exp.metric, exp.tags, key))
  {
    m := m0;
    var todo := exp.tags.Keys;
    while todo != {}
      invariant todo <= exp.tags.Keys
      invariant forall key, e :: Entry(m, key, e) <==>
        (Entry(m0, key, e) ||
         (e == exp && exists k :: k in exp.tags && k !in todo && key == Key(exp.metric, k, exp.tags[k])))
    {
      var k :| k in todo;
      todo := todo - {k};
      m := AppendEntry(m, Key(exp.metric, k, exp.tags[k]), exp);
    }
  }

  method AppendEntry(m: Index, key: string, exp: Expression) returns (r: Index)
    ensures forall key', e :: Entry(r, key', e) <==> Entry(m, key', e) || (key' == key && e == exp)
  {
    if key in m {
      r := m[key := m[key] + [exp]];
    } else {
      r := m[key := [exp]];
    }
  }

  // ----- checking a sample

  method BuildKeys(item: Sample) returns (keys: seq<string>)
    ensures forall key :: key in keys <==> ItemHasKey(item, key)
  {
    keys := [];
    var todo := item.tags.Keys;
    while todo != {}
      invariant todo <= item.tags.Keys
      invariant forall key :: key in keys <==>
        exists k :: k in item.tags && k !in todo && key == Key(item.metric, k, item.tags[k])
    {
      var k :| k in todo;
      todo := todo - {k};
      keys := keys + [Key(item.metric, k, item.tags[k])];
    }
    keys := keys + [Key(item.metric, "endpoint", item.endpoint)];
  }

  method IsRelated(exp: Expression, item: Sample) returns (related: bool)
    ensures related == Matches(exp.tags, EffectiveTags(item))
  {
    var own := item.tags;
    if "endpoint" in exp.tags {
      own := EffectiveTags(item);
    }
    related := true;
    var todo := exp.tags.Keys;
    while todo != {}
      invariant todo <= exp.tags.Keys && related
      invariant forall k :: k in exp.tags && k !in todo ==> k in own && own[k] == exp.tags[k]
    {
      var tagKey :| tagKey in todo;
      todo := todo - {tagKey};
      if tagKey !in own || own[tagKey] != exp.tags[tagKey] {
        related := false;
        assert tagKey in exp.tags;
        break;
      }
    }
  }

  method FilterRelated(exps: seq<Expression>, item: Sample) returns (related: seq<Expression>)
    ensures forall e :: e in related <==> e in exps && Matches(e.tags, EffectiveTags(item))
  {
    related := [];
    for i := 0 to |exps|
      invariant forall e :: e in related <==> e in exps[..i] && Matches(e.tags, EffectiveTags(item))
    {
      var r := IsRelated(exps[i], item);
      assert exps[..i+1] == exps[..i] + [exps[i]];
      if r {
        related := related + [exps[i]];
      }
    }
    assert exps[..|exps|] == exps;
  }

  ghost predicate DistinctIds(judged: seq<Expression>)
  {
    forall i, j :: 0 <= i < j < |judged| ==> judged[i].id != judged[j].id
  }

  ghost function Ids(es: seq<Expression>): set<int>
  {
    set i | 0 <= i < |es| :: es[i].id
  }

  /** Judges each related expression whose id was not handled yet. */
  method JudgeNew(related: seq<Expression>, judged0: seq<Expression>, handled0: set<int>)
    returns (judged: seq<Expression>, handled: set<int>)
    requires DistinctIds(judged0) && handled0 == Ids(judged0)
    ensures DistinctIds(judged) && handled == Ids(judged)
    ensures forall e :: e in judged ==> e in judged0 || e in related
    ensures Ids(judged) == Ids(judged0) + Ids(related)
  {
    judged, handled := judged0, handled0;
    for i := 0 to |related|
      invariant DistinctIds(judged) && handled == Ids(judged)
      invariant forall e :: e in judged ==> e in judged0 || e in related
      invariant Ids(judged) == Ids(judged0) + Ids(related[..i])
    {
      IdsAppend(related[..i], related[i]);
      assert related[..i+1] == related[..i] + [related[i]];
      if related[i].id !in handled {
        IdsAppend(judged, related[i]);
        assert forall k :: 0 <= k < |judged| ==> judged[k].id in handled;
        handled := handled + {related[i].id};
        judged := judged + [related[i]];
      }
    }
    assert related[..|related|] == related;
  }

  lemma IdsAppend(es: seq<Expression>, e: Expression)
    ensures Ids(es + [e]) == Ids(es) + {e.id}
  {
    var es' := es + [e];
    assert forall i :: 0 <= i < |es| ==> es'[i] == es[i];
    assert es'[|es|].id in Ids(es');
  }

  /** Looks the sample's keys up and judges what is related, each expression once. */
  method CheckExpression(m: Index, item: Sample) returns (judged: seq<Expression>)
    ensures DistinctIds(judged)
    ensures forall e :: e in judged ==> Found(m, item, e)
    ensures forall e :: Found(m, item, e) ==> e.id in Ids(judged)
  {
    var keys := BuildKeys(item);
    judged := [];
    var handled := {};
    for i := 0 to |keys|
      invariant DistinctIds(judged) && handled == Ids(judged)
      invariant forall e :: e in judged ==> Found(m, item, e)
      invariant forall k, e :: 0 <= k < i && Entry(m, keys[k], e) && Matches(e.tags, EffectiveTags(item)) ==> e.id in Ids(judged)
    {
      if keys[i] in m {
        var related := FilterRelated(m[keys[i]], item);
        assert keys[i] in keys;
        assert forall e :: e in related ==> e.id in Ids(related);
        assert forall e :: e in related ==> Entry(m, keys[i], e);
        judged, handled := JudgeNew(related, judged, handled);
      }
    }
    forall e | Found(m, item, e)
      ensures e.id in Ids(judged)
    {
      var key :| ItemHasKey(item, key) && Entry(m, key, e);
      assert key in keys;
    }
  }

  ghost predicate Found(m: Index, item: Sample, e: Expression)
  {
    Matches(e.tags, EffectiveTags(item)) && exists key :: ItemHasKey(item, key) && Entry(m, key, e)
  }

  /** From configuration to judgement: rebuild the index, then check one sample. */
  method JudgeSample(exps: seq<Expression>, item: Sample) returns (judged: seq<Expression>)
    requires UniqueIds(exps)
    ensures DistinctIds(judged)
    ensures forall e :: e in judged <==> e in exps && IndexSelects(e, item)
  {
    var m := RebuildExpressionMap(exps);
    judged := CheckExpression(m, item);
    forall e
      ensures Found(m, item, e) <==> e in exps && IndexSelects(e, item)
    {
      FoundIff(m, exps, item, e);
    }
    forall e | e in exps && IndexSelects(e, item)
      ensures e in judged
    {
      var i :| 0 <= i < |judged| && judged[i].id == e.id;
      assert judged[i] in judged;
    }
  }

  lemma FoundIff(m: Index, exps: seq<Expression>, item: Sample, e: Expression)
    requires forall key, e :: Entry(m, key, e) <==> e in exps && HasKey(e.metric, e.tags, key)
    ensures Found(m, item, e) <==> e in exps && IndexSelects(e, item)
  {
    if Found(m, item, e) {
      var key :| ItemHasKey(item, key) && Entry(m, key, e);
      assert HasKey(e.metric, e.tags, key);
    }
    if e in exps && IndexSelects(e, item) {
      var key :| HasKey(e.metric, e.tags, key) && ItemHasKey(item, key);
      assert Entry(m, key, e);
    }
  }

  // ----- the index against the scan

  /** The index misses nothing a scan selects, for any strings. */
  lemma ScanIsFound(e: Expression, item: Sample)
    requires ScanSelects(e, item)
    ensures IndexSelects(e, item)
  {
    var k :| k in e.tags;
    var key := Key(e.metric, k, e.tags[k]);
    assert HasKey(e.metric, e.tags, key);
    if k in item.tags {
      assert HasKey(item.metric, item.tags, key);
    } else {
      assert k == "endpoint";
    }
    assert ItemHasKey(item, key);
  }

  /** `b` continues `a` at a '/'. */
  predicate Continues(a: string, b: string)
  {
    a + "/" <= b
  }

  /** Key strings of two metrics agree only if the metrics do, or one continues the other. */
  lemma KeyMetrics(m: string, k: string, v: string, m': string, k': string, v': string)
    requires Key(m, k, v) == Key(m', k', v')
    ensures m == m' || Continues(m, m') || Continues(m', m)
  {
    var key := Key(m, k, v);
    assert key[..|m|] == m && key[..|m'|] == m';
    assert key[|m|] == '/' && key[|m'|] == '/';
    if |m| < |m'| {
      assert m' == m + "/" + m'[|m|+1..];
    } else if |m'| < |m| {
      assert m == m' + "/" + m[|m'|+1..];
    }
  }

  /** What the index selects beyond a scan belongs to a metric that continues the sample's or is
      continued by it. */
  lemma ExtraOnlyAcrossSlash(e: Expression, item: Sample)
    requires IndexSelects(e, item) && !ScanSelects(e, item)
    ensures Continues(e.metric, item.metric) || Continues(item.metric, e.metric)
  {
    var key :| HasKey(e.metric, e.tags, key) && ItemHasKey(item, key);
    var k :| k in e.tags && key == Key(e.metric, k, e.tags[k]);
    if HasKey(item.metric, item.tags, key) {
      var k' :| k' in item.tags && key == Key(item.metric, k', item.tags[k']);
      KeyMetrics(e.metric, k, e.tags[k], item.metric, k', item.tags[k']);
    } else {
      KeyMetrics(e.metric, k, e.tags[k], item.metric, "endpoint", item.endpoint);
    }
  }

  /** An expression and a sample that share one tag pair are selected when a key string is shared. */
  lemma SharedKeySelects(e: Expression, item: Sample, k: string, k': string, v: string)
    requires e.tags == map[k := v] && k in item.tags && item.tags[k] == v && k' in item.tags && item.tags[k'] == v
    requires Key(e.metric, k, v) == Key(item.metric, k', v)
    ensures IndexSelects(e, item)
  {
    var key := Key(e.metric, k, v);
    assert k in e.tags && e.tags[k] == v;
    assert HasKey(e.metric, e.tags, key);
    assert HasKey(item.metric, item.tags, key);
    assert ItemHasKey(item, key);
  }

  /** An expression of metric `m` that is selected for a sample of a metric that continues `m`, and
      one that is selected for a sample of a metric that `m` continues. */
  lemma ForeignWitness(m: string, m': string, x: string) returns (e: Expression, item: Sample)
    requires m' == m + "/" + x || m == m' + "/" + x
    ensures e.metric == m && item.metric == m' && IndexSelects(e, item)
  {
    var long := x + "/k";
    item := Sample("", m', map[long := "v", "k" := "v"]);
    if m' == m + "/" + x {
      e := Expression(0, m, map[long := "v"]);
      assert Key(m, long, "v") == Key(m', "k", "v");
      SharedKeySelects(e, item, long, "k", "v");
    } else {
      e := Expression(0, m, map["k" := "v"]);
      assert Key(m, "k", "v") == Key(m', long, "v");
      SharedKeySelects(e, item, "k", long, "v");
    }
  }

  /** An expression of metric `m` can be judged for a sample of metric `m'` against the scan exactly
      when one name continues the other at a '/'. */
  lemma ForeignSelectedIff(m: string, m': string)
    ensures (exists e: Expression, item: Sample ::
              e.metric == m && item.metric == m' && IndexSelects(e, item) && !ScanSelects(e, item))
       <==> Continues(m, m') || Continues(m', m)
  {
    if e: Expression, item: Sample :|
        e.metric == m && item.metric == m' && IndexSelects(e, item) && !ScanSelects(e, item) {
      ExtraOnlyAcrossSlash(e, item);
    }
    if Continues(m, m') || Continues(m', m) {
      var x := if Continues(m, m') then m'[|m|+1..] else m[|m'|+1..];
      assert m' == m + "/" + x || m == m' + "/" + x;
      var e, item := ForeignWitness(m, m', x);
    }
  }

  lemma ContinuationHasSlash(a: string, b: string)
    ensures Continues(a, b) ==> '/' in b
  {
    if Continues(a, b) {
      assert b[|a|] == '/';
    }
  }

  /** With metric names free of '/', indexed checking selects exactly what a full scan selects. */
  lemma IndexIsScan(e: Expression, item: Sample)
    requires '/' !in e.metric && '/' !in item.metric
    ensures IndexSelects(e, item) <==> ScanSelects(e, item)
  {
    var a, b := e.metric, item.metric;
    if ScanSelects(e, item) {
      ScanIsFound(e, item);
    } else {
      ContinuationHasSlash(a, b);
      ContinuationHasSlash(b, a);
      ForeignSelectedIff(a, b);
    }
  }

  /** With a '/' in a metric name an expression of another metric can be judged. */
  lemma SlashInMetricSelectsForeignExpression()
    ensures var e := Expression(1, "a", map["b/k" := "v"]);
      var item := Sample("host", "a/b", map["k" := "v", "b/k" := "v"]);
      IndexSelects(e, item) && !ScanSelects(e, item)
  {
    var e := Expression(1, "a", map["b/k" := "v"]);
    var item := Sample("host", "a/b", map["k" := "v", "b/k" := "v"]);
    assert Key("a", "b/k", "v") == Key("a/b", "k", "v");
    SharedKeySelects(e, item, "b/k", "k", "v");
  }
}
