/** The canonical tag string and its two parsers. */
module Tags {

  // ----- order on strings

  /** Lexicographic order on code points, as sorting strings uses it. */
  predicate Less(a: string, b: string)
  {
    if b == "" then false
    else if a == "" then true
    else a[0] < b[0] || (a[0] == b[0] && Less(a[1..], b[1..]))
  }

  lemma {:induction false} LessTotal(a: string, b: string)
    ensures !Less(a, a)
    ensures a == b || Less(a, b) || Less(b, a)
    ensures !(Less(a, b) && Less(b, a))
  {
    if a != "" {
      LessTotal(a[1..], if b == "" then "" else b[1..]);
      if b != "" && a[0] == b[0] && a[1..] == b[1..] {
        assert a == [a[0]] + a[1..] && b == [b[0]] + b[1..];
      }
    }
  }

  lemma {:induction false} LessTransitive(a: string, b: string, c: string)
    requires Less(a, b) && Less(b, c)
    ensures Less(a, c)
  {
    if a != "" && a[0] == b[0] && b[0] == c[0] {
      LessTransitive(a[1..], b[1..], c[1..]);
    }
  }

  /** One string comes before another exactly when it is a proper prefix of it or has the smaller
      character where they first differ. */
  lemma {:induction false} LessIff(a: string, b: string)
    ensures Less(a, b) <==>
      a < b || exists i :: 0 <= i < |a| && i < |b| && a[..i] == b[..i] && a[i] < b[i]
  {
    if a != "" && b != "" && a[0] == b[0] {
      LessIff(a[1..], b[1..]);
      PrefixTail(a, b);
      if i :| 0 <= i < |a| - 1 && i < |b| - 1 && a[1..][..i] == b[1..][..i] && a[1..][i] < b[1..][i] {
        assert a[..i+1] == [a[0]] + a[1..][..i] && b[..i+1] == [b[0]] + b[1..][..i];
        assert a[i+1] < b[i+1];
      }
      if i :| 0 <= i < |a| && i < |b| && a[..i] == b[..i] && a[i] < b[i] {
        assert i > 0;
        assert a[1..][..i-1] == a[..i][1..] && b[1..][..i-1] == b[..i][1..];
        assert a[1..][i-1] < b[1..][i-1];
      }
    } else if a != "" && b != "" {
      if a[0] < b[0] {
        assert a[..0] == b[..0];
      }
      forall i | 0 <= i < |a| && i < |b| && a[..i] == b[..i] && a[i] < b[i]
        ensures a[0] < b[0]
      {
        SharedHead(a, b, i);
      }
    }
  }

  lemma SharedHead(a: string, b: string, i: nat)
    requires i < |a| && i < |b|
    ensures a[..i] == b[..i] && i > 0 ==> a[0] == b[0]
  {
    if a[..i] == b[..i] && i > 0 {
      assert a[0] == a[..i][0] && b[0] == b[..i][0];
    }
  }

  lemma PrefixTail(a: string, b: string)
    requires a != "" && b != "" && a[0] == b[0]
    ensures a < b <==> a[1..] < b[1..]
  {
    assert a == [a[0]] + a[1..] && b == [b[0]] + b[1..];
  }

  ghost predicate Sorted(keys: seq<string>)
  {
    forall i, j :: 0 <= i < j < |keys| ==> Less(keys[i], keys[j])
  }

  ghost predicate Enumerates(keys: seq<string>, s: set<string>)
  {
    Sorted(keys) && forall k :: k in keys <==> k in s
  }

  /** A set has one sorted enumeration: the order keys were met in does not matter. */
  lemma {:induction false} EnumerationUnique(a: seq<string>, b: seq<string>, s: set<string>)
    requires Enumerates(a, s) && Enumerates(b, s)
    ensures a == b
  {
    assert b != [] ==> b[0] in b;
    if a != [] {
      var n := |a| - 1;
      assert a[n] in b;
      assert b[|b|-1] in a;
      var x, y := a[n], b[|b|-1];
      if x != y {
        var i :| 0 <= i < |b| && b[i] == x;
        var j :| 0 <= j < |a| && a[j] == y;
        assert Less(b[i], b[|b|-1]);
        assert Less(a[j], a[n]);
        LessTotal(x, y);
        assert false;
      }
      DropLast(a, s);
      DropLast(b, s);
      EnumerationUnique(a[..n], b[..|b|-1], s - {x});
      assert a == a[..n] + [x] && b == b[..|b|-1] + [x];
    }
  }

  lemma DropLast(a: seq<string>, s: set<string>)
    requires Enumerates(a, s) && a != []
    ensures Enumerates(a[..|a|-1], s - {a[|a|-1]})
  {
    var x, init := a[|a|-1], a[..|a|-1];
    forall k
      ensures k in init <==> k in s - {x}
    {
      if k in init {
        var i :| 0 <= i < |init| && init[i] == k;
        assert Less(a[i], x);
        LessTotal(x, x);
      }
      if k in s - {x} {
        var i :| 0 <= i < |a| && a[i] == k;
        assert init[i] == k;
      }
    }
  }

  /** Sorting, a library call: insertion of keys one by one. */
  function Inserted(keys: seq<string>, key: string): (r: seq<string>)
    requires Sorted(keys) && key !in keys
    ensures Sorted(r) && forall k :: k in r <==> k == key || k in keys
  {
    if keys == [] then [key]
    else
      LessTotal(key, keys[0]);
      if Less(key, keys[0]) then
        InsertedFront(keys, key);
        [key] + keys
      else
        InsertedRest(keys, key, Inserted(keys[1..], key));
        [keys[0]] + Inserted(keys[1..], key)
  }

  lemma InsertedFront(keys: seq<string>, key: string)
    requires keys != [] && Sorted(keys) && Less(key, keys[0])
    ensures Sorted([key] + keys)
  {
    forall j | 0 < j < |keys|
      ensures Less(key, keys[j])
    {
      LessTransitive(key, keys[0], keys[j]);
    }
  }

  lemma InsertedRest(keys: seq<string>, key: string, rest: seq<string>)
    requires keys != [] && Sorted(keys) && Less(keys[0], key)
    requires Sorted(rest) && forall k :: k in rest <==> k == key || k in keys[1..]
    ensures Sorted([keys[0]] + rest) && forall k :: k in [keys[0]] + rest <==> k == key || k in keys
  {
    assert keys == [keys[0]] + keys[1..];
    forall j | 0 <= j < |rest|
      ensures Less(keys[0], rest[j])
    {
      assert rest[j] in rest;
    }
  }

  ghost predicate Distinct(keys: seq<string>)
  {
    forall i, j :: 0 <= i < j < |keys| ==> keys[i] != keys[j]
  }

  function SortStrings(keys: seq<string>): (r: seq<string>)
    requires Distinct(keys)
    ensures Sorted(r) && forall k :: k in r <==> k in keys
  {
    if keys == [] then []
    else
      assert keys == keys[..|keys|-1] + [keys[|keys|-1]];
      Inserted(SortStrings(keys[..|keys|-1]), keys[|keys|-1])
  }

  lemma {:induction false} EnumerationExists(s: set<string>)
    ensures exists keys :: Enumerates(keys, s)
  {
    if s == {} {
      assert Enumerates([], s);
    } else {
      var x :| x in s;
      EnumerationExists(s - {x});
      var keys :| Enumerates(keys, s - {x});
      assert Enumerates(Inserted(keys, x), s);
    }
  }

  // ----- the canonical string

  function Pair(k: string, v: string): string
  {
    k + "=" + v
  }

  function Printed(m: map<string, string>, keys: seq<string>): string
    requires forall k :: k in keys ==> k in m
  {
    if keys == [] then ""
    else if |keys| == 1 then Pair(keys[0], m[keys[0]])
    else Pair(keys[0], m[keys[0]]) + "," + Printed(m, keys[1..])
  }

  /** The canonical string of a map: its pairs, sorted by key, joined by commas. */
  ghost function Canonical(m: map<string, string>): string
  {
    EnumerationExists(m.Keys);
    var keys :| Enumerates(keys, m.Keys);
    Printed(m, keys)
  }

  lemma CanonicalIs(m: map<string, string>, keys: seq<string>)
    requires Enumerates(keys, m.Keys)
    ensures Canonical(m) == Printed(m, keys)
  {
    EnumerationExists(m.Keys);
    forall other | Enumerates(other, m.Keys)
      ensures other == keys
    {
      EnumerationUnique(other, keys, m.Keys);
    }
  }

  /** Whatever order the map is iterated in, the canonical string comes out. */
  method SortedTags(tags: map<string, string>) returns (ret: string)
    ensures ret == Canonical(tags)
  {
    var keys := KeysOf(tags);
    keys := SortStrings(keys);
    CanonicalIs(tags, keys);
    ret := WritePairs(tags, keys);
  }

  method KeysOf(tags: map<string, string>) returns (keys: seq<string>)
    ensures Distinct(keys) && forall k :: k in keys <==> k in tags
  {
    keys := [];
    var todo := tags.Keys;
    while todo != {}
      invariant todo <= tags.Keys && Distinct(keys)
      invariant forall k :: k in keys <==> k in tags && k !in todo
    {
      var k :| k in todo;
      keys := keys + [k];
      todo := todo - {k};
    }
  }

  method WritePairs(tags: map<string, string>, keys: seq<string>) returns (ret: string)
    requires forall k :: k in keys ==> k in tags
    ensures ret == Printed(tags, keys)
  {
    var size := |keys|;
    ret := "";
    for j := 0 to size
      invariant ret + Printed(tags, keys[j..]) == Printed(tags, keys)
    {
      PrintedStep(tags, keys, j, ret);
      ret := ret + Pair(keys[j], tags[keys[j]]);
      if j != size - 1 {
        ret := ret + ",";
      }
    }
  }

  lemma PrintedStep(tags: map<string, string>, keys: seq<string>, j: nat, ret: string)
    requires j < |keys| && forall k :: k in keys ==> k in tags
    ensures var p := ret + Pair(keys[j], tags[keys[j]]);
      ret + Printed(tags, keys[j..]) == (if j != |keys| - 1 then p + "," else p) + Printed(tags, keys[j+1..])
  {
    assert keys[j..][1..] == keys[j+1..];
  }

  // ----- parsing

  function Split(s: string, sep: char): (parts: seq<string>)
    ensures parts != []
  {
    if s == "" then [""]
    else
      var rest := Split(s[1..], sep);
      if s[0] == sep then [""] + rest else [[s[0]] + rest[0]] + rest[1..]
  }

  function DropSpaces(s: string): string
  {
    if s == "" then "" else (if s[0] == ' ' then "" else [s[0]]) + DropSpaces(s[1..])
  }

  /** The first position of a character, or -1. */
  function IndexOf(s: string, c: char): (i: int)
    ensures -1 <= i < |s|
    ensures i >= 0 ==> s[i] == c && c !in s[..i]
    ensures i == -1 ==> c !in s
  {
    if s == "" then -1
    else if s[0] == c then 0
    else
      var i := IndexOf(s[1..], c);
      assert i >= 0 ==> s[..i+1] == [s[0]] + s[1..][..i];
      if i < 0 then -1 else i + 1
  }

  /** The map read from the parts, left to right: a later key wins, a part without '=' is skipped. */
  function Dicted(parts: seq<string>): map<string, string>
  {
    if parts == [] then map[]
    else
      var m, tag := Dicted(parts[..|parts|-1]), parts[|parts|-1];
      var i := IndexOf(tag, '=');
      if i < 0 then m else m[tag[..i] := tag[i+1..]]
  }

  lemma DictedStep(parts: seq<string>, j: nat)
    requires j < |parts|
    ensures var m, i := Dicted(parts[..j]), IndexOf(parts[j], '=');
      Dicted(parts[..j+1]) == if i < 0 then m else m[parts[j][..i] := parts[j][i+1..]]
  {
    assert parts[..j+1][..j] == parts[..j];
  }

  /** Reading one more part: a pair sets its key, whatever was there, and anything else is skipped. */
  lemma PartsReadInTurn(parts: seq<string>, k: string, v: string, bad: string)
    requires '=' !in k && '=' !in bad
    ensures Dicted(parts + [Pair(k, v)]) == Dicted(parts)[k := v]
    ensures Dicted(parts + [bad]) == Dicted(parts)
  {
    assert (parts + [Pair(k, v)])[..|parts|] == parts && (parts + [bad])[..|parts|] == parts;
    IndexOfPair(k, v);
  }

  method DictedTagstring(s: string) returns (tagDict: map<string, string>)
    ensures tagDict == Dicted(Split(DropSpaces(s), ','))
  {
    if s == "" {
      return map[];
    }
    tagDict := map[];
    var tags := Split(DropSpaces(s), ',');
    for j := 0 to |tags|
      invariant tagDict == Dicted(tags[..j])
    {
      DictedStep(tags, j);
      var idx := IndexOf(tags[j], '=');
      if idx != -1 {
        tagDict := tagDict[tags[j][..idx] := tags[j][idx+1..]];
      }
    }
    assert tags[..|tags|] == tags;
  }

  ghost predicate HasAll(parts: seq<string>)
  {
    forall k :: 0 <= k < |parts| ==> '=' in parts[k]
  }

  /** The strict reading: everything, or what comes before the first bad part. */
  ghost predicate StrictlyRead(parts: seq<string>, ok: bool, tags: map<string, string>)
  {
    if HasAll(parts) then ok && tags == Dicted(parts)
    else !ok && exists j :: 0 <= j < |parts| && '=' !in parts[j] && HasAll(parts[..j]) && tags == Dicted(parts[..j])
  }

  /** What the strict parser returns for a string; blank strings have no parts. */
  ghost predicate StrictlyParsed(str: string, ok: bool, tags: map<string, string>)
  {
    if DropSpaces(str) == "" then ok && tags == map[] else StrictlyRead(Split(DropSpaces(str), ','), ok, tags)
  }

  /** Stops at the first bad part, keeping what was read before it. */
  method SplitTagsString(str: string) returns (ok: bool, tags: map<string, string>)
    ensures StrictlyParsed(str, ok, tags)
  {
    var s := DropSpaces(str);
    tags := map[];
    if s == "" {
      return true, tags;
    }
    var tagSlice := Split(s, ',');
    for j := 0 to |tagSlice|
      invariant tags == Dicted(tagSlice[..j]) && HasAll(tagSlice[..j])
    {
      DictedStep(tagSlice, j);
      var i := IndexOf(tagSlice[j], '=');
      if i >= 0 {
        tags := tags[tagSlice[j][..i] := tagSlice[j][i+1..]];
      } else {
        return false, tags;
      }
    }
    assert tagSlice[..|tagSlice|] == tagSlice;
    return true, tags;
  }

  // ----- round trip

  ghost predicate CleanKey(k: string) { '=' !in k && ',' !in k && ' ' !in k }

  ghost predicate CleanValue(v: string) { ',' !in v && ' ' !in v }

  ghost predicate Clean(m: map<string, string>)
  {
    forall k :: k in m ==> CleanKey(k) && CleanValue(m[k])
  }

  lemma {:induction false} SplitPlain(s: string, sep: char)
    requires sep !in s
    ensures Split(s, sep) == [s]
  {
    if s != "" {
      SplitPlain(s[1..], sep);
      assert s == [s[0]] + s[1..];
    }
  }

  lemma {:induction false} SplitJoin(a: string, b: string, sep: char)
    requires sep !in a
    ensures Split(a + [sep] + b, sep) == [a] + Split(b, sep)
  {
    var s := a + [sep] + b;
    if a == "" {
      assert s[1..] == b;
    } else {
      SplitJoin(a[1..], b, sep);
      assert s[1..] == a[1..] + [sep] + b;
      assert a == [a[0]] + a[1..];
    }
  }

  lemma {:induction false} DropSpacesPlain(s: string)
    requires ' ' !in s
    ensures DropSpaces(s) == s
  {
    if s != "" {
      DropSpacesPlain(s[1..]);
      assert s == [s[0]] + s[1..];
    }
  }

  ghost function Pairs(m: map<string, string>, keys: seq<string>): seq<string>
    requires forall k :: k in keys ==> k in m
  {
    seq(|keys|, i requires 0 <= i < |keys| => Pair(keys[i], m[keys[i]]))
  }

  lemma {:induction false} PrintedSplits(m: map<string, string>, keys: seq<string>)
    requires Clean(m) && keys != [] && forall k :: k in keys ==> k in m
    ensures ' ' !in Printed(m, keys)
    ensures Split(Printed(m, keys), ',') == Pairs(m, keys)
  {
    var p := Pair(keys[0], m[keys[0]]);
    assert keys[0] in keys && ',' !in p && ' ' !in p;
    if |keys| == 1 {
      SplitPlain(p, ',');
    } else {
      PrintedSplits(m, keys[1..]);
      SplitJoin(p, Printed(m, keys[1..]), ',');
      assert Pairs(m, keys) == [p] + Pairs(m, keys[1..]);
    }
  }

  lemma {:induction false} IndexOfIs(s: string, c: char, k: nat)
    requires k < |s| && s[k] == c && c !in s[..k]
    ensures IndexOf(s, c) == k
  {
    if k > 0 {
      assert s[0] == s[..k][0];
      assert s[1..][..k-1] == s[..k][1..];
      IndexOfIs(s[1..], c, k - 1);
    }
  }

  lemma IndexOfPair(k: string, v: string)
    requires '=' !in k
    ensures IndexOf(Pair(k, v), '=') == |k|
    ensures Pair(k, v)[..|k|] == k && Pair(k, v)[|k|+1..] == v
  {
    assert Pair(k, v)[..|k|] == k;
    IndexOfIs(Pair(k, v), '=', |k|);
  }

  lemma {:induction false} DictedPairs(m: map<string, string>, keys: seq<string>)
    requires Clean(m) && forall k :: k in keys ==> k in m
    ensures Dicted(Pairs(m, keys)) == map k | k in keys :: m[k]
  {
    if keys != [] {
      var init, k := keys[..|keys|-1], keys[|keys|-1];
      assert keys == init + [k] && k in keys;
      DictedPairs(m, init);
      assert Pairs(m, keys)[..|keys|-1] == Pairs(m, init);
      IndexOfPair(k, m[k]);
    }
  }

  /** Everything a parser reads is clean. */
  lemma {:induction false} SplitParts(s: string, sep: char)
    ensures forall p :: p in Split(s, sep) ==> sep !in p && forall c :: c in p ==> c in s
  {
    if s != "" {
      SplitParts(s[1..], sep);
      var rest := Split(s[1..], sep);
      assert rest[0] in rest;
      assert forall p :: p in rest[1..] ==> p in rest;
      assert forall c :: c in s[1..] ==> c in s;
    }
  }

  lemma {:induction false} NoSpaceLeft(s: string)
    ensures ' ' !in DropSpaces(s)
  {
    if s != "" {
      NoSpaceLeft(s[1..]);
    }
  }

  lemma {:induction false} DictedClean(parts: seq<string>)
    requires forall p :: p in parts ==> ',' !in p && ' ' !in p
    ensures Clean(Dicted(parts))
  {
    if parts != [] {
      var init, tag := parts[..|parts|-1], parts[|parts|-1];
      assert forall p :: p in init ==> p in parts;
      assert tag in parts;
      DictedClean(init);
      var i := IndexOf(tag, '=');
      if i >= 0 {
        SubstringClean(tag, i);
      }
    }
  }

  lemma SubstringClean(tag: string, i: nat)
    requires i < |tag| && '=' !in tag[..i] && ',' !in tag && ' ' !in tag
    ensures CleanKey(tag[..i]) && CleanValue(tag[i+1..])
  {
    assert forall c :: c in tag[..i] ==> c in tag;
    assert forall c :: c in tag[i+1..] ==> c in tag;
  }

  ghost function ParsedTags(s: string): map<string, string>
  {
    Dicted(Split(DropSpaces(s), ','))
  }

  /** Parsing the canonical string recovers the map exactly when the map is clean. */
  lemma RoundTripIffClean(m: map<string, string>)
    ensures ParsedTags(Canonical(m)) == m <==> Clean(m)
  {
    EnumerationExists(m.Keys);
    var keys :| Enumerates(keys, m.Keys);
    CanonicalIs(m, keys);
    var s := DropSpaces(Canonical(m));
    NoSpaceLeft(Canonical(m));
    SplitParts(s, ',');
    DictedClean(Split(s, ','));
    if Clean(m) {
      if keys == [] {
        assert Dicted([""]) == map[];
        assert m.Keys == {};
      } else {
        PrintedSplits(m, keys);
        DropSpacesPlain(Printed(m, keys));
        DictedPairs(m, keys);
      }
    }
  }

  lemma CanonicalHasNoBadPart(m: map<string, string>)
    requires Clean(m) && m != map[]
    ensures DropSpaces(Canonical(m)) != ""
    ensures HasAll(Split(DropSpaces(Canonical(m)), ','))
  {
    EnumerationExists(m.Keys);
    var keys :| Enumerates(keys, m.Keys);
    CanonicalIs(m, keys);
    var k :| k in m;
    assert k in keys;
    PrintedSplits(m, keys);
    DropSpacesPlain(Printed(m, keys));
    forall i | 0 <= i < |keys|
      ensures '=' in Pairs(m, keys)[i]
    {
      assert Pair(keys[i], m[keys[i]])[|keys[i]|] == '=';
    }
  }

  lemma EmptyCanonical()
    ensures Canonical(map[]) == ""
  {
    var none: map<string, string> := map[];
    assert Enumerates([], none.Keys);
    CanonicalIs(none, []);
  }

  /** Whatever the strict parser accepts it reads as a clean map. */
  lemma StrictlyParsedIsClean(str: string, tags: map<string, string>)
    requires StrictlyParsed(str, true, tags)
    ensures Clean(tags)
  {
    var s := DropSpaces(str);
    NoSpaceLeft(str);
    SplitParts(s, ',');
    DictedClean(Split(s, ','));
  }

  /** The strict parser accepts the canonical string and recovers the map exactly when the map is
      clean, the empty map included. */
  lemma StrictRoundTripIffClean(m: map<string, string>, ok: bool, tags: map<string, string>)
    requires StrictlyParsed(Canonical(m), ok, tags)
    ensures ok && tags == m <==> Clean(m)
  {
    if ok {
      StrictlyParsedIsClean(Canonical(m), tags);
    }
    if Clean(m) {
      RoundTripIffClean(m);
      if m == map[] {
        EmptyCanonical();
      } else {
        CanonicalHasNoBadPart(m);
      }
    }
  }

  /** A comma in a value is read back as a second tag by both parsers. */
  lemma CommaInValueIsMisread()
    ensures var m := map["a" := "1,b=2"];
      !Clean(m) && ParsedTags(Canonical(m)) != m && forall tags :: StrictlyParsed(Canonical(m), true, tags) ==> tags != m
  {
    var m := map["a" := "1,b=2"];
    assert m["a"][1] == ',';
    assert "a" in m && !CleanValue(m["a"]);
    RoundTripIffClean(m);
    forall tags | StrictlyParsed(Canonical(m), true, tags)
      ensures tags != m
    {
      StrictRoundTripIffClean(m, true, tags);
    }
  }

  /** Different clean maps have different canonical strings. */
  lemma CanonicalInjective(m: map<string, string>, m': map<string, string>)
    requires Clean(m) && Clean(m') && Canonical(m) == Canonical(m')
    ensures m == m'
  {
    RoundTripIffClean(m);
    RoundTripIffClean(m');
  }
}
