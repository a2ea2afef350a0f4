/** The graph component's memory cache: a sharded map of newest-first lists with flags. */
module GraphStore {
  import opened Options
  import opened Sequences
  import opened GraphQuery
  import opened TimeGrid

  /** The four flag bits of a list. */
  datatype Flag = Flag(miss: bool, err: bool, sending: bool, fetching: bool)

  const NO_FLAG := Flag(false, false, false, false)

  /** Newest first, strictly. */
  ghost predicate Ordered(L: seq<Item>)
  {
    forall i, j :: 0 <= i < j < |L| ==> L[i].ts > L[j].ts
  }

  // ----- the list

  class SafeLinkedList {
    var flag: Flag
    var L: seq<Item>

    constructor ()
      ensures flag == NO_FLAG && L == []
    {
      flag, L := NO_FLAG, [];
    }

    method PushFront(v: Item)
      modifies this`L
      ensures L == [v] + old(L)
    {
      L := [v] + L;
    }

    /** Takes everything out, oldest first. */
    method PopAll() returns (ret: seq<Item>)
      modifies this`L
      ensures L == [] && ret == Reverse(old(L))
    {
      ret := [];
      var size := |L|;
      for i := 0 to size
        invariant L == old(L)[..size - i]
        invariant |ret| == i && forall k :: 0 <= k < i ==> ret[k] == old(L)[size - 1 - k]
      {
        ret := ret + [L[|L|-1]];
        L := L[..|L|-1];
      }
    }

    /** Puts items taken out by `PopAll` back behind whatever arrived since. */
    method PushAll(items: seq<Item>)
      modifies this`L
      ensures L == old(L) + Reverse(items)
    {
      var i := |items| - 1;
      while i >= 0
        invariant -1 <= i < |items|
        invariant L == old(L) + Reverse(items)[..|items| - 1 - i]
      {
        L := L + [items[i]];
        i := i - 1;
      }
    }

    method FetchAll() returns (ret: seq<Item>, f: Flag)
      ensures ret == Reverse(L) && f == flag
    {
      ret := [];
      var p := |L| - 1;
      while p >= 0
        invariant -1 <= p < |L|
        invariant |ret| == |L| - 1 - p && forall k :: 0 <= k < |ret| ==> ret[k] == L[|L| - 1 - k]
      {
        ret := ret + [L[p]];
        p := p - 1;
      }
      f := flag;
    }
  }

  // ----- a failed send

  /** The list after pushing `arrived` one by one, oldest first, onto `L`. */
  function PushedOnto(L: seq<Item>, arrived: seq<Item>): seq<Item>
  {
    if arrived == [] then L else [arrived[|arrived|-1]] + PushedOnto(L, arrived[..|arrived|-1])
  }

  lemma {:induction false} PushedOntoIs(L: seq<Item>, arrived: seq<Item>)
    ensures PushedOnto(L, arrived) == Reverse(arrived) + L
  {
    if arrived != [] {
      PushedOntoIs(L, arrived[..|arrived|-1]);
    }
  }

  /** PopAll, any pushes, then PushAll of what was popped: as if nothing had been popped. */
  lemma FailedSendInvisible(L: seq<Item>, arrived: seq<Item>)
    ensures PushedOnto([], arrived) + Reverse(Reverse(L)) == PushedOnto(L, arrived)
  {
    PushedOntoIs([], arrived);
    PushedOntoIs(L, arrived);
    ReverseTwice(L);
  }

  /** The restored list is ordered iff both parts are and everything that arrived meanwhile is
      newer than what was popped. */
  lemma RestoredOrderedIff(L: seq<Item>, arrived: seq<Item>)
    ensures Ordered(PushedOnto(L, arrived)) <==>
      Ordered(L) && Ordered(Reverse(arrived)) && (arrived != [] && L != [] ==> arrived[0].ts > L[0].ts)
  {
    PushedOntoIs(L, arrived);
    var r := Reverse(arrived);
    if Ordered(r + L) {
      OrderedSplits(r, L);
    } else if Ordered(L) && Ordered(r) && (r != [] && L != [] ==> r[|r|-1].ts > L[0].ts) {
      ConcatOrdered(r, L);
    }
  }

  lemma ConcatOrdered(r: seq<Item>, L: seq<Item>)
    requires Ordered(r) && Ordered(L) && (r != [] && L != [] ==> r[|r|-1].ts > L[0].ts)
    ensures Ordered(r + L)
  {
    forall i, j | 0 <= i < j < |r + L|
      ensures (r + L)[i].ts > (r + L)[j].ts
    {
      if i < |r| <= j {
        assert r[i].ts >= r[|r|-1].ts && L[0].ts >= L[j - |r|].ts;
      }
    }
  }

  lemma OrderedSplits(r: seq<Item>, L: seq<Item>)
    requires Ordered(r + L)
    ensures Ordered(r) && Ordered(L) && (r != [] && L != [] ==> r[|r|-1].ts > L[0].ts)
  {
    var all := r + L;
    assert forall i :: 0 <= i < |r| ==> all[i] == r[i];
    forall i, j | 0 <= i < j < |L|
      ensures L[i].ts > L[j].ts
    {
      assert all[|r| + i] == L[i] && all[|r| + j] == L[j];
    }
    if r != [] && L != [] {
      assert all[|r|-1].ts > all[|r|].ts;
    }
  }

  /** The ordering guard of incoming items keeps a list ordered. */
  predicate Admits(L: seq<Item>, item: Item)
  {
    L == [] || item.ts > L[0].ts
  }

  /** The guard lets exactly those items in that keep an ordered list ordered. */
  lemma AdmitsIffOrdered(L: seq<Item>, item: Item)
    requires Ordered(L)
    ensures Admits(L, item) <==> Ordered([item] + L)
  {
    var longer := [item] + L;
    if L != [] && Ordered(longer) {
      assert longer[0].ts > longer[1].ts;
    }
  }

  /** A fetched list is strictly increasing exactly when the list is ordered. */
  lemma FetchedIncreasing(L: seq<Item>)
    ensures Increasing(Reverse(L)) <==> Ordered(L)
  {
    var r := Reverse(L);
    if Increasing(r) {
      forall i, j | 0 <= i < j < |L|
        ensures L[i].ts > L[j].ts
      {
        assert r[|L| - 1 - j] == L[j] && r[|L| - 1 - i] == L[i];
      }
    }
  }

  // ----- the sharded map

  class GraphItemMap {
    const hashKey: string -> nat
    var A: array<map<string, SafeLinkedList>>
    ghost var Flat: map<string, SafeLinkedList>

    function Shard(key: string): nat
      reads this
      requires A.Length > 0
    {
      hashKey(key) % A.Length
    }

    /** The shards hold together one map from keys to lists, each key in its own shard. */
    ghost predicate Sharded()
      reads this, A
    {
      && A.Length > 0
      && (forall k :: k in Flat <==> k in A[Shard(k)])
      && (forall k :: k in Flat ==> A[Shard(k)][k] == Flat[k])
    }

    /** No list is held under two keys. */
    ghost predicate Valid()
      reads this, A
    {
      && Sharded()
      && (forall k, k' :: k in Flat && k' in Flat && k != k' ==> Flat[k] != Flat[k'])
    }

    constructor (size: nat, hash: string -> nat)
      requires size > 0
      ensures Valid() && Flat == map[] && hashKey == hash && fresh(A)
    {
      A := new map<string, SafeLinkedList>[size](_ => map[]);
      Flat := map[];
      hashKey := hash;
    }

    method Get(key: string) returns (r: Option<SafeLinkedList>)
      requires Valid()
      ensures r == if key in Flat then Some(Flat[key]) else None
    {
      var idx := Shard(key);
      r := if key in A[idx] then Some(A[idx][key]) else None;
    }

    method Set(key: string, val: SafeLinkedList)
      requires Sharded()
      modifies this`Flat, A
      ensures Sharded() && Flat == old(Flat)[key := val]
      ensures old(Valid()) && val !in old(Flat.Values) ==> Valid()
    {
      var idx := Shard(key);
      A[idx] := A[idx][key := val];
      Flat := Flat[key := val];
    }

    method Remove(key: string) returns (existed: bool)
      requires Valid()
      modifies this`Flat, A
      ensures Valid() && existed == (key in old(Flat)) && Flat == old(Flat) - {key}
    {
      var idx := Shard(key);
      if key !in A[idx] {
        assert Flat - {key} == Flat;
        return false;
      }
      A[idx] := A[idx] - {key};
      Flat := Flat - {key};
      return true;
    }

    method First(key: string) returns (r: Option<Item>)
      requires Valid()
      ensures r == if key in Flat && Flat[key].L != [] then Some(Flat[key].L[0]) else None
    {
      var sl := Get(key);
      r := if sl.Some? && sl.value.L != [] then Some(sl.value.L[0]) else None;
    }

    method PopAll(key: string) returns (items: seq<Item>)
      requires Valid()
      modifies Flat.Values
      ensures Valid() && Flat == old(Flat)
      ensures key !in Flat ==> items == []
      ensures key in Flat ==> items == Reverse(old(Flat[key].L)) && Flat[key].L == []
      ensures key in Flat ==> Flat[key].flag == old(Flat[key].flag)
      ensures forall k :: k in Flat && k != key ==> Flat[k].L == old(Flat[k].L) && Flat[k].flag == old(Flat[k].flag)
    {
      var sl := Get(key);
      items := [];
      if sl.Some? {
        items := sl.value.PopAll();
      }
    }

    method PushAll(key: string, items: seq<Item>) returns (ok: bool)
      requires Valid()
      modifies Flat.Values
      ensures Valid() && Flat == old(Flat) && ok == (key in Flat)
      ensures ok ==> Flat[key].L == old(Flat[key].L) + Reverse(items) && Flat[key].flag == old(Flat[key].flag)
      ensures forall k :: k in Flat && k != key ==> Flat[k].L == old(Flat[k].L) && Flat[k].flag == old(Flat[k].flag)
    {
      var sl := Get(key);
      ok := sl.Some?;
      if ok {
        sl.value.PushAll(items);
      }
    }

    method GetFlag(key: string) returns (r: Option<Flag>)
      requires Valid()
      ensures r == if key in Flat then Some(Flat[key].flag) else None
    {
      var sl := Get(key);
      r := if sl.Some? then Some(sl.value.flag) else None;
    }

    method SetFlag(key: string, flag: Flag) returns (ok: bool)
      requires Valid()
      modifies Flat.Values
      ensures Valid() && Flat == old(Flat) && ok == (key in Flat)
      ensures key in Flat ==> Flat[key].flag == flag && Flat[key].L == old(Flat[key].L)
      ensures forall k :: k in Flat && k != key ==> Flat[k].L == old(Flat[k].L) && Flat[k].flag == old(Flat[k].flag)
    {
      var sl := Get(key);
      ok := sl.Some?;
      if ok {
        sl.value.flag := flag;
      }
    }

    /** Everything but the key's own list is as it was. */
    twostate predicate OthersUnchanged(key: string)
      reads this, Flat.Values
    {
      && Flat == old(Flat)
      && forall k :: k in Flat && k != key ==> Flat[k].L == old(Flat[k].L) && Flat[k].flag == old(Flat[k].flag)
    }

    /** Sends the cached items away, trying at most three times; `replies` says which attempts are
        acknowledged, `arrived` which items of the key come in meanwhile.  A send that fails leaves
        the list as if nothing had been popped. */
    method SendData(key: string, replies: seq<bool>, arrived: seq<Item>) returns (ok: bool)
      requires Valid() && |replies| == 3
      modifies Flat.Values
      ensures Valid() && OthersUnchanged(key)
      ensures key !in Flat ==> !ok
      ensures key in Flat ==> ok == (old(Flat[key].L) == [] || true in replies)
      ensures key in Flat ==> Flat[key].L == PushedOnto(if ok then [] else old(Flat[key].L), arrived)
      ensures key in Flat ==> Flat[key].flag == old(Flat[key].flag).(sending := false)
    {
      var flag := GetFlag(key);
      if flag.None? {
        return false;
      }
      var found := SetFlag(key, flag.value.(sending := true));
      var items := PopAll(key);
      Arrive(key, arrived);
      ok := |items| == 0;
      if !ok {
        ok := Attempt(replies);
        if !ok {
          FailedSendInvisible(old(Flat[key].L), arrived);
          found := PushAll(key, items);
        }
      }
      found := SetFlag(key, flag.value.(sending := false));
    }

    /** Up to three attempts, stopping at the first that is acknowledged. */
    method Attempt(replies: seq<bool>) returns (ok: bool)
      requires |replies| == 3
      ensures ok == (true in replies)
    {
      ok := false;
      for i := 0 to 3
        invariant !ok && true !in replies[..i]
      {
        ok := replies[i];
        if ok {
          break;
        }
      }
    }

    /** Items of a cached key that come in one by one. */
    method Arrive(key: string, arrived: seq<Item>)
      requires Valid() && key in Flat
      modifies Flat.Values
      ensures Valid() && OthersUnchanged(key)
      ensures Flat[key].L == PushedOnto(old(Flat[key].L), arrived) && Flat[key].flag == old(Flat[key].flag)
    {
      var sl := Get(key);
      for i := 0 to |arrived|
        invariant Flat == old(Flat) && OthersUnchanged(key) && Flat[key].flag == old(Flat[key].flag)
        invariant Flat[key].L == PushedOnto(old(Flat[key].L), arrived[..i])
      {
        assert arrived[..i+1][..i] == arrived[..i];
        sl.value.PushFront(arrived[i]);
      }
      assert arrived[..|arrived|] == arrived;
    }

    method NewList(item: Item, miss: bool) returns (safeList: SafeLinkedList)
      ensures fresh(safeList) && safeList.L == [item] && safeList.flag == NO_FLAG.(miss := miss)
    {
      safeList := new SafeLinkedList();
      safeList.PushFront(item);
      if miss {
        safeList.flag := NO_FLAG.(miss := true);
      }
    }

    /** Pushes an item; a new list is flagged as missing when migration is on and no file exists. */
    method PushFront(key: string, item: Item, migrate: bool, fileExists: bool)
      requires Valid()
      modifies this`Flat, A, Flat.Values
      ensures Valid() && Flat.Keys == old(Flat.Keys) + {key}
      ensures key in old(Flat) ==> Flat[key].L == [item] + old(Flat[key].L) && Flat[key].flag == old(Flat[key].flag)
      ensures key !in old(Flat) ==> Flat[key].L == [item] && Flat[key].flag == NO_FLAG.(miss := migrate && !fileExists)
      ensures forall k :: k in old(Flat) && k != key ==>
        Flat[k] == old(Flat[k]) && Flat[k].L == old(Flat[k].L) && Flat[k].flag == old(Flat[k].flag)
    {
      var sl := Get(key);
      if sl.Some? {
        sl.value.PushFront(item);
      } else {
        AddList(key, item, migrate && !fileExists);
      }
    }

    method AddList(key: string, item: Item, miss: bool)
      requires Valid() && key !in Flat
      modifies this`Flat, A
      ensures Valid() && key in Flat && Flat == old(Flat)[key := Flat[key]] && fresh(Flat[key])
      ensures Flat[key].L == [item] && Flat[key].flag == NO_FLAG.(miss := miss)
    {
      var safeList := NewList(item, miss);
      Set(key, safeList);
    }

    /** The guarded entry point: an item not newer than the newest cached one is dropped. */
    method HandleItem(key: string, item: Item, migrate: bool, fileExists: bool) returns (accepted: bool)
      requires Valid()
      modifies this`Flat, A, Flat.Values
      ensures Valid() && accepted == (key !in old(Flat) || Admits(old(Flat[key].L), item))
      ensures Flat.Keys == old(Flat.Keys) + {key}
      ensures !accepted ==> Flat == old(Flat) && Flat[key].L == old(Flat[key].L)
      ensures accepted ==> Flat[key].L == [item] + if key in old(Flat) then old(Flat[key].L) else []
      ensures Flat[key].flag == if key in old(Flat) then old(Flat[key].flag) else NO_FLAG.(miss := migrate && !fileExists)
      ensures forall k :: k in old(Flat) && k != key ==>
        Flat[k] == old(Flat[k]) && Flat[k].L == old(Flat[k].L) && Flat[k].flag == old(Flat[k].flag)
      ensures (key in old(Flat) ==> Ordered(old(Flat[key].L))) ==> Ordered(Flat[key].L)
    {
      var first := First(key);
      if first.Some? && item.ts <= first.value.ts {
        return false;
      }
      if key in Flat && Ordered(Flat[key].L) {
        AdmitsIffOrdered(Flat[key].L, item);
      }
      PushFront(key, item, migrate, fileExists);
      return true;
    }
  }

  // ----- from the cache to the answer

  /** A query over a key whose list went through the ordering guard and holds aligned samples. */
  method ServeQuery(store: GraphItemMap, key: string, indexed: Indexed, start: int, end: int,
                    datas: seq<Point>, now: int)
    returns (values: seq<Point>)
    requires store.Valid() && (indexed.Known? ==> indexed.step > 0)
    requires key in store.Flat ==> Ordered(store.Flat[key].L)
    requires key in store.Flat && indexed.Known? ==> AlignedItems(store.Flat[key].L, indexed.step)
    requires indexed.Known? && !Consolidated(AlignDown(start, indexed.step), now, indexed.step) ==>
      DiskGrid(datas, AlignDown(start, indexed.step), indexed.step)
    ensures Answers(values, indexed, start, end, if key in store.Flat then Reverse(store.Flat[key].L) else [], datas, now)
  {
    var sl := store.Get(key);
    var items := [];
    if sl.Some? {
      var flag;
      items, flag := sl.value.FetchAll();
      FetchedIncreasing(sl.value.L);
    }
    values := Query(indexed, start, end, items, datas, now);
  }
}
