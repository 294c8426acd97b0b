/**
 The cache: a hash index, a list of the same items in order of their last access, and a
 budget for the sum of their sizes.
 */
module Cache {
  import opened Octets

  type Key = Bytes

  /** `ok` is what the item's own Validate() method says. */
  datatype Item = Item(id: nat, key: Key, size: nat, expires: int, ok: bool) {
    predicate Fresh(now: int) {
      now < expires && ok
    }
  }

  datatype Maybe = Nothing | Just(item: Item)

  function Sum(s: seq<Item>): nat
    decreases |s|
  {
    if s == [] then 0 else s[0].size + Sum(s[1..])
  }

  lemma {:induction false} SumConcat(a: seq<Item>, b: seq<Item>)
    ensures Sum(a + b) == Sum(a) + Sum(b)
    decreases |a|
  {
    if a == [] {
      assert a + b == b;
    } else {
      assert (a + b)[1..] == a[1..] + b;
      SumConcat(a[1..], b);
    }
  }

  lemma SumOne(x: Item)
    ensures Sum([x]) == x.size
  {
    assert [x][1..] == [];
  }

  function Position(s: seq<Item>, x: Item): (k: nat)
    requires x in s
    ensures k < |s| && s[k] == x
    decreases |s|
  {
    if s[0] == x then 0 else 1 + Position(s[1..], x)
  }

  function Without(s: seq<Item>, x: Item): seq<Item>
    requires x in s
  {
    s[..Position(s, x)] + s[Position(s, x) + 1..]
  }

  lemma SumWithout(s: seq<Item>, x: Item)
    requires x in s
    ensures Sum(Without(s, x)) == Sum(s) - x.size
  {
    var k := Position(s, x);
    assert s == s[..k] + ([x] + s[k + 1..]);
    SumConcat(s[..k], [x] + s[k + 1..]);
    SumConcat([x], s[k + 1..]);
    SumOne(x);
    SumConcat(s[..k], s[k + 1..]);
  }

  function Members(s: seq<Item>): set<Item> {
    set x | x in s
  }

  /** Oldest access first. */
  ghost predicate ByUse(s: seq<Item>, lastUse: map<Item, nat>) {
    && (forall k :: 0 <= k < |s| ==> s[k] in lastUse)
    && (forall i, j :: 0 <= i < j < |s| ==> lastUse[s[i]] < lastUse[s[j]])
  }

  lemma WithoutAt(s: seq<Item>, x: Item, i: nat)
    requires x in s && i < |s| - 1
    ensures Without(s, x)[i] == if i < Position(s, x) then s[i] else s[i + 1]
  {
  }

  lemma ByUseWithout(s: seq<Item>, x: Item, lastUse: map<Item, nat>)
    requires x in s && ByUse(s, lastUse)
    ensures ByUse(Without(s, x), lastUse)
  {
    var k, r := Position(s, x), Without(s, x);
    forall i | 0 <= i < |r|
      ensures r[i] == if i < k then s[i] else s[i + 1]
    {
      WithoutAt(s, x, i);
    }
  }

  lemma MembersWithout(s: seq<Item>, x: Item, lastUse: map<Item, nat>)
    requires x in s && ByUse(s, lastUse)
    ensures Members(Without(s, x)) == Members(s) - {x}
  {
    var k, r := Position(s, x), Without(s, x);
    assert x !in s[..k] && x !in s[k + 1..] by {
      forall i | 0 <= i < |s| && i != k
        ensures s[i] != x
      {
        assert lastUse[s[i]] != lastUse[s[k]];
      }
    }
    hide ByUse, Position;
    assert s == s[..k] + [x] + s[k + 1..];
    assert forall y :: y in s <==> y in s[..k] || y == x || y in s[k + 1..];
    assert forall y :: y in r <==> y in s[..k] || y in s[k + 1..];
  }

  lemma MembersEmpty(s: seq<Item>)
    ensures Members(s) == {} <==> s == []
  {
    if s != [] {
      assert s[0] in Members(s);
    }
  }

  lemma ByUsePush(s: seq<Item>, x: Item, lastUse: map<Item, nat>, clock: nat)
    requires ByUse(s, lastUse) && x !in s
    requires forall y :: y in s ==> lastUse[y] < clock
    ensures ByUse(s + [x], lastUse[x := clock])
  {
  }

  /** The last use of an item that is not in the list does not matter. */
  lemma ByUseOther(s: seq<Item>, lastUse: map<Item, nat>, x: Item, n: nat)
    requires ByUse(s, lastUse[x := n]) && x !in Members(s)
    ensures ByUse(s, lastUse)
  {
    assert forall k :: 0 <= k < |s| ==> s[k] in Members(s) && s[k] != x;
  }

  lemma MembersPush(s: seq<Item>, x: Item)
    ensures Members(s + [x]) == Members(s) + {x}
    ensures Sum(s + [x]) == Sum(s) + x.size
  {
    SumConcat(s, [x]);
    SumOne(x);
  }

  /** The number of oldest items that have to go before the rest leaves room for `need`. */
  function Evicted(s: seq<Item>, need: nat, limit: nat): (k: nat)
    requires need <= limit
    ensures k <= |s| && Sum(s[k..]) + need <= limit
    ensures forall j :: 0 <= j < k ==> Sum(s[j..]) + need > limit
    decreases |s|
  {
    assert s[0..] == s;
    if Sum(s) + need <= limit then 0 else
    assert forall j :: 0 < j <= |s| ==> s[1..][j - 1..] == s[j..];
    var k := Evicted(s[1..], need, limit);
    assert s[k + 1..] == s[1..][k..];
    1 + k
  }

  class ItemCache {
    const maxSize: nat
    var size: nat
    var items: set<Item>
    var sorted: seq<Item>
    var timer: bool

    /** When each item was last added or returned. */
    ghost var lastUse: map<Item, nat>
    ghost var clock: nat

    ghost predicate Valid()
      reads this
    {
      && items == Members(sorted)
      && size == Sum(sorted) <= maxSize
      && (timer <==> size > 0)
      && (forall x :: x in sorted ==> x.size > 0)
      && ByUse(sorted, lastUse)
      && (forall x :: x in sorted ==> lastUse[x] < clock)
    }

    constructor (maxSize: nat)
      ensures Valid() && this.maxSize == maxSize && sorted == []
    {
      this.maxSize := maxSize;
      size, items, sorted, timer := 0, {}, [], false;
      lastUse, clock := map[], 0;
    }

    method RemoveItem(x: Item)
      requires Valid() && x in items
      modifies this`size, this`items, this`sorted, this`timer
      ensures Valid() && sorted == Without(old(sorted), x) && items == old(items) - {x}
      ensures size == old(size) - x.size
    {
      hide Without, Sum, ByUse, Position;
      assert x in sorted;
      SumWithout(sorted, x);
      ByUseWithout(sorted, x, lastUse);
      MembersWithout(sorted, x, lastUse);
      SumPositive(sorted, x);
      assert forall y :: y in Without(sorted, x) ==> y in Members(Without(sorted, x));
      items := items - {x};
      sorted := Without(sorted, x);
      size := size - x.size;
      if size == 0 {
        timer := false;
      }
    }

    /** Move to the end of the list. */
    method RefreshItem(x: Item)
      requires Valid() && x in items
      modifies this`sorted, this`lastUse, this`clock
      ensures Valid() && sorted == Without(old(sorted), x) + [x]
      ensures lastUse == old(lastUse)[x := old(clock)]
    {
      hide Without, Sum, ByUse, Position;
      assert x in sorted;
      SumWithout(sorted, x);
      ByUseWithout(sorted, x, lastUse);
      MembersWithout(sorted, x, lastUse);
      var rest := Without(sorted, x);
      assert forall y :: y in rest ==> y in Members(rest);
      ByUsePush(rest, x, lastUse, clock);
      MembersPush(rest, x);
      sorted := rest + [x];
      lastUse, clock := lastUse[x := clock], clock + 1;
    }

    method DestroyOldestItem()
      requires Valid()
      modifies this`size, this`items, this`sorted, this`timer
      ensures Valid() && sorted == if old(sorted) == [] then [] else old(sorted)[1..]
      ensures items <= old(items)
    {
      if sorted == [] {
        return;
      }
      PositionIs(sorted, 0, lastUse);
      assert sorted[0] in items;
      assert sorted[..0] + sorted[1..] == sorted[1..];
      RemoveItem(sorted[0]);
    }

    /** Evict the least recently used items, and no more of them than necessary. */
    method NeedRoom(need: nat) returns (ok: bool)
      requires Valid()
      modifies this`size, this`items, this`sorted, this`timer
      ensures Valid() && (ok <==> need <= maxSize) && items <= old(items)
      ensures !ok ==> sorted == old(sorted)
      ensures ok ==> sorted == old(sorted)[Evicted(old(sorted), need, maxSize)..]
      ensures ok ==> size + need <= maxSize
    {
      hide Evicted, ByUse, Members;
      if need > maxSize {
        return false;
      }
      ghost var k := 0;
      ghost var all := sorted;
      assert all[0..] == all;
      while size + need > maxSize
        invariant Valid() && k <= |all| && sorted == all[k..] && items <= old(items)
        invariant forall j :: 0 <= j < k ==> Sum(all[j..]) + need > maxSize
        decreases |sorted|
      {
        assert sorted[1..] == all[k + 1..];
        DestroyOldestItem();
        k := k + 1;
      }
      EvictedIs(all, need, maxSize, k);
      ok := true;
    }

    /** One of the items with this key; which one is up to the hash index. */
    method Find(key: Key) returns (r: Maybe)
      ensures r.Just? ==> r.item in items && r.item.key == key
      ensures r.Nothing? ==> forall x :: x in items ==> x.key != key
    {
      if exists x :: x in items && x.key == key {
        var x :| x in items && x.key == key;
        r := Just(x);
      } else {
        r := Nothing;
      }
    }

    method Get(key: Key, now: int) returns (r: Maybe)
      requires Valid()
      modifies this
      ensures Valid()
      ensures match r
        case Just(x) => x in old(items) && x.key == key && x.Fresh(now) && items == old(items)
                        && lastUse == old(lastUse)[x := old(clock)] && sorted[|sorted| - 1] == x
        case Nothing => lastUse == old(lastUse)
                        && ((items == old(items) && (forall x :: x in items ==> x.key != key))
                            || (exists x :: x in old(items) && x.key == key && !x.Fresh(now) && items == old(items) - {x}))
    {
      r := Find(key);
      if r.Just? {
        var x := r.item;
        if !x.Fresh(now) {
          RemoveItem(x);
          r := Nothing;
        } else {
          RefreshItem(x);
        }
      }
    }

    /** Like Get(), but only an item that matches is good enough; stale items on the way are removed. */
    method GetMatch(key: Key, good: Item -> bool, now: int) returns (r: Maybe)
      requires Valid()
      modifies this
      ensures Valid() && items <= old(items)
      ensures forall x :: x in old(items) - items ==> x.key == key && !x.Fresh(now)
      ensures match r
        case Just(x) => x in items && x.key == key && x.Fresh(now) && good(x)
                        && lastUse == old(lastUse)[x := old(clock)] && sorted[|sorted| - 1] == x
        case Nothing => lastUse == old(lastUse)
                        && forall x :: x in items && x.key == key ==> x.Fresh(now) && !good(x)
    {
      hide Sum, ByUse, Members;
      var bucket := set x | x in items && x.key == key;
      while bucket != {}
        invariant Valid() && items <= old(items) && lastUse == old(lastUse) && clock == old(clock)
        invariant bucket <= items && forall x :: x in bucket ==> x.key == key
        invariant forall x :: x in old(items) - items ==> x.key == key && !x.Fresh(now)
        invariant forall x :: x in items && x.key == key && x !in bucket ==> x.Fresh(now) && !good(x)
        decreases bucket
      {
        var x :| x in bucket;
        bucket := bucket - {x};
        if !x.Fresh(now) {
          RemoveItem(x);
        } else if good(x) {
          RefreshItem(x);
          return Just(x);
        }
      }
      r := Nothing;
    }

    /** Link a new item, for which there is room. */
    method Insert(item: Item)
      requires Valid() && item.size > 0 && item !in items && size + item.size <= maxSize
      modifies this
      ensures Valid() && sorted == old(sorted) + [item] && items == old(items) + {item}
      ensures lastUse == old(lastUse)[item := old(clock)]
    {
      hide Sum, ByUse;
      MembersPush(sorted, item);
      ByUsePush(sorted, item, lastUse, clock);
      items := items + {item};
      sorted := sorted + [item];
      size := size + item.size;
      timer := true;
      lastUse, clock := lastUse[item := clock], clock + 1;
    }

    /** Items with the same key are preserved. */
    method Add(item: Item) returns (ok: bool)
      requires Valid() && item.size > 0 && item !in items
      modifies this
      ensures Valid() && (ok <==> item.size <= maxSize)
      ensures items <= if ok then old(items) + {item} else old(items)
      ensures !ok ==> sorted == old(sorted)
      ensures ok ==> sorted == old(sorted)[Evicted(old(sorted), item.size, maxSize)..] + [item]
    {
      hide Sum, ByUse, Evicted;
      ok := NeedRoom(item.size);
      if ok {
        Insert(item);
      }
    }

    /** Room is made first, and then an item with the same key is removed; `victim` is that item. */
    method Put(item: Item) returns (ok: bool, victim: Maybe)
      requires Valid() && item.size > 0 && item !in items
      modifies this
      ensures Valid() && (ok <==> item.size <= maxSize)
      ensures !ok ==> sorted == old(sorted)
      ensures ok ==> var kept := old(sorted)[Evicted(old(sorted), item.size, maxSize)..];
        match victim
        case Just(x) => x in kept && x.key == item.key && sorted == Without(kept, x) + [item]
        case Nothing => (forall x :: x in kept ==> x.key != item.key) && sorted == kept + [item]
    {
      hide Sum, ByUse, Evicted, Without;
      victim := Nothing;
      ok := NeedRoom(item.size);
      if ok {
        victim := Find(item.key);
        if victim.Just? {
          RemoveItem(victim.item);
        }
        Insert(item);
      }
    }

    /**
     Replace a matching item, which is `victim`; it goes even if the new one does not fit.  `left` is the
     list between the two parts: the old one without the victim and without stale items of this key.
     */
    method PutMatch(item: Item, good: Item -> bool, now: int) returns (ok: bool, victim: Maybe, ghost left: seq<Item>)
      requires Valid() && item.size > 0 && item !in items
      modifies this
      ensures Valid() && (ok <==> item.size <= maxSize)
      ensures sorted == if ok then left[Evicted(left, item.size, maxSize)..] + [item] else left
      ensures ByUse(left, old(lastUse)) && Members(left) <= old(items)
      ensures match victim
        case Just(x) => x in old(items) && x.key == item.key && x.Fresh(now) && good(x) && x !in Members(left)
        case Nothing => forall x :: x in Members(left) && x.key == item.key ==> x.Fresh(now) && !good(x)
      ensures forall x :: x in old(items) - Members(left) ==> x.key == item.key && (!x.Fresh(now) || victim == Just(x))
    {
      hide Sum, Evicted, Without;
      victim := GetMatch(item.key, good, now);
      if victim.Just? {
        RemoveItem(victim.item);
        ByUseOther(sorted, old(lastUse), victim.item, old(clock));
      }
      left := sorted;
      ok := Add(item);
    }

    /** Remove all items with this key. */
    method Remove(key: Key)
      requires Valid()
      modifies this
      ensures Valid() && lastUse == old(lastUse)
      ensures items == set x | x in old(items) && x.key != key
    {
      hide Sum, ByUse, Members;
      var bucket := set x | x in items && x.key == key;
      while bucket != {}
        invariant Valid() && lastUse == old(lastUse)
        invariant bucket <= items <= old(items)
        invariant forall x :: x in old(items) ==> if x.key == key then x in items <==> x in bucket else x in items
        decreases bucket
      {
        var x :| x in bucket;
        bucket := bucket - {x};
        RemoveItem(x);
      }
    }

    /** An item that has been removed already is ignored. */
    method RemoveOne(x: Item)
      requires Valid()
      modifies this
      ensures Valid() && lastUse == old(lastUse) && items == old(items) - {x}
    {
      if x in sorted {
        RemoveItem(x);
      }
    }

    /** The loop walks the list while it removes items from it. */
    method RemoveAllMatch(good: Item -> bool) returns (removed: nat)
      requires Valid()
      modifies this
      ensures Valid() && lastUse == old(lastUse)
      ensures items == set x | x in old(items) && !good(x)
      ensures removed == |old(sorted)| - |sorted|
    {
      hide Sum;
      removed := 0;
      var i := 0;
      while i < |sorted|
        invariant Valid() && lastUse == old(lastUse) && i <= |sorted|
        invariant items <= old(items)
        invariant forall x :: x in old(items) && x !in items ==> good(x)
        invariant forall k :: 0 <= k < i ==> !good(sorted[k])
        invariant removed == |old(sorted)| - |sorted|
        decreases |sorted| - i
      {
        var x := sorted[i];
        if good(x) {
          PositionIs(sorted, i, lastUse);
          RemoveItem(x);
          removed := removed + 1;
        } else {
          i := i + 1;
        }
      }
    }

    /** Remove what has expired; the timer goes on if anything is left. */
    method ExpireCallback(now: int) returns (again: bool)
      requires Valid()
      modifies this
      ensures Valid() && lastUse == old(lastUse)
      ensures items == set x | x in old(items) && now < x.expires
      ensures again == timer
    {
      var _ := RemoveAllMatch((x: Item) => x.expires <= now);
      again := size > 0;
    }

    method Flush()
      requires Valid()
      modifies this
      ensures Valid() && sorted == [] && items == {} && !timer
    {
      hide Sum, ByUse;
      while items != {}
        invariant Valid()
        decreases items
      {
        var x :| x in items;
        RemoveItem(x);
      }
      MembersEmpty(sorted);
      SumEmpty();
    }
  }

  lemma SumEmpty()
    ensures Sum([]) == 0
  {
  }

  lemma SumPositive(s: seq<Item>, x: Item)
    requires x in s
    ensures Sum(s) >= x.size
  {
    SumWithout(s, x);
  }

  lemma EvictedIs(s: seq<Item>, need: nat, limit: nat, k: nat)
    requires need <= limit && k <= |s| && Sum(s[k..]) + need <= limit
    requires forall j :: 0 <= j < k ==> Sum(s[j..]) + need > limit
    ensures Evicted(s, need, limit) == k
  {
    hide Sum;
  }

  lemma PositionIs(s: seq<Item>, i: nat, lastUse: map<Item, nat>)
    requires i < |s| && ByUse(s, lastUse)
    ensures Position(s, s[i]) == i
  {
    assert lastUse[s[Position(s, s[i])]] == lastUse[s[i]];
  }

  /** The items and their last use determine the list. */
  lemma {:induction false} OrderIsUnique(a: seq<Item>, b: seq<Item>, lastUse: map<Item, nat>)
    requires ByUse(a, lastUse) && ByUse(b, lastUse) && Members(a) == Members(b)
    ensures a == b
    decreases |a|
  {
    MembersEmpty(a);
    MembersEmpty(b);
    if a != [] {
      assert a[0] in Members(b) && b[0] in Members(a);
      assert a[0] == b[0];
      TailMembers(a, lastUse);
      TailMembers(b, lastUse);
      OrderIsUnique(a[1..], b[1..], lastUse);
    }
  }

  lemma TailMembers(s: seq<Item>, lastUse: map<Item, nat>)
    requires s != [] && ByUse(s, lastUse)
    ensures ByUse(s[1..], lastUse) && Members(s[1..]) == Members(s) - {s[0]}
  {
    PositionIs(s, 0, lastUse);
    MembersWithout(s, s[0], lastUse);
    ByUseWithout(s, s[0], lastUse);
    assert Without(s, s[0]) == s[1..];
  }

  lemma ByUseSplit(s: seq<Item>, lastUse: map<Item, nat>, k: nat, x: Item, y: Item)
    requires ByUse(s, lastUse) && k <= |s| && x in s[..k] && y in s[k..]
    ensures lastUse[x] < lastUse[y]
  {
    var i :| 0 <= i < k && s[i] == x;
    var j :| 0 <= j < |s[k..]| && s[k..][j] == y;
    assert s[k + j] == y;
  }

  /** Whatever has to go was used before whatever stays. */
  lemma LeastRecentlyUsedGo(c: ItemCache, need: nat, x: Item, y: Item)
    requires c.Valid() && need <= c.maxSize
    requires x in c.sorted[..Evicted(c.sorted, need, c.maxSize)] && y in c.sorted[Evicted(c.sorted, need, c.maxSize)..]
    ensures c.lastUse[x] < c.lastUse[y]
  {
    hide Evicted, Sum, Members, ByUse;
    ByUseSplit(c.sorted, c.lastUse, Evicted(c.sorted, need, c.maxSize), x, y);
  }
}
