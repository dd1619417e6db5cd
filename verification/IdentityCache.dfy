/**
 The bounded first-in-first-out cache with expiry behind both identity middlewares
 (internal/middleware/identity.go): a map into a doubly linked list, and what it holds after any
 history of Set calls. rdnsCache and whoIsCache differ only in the type of the cached value.
 */
module IdentityCache {
  import opened Prelude

  /** A cache entry; expiry is the time of the Set plus the time to live. */
  datatype Item<V> = Item(key: string, value: V, expiry: int)

  // ----- The abstract cache: the entries from oldest to newest

  function WithoutKey<V>(c: seq<Item<V>>, key: string): seq<Item<V>> {
    if c == [] then []
    else (if c[0].key == key then [] else [c[0]]) + WithoutKey(c[1..], key)
  }

  function SetContents<V>(c: seq<Item<V>>, maxSize: int, item: Item<V>): seq<Item<V>> {
    var kept := WithoutKey(c, item.key);
    (if |kept| >= maxSize && kept != [] then kept[1..] else kept) + [item]
  }

  function Lookup<V>(c: seq<Item<V>>, key: string, now: int): Option<V> {
    if c == [] then None
    else if c[0].key == key then (if now > c[0].expiry then None else Some(c[0].value))
    else Lookup(c[1..], key, now)
  }

  predicate DistinctKeys<V>(c: seq<Item<V>>) {
    forall i, j :: 0 <= i < j < |c| ==> c[i].key != c[j].key
  }

  lemma {:induction false} WithoutAbsentKey<V>(c: seq<Item<V>>, key: string)
    requires forall i :: 0 <= i < |c| ==> c[i].key != key
    ensures WithoutKey(c, key) == c
  {
    if c != [] {
      WithoutAbsentKey(c[1..], key);
    }
  }

  lemma {:induction false} WithoutKeyAt<V>(c: seq<Item<V>>, k: nat)
    requires DistinctKeys(c) && k < |c|
    ensures WithoutKey(c, c[k].key) == c[..k] + c[k + 1..]
  {
    if k == 0 {
      WithoutAbsentKey(c[1..], c[0].key);
    } else {
      WithoutKeyAt(c[1..], k - 1);
    }
  }

  lemma {:induction false} LookupAt<V>(c: seq<Item<V>>, k: nat, now: int)
    requires DistinctKeys(c) && k < |c|
    ensures Lookup(c, c[k].key, now) == if now > c[k].expiry then None else Some(c[k].value)
  {
    if k > 0 {
      LookupAt(c[1..], k - 1, now);
    }
  }

  lemma {:induction false} LookupAbsent<V>(c: seq<Item<V>>, key: string, now: int)
    requires forall i :: 0 <= i < |c| ==> c[i].key != key
    ensures Lookup(c, key, now) == None
  {
    if c != [] {
      LookupAbsent(c[1..], key, now);
    }
  }

  // ----- The linked list (container/list): a ring through a sentinel

  class Element<T(0)> {
    const value: T
    var next: Element?<T>
    var prev: Element?<T>

    constructor (value: T)
      ensures this.value == value
    {
      this.value := value;
      next, prev := null, null;
    }

    constructor Sentinel()
      ensures next == this && prev == this
    {
      value := *;
      next, prev := this, this;
    }
  }

  class OrderList<T(0)> {
    const root: Element<T>
    var len: nat
    ghost var elems: seq<Element<T>>

    ghost function Nodes(): set<object>
      reads this
    {
      set o: object | o in elems
    }

    /** The ring: position -1 and position |elems| are the sentinel. */
    ghost function Ring(i: int): Element<T>
      reads this
    {
      if 0 <= i < |elems| then elems[i] else root
    }

    ghost predicate Valid()
      reads this, root, Nodes()
    {
      && root !in elems
      && len == |elems|
      && (forall i, j :: 0 <= i < j < |elems| ==> elems[i] != elems[j])
      && (forall i :: -1 <= i < |elems| ==> Ring(i).next == Ring(i + 1))
      && (forall i :: 0 <= i <= |elems| ==> Ring(i).prev == Ring(i - 1))
    }

    constructor ()
      ensures Valid() && elems == [] && fresh(root)
    {
      var r := new Element.Sentinel();
      root := r;
      len := 0;
      elems := [];
    }

    method Front() returns (e: Element?<T>)
      requires Valid()
      ensures if elems == [] then e == null else e == elems[0]
    {
      if len == 0 {
        return null;
      }
      assert Ring(-1).next == Ring(0);
      return root.next;
    }

    method Remove(e: Element<T>, ghost k: nat)
      requires Valid() && k < |elems| && elems[k] == e
      modifies this, root, Nodes()
      ensures Valid()
      ensures elems == old(elems[..k] + elems[k + 1..])
      ensures Nodes() <= old(Nodes())
    {
      assert Ring(k) == e && e.next == Ring(k + 1) && e.prev == Ring(k - 1);
      e.prev.next := e.next;
      e.next.prev := e.prev;
      e.next := null;
      e.prev := null;
      len := len - 1;
      elems := elems[..k] + elems[k + 1..];
      forall i | -1 <= i < |elems|
        ensures Ring(i).next == Ring(i + 1) && Ring(i + 1).prev == Ring(i)
      {
        var j := if i < k then i else i + 1;
        assert Ring(i) == old(Ring(j)) && old(Ring(j).next == Ring(j + 1));
        assert Ring(i + 1) == old(Ring(if i + 1 < k then i + 1 else i + 2));
        var l := if i + 1 < k then i + 1 else i + 2;
        assert old(Ring(l).prev == Ring(l - 1));
      }
    }

    method PushBack(v: T) returns (e: Element<T>)
      requires Valid()
      modifies this, root, Nodes()
      ensures Valid() && fresh(e) && e.value == v
      ensures elems == old(elems) + [e]
      ensures Nodes() == old(Nodes()) + {e}
    {
      e := new Element(v);
      assert Ring(|elems|).prev == Ring(|elems| - 1);
      var at := root.prev;
      e.prev := at;
      e.next := root;
      at.next := e;
      root.prev := e;
      len := len + 1;
      elems := elems + [e];
      forall i | -1 <= i < |elems|
        ensures Ring(i).next == Ring(i + 1) && Ring(i + 1).prev == Ring(i)
      {
        assert i < |elems| - 1 ==> Ring(i) == old(Ring(i)) && old(Ring(i).next == Ring(i + 1));
        assert i < |elems| - 1 ==> old(Ring(i + 1).prev == Ring(i));
      }
    }
  }

  // ----- The cache

  /** The values of list nodes; they never change. */
  ghost function Items<V(0)>(elems: seq<Element<Item<V>>>): (c: seq<Item<V>>)
    ensures |c| == |elems| && forall i :: 0 <= i < |c| ==> c[i] == elems[i].value
  {
    if elems == [] then [] else Items(elems[..|elems| - 1]) + [elems[|elems| - 1].value]
  }

  /** The nodes by the keys they carry. */
  ghost function ByKey<V(0)>(elems: seq<Element<Item<V>>>): map<string, Element<Item<V>>> {
    if elems == [] then map[]
    else ByKey(elems[..|elems| - 1])[elems[|elems| - 1].value.key := elems[|elems| - 1]]
  }

  lemma {:induction false} ByKeyAt<V(0)>(elems: seq<Element<Item<V>>>, k: nat)
    requires DistinctKeys(Items(elems)) && k < |elems|
    ensures elems[k].value.key in ByKey(elems) && ByKey(elems)[elems[k].value.key] == elems[k]
  {
    var n := |elems| - 1;
    if k < n {
      assert Items(elems)[k].key != Items(elems)[n].key;
      ByKeyAt(elems[..n], k);
    }
  }

  lemma {:induction false} ByKeyNode<V(0)>(elems: seq<Element<Item<V>>>, key: string) returns (k: nat)
    requires key in ByKey(elems)
    ensures k < |elems| && elems[k].value.key == key && ByKey(elems)[key] == elems[k]
  {
    var n := |elems| - 1;
    if elems[n].value.key == key {
      return n;
    }
    k := ByKeyNode(elems[..n], key);
  }

  lemma {:induction false} ByKeySize<V(0)>(elems: seq<Element<Item<V>>>)
    requires DistinctKeys(Items(elems))
    ensures |ByKey(elems)| == |elems|
  {
    if elems != [] {
      var n := |elems| - 1;
      var key := elems[n].value.key;
      ByKeySize(elems[..n]);
      assert forall i :: 0 <= i < n ==> Items(elems)[i].key != Items(elems)[n].key;
      ByKeyAbsent(elems[..n], key);
      assert ByKey(elems).Keys == ByKey(elems[..n]).Keys + {key};
    }
  }

  lemma {:induction false} ByKeyAbsent<V(0)>(elems: seq<Element<Item<V>>>, key: string)
    requires forall i :: 0 <= i < |elems| ==> elems[i].value.key != key
    ensures key !in ByKey(elems)
  {
    if elems != [] {
      ByKeyAbsent(elems[..|elems| - 1], key);
    }
  }

  lemma {:induction false} ByKeyRemove<V(0)>(elems: seq<Element<Item<V>>>, k: nat)
    requires DistinctKeys(Items(elems)) && k < |elems|
    ensures ByKey(elems[..k] + elems[k + 1..]) == ByKey(elems) - {elems[k].value.key}
  {
    var n := |elems| - 1;
    var key := elems[k].value.key;
    if k == n {
      assert elems[..k] + elems[k + 1..] == elems[..n];
      assert forall i :: 0 <= i < n ==> Items(elems)[i].key != key;
      ByKeyAbsent(elems[..n], key);
    } else {
      var rest := elems[..k] + elems[k + 1..];
      assert rest[..|rest| - 1] == elems[..n][..k] + elems[..n][k + 1..];
      assert Items(elems)[k].key != Items(elems)[n].key;
      ByKeyRemove(elems[..n], k);
    }
  }

  lemma ItemsRemove<V(0)>(elems: seq<Element<Item<V>>>, k: nat)
    requires DistinctKeys(Items(elems)) && k < |elems|
    ensures Items(elems[..k] + elems[k + 1..]) == WithoutKey(Items(elems), elems[k].value.key)
  {
    var c := Items(elems);
    WithoutKeyAt(c, k);
    ItemsSkip(elems, k);
  }

  lemma {:induction false} ItemsSkip<V(0)>(elems: seq<Element<Item<V>>>, k: nat)
    requires k < |elems|
    ensures Items(elems[..k] + elems[k + 1..]) == Items(elems)[..k] + Items(elems)[k + 1..]
  {
    var rest, c := elems[..k] + elems[k + 1..], Items(elems);
    var skipped := c[..k] + c[k + 1..];
    forall i | 0 <= i < |rest|
      ensures Items(rest)[i] == skipped[i]
    {
      var j := if i < k then i else i + 1;
      assert rest[i] == elems[j] && skipped[i] == c[j];
    }
  }

  lemma {:induction false} WithoutKeyDistinct<V>(c: seq<Item<V>>, key: string)
    requires DistinctKeys(c)
    ensures DistinctKeys(WithoutKey(c, key))
    ensures !SetsKey(WithoutKey(c, key), key)
    ensures forall i :: 0 <= i < |WithoutKey(c, key)| ==> WithoutKey(c, key)[i] in c
  {
    if c != [] {
      WithoutKeyDistinct(c[1..], key);
    }
  }

  lemma AppendAgrees<V(0)>(elems: seq<Element<Item<V>>>, e: Element<Item<V>>)
    requires DistinctKeys(Items(elems)) && !SetsKey(Items(elems), e.value.key)
    ensures ByKey(elems + [e]) == ByKey(elems)[e.value.key := e]
    ensures Items(elems + [e]) == Items(elems) + [e.value]
    ensures DistinctKeys(Items(elems + [e]))
  {
    assert (elems + [e])[..|elems|] == elems;
  }

  class Cache<V(0)> {
    var entries: map<string, Element<Item<V>>>
    const order: OrderList<Item<V>>
    const ttl: int
    const maxSize: int

    /** Map and list agree: no key twice in the list, and the map takes each key to the node that
        carries it. */
    ghost predicate Valid()
      reads this, order, order.root, order.Nodes()
    {
      order.Valid() && DistinctKeys(Contents()) && entries == ByKey(order.elems)
    }

    /** The entries from oldest to newest. */
    ghost function Contents(): seq<Item<V>>
      reads order
    {
      Items(order.elems)
    }

    constructor (ttl: int, maxSize: int)
      ensures Valid() && Contents() == [] && this.ttl == ttl && this.maxSize == maxSize
      ensures fresh(order) && fresh(order.root)
    {
      entries := map[];
      order := new OrderList();
      this.ttl, this.maxSize := ttl, maxSize;
    }

    method Get(ip: string, now: int) returns (r: Option<V>)
      requires Valid()
      ensures r == Lookup(Contents(), ip, now)
    {
      if ip !in entries {
        KeyAbsent(ip);
        LookupAbsent(Contents(), ip, now);
        return None;
      }
      var elem := entries[ip];
      ghost var k := ByKeyNode(order.elems, ip);
      LookupAt(Contents(), k, now);
      var item := elem.value;
      if now > item.expiry {
        return None;
      }
      return Some(item.value);
    }

    lemma KeyAbsent(key: string)
      requires Valid() && key !in entries
      ensures forall i :: 0 <= i < |Contents()| ==> Contents()[i].key != key
    {
      forall i | 0 <= i < |order.elems|
        ensures Contents()[i].key != key
      {
        ByKeyAt(order.elems, i);
      }
    }

    /** Takes one entry out of list and map. */
    method Drop(elem: Element<Item<V>>, ghost k: nat)
      requires Valid() && k < |order.elems| && order.elems[k] == elem
      modifies this, order, order.root, order.Nodes()
      ensures Valid()
      ensures order.Nodes() <= old(order.Nodes())
      ensures Contents() == WithoutKey(old(Contents()), elem.value.key)
    {
      ByKeyRemove(order.elems, k);
      ItemsRemove(order.elems, k);
      WithoutKeyDistinct(Contents(), elem.value.key);
      order.Remove(elem, k);
      entries := entries - {elem.value.key};
    }

    method Set(ip: string, value: V, now: int)
      requires Valid()
      modifies this, order, order.root, order.Nodes()
      ensures Valid()
      ensures Contents() == SetContents(old(Contents()), maxSize, Item(ip, value, now + ttl))
      ensures fresh(order.Nodes() - old(order.Nodes()))
    {
      hide Items, ByKey, WithoutKey, DistinctKeys;
      RemoveKey(ip);
      ghost var kept := Contents();
      KeptWithoutFirst(kept, ip);
      Evict();
      Append(ip, value, now);
    }

    /** Update existing entry: the old element goes, a new one will be added at the back. */
    method RemoveKey(ip: string)
      requires Valid()
      modifies this, order, order.root, order.Nodes()
      ensures Valid() && Contents() == WithoutKey(old(Contents()), ip)
      ensures !SetsKey(Contents(), ip)
      ensures order.Nodes() <= old(order.Nodes())
    {
      WithoutKeyDistinct(Contents(), ip);
      if ip in entries {
        ghost var k := ByKeyNode(order.elems, ip);
        Drop(entries[ip], k);
      } else {
        KeyAbsent(ip);
        WithoutAbsentKey(Contents(), ip);
      }
    }

    /** Evict the oldest entry if at capacity. */
    method Evict()
      requires Valid()
      modifies this, order, order.root, order.Nodes()
      ensures Valid()
      ensures var c := old(Contents()); Contents() == if |c| >= maxSize && c != [] then c[1..] else c
      ensures order.Nodes() <= old(order.Nodes())
    {
      ByKeySize(order.elems);
      if |entries| >= maxSize {
        var oldest := order.Front();
        if oldest != null {
          WithoutKeyAt(Contents(), 0);
          Drop(oldest, 0);
        }
      }
    }

    /** Stores a new entry at the back. */
    method Append(ip: string, value: V, now: int)
      requires Valid() && !SetsKey(Contents(), ip)
      modifies this, order, order.root, order.Nodes()
      ensures Valid()
      ensures Contents() == old(Contents()) + [Item(ip, value, now + ttl)]
      ensures fresh(order.Nodes() - old(order.Nodes()))
    {
      hide Items, ByKey, DistinctKeys, SetsKey;
      ghost var before := order.elems;
      var item := Item(ip, value, now + ttl);
      var elem := order.PushBack(item);
      entries := entries[ip := elem];
      AppendAgrees(before, elem);
      assert order.elems == before + [elem];
    }
  }

  lemma KeptWithoutFirst<V>(c: seq<Item<V>>, key: string)
    requires !SetsKey(c, key)
    ensures c != [] ==> !SetsKey(c[1..], key)
  {
  }

  // ----- What a history of Set calls leaves

  /** The cache after Set calls with these items, starting empty. */
  function Run<V>(history: seq<Item<V>>, maxSize: int): seq<Item<V>> {
    if history == [] then []
    else SetContents(Run(history[..|history| - 1], maxSize), maxSize, history[|history| - 1])
  }

  predicate SetsKey<V>(history: seq<Item<V>>, key: string) {
    exists i :: 0 <= i < |history| && history[i].key == key
  }

  /** The last Set of every key, in the order of those last Sets. */
  function LastSets<V>(history: seq<Item<V>>): seq<Item<V>> {
    if history == [] then []
    else (if SetsKey(history[1..], history[0].key) then [] else [history[0]]) + LastSets(history[1..])
  }

  function TakeLast<T>(s: seq<T>, n: nat): (r: seq<T>)
    ensures |r| == Min(n, |s|)
  {
    s[|s| - Min(n, |s|)..]
  }

  /** How many entries the cache can hold: a new entry is always stored, so at least one. */
  function Capacity(maxSize: int): (n: nat)
    ensures n >= 1
  {
    if maxSize < 1 then 1 else maxSize
  }

  lemma {:induction false} LastSetsKeys<V>(history: seq<Item<V>>)
    ensures DistinctKeys(LastSets(history))
    ensures forall key :: SetsKey(LastSets(history), key) <==> SetsKey(history, key)
  {
    if history != [] {
      var h, rest := history[0], history[1..];
      var tail := LastSets(rest);
      LastSetsKeys(rest);
      if !SetsKey(rest, h.key) {
        assert !SetsKey(tail, h.key);
        assert LastSets(history) == [h] + tail;
      } else {
        assert LastSets(history) == tail;
      }
      forall key
        ensures SetsKey(LastSets(history), key) <==> SetsKey(history, key)
      {
        SetsKeyCons(h, rest, key);
        SetsKeyCons(h, tail, key);
        assert history == [h] + rest;
      }
    }
  }

  lemma SetsKeyCons<V>(h: Item<V>, rest: seq<Item<V>>, key: string)
    ensures SetsKey([h] + rest, key) <==> h.key == key || SetsKey(rest, key)
  {
    var all := [h] + rest;
    if h.key == key {
      assert all[0].key == key;
    } else if SetsKey(rest, key) {
      var i :| 0 <= i < |rest| && rest[i].key == key;
      assert all[i + 1].key == key;
    }
  }

  lemma SetsKeySnoc<V>(front: seq<Item<V>>, e: Item<V>, key: string)
    ensures SetsKey(front + [e], key) <==> e.key == key || SetsKey(front, key)
  {
    var all := front + [e];
    if e.key == key {
      assert all[|front|].key == key;
    } else if SetsKey(front, key) {
      var i :| 0 <= i < |front| && front[i].key == key;
      assert all[i].key == key;
    }
  }

  lemma {:induction false} LastSetsSnoc<V>(history: seq<Item<V>>, e: Item<V>)
    ensures LastSets(history + [e]) == WithoutKey(LastSets(history), e.key) + [e]
  {
    if history == [] {
      assert [e][1..] == [];
      assert history + [e] == [e];
    } else {
      var h, rest := history[0], history[1..];
      LastSetsSnoc(rest, e);
      SetsKeySnoc(rest, e, h.key);
      assert (history + [e])[1..] == rest + [e];
      hide SetsKey, WithoutKey;
      var tail := LastSets(rest);
      var own := if SetsKey(rest, h.key) then [] else [h];
      assert LastSets(history) == own + tail;
      WithoutKeyAppend(own, tail, e.key);
      WithoutKeySingle(h, e.key);
      WithoutKeyNothing<V>(e.key);
      AppendAssoc(WithoutKey(own, e.key), WithoutKey(tail, e.key), [e]);
    }
  }

  lemma WithoutKeyNothing<V>(key: string)
    ensures WithoutKey<V>([], key) == []
  {
  }

  lemma WithoutKeySingle<V>(h: Item<V>, key: string)
    ensures WithoutKey([h], key) == if h.key == key then [] else [h]
  {
    assert [h][1..] == [];
  }

  lemma {:induction false} WithoutKeyAppend<V>(a: seq<Item<V>>, b: seq<Item<V>>, key: string)
    ensures WithoutKey(a + b, key) == WithoutKey(a, key) + WithoutKey(b, key)
  {
    if a == [] {
      assert a + b == b;
    } else {
      assert (a + b)[1..] == a[1..] + b;
      WithoutKeyAppend(a[1..], b, key);
    }
  }

  lemma DistinctHalves<V>(a: seq<Item<V>>, b: seq<Item<V>>, key: string)
    requires DistinctKeys(a + b)
    ensures DistinctKeys(b)
    ensures SetsKey(b, key) ==> !SetsKey(a, key)
  {
    var d := a + b;
    assert forall i :: 0 <= i < |b| ==> b[i] == d[|a| + i];
    assert forall i :: 0 <= i < |a| ==> a[i] == d[i];
  }

  lemma WithoutKeyLength<V>(c: seq<Item<V>>, key: string)
    requires DistinctKeys(c)
    ensures if SetsKey(c, key) then |WithoutKey(c, key)| == |c| - 1 else WithoutKey(c, key) == c
  {
    if SetsKey(c, key) {
      var k :| 0 <= k < |c| && c[k].key == key;
      WithoutKeyAt(c, k);
    } else {
      WithoutAbsentKey(c, key);
    }
  }

  /** One Set on the last `cap` entries of d gives the last `cap` entries of d after the Set. */
  lemma SetOnTakeLast<V>(d: seq<Item<V>>, maxSize: int, e: Item<V>)
    requires DistinctKeys(d)
    ensures var cap := Capacity(maxSize);
      SetContents(TakeLast(d, cap), maxSize, e) == TakeLast(WithoutKey(d, e.key) + [e], cap)
  {
    hide WithoutKey, DistinctKeys;
    var b := TakeLast(d, Capacity(maxSize));
    var a := d[..|d| - |b|];
    assert d == a + b;
    SetOnHalves(a, b, Capacity(maxSize), e);
  }

  lemma SetOnHalves<V>(a: seq<Item<V>>, b: seq<Item<V>>, cap: nat, e: Item<V>)
    requires DistinctKeys(a + b)
    requires cap >= 1 && (|b| == cap || (a == [] && |b| < cap))
    ensures var kept := WithoutKey(b, e.key);
      TakeLast(WithoutKey(a + b, e.key) + [e], cap) == (if |kept| >= cap then kept[1..] else kept) + [e]
  {
    hide WithoutKey, DistinctKeys;
    WithoutKeyAppend(a, b, e.key);
    WithoutKeyNothing<V>(e.key);
    DistinctHalves(a, b, e.key);
    WithoutKeyLength(b, e.key);
    if SetsKey(b, e.key) {
      WithoutAbsentKey(a, e.key);
    }
    SetOnLast(WithoutKey(a, e.key), WithoutKey(b, e.key), cap, e);
  }

  /** What is left of the older entries, a, does not matter once b is as long as it can be. */
  lemma SetOnLast<V>(a: seq<Item<V>>, b: seq<Item<V>>, cap: nat, e: Item<V>)
    requires cap >= 1 && (|b| == cap || |b| == cap - 1 || (a == [] && |b| < cap))
    ensures TakeLast(a + b + [e], cap) == (if |b| >= cap then b[1..] else b) + [e]
  {
    var all := a + b + [e];
    var kept := if |b| >= cap then b[1..] else b;
    var n := |all| - (|kept| + 1);
    assert all[n..] == kept + [e];
    assert |TakeLast(all, cap)| == |kept| + 1;
  }

  /** After any history the cache holds the last Sets of the `cap` most recently set keys, in the
      order of those Sets; so no key twice and never more than `cap` entries. */
  lemma {:induction false} RunIsLastSets<V>(history: seq<Item<V>>, maxSize: int)
    ensures Run(history, maxSize) == TakeLast(LastSets(history), Capacity(maxSize))
    ensures DistinctKeys(Run(history, maxSize)) && |Run(history, maxSize)| <= Capacity(maxSize)
  {
    LastSetsKeys(history);
    if history != [] {
      var front, e := history[..|history| - 1], history[|history| - 1];
      assert history == front + [e];
      RunIsLastSets(front, maxSize);
      LastSetsKeys(front);
      LastSetsSnoc(front, e);
      SetOnTakeLast(LastSets(front), maxSize, e);
    }
  }

  ghost function KeysOf<V>(history: seq<Item<V>>): set<string> {
    set i | 0 <= i < |history| :: history[i].key
  }

  lemma {:induction false} LastSetsCount<V>(history: seq<Item<V>>)
    ensures |LastSets(history)| == |KeysOf(history)|
  {
    if history != [] {
      var h, rest := history[0], history[1..];
      LastSetsCount(rest);
      KeysOfCons(history);
      hide KeysOf, SetsKey;
    }
  }

  lemma KeysOfCons<V>(history: seq<Item<V>>)
    requires history != []
    ensures KeysOf(history) == KeysOf(history[1..]) + {history[0].key}
    ensures SetsKey(history[1..], history[0].key) <==> history[0].key in KeysOf(history[1..])
  {
    var h, rest := history[0], history[1..];
    assert history == [h] + rest;
    forall key
      ensures key in KeysOf(history) <==> key in KeysOf(rest) + {h.key}
    {
      SetsKeyCons(h, rest, key);
    }
  }

  lemma {:induction false} LastSetsSuffix<V>(history: seq<Item<V>>, i: nat) returns (front: seq<Item<V>>)
    requires i <= |history|
    ensures LastSets(history) == front + LastSets(history[i..])
  {
    if i == 0 {
      assert history[0..] == history;
      return [];
    }
    var rest := LastSetsSuffix(history[1..], i - 1);
    assert history[1..][i - 1..] == history[i..];
    front := (if SetsKey(history[1..], history[0].key) then [] else [history[0]]) + rest;
  }

  /** What a caller sees: when the i-th Set is the last one for its key, Get returns its value as
      long as it has not expired and fewer than `cap` other keys have been set since, and misses
      otherwise. */
  lemma GetAfterHistory<V>(history: seq<Item<V>>, maxSize: int, i: nat, now: int)
    requires i < |history| && !SetsKey(history[i + 1..], history[i].key)
    ensures Lookup(Run(history, maxSize), history[i].key, now)
         == if now <= history[i].expiry && |KeysOf(history[i + 1..])| < Capacity(maxSize) then Some(history[i].value)
            else None
  {
    var cap := Capacity(maxSize);
    var key, later := history[i].key, LastSets(history[i + 1..]);
    var front := LastSetsSuffix(history, i);
    assert history[i..][1..] == history[i + 1..];
    var d := LastSets(history);
    assert d == front + ([history[i]] + later);
    assert d[|front|] == history[i];
    LastSetsCount(history[i + 1..]);
    LastSetsKeys(history);
    RunIsLastSets(history, maxSize);
    var run := Run(history, maxSize);
    if |later| < cap {
      var k := |front| - (|d| - |run|);
      assert run[k] == history[i];
      LookupAt(run, k, now);
    } else {
      assert forall j :: 0 <= j < |run| ==> run[j] == d[|d| - |run| + j];
      LookupAbsent(run, key, now);
    }
  }

  /** A key that was never set is never found. */
  lemma GetNeverSet<V>(history: seq<Item<V>>, maxSize: int, key: string, now: int)
    requires !SetsKey(history, key)
    ensures Lookup(Run(history, maxSize), key, now) == None
  {
    RunIsLastSets(history, maxSize);
    LastSetsKeys(history);
    var d, run := LastSets(history), Run(history, maxSize);
    assert !SetsKey(d, key);
    assert forall j :: 0 <= j < |run| ==> run[j] == d[|d| - |run| + j];
    LookupAbsent(run, key, now);
  }

  predicate ExpiriesAscend<V>(c: seq<Item<V>>) {
    forall i, j :: 0 <= i < j < |c| ==> c[i].expiry <= c[j].expiry
  }

  lemma {:induction false} LastSetsAscend<V>(history: seq<Item<V>>)
    requires ExpiriesAscend(history)
    ensures ExpiriesAscend(LastSets(history))
    ensures forall e :: e in LastSets(history) ==> e in history
  {
    if history != [] {
      var h, rest := history[0], history[1..];
      LastSetsAscend(rest);
      FirstIsEarliest(history);
      AscendCons(h, LastSets(rest));
      hide SetsKey, ExpiriesAscend;
    }
  }

  lemma FirstIsEarliest<V>(history: seq<Item<V>>)
    requires ExpiriesAscend(history) && history != []
    ensures forall e :: e in history[1..] ==> history[0].expiry <= e.expiry && e in history
  {
  }

  lemma AscendCons<V>(h: Item<V>, tail: seq<Item<V>>)
    requires ExpiriesAscend(tail) && forall e :: e in tail ==> h.expiry <= e.expiry
    ensures ExpiriesAscend([h] + tail)
  {
  }

  /** Under a clock that never goes back, entries expire from front to back, so the entry that is
      evicted is always one that expires first. */
  lemma EvictedExpiresFirst<V>(history: seq<Item<V>>, maxSize: int)
    requires ExpiriesAscend(history)
    ensures ExpiriesAscend(Run(history, maxSize))
  {
    RunIsLastSets(history, maxSize);
    LastSetsAscend(history);
  }
}
