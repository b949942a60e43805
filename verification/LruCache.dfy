/** The LRU cache of `collections/lrucache/lru_cache.go`: a hash map into a doubly linked list with
    two sentinels, updated in place. Every public method holds the mutex throughout, except
    `GetOrPut`, which lets go of it while the loader runs. */
module LruCaches {
  import opened FiniteSets
  import opened Options
  import opened Recency

  type Ref = nat

  datatype Link = Link(prev: Ref, next: Ref)

  ghost predicate Chain(links: map<Ref, Link>, c: seq<Ref>) {
    && (forall i :: 0 <= i < |c| ==> c[i] in links)
    && (forall i, j :: 0 <= i < j < |c| ==> c[i] != c[j])
    && (forall i {:trigger links[c[i]].next} :: 0 <= i < |c| - 1 ==> links[c[i]].next == c[i + 1])
    && (forall i {:trigger links[c[i]].prev} :: 0 < i < |c| ==> links[c[i]].prev == c[i - 1])
  }

  function Unlinked(links: map<Ref, Link>, e: Ref): map<Ref, Link>
    requires e in links && links[e].prev in links && links[e].next in links
  {
    var h := links[links[e].prev := links[links[e].prev].(next := links[e].next)];
    h[links[e].next := h[links[e].next].(prev := links[e].prev)]
  }

  lemma UnlinkedChain(links: map<Ref, Link>, c: seq<Ref>, i: nat)
    requires Chain(links, c) && 0 < i < |c| - 1
    ensures links[c[i]].prev == c[i - 1] && links[c[i]].next == c[i + 1]
    ensures links[c[i]].prev in links && links[c[i]].next in links && links[c[i]].prev != links[c[i]].next
    ensures Chain(Unlinked(links, c[i]), c[..i] + c[i + 1..])
    ensures c[i] !in c[..i] + c[i + 1..]
  {
    var d := c[..i] + c[i + 1..];
    forall k | 0 <= k < |d| ensures d[k] == c[if k < i then k else k + 1] {
    }
  }

  lemma WithoutEntry(links: map<Ref, Link>, head: Ref, order: seq<Ref>, tail: Ref, i: nat)
    requires Chain(links, [head] + order + [tail]) && i < |order|
    ensures var e, rest := order[i], order[..i] + order[i + 1..];
            && e in links && e != head && e != tail && e !in rest
            && links[e].prev in links && links[e].next in links && links[e].prev != links[e].next
            && Chain(Unlinked(links, e), [head] + rest + [tail])
  {
    var c, rest := [head] + order + [tail], order[..i] + order[i + 1..];
    var d := [head] + rest + [tail];
    assert c[i + 1] == order[i];
    UnlinkedChain(links, c, i + 1);
    assert c[..i + 1] + c[i + 1 + 1..] == d;
    assert d[0] == head && d[|d| - 1] == tail;
    forall k | 0 <= k < |rest| ensures rest[k] in d {
      assert d[k + 1] == rest[k];
    }
  }

  /** `e` linked in after the first element. */
  function Pushed(links: map<Ref, Link>, first: Ref, e: Ref): map<Ref, Link>
    requires first in links && e in links && links[first].next in links
  {
    var second := links[first].next;
    var h1 := links[e := Link(first, second)];
    var h2 := h1[second := h1[second].(prev := e)];
    h2[first := h2[first].(next := e)]
  }

  lemma PushedChain(links: map<Ref, Link>, c: seq<Ref>, e: Ref)
    requires Chain(links, c) && |c| >= 2 && e in links && e !in c
    ensures links[c[0]].next == c[1]
    ensures Chain(Pushed(links, c[0], e), [c[0], e] + c[1..])
  {
    var d := [c[0], e] + c[1..];
    forall k | 0 <= k < |d| ensures d[k] == if k == 0 then c[0] else if k == 1 then e else c[k - 1] {
    }
  }

  function Listed<K, V>(items: map<Ref, (K, V)>, order: seq<Ref>): seq<(K, V)>
    requires forall i :: 0 <= i < |order| ==> order[i] in items
  {
    seq(|order|, i requires 0 <= i < |order| => items[order[i]])
  }

  lemma UnusedEntry<K, V>(links: map<Ref, Link>, items: map<Ref, (K, V)>, c: seq<Ref>, order: seq<Ref>,
                          e: Ref, link: Link, kv: (K, V))
    requires Chain(links, c) && e !in links && e !in items && forall i :: 0 <= i < |order| ==> order[i] in items
    ensures Chain(links[e := link], c) && e !in c && e !in order
    ensures Listed(items[e := kv], order) == Listed(items, order)
  {
  }

  /** The map tells for each key the one entry in the list that holds it. */
  ghost predicate Index<K, V>(cache: map<K, Ref>, items: map<Ref, (K, V)>, order: seq<Ref>)
    requires forall i :: 0 <= i < |order| ==> order[i] in items
  {
    && (forall i :: 0 <= i < |order| ==> items[order[i]].0 in cache && cache[items[order[i]].0] == order[i])
    && (forall k :: k in cache ==> cache[k] in order && items[cache[k]].0 == k)
  }

  lemma IndexWithout<K, V>(cache: map<K, Ref>, items: map<Ref, (K, V)>, order: seq<Ref>, i: nat)
    requires (forall j :: 0 <= j < |order| ==> order[j] in items) && Index(cache, items, order) && i < |order|
    requires forall j, k :: 0 <= j < k < |order| ==> order[j] != order[k]
    ensures Index(cache - {items[order[i]].0}, items, order[..i] + order[i + 1..])
  {
    var rest, left := order[..i] + order[i + 1..], cache - {items[order[i]].0};
    assert forall j :: 0 <= j < |rest| ==> rest[j] == order[if j < i then j else j + 1];
    forall k | k in left ensures left[k] in rest {
      var j :| 0 <= j < |order| && order[j] == cache[k];
      assert rest[if j < i then j else j - 1] == cache[k];
    }
  }

  lemma ListedWithout<K, V>(items: map<Ref, (K, V)>, order: seq<Ref>, i: nat)
    requires (forall j :: 0 <= j < |order| ==> order[j] in items) && i < |order|
    ensures var all := Listed(items, order); Listed(items, order[..i] + order[i + 1..]) == all[..i] + all[i + 1..]
  {
  }

  class LRUCache<K(==, !new), V> {
    var capacity: int
    var cache: map<K, Ref>
    var links: map<Ref, Link>     // the `prev` and `next` fields of the entries
    var items: map<Ref, (K, V)>   // their `key` and `value` fields
    const head: Ref
    const tail: Ref

    ghost var order: seq<Ref>     // the linked entries, most recently used first

    ghost predicate Linked()
      reads this
    {
      && Chain(links, [head] + order + [tail])
      && (forall i :: 0 <= i < |order| ==> order[i] in items)
    }

    /** The map and the list hold the same entries, once each. */
    ghost predicate Indexed()
      reads this
      requires Linked()
    {
      Index(cache, items, order)
    }

    ghost predicate Synced()
      reads this
    {
      Linked() && Indexed() && |cache| == |order| && capacity >= 1
    }

    ghost predicate Valid()
      reads this
    {
      Synced() && |order| <= capacity
    }

    ghost function Contents(): seq<(K, V)>
      reads this
      requires Linked()
    {
      Listed(items, order)
    }

    ghost function Whole(): Cache<K, V>
      reads this
      requires Valid()
    {
      Cache(Contents(), capacity)
    }

    lemma OrderDistinct()
      requires Linked()
      ensures forall i, j :: 0 <= i < j < |order| ==> order[i] != order[j]
    {
      var c := [head] + order + [tail];
      assert forall i :: 0 <= i < |order| ==> order[i] == c[i + 1];
    }

    lemma ContentsDistinct()
      requires Synced()
      ensures NoKeyTwice(Contents())
    {
      OrderDistinct();
    }

    /** What a hit and a miss in the map say about the contents. */
    lemma CacheTells(key: K)
      requires Synced()
      ensures key in cache ==> cache[key] in order && Find(Contents(), key) == Some(items[cache[key]].1)
      ensures key !in cache ==> Find(Contents(), key) == None && Without(Contents(), key) == Contents()
    {
      ContentsDistinct();
      if key in cache {
        var i :| 0 <= i < |order| && order[i] == cache[key];
        FindAt(Contents(), i);
      } else {
        WithoutAbsent(Contents(), key);
      }
    }

    constructor (capacity: int)
      ensures Valid() && Contents() == []
      ensures this.capacity == if capacity <= 0 then 1 else capacity
    {
      this.capacity := if capacity <= 0 then 1 else capacity;
      head, tail := 0, 1;
      links := map[0 := Link(0, 1), 1 := Link(0, 1)];
      items, cache, order := map[], map[], [];
    }

    // ---------- The list helpers ----------

    method RemoveEntry(e: Ref, ghost i: nat)
      requires Linked() && i < |order| && order[i] == e
      modifies this`links, this`order
      ensures Linked() && order == old(order)[..i] + old(order)[i + 1..]
      ensures e in links && e != head && e != tail && e !in order
    {
      WithoutEntry(links, head, order, tail, i);
      var p, n := links[e].prev, links[e].next;
      links := links[p := links[p].(next := n)];
      links := links[n := links[n].(prev := p)];
      order := order[..i] + order[i + 1..];
    }

    method AddToFront(e: Ref)
      requires Linked() && e in links && e in items && e != head && e != tail && e !in order
      modifies this`links, this`order
      ensures Linked() && order == [e] + old(order)
    {
      ghost var c := [head] + order + [tail];
      assert c[0] == head;
      PushedChain(links, c, e);
      var first := links[head].next;
      links := links[e := Link(head, first)];
      links := links[first := links[first].(prev := e)];
      links := links[head := links[head].(next := e)];
      order := [e] + order;
      assert [c[0], e] + c[1..] == [head] + order + [tail];
    }

    method MoveToFront(e: Ref, ghost i: nat)
      requires Linked() && i < |order| && order[i] == e
      modifies this`links, this`order
      ensures Linked() && order == [e] + (old(order)[..i] + old(order)[i + 1..])
    {
      RemoveEntry(e, i);
      AddToFront(e);
    }

    // ---------- The operations under the mutex ----------

    method Get(key: K) returns (value: Option<V>)
      requires Valid()
      modifies this`links, this`order
      ensures Valid() && value == Find(old(Contents()), key) && Contents() == Used(old(Contents()), key)
      ensures GotFrom(old(Contents()), Contents(), key, value)
    {
      CacheTells(key);
      GetLaw(Contents(), key);
      if key in cache {
        Touch(cache[key]);
        return Some(items[cache[key]].1);
      }
      return None;
    }

    /** A hit: the entry moves to the front. */
    method Touch(e: Ref)
      requires Valid() && e in order
      modifies this`links, this`order
      ensures Valid() && e in items
      ensures Contents() == [items[e]] + Without(old(Contents()), items[e].0)
    {
      ContentsDistinct();
      ghost var i :| 0 <= i < |order| && order[i] == e;
      FindAt(Contents(), i);
      ghost var was := Contents();
      MoveToFront(e, i);
      assert Contents() == [items[e]] + (was[..i] + was[i + 1..]);
    }

    method SetValue(e: Ref, value: V) returns (ghost i: nat)
      requires Valid() && e in order
      modifies this`items
      ensures Valid() && i < |order| && order[i] == e && e in old(items)
      ensures Contents() == old(Contents())[i := (old(items[e]).0, value)] && old(Contents())[i].0 == old(items[e]).0
      ensures items[e] == (old(items[e]).0, value)
    {
      i :| 0 <= i < |order| && order[i] == e;
      ghost var was := Contents();
      OrderDistinct();
      items := items[e := (items[e].0, value)];
      assert Contents() == was[i := (items[e].0, value)];
    }

    /** A hit by `Put`: the value changes, and the entry moves to the front. */
    method Overwrite(e: Ref, value: V)
      requires Valid() && e in order
      modifies this`links, this`items, this`order
      ensures Valid() && e in old(items)
      ensures Contents() == [(old(items[e]).0, value)] + Without(old(Contents()), old(items[e]).0)
    {
      ghost var was := Contents();
      ghost var i := SetValue(e, value);
      WithoutIgnoresValue(was, i, value);
      Touch(e);
    }

    method RemoveLast()
      requires Synced()
      modifies this`links, this`order, this`cache
      ensures Synced() && |order| == if |old(order)| > 0 then |old(order)| - 1 else 0
      ensures cache.Keys <= old(cache.Keys)
      ensures Contents() == if old(Contents()) == [] then [] else old(Contents())[..|old(order)| - 1]
    {
      ghost var c := [head] + order + [tail];
      assert c[|c| - 1] == tail && c[0] == head && links[c[|c| - 1]].prev == c[|c| - 2];
      var last := links[tail].prev;
      if last != head {
        assert order[|order| - 1] == c[|c| - 2] == last;
        Drop(last, |order| - 1);
      }
    }

    /** An entry is unlinked and its key taken out of the map. */
    method Drop(e: Ref, ghost i: nat)
      requires Synced() && i < |order| && order[i] == e
      modifies this`links, this`order, this`cache
      ensures Synced() && order == old(order)[..i] + old(order)[i + 1..]
      ensures Contents() == old(Contents())[..i] + old(Contents())[i + 1..]
      ensures cache.Keys <= old(cache.Keys)
    {
      OrderDistinct();
      IndexWithout(cache, items, order, i);
      ListedWithout(items, order, i);
      RemoveEntry(e, i);
      cache := cache - {items[e].0};
    }

    method NewEntry(key: K, value: V) returns (e: Ref)
      requires Synced()
      modifies this`links, this`items
      ensures Synced() && e in links && e in items && items[e] == (key, value)
      ensures e != head && e != tail && e !in order
      ensures Contents() == old(Contents())
    {
      FreshExists(links.Keys + items.Keys + {head, tail});
      e :| e != 0 && e !in links.Keys + items.Keys + {head, tail};
      ghost var c := [head] + order + [tail];
      assert forall i :: 0 <= i < |order| ==> order[i] == c[i + 1];
      UnusedEntry(links, items, c, order, e, Link(0, 0), (key, value));
      links := links[e := Link(0, 0)];
      items := items[e := (key, value)];
    }

    /** A new entry goes to the front. */
    method Insert(key: K, value: V)
      requires Synced() && key !in cache
      modifies this`links, this`items, this`order, this`cache
      ensures Synced() && |order| == |old(order)| + 1
      ensures Contents() == [(key, value)] + old(Contents())
    {
      var e := NewEntry(key, value);
      ghost var was, before := Contents(), order;
      AddToFront(e);
      assert Contents() == [(key, value)] + was;
      ghost var index := cache;
      cache := cache[key := e];
      forall i | 0 <= i < |order|
        ensures items[order[i]].0 in cache && cache[items[order[i]].0] == order[i]
      {
        if i > 0 {
          assert order[i] == before[i - 1];
        }
      }
      forall k | k in cache ensures cache[k] in order && items[cache[k]].0 == k {
        if k != key {
          assert index[k] in before;
        }
      }
    }

    method Put(key: K, value: V)
      requires Valid()
      modifies this`links, this`items, this`order, this`cache
      ensures Valid() && Contents() == Stored(old(Contents()), capacity, key, value)
      ensures PutInto(old(Contents()), Contents(), capacity, key, value)
    {
      CacheTells(key);
      ContentsDistinct();
      PutLaw(Contents(), capacity, key, value);
      if key in cache {
        Overwrite(cache[key], value);
        return;
      }
      if |cache| >= capacity {
        RemoveLast();
      }
      Insert(key, value);
    }

    method Remove(key: K) returns (ok: bool)
      requires Valid()
      modifies this`links, this`order, this`cache
      ensures Valid() && ok == Find(old(Contents()), key).Some?
      ensures Contents() == Without(old(Contents()), key) && RemovedFrom(old(Contents()), Contents(), key)
    {
      CacheTells(key);
      RemoveLaw(Contents(), key);
      if key in cache {
        ContentsDistinct();
        ghost var i :| 0 <= i < |order| && order[i] == cache[key];
        FindAt(Contents(), i);
        Drop(cache[key], i);
        return true;
      }
      return false;
    }

    method Peek(key: K) returns (value: Option<V>)
      requires Valid()
      ensures value == Find(Contents(), key)
    {
      CacheTells(key);
      if key in cache {
        return Some(items[cache[key]].1);
      }
      return None;
    }

    method Clear()
      requires Valid()
      modifies this`links, this`order, this`cache
      ensures Valid() && Contents() == []
    {
      ghost var c := [head] + order + [tail];
      assert c[0] == head && c[|c| - 1] == tail;
      cache := map[];
      links := links[head := links[head].(next := tail)];
      links := links[tail := links[tail].(prev := head)];
      order := [];
    }

    method Resize(newCapacity: int)
      requires Valid()
      modifies this
      ensures Valid() && capacity == if newCapacity <= 0 then 1 else newCapacity
      ensures Contents() == Trimmed(old(Contents()), capacity)
      ensures Contents() <= old(Contents()) && (|Contents()| == capacity || Contents() == old(Contents()))
    {
      capacity := if newCapacity <= 0 then 1 else newCapacity;
      while |cache| > capacity
        invariant Synced() && capacity == if newCapacity <= 0 then 1 else newCapacity
        invariant |order| <= |old(order)| && Contents() == old(Contents())[..|order|]
        invariant |order| < |old(order)| ==> |order| >= capacity
        decreases |order|
      {
        RemoveLast();
      }
    }

    method Keys() returns (keys: seq<K>)
      requires Valid()
      ensures |keys| == |Contents()| && forall i :: 0 <= i < |keys| ==> keys[i] == Contents()[i].0
    {
      keys := [];
      ghost var c := [head] + order + [tail];
      assert links[c[0]].next == c[1];
      var e := links[head].next;
      while e != tail
        invariant |keys| <= |order| && e == c[|keys| + 1]
        invariant forall i :: 0 <= i < |keys| ==> keys[i] == Contents()[i].0
        decreases |order| - |keys|
      {
        assert |keys| < |order| && order[|keys|] == e;
        keys := keys + [items[e].0];
        assert links[c[|keys|]].next == c[|keys| + 1];
        e := links[e].next;
      }
      assert c[|keys| + 1] == c[|c| - 1];
    }

    // ---------- GetOrPut, which calls the loader between two critical sections ----------

    method GetOrPutStart(key: K) returns (hit: Option<V>)
      requires Valid()
      modifies this`links, this`order
      ensures Valid() && hit == Find(old(Contents()), key) && Contents() == Used(old(Contents()), key)
    {
      hit := Get(key);
    }

    /** After the loader has returned `loaded`, whatever the cache holds by then. */
    method GetOrPutFinish(key: K, loaded: V) returns (value: V)
      requires Valid()
      modifies this`links, this`items, this`order, this`cache
      ensures Valid() && Find(Contents(), key) == Some(value)
      ensures value == match Find(old(Contents()), key) case Some(v) => v case None => loaded
      ensures Contents() == match Find(old(Contents()), key)
                            case Some(_) => Used(old(Contents()), key)
                            case None => Stored(old(Contents()), capacity, key, loaded)
    {
      CacheTells(key);
      if key in cache {
        Touch(cache[key]);
        return items[cache[key]].1;
      }
      if |cache| >= capacity {
        RemoveLast();
      }
      Insert(key, loaded);
      return loaded;
    }

    method Run(op: Operation<K, V>)
      requires Valid()
      modifies this
      ensures Valid() && Whole() == Done(old(Whole()), op)
    {
      match op
      case DoGet(k) => var v := Get(k);
      case DoPut(k, v) => Put(k, v);
      case DoRemove(k) => var ok := Remove(k);
      case DoResize(n) => Resize(n);
      case DoClear => Clear();
    }

    /** The whole of `GetOrPut`, with any operations of other goroutines while the loader runs: the
        result is what the cache holds for the key when `GetOrPut` returns. */
    method GetOrPut(key: K, loaded: V, others: seq<Operation<K, V>>) returns (value: V)
      requires Valid()
      modifies this
      ensures Valid() && Find(Contents(), key) == Some(value)
      ensures Contents() != [] && Contents()[0] == (key, value)
    {
      var hit := GetOrPutStart(key);
      if hit.Some? {
        return hit.value;
      }
      for i := 0 to |others|
        invariant Valid()
      {
        Run(others[i]);
      }
      value := GetOrPutFinish(key, loaded);
    }

    /** Any run on a new cache: whatever is found for a key is what the run last put there, and the
        entries are in the order of their last use, no more than the capacity. */
    static method RunAll(capacity: int, ops: seq<Operation<K, V>>) returns (c: LRUCache<K, V>)
      ensures fresh(c) && c.Valid() && c.Whole() == DoneAll(Cache([], Room(capacity)), ops)
      ensures forall key :: Find(c.Contents(), key).Some? ==> Find(c.Contents(), key) == LastPut(ops, key)
      ensures ByLastUse(c.Contents(), ops) && |c.Contents()| <= c.capacity
    {
      c := new LRUCache(capacity);
      for i := 0 to |ops|
        invariant fresh(c) && c.Valid() && c.Whole() == DoneAll(Cache([], Room(capacity)), ops[..i])
      {
        assert ops[..i + 1][..i] == ops[..i];
        c.Run(ops[i]);
      }
      assert ops[..|ops|] == ops;
      OrderedByLastUse<K, V>(Room(capacity), ops);
      forall key ensures Find(c.Contents(), key).Some? ==> Find(c.Contents(), key) == LastPut(ops, key) {
        FindsLastPut(Room(capacity), ops, key);
      }
    }
  }
}
