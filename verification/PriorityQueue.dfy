/** The binary heap of `collections/priorityqueue/priority_queue.go`, for any strict weak order,
    ties included. */
module PriorityQueues {
  import opened Options

  /** What a `LessFunc` must satisfy. Elements neither of which precedes the other are tied. */
  ghost predicate StrictWeakOrder<T(!new)>(less: (T, T) -> bool) {
    && (forall a, b :: less(a, b) ==> !less(b, a))
    && (forall a, b, c :: !less(a, b) && !less(b, c) ==> !less(a, c))
  }

  function Parent(i: nat): nat
    requires i > 0
  {
    (i - 1) / 2
  }

  ghost predicate Ordered<T>(less: (T, T) -> bool, d: seq<T>, i: nat)
    requires 0 < i < |d|
  {
    !less(d[i], d[Parent(i)])
  }

  ghost predicate Heap<T>(less: (T, T) -> bool, d: seq<T>) {
    forall i :: 0 < i < |d| ==> Ordered(less, d, i)
  }

  function Swapped<T>(d: seq<T>, i: nat, j: nat): seq<T>
    requires i < |d| && j < |d|
  {
    d[i := d[j]][j := d[i]]
  }

  /** The array after the element at `i` has moved up as far as it goes. */
  function SiftedUp<T>(less: (T, T) -> bool, d: seq<T>, i: nat): seq<T>
    requires i < |d|
    decreases i
  {
    if i == 0 || !less(d[i], d[Parent(i)]) then d
    else SiftedUp(less, Swapped(d, i, Parent(i)), Parent(i))
  }

  /** The child of `i` that comes first; the left one when they tie. */
  function FirstChild<T>(less: (T, T) -> bool, d: seq<T>, i: nat): (c: nat)
    requires 2 * i + 1 < |d|
  {
    var left, right := 2 * i + 1, 2 * i + 2;
    if right < |d| && less(d[right], d[left]) then right else left
  }

  /** The array after the element at `i` has moved down as far as it goes; it changes places
      with a child it is tied with. */
  function SiftedDown<T>(less: (T, T) -> bool, d: seq<T>, i: nat): seq<T>
    requires i < |d|
    decreases |d| - i
  {
    if 2 * i + 1 >= |d| then d
    else
      var c := FirstChild(less, d, i);
      if less(d[i], d[c]) then d else SiftedDown(less, Swapped(d, i, c), c)
  }

  function Pushed<T>(less: (T, T) -> bool, d: seq<T>, item: T): seq<T> {
    SiftedUp(less, d + [item], |d|)
  }

  function PushedAll<T>(less: (T, T) -> bool, d: seq<T>, items: seq<T>): seq<T>
    decreases |items|
  {
    if items == [] then d else PushedAll(less, Pushed(less, d, items[0]), items[1..])
  }

  function Popped<T>(less: (T, T) -> bool, d: seq<T>): seq<T>
    requires d != []
  {
    var last := |d| - 1;
    if last == 0 then [] else SiftedDown(less, d[0 := d[last]][..last], 0)
  }

  // ---------- The same elements ----------

  lemma SwapKeepsElements<T>(d: seq<T>, i: nat, j: nat)
    requires i < |d| && j < |d|
    ensures multiset(Swapped(d, i, j)) == multiset(d)
  {
  }

  lemma {:induction false} SiftUpKeepsElements<T>(less: (T, T) -> bool, d: seq<T>, i: nat)
    requires i < |d|
    ensures multiset(SiftedUp(less, d, i)) == multiset(d) && |SiftedUp(less, d, i)| == |d|
    decreases i
  {
    if i > 0 && less(d[i], d[Parent(i)]) {
      SwapKeepsElements(d, i, Parent(i));
      SiftUpKeepsElements(less, Swapped(d, i, Parent(i)), Parent(i));
    }
  }

  lemma {:induction false} SiftDownKeepsElements<T>(less: (T, T) -> bool, d: seq<T>, i: nat)
    requires i < |d|
    ensures multiset(SiftedDown(less, d, i)) == multiset(d) && |SiftedDown(less, d, i)| == |d|
    decreases |d| - i
  {
    if 2 * i + 1 < |d| {
      var c := FirstChild(less, d, i);
      if !less(d[i], d[c]) {
        SwapKeepsElements(d, i, c);
        SiftDownKeepsElements(less, Swapped(d, i, c), c);
      }
    }
  }

  // ---------- The heap order ----------

  /** Only `i` may precede its parent, and what is below `i` fits below its parent. */
  ghost predicate HeapButUp<T>(less: (T, T) -> bool, d: seq<T>, i: nat) {
    && (forall j :: 0 < j < |d| && j != i ==> Ordered(less, d, j))
    && (forall j :: 0 < j < |d| && Parent(j) == i && i > 0 && i < |d| ==> !less(d[j], d[Parent(i)]))
  }

  lemma {:induction false} SiftUpOrders<T(!new)>(less: (T, T) -> bool, d: seq<T>, i: nat)
    requires StrictWeakOrder(less) && i < |d| && HeapButUp(less, d, i)
    ensures Heap(less, SiftedUp(less, d, i))
    decreases i
  {
    if i > 0 && less(d[i], d[Parent(i)]) {
      var p, e := Parent(i), Swapped(d, i, Parent(i));
      assert p > 0 ==> Ordered(less, d, p);
      forall j | 0 < j < |e| && j != p
        ensures Ordered(less, e, j)
      {
        if j != i {
          assert Ordered(less, d, j);
        }
      }
      forall j | 0 < j < |e| && Parent(j) == p && p > 0
        ensures !less(e[j], e[Parent(p)])
      {
        if j != i {
          assert Ordered(less, d, j);
        }
      }
      SiftUpOrders(less, e, p);
    }
  }

  /** Only the children of `i` may precede it, and they fit below its parent. */
  ghost predicate HeapButDown<T>(less: (T, T) -> bool, d: seq<T>, i: nat) {
    && (forall j :: 0 < j < |d| && Parent(j) != i ==> Ordered(less, d, j))
    && (forall j :: 0 < j < |d| && Parent(j) == i && i > 0 && i < |d| ==> !less(d[j], d[Parent(i)]))
  }

  lemma FirstChildIsLeast<T(!new)>(less: (T, T) -> bool, d: seq<T>, i: nat)
    requires StrictWeakOrder(less) && 2 * i + 1 < |d|
    ensures var c := FirstChild(less, d, i);
            c < |d| && Parent(c) == i && forall j :: 0 < j < |d| && Parent(j) == i ==> !less(d[j], d[c])
  {
    assert forall j :: 0 < j < |d| && Parent(j) == i ==> j == 2 * i + 1 || j == 2 * i + 2;
  }

  lemma {:induction false} SiftDownOrders<T(!new)>(less: (T, T) -> bool, d: seq<T>, i: nat)
    requires StrictWeakOrder(less) && i < |d| && HeapButDown(less, d, i)
    ensures Heap(less, SiftedDown(less, d, i))
    decreases |d| - i
  {
    if 2 * i + 1 < |d| {
      var c := FirstChild(less, d, i);
      FirstChildIsLeast(less, d, i);
      if !less(d[i], d[c]) {
        var e := Swapped(d, i, c);
        forall j | 0 < j < |e| && Parent(j) != c
          ensures Ordered(less, e, j)
        {
          if j != i && Parent(j) != i {
            assert Ordered(less, d, j);
          }
        }
        forall j | 0 < j < |e| && Parent(j) == c
          ensures !less(e[j], e[Parent(c)])
        {
          assert Ordered(less, d, j);
        }
        SiftDownOrders(less, e, c);
      }
    }
  }

  /** Nothing in a heap precedes its first element. */
  lemma {:induction false} HeapTop<T(!new)>(less: (T, T) -> bool, d: seq<T>, i: nat)
    requires StrictWeakOrder(less) && Heap(less, d) && i < |d|
    ensures !less(d[i], d[0])
    decreases i
  {
    if i > 0 {
      HeapTop(less, d, Parent(i));
      assert Ordered(less, d, i);
    }
  }

  lemma PushOrders<T(!new)>(less: (T, T) -> bool, d: seq<T>, item: T)
    requires StrictWeakOrder(less) && Heap(less, d)
    ensures Heap(less, Pushed(less, d, item))
    ensures multiset(Pushed(less, d, item)) == multiset(d) + multiset{item}
  {
    var e := d + [item];
    forall j | 0 < j < |e| && j != |d|
      ensures Ordered(less, e, j)
    {
      assert Ordered(less, d, j);
    }
    SiftUpOrders(less, e, |d|);
    SiftUpKeepsElements(less, e, |d|);
  }

  lemma PopOrders<T(!new)>(less: (T, T) -> bool, d: seq<T>)
    requires StrictWeakOrder(less) && Heap(less, d) && d != []
    ensures Heap(less, Popped(less, d))
    ensures multiset(d) == multiset(Popped(less, d)) + multiset{d[0]}
    ensures |Popped(less, d)| == |d| - 1
    ensures forall x :: x in d ==> !less(x, d[0])
  {
    forall x | x in d ensures !less(x, d[0]) {
      var i :| 0 <= i < |d| && d[i] == x;
      HeapTop(less, d, i);
    }
    var last := |d| - 1;
    var e := d[0 := d[last]][..last];
    assert d == [d[0]] + d[1..];
    if last > 0 {
      assert d == [d[0]] + d[1..last] + [d[last]];
      assert e == [d[last]] + d[1..last];
      forall j | 0 < j < |e| && Parent(j) != 0
        ensures Ordered(less, e, j)
      {
        assert Ordered(less, d, j);
      }
      SiftDownOrders(less, e, 0);
      SiftDownKeepsElements(less, e, 0);
    }
  }

  lemma {:induction false} PushAllOrders<T(!new)>(less: (T, T) -> bool, d: seq<T>, items: seq<T>)
    requires StrictWeakOrder(less) && Heap(less, d)
    ensures Heap(less, PushedAll(less, d, items))
    ensures multiset(PushedAll(less, d, items)) == multiset(d) + multiset(items)
    decreases |items|
  {
    if items != [] {
      PushOrders(less, d, items[0]);
      PushAllOrders(less, Pushed(less, d, items[0]), items[1..]);
      assert items == [items[0]] + items[1..];
    }
  }

  // ---------- Draining ----------

  function Drained<T>(less: (T, T) -> bool, d: seq<T>): seq<T>
    decreases |d|
  {
    if d == [] then []
    else
      PoppedLength(less, d);
      [d[0]] + Drained(less, Popped(less, d))
  }

  lemma PoppedLength<T>(less: (T, T) -> bool, d: seq<T>)
    requires d != []
    ensures |Popped(less, d)| == |d| - 1
  {
    if |d| > 1 {
      SiftDownKeepsElements(less, d[0 := d[|d| - 1]][..|d| - 1], 0);
    }
  }

  ghost predicate SortedBy<T>(less: (T, T) -> bool, s: seq<T>) {
    forall i, j :: 0 <= i < j < |s| ==> !less(s[j], s[i])
  }

  /** Heap sort: draining a heap lists all its elements, none before one that precedes it. */
  lemma {:induction false} DrainSorts<T(!new)>(less: (T, T) -> bool, d: seq<T>)
    requires StrictWeakOrder(less) && Heap(less, d)
    ensures multiset(Drained(less, d)) == multiset(d)
    ensures SortedBy(less, Drained(less, d))
    decreases |d|
  {
    if d != [] {
      PopOrders(less, d);
      var rest := Drained(less, Popped(less, d));
      DrainSorts(less, Popped(less, d));
      forall j | 0 <= j < |rest|
        ensures !less(rest[j], d[0])
      {
        assert rest[j] in multiset(rest);
        assert rest[j] in multiset(d);
      }
    }
  }

  class PriorityQueue<T(!new)> {
    var data: seq<T>
    const less: (T, T) -> bool

    ghost predicate Valid()
      reads this
    {
      StrictWeakOrder(less) && Heap(less, data)
    }

    constructor (less: (T, T) -> bool)
      requires StrictWeakOrder(less)
      ensures Valid() && data == [] && this.less == less
    {
      this.less := less;
      data := [];
    }

    constructor CloneOf(pq: PriorityQueue<T>)
      requires pq.Valid()
      ensures Valid() && data == pq.data && less == pq.less
    {
      less := pq.less;
      data := pq.data;
    }

    method SiftUp(start: nat)
      requires start < |data|
      modifies this
      ensures data == SiftedUp(less, old(data), start)
    {
      var i: nat := start;
      while i > 0
        invariant i < |data| == |old(data)|
        invariant SiftedUp(less, data, i) == SiftedUp(less, old(data), start)
      {
        var parent := (i - 1) / 2;
        if !less(data[i], data[parent]) {
          break;
        }
        data := data[i := data[parent]][parent := data[i]];
        i := parent;
      }
    }

    method SiftDown(start: nat)
      requires start < |data|
      modifies this
      ensures data == SiftedDown(less, old(data), start)
    {
      var i, n := start, |data|;
      while true
        invariant i < |data| == n
        invariant SiftedDown(less, data, i) == SiftedDown(less, old(data), start)
        decreases n - i
      {
        var left := 2 * i + 1;
        if left >= n {
          break;
        }
        var smallest, right := left, left + 1;
        if right < n && less(data[right], data[left]) {
          smallest := right;
        }
        if less(data[i], data[smallest]) {
          break;
        }
        data := data[i := data[smallest]][smallest := data[i]];
        i := smallest;
      }
    }

    method Push(items: seq<T>)
      requires Valid()
      modifies this
      ensures Valid() && data == PushedAll(less, old(data), items)
      ensures multiset(data) == multiset(old(data)) + multiset(items)
    {
      PushAllOrders(less, data, items);
      for k := 0 to |items|
        invariant PushedAll(less, data, items[k..]) == PushedAll(less, old(data), items)
      {
        data := data + [items[k]];
        SiftUp(|data| - 1);
        assert items[k..][1..] == items[k + 1..];
      }
    }

    method Pop() returns (top: Option<T>)
      requires Valid()
      modifies this
      ensures Valid()
      ensures old(data) == [] ==> top == None && data == []
      ensures old(data) != [] ==>
                && top == Some(old(data)[0]) && data == Popped(less, old(data))
                && multiset(old(data)) == multiset(data) + multiset{top.value}
                && forall x :: x in old(data) ==> !less(x, top.value)
    {
      if |data| == 0 {
        return None;
      }
      PopOrders(less, data);
      top := Some(data[0]);
      var last := |data| - 1;
      data := data[0 := data[last]];
      data := data[..last];
      if |data| > 0 {
        SiftDown(0);
      }
    }

    method Peek() returns (top: Option<T>)
      requires Valid()
      ensures top == if data == [] then None else Some(data[0])
      ensures forall x :: x in data ==> !less(x, top.value)
    {
      if |data| == 0 {
        return None;
      }
      PopOrders(less, data);
      return Some(data[0]);
    }

    method DrainToSlice() returns (result: seq<T>)
      requires Valid()
      modifies this
      ensures Valid() && data == []
      ensures multiset(result) == multiset(old(data)) && SortedBy(less, result)
    {
      result := [];
      while |data| > 0
        invariant Valid()
        invariant result + Drained(less, data) == Drained(less, old(data))
      {
        ghost var d := data;
        PoppedLength(less, data);
        var item := Pop();
        result := result + [item.value];
        assert Drained(less, d) == [item.value] + Drained(less, data);
      }
      assert result == Drained(less, old(data));
      DrainSorts(less, old(data));
    }
  }
}
