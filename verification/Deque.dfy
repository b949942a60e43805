/** The double-ended queue of `collections/deque/deque.go`: a ring whose length is a power of two,
    indexed by bit masks, that doubles when full and halves when a quarter full. */
module Deques {
  import opened Options
  import opened RingIndex
  import opened Sequences

  const MIN_CAPACITY := 8

  // ---------- Specification on sequences ----------

  /** The `count` elements that a buffer holds from slot `head` on. */
  function View<T>(buf: seq<T>, head: nat, count: nat): (s: seq<T>)
    requires head < |buf| && count <= |buf|
    ensures |s| == count
  {
    seq(count, i requires 0 <= i < count => buf[Slot(head, i, |buf|)])
  }

  /** `s` with the elements from `i` up to and including `j` in reverse order. */
  function ReverseRange<T>(s: seq<T>, i: nat, j: int): (r: seq<T>)
    requires i <= j + 1 <= |s|
    ensures |r| == |s|
  {
    s[..i] + Reverse(s[i..j + 1]) + s[j + 1..]
  }

  /** `r` is `s` with the pairs from `first` and `last` inwards exchanged, up to `i` and `j`. */
  ghost predicate PartlyReversed<T>(s: seq<T>, r: seq<T>, first: nat, last: int, i: int, j: int) {
    && |r| == |s| && first <= i <= j + 2 && j <= last < |s| && i + j == first + last
    && forall k {:trigger r[k]} :: 0 <= k < |s| ==>
      r[k] == if first <= k < i || j < k <= last then s[first + last - k] else s[k]
  }

  lemma ReverseStep<T>(s: seq<T>, r: seq<T>, first: nat, last: int, i: nat, j: nat)
    requires PartlyReversed(s, r, first, last, i, j) && i < j
    ensures j < |r| && PartlyReversed(s, r[i := r[j]][j := r[i]], first, last, i + 1, j - 1)
  {
    var e := r[i := r[j]][j := r[i]];
    forall k | 0 <= k < |s|
      ensures e[k] == if first <= k < i + 1 || j - 1 < k <= last then s[first + last - k] else s[k]
    {
      if k == i {
        assert first + last - k == j;
      } else if k == j {
        assert first + last - k == i;
      }
    }
  }

  lemma ReverseRangeAt<T>(s: seq<T>, i: nat, j: int, k: nat)
    requires i <= j + 1 <= |s| && k < |s|
    ensures ReverseRange(s, i, j)[k] == if i <= k <= j then s[i + j - k] else s[k]
  {
    if i <= k <= j {
      assert Reverse(s[i..j + 1])[k - i] == s[i..j + 1][j - k];
    }
  }

  lemma ReverseDone<T>(s: seq<T>, r: seq<T>, first: nat, last: int, i: int, j: int)
    requires PartlyReversed(s, r, first, last, i, j) && i >= j && first <= last + 1
    ensures r == ReverseRange(s, first, last)
  {
    forall k | 0 <= k < |s| ensures r[k] == ReverseRange(s, first, last)[k] {
      ReverseRangeAt(s, first, last, k);
      assert i <= k <= j ==> k == first + last - k;
    }
  }

  /** The position that comes `n` after `i`, on a circle of `len`. */
  function Turned(i: nat, n: int, len: nat): (t: int)
    requires len > 0
    ensures 0 <= t < len
  {
    (i + n) % len
  }

  lemma TurnedIndex(i: nat, n: int, len: nat)
    requires i < len
    ensures Turned(i, n, len) == if i + n % len < len then i + n % len else i + n % len - len
  {
    var k, q := n % len, n / len;
    assert n == q * len + k;
    if i + k < len {
      RemainderUnique(i + n, q, i + k, len);
    } else {
      assert (q + 1) * len == q * len + len;
      RemainderUnique(i + n, q + 1, i + k - len, len);
    }
  }

  /** `s` rotated by any integer: what `n` steps of moving the first element to the end do, or
      `-n` steps of moving the last element to the front. */
  function Rotate<T>(s: seq<T>, n: int): (r: seq<T>)
    ensures |r| == |s|
  {
    if s == [] then s else s[n % |s|..] + s[..n % |s|]
  }

  lemma RotateAt<T>(s: seq<T>, n: int, i: nat)
    requires i < |s|
    ensures Rotate(s, n)[i] == s[Turned(i, n, |s|)]
  {
    TurnedIndex(i, n, |s|);
  }

  /** Rotation is undone by rotating back. */
  lemma RotateBack<T>(s: seq<T>, n: int)
    ensures Rotate(Rotate(s, n), -n) == s
  {
    var r := Rotate(s, n);
    forall i | 0 <= i < |s| ensures Rotate(r, -n)[i] == s[i] {
      RotateAt(r, -n, i);
      var m := Turned(i, -n, |s|);
      RotateAt(s, n, m);
      var q := (i - n) / |s|;
      assert i - n == q * |s| + m;
      assert m + n == (-q) * |s| + i;
      RemainderUnique(m + n, -q, i, |s|);
    }
  }

  /** Three reversals make a rotation. */
  lemma ThreeReversals<T>(s: seq<T>, k: nat)
    requires 0 < k < |s|
    ensures ReverseRange(ReverseRange(ReverseRange(s, 0, k - 1), k, |s| - 1), 0, |s| - 1) == s[k..] + s[..k]
  {
    var a, b := s[..k], s[k..];
    var s1 := ReverseRange(s, 0, k - 1);
    assert s1 == Reverse(a) + b;
    var s2 := ReverseRange(s1, k, |s| - 1);
    assert s1[k..] == b;
    assert s2 == Reverse(a) + Reverse(b);
    assert s2[0..|s|] == s2;
    ReverseReversed(a, b);
  }

  lemma ReverseReversed<T>(a: seq<T>, b: seq<T>)
    ensures Reverse(Reverse(a) + Reverse(b)) == b + a
  {
    var s := Reverse(a) + Reverse(b);
    forall i | 0 <= i < |s| ensures Reverse(s)[i] == (b + a)[i] {
      if i < |b| {
        assert s[|s| - 1 - i] == Reverse(b)[|b| - 1 - i];
      } else {
        assert s[|s| - 1 - i] == Reverse(a)[|s| - 1 - i];
      }
    }
  }

  lemma ThreeSteps<T>(s: seq<T>, s1: seq<T>, s2: seq<T>, s3: seq<T>, k: nat)
    requires 0 < k < |s| && s1 == ReverseRange(s, 0, k - 1) && s2 == ReverseRange(s1, k, |s| - 1)
    requires s3 == ReverseRange(s2, 0, |s| - 1)
    ensures s3 == s[k..] + s[..k]
  {
    ThreeReversals(s, k);
  }

  lemma ViewUpdate<T>(buf: seq<T>, head: nat, count: nat, i: nat, x: T)
    requires head < |buf| && i < count <= |buf|
    ensures View(buf[Slot(head, i, |buf|) := x], head, count) == View(buf, head, count)[i := x]
  {
  }

  lemma ViewSwap<T>(buf: seq<T>, head: nat, count: nat, i: nat, j: nat)
    requires head < |buf| && i < j < count <= |buf|
    ensures var a, b, v := Slot(head, i, |buf|), Slot(head, j, |buf|), View(buf, head, count);
            View(buf[a := buf[b]][b := buf[a]], head, count) == v[i := v[j]][j := v[i]]
  {
    var a, b := Slot(head, i, |buf|), Slot(head, j, |buf|);
    ViewUpdate(buf, head, count, i, buf[b]);
    ViewUpdate(buf[a := buf[b]], head, count, j, buf[a]);
  }

  lemma ClearedSwap<T>(buf: seq<T>, head: nat, count: nat, zero: T, i: nat, j: nat)
    requires head < |buf| && i < j < count <= |buf| && Cleared(buf, head, count, zero)
    ensures var a, b := Slot(head, i, |buf|), Slot(head, j, |buf|);
            Cleared(buf[a := buf[b]][b := buf[a]], head, count, zero)
  {
    var a, b := Slot(head, i, |buf|), Slot(head, j, |buf|);
    ClearedSet(buf, head, count, zero, i, buf[b]);
    ClearedSet(buf[a := buf[b]], head, count, zero, j, buf[a]);
  }

  lemma ViewPushFront<T>(buf: seq<T>, head: nat, count: nat, x: T)
    requires head < |buf| && count < |buf|
    ensures var h := Slot(head, |buf| - 1, |buf|);
            && View(buf[h := x], h, count + 1) == [x] + View(buf, head, count)
            && Slot(h, count + 1, |buf|) == Slot(head, count, |buf|)
  {
  }

  lemma ViewPushBack<T>(buf: seq<T>, head: nat, count: nat, x: T)
    requires head < |buf| && count < |buf|
    ensures var t := Slot(head, count, |buf|);
            && View(buf[t := x], head, count + 1) == View(buf, head, count) + [x]
            && Slot(t, 1, |buf|) == Slot(head, count + 1, |buf|)
  {
  }

  lemma ViewPopFront<T>(buf: seq<T>, head: nat, count: nat, x: T)
    requires head < |buf| && 0 < count <= |buf|
    ensures var h := Slot(head, 1, |buf|);
            && View(buf, head, count) == [buf[head]] + View(buf[head := x], h, count - 1)
            && Slot(h, count - 1, |buf|) == Slot(head, count, |buf|)
  {
  }

  lemma ViewPopBack<T>(buf: seq<T>, head: nat, count: nat, x: T)
    requires head < |buf| && 0 < count <= |buf|
    ensures var t := Slot(Slot(head, count, |buf|), |buf| - 1, |buf|);
            && View(buf, head, count) == View(buf[t := x], head, count - 1) + [buf[t]]
            && t == Slot(head, count - 1, |buf|)
  {
  }

  /** The elements copied to the start of another buffer. */
  lemma Straightened<T>(buf: seq<T>, head: nat, count: nat, to: seq<T>, zero: T)
    requires head < |buf| && count <= |buf| && count < |to|
    requires forall k :: 0 <= k < count ==> to[k] == buf[Slot(head, k, |buf|)]
    requires forall k :: count <= k < |to| ==> to[k] == zero
    ensures View(to, 0, count) == View(buf, head, count) && Cleared(to, 0, count, zero)
  {
  }

  // ---------- The cost of resizing ----------

  /** Length of the buffer and number of elements. */
  datatype Size = Size(len: nat, count: nat) {
    ghost predicate Ok() { PowerOfTwo(len) && MIN_CAPACITY <= len && count <= len }
  }

  function Grown(z: Size): Size { if z.count == z.len then z.(len := z.len * 2) else z }

  function Shrunk(z: Size): Size {
    if z.len > MIN_CAPACITY && z.count <= z.len / 4 then z.(len := z.len / 2) else z
  }

  datatype Op<T> = FrontPush(item: T) | BackPush(item: T) | FrontPop | BackPop {
    predicate IsPush() { FrontPush? || BackPush? }
  }

  function Resized(z: Size, push: bool): Size {
    if push then var g := Grown(z); g.(count := g.count + 1)
    else if z.count == 0 then z
    else Shrunk(z.(count := z.count - 1))
  }

  /** The elements a push or pop copies: all that are there when the buffer is replaced. */
  function Cost(z: Size, push: bool): nat {
    if Resized(z, push).len == z.len then 0
    else if push then z.count else Resized(z, push).count
  }

  function SizeAfter<T>(z: Size, ops: seq<Op<T>>): Size {
    if ops == [] then z else Resized(SizeAfter(z, ops[..|ops| - 1]), ops[|ops| - 1].IsPush())
  }

  function TotalCost<T>(z: Size, ops: seq<Op<T>>): nat {
    if ops == [] then 0
    else TotalCost(z, ops[..|ops| - 1]) + Cost(SizeAfter(z, ops[..|ops| - 1]), ops[|ops| - 1].IsPush())
  }

  /** What has been paid for in advance: at a full buffer, or at one a quarter full, it covers
      copying all elements. */
  function Potential(z: Size): int {
    if 2 * z.count >= z.len then 2 * z.count - z.len
    else if z.len > MIN_CAPACITY then z.len / 2 - z.count
    else 0
  }

  lemma Doubles(n: nat)
    requires PowerOfTwo(n)
    ensures PowerOfTwo(n * 2)
  {
    assert (n * 2) / 2 == n;
  }

  /** A power of two above the minimum can be halved. */
  lemma Halves(n: nat)
    requires PowerOfTwo(n) && n > MIN_CAPACITY
    ensures n % 2 == 0 && PowerOfTwo(n / 2) && n / 2 >= MIN_CAPACITY
  {
    var h := n / 2;
    if h < MIN_CAPACITY {
      NoPower(h);
    }
  }

  lemma NoPower(h: nat)
    requires h in {5, 6, 7}
    ensures !PowerOfTwo(h)
  {
    assert !PowerOfTwo(3);
  }

  lemma {:induction false} Quarters(n: nat)
    requires PowerOfTwo(n) && n >= MIN_CAPACITY
    ensures n % 8 == 0
    decreases n
  {
    if n > MIN_CAPACITY {
      Halves(n);
      Quarters(n / 2);
    }
  }

  /** Every push and pop pays two: for what it copies, and into the potential. */
  lemma StepIsPaid(z: Size, push: bool)
    requires z.Ok()
    ensures Resized(z, push).Ok()
    ensures Cost(z, push) + Potential(Resized(z, push)) <= Potential(z) + 2
  {
    Doubles(z.len);
    Quarters(z.len);
    if z.len > MIN_CAPACITY {
      Halves(z.len);
    }
  }

  /** The O(1) promise for any run of pushes and pops, from any size; from a new deque, whose potential
      is 0, at most two elements are copied per operation. */
  lemma {:induction false} AmortizedCost<T>(z: Size, ops: seq<Op<T>>)
    requires z.Ok()
    ensures SizeAfter(z, ops).Ok()
    ensures TotalCost(z, ops) + Potential(SizeAfter(z, ops)) <= Potential(z) + 2 * |ops|
    ensures TotalCost(z, ops) <= Potential(z) + 2 * |ops| && Potential(z) <= z.len
  {
    if ops != [] {
      AmortizedCost(z, ops[..|ops| - 1]);
      StepIsPaid(SizeAfter(z, ops[..|ops| - 1]), ops[|ops| - 1].IsPush());
    }
  }

  /** At least a quarter full, if above the minimum. */
  predicate Tight(z: Size) { z.len == MIN_CAPACITY || z.len < 4 * z.count }

  lemma StaysTight(z: Size, push: bool)
    requires z.Ok() && Tight(z)
    ensures Tight(Resized(z, push))
  {
    Quarters(z.len);
  }

  /** From a new deque on, the buffer is never more than the minimum of 8 and four times the elements. */
  lemma {:induction false} NeverWasteful<T>(ops: seq<Op<T>>)
    ensures var z := SizeAfter(Size(MIN_CAPACITY, 0), ops);
            z.count <= z.len && (z.len == 8 || z.len < 4 * z.count)
  {
    AmortizedCost(Size(MIN_CAPACITY, 0), ops);
    if ops != [] {
      NeverWasteful(ops[..|ops| - 1]);
      AmortizedCost(Size(MIN_CAPACITY, 0), ops[..|ops| - 1]);
      StaysTight(SizeAfter(Size(MIN_CAPACITY, 0), ops[..|ops| - 1]), ops[|ops| - 1].IsPush());
    }
  }

  /** What a run makes of the sequence. */
  function Performed<T>(s: seq<T>, ops: seq<Op<T>>): seq<T> {
    if ops == [] then s
    else
      var before := Performed(s, ops[..|ops| - 1]);
      match ops[|ops| - 1]
      case FrontPush(item) => [item] + before
      case BackPush(item) => before + [item]
      case FrontPop => if before == [] then [] else before[1..]
      case BackPop => if before == [] then [] else before[..|before| - 1]
  }

  /** Go's `%`, which truncates towards zero. */
  function TruncatedRemainder(n: int, d: nat): int
    requires d > 0
  {
    if n >= 0 then n % d else -((-n) % d)
  }

  lemma NormalizedRemainder(n: int, d: nat)
    requires d > 0
    ensures var r := TruncatedRemainder(n, d); n % d == if r < 0 then r + d else r
  {
    if n < 0 {
      var q, r := (-n) / d, (-n) % d;
      assert -n == q * d + r;
      if r == 0 {
        RemainderUnique(n, -q, 0, d);
      } else {
        assert (-q - 1) * d == -(q * d) - d;
        RemainderUnique(n, -q - 1, d - r, d);
      }
    }
  }

  /** Go's `copy(dst[at:], src[lo:hi])`. */
  method Copy<T>(dst: array<T>, at: nat, src: array<T>, lo: nat, hi: nat) returns (n: nat)
    requires at <= dst.Length && lo <= hi <= src.Length && dst != src
    modifies dst
    ensures n == if hi - lo < dst.Length - at then hi - lo else dst.Length - at
    ensures forall k :: at <= k < at + n ==> dst[k] == src[lo + k - at]
    ensures forall k :: 0 <= k < at || at + n <= k < dst.Length ==> dst[k] == old(dst[k])
  {
    n := if hi - lo < dst.Length - at then hi - lo else dst.Length - at;
    forall k | at <= k < at + n {
      dst[k] := src[lo + k - at];
    }
  }

  class Deque<T> {
    const zero: T
    var buf: array<T>
    var head: nat
    var tail: nat
    var count: nat

    ghost var copied: nat   // elements copied by resize so far

    ghost predicate Valid()
      reads this, buf
    {
      && PowerOfTwo(buf.Length) && MIN_CAPACITY <= buf.Length
      && head < buf.Length && count <= buf.Length
      && tail == Slot(head, count, buf.Length)
      && Cleared(buf[..], head, count, zero)
    }

    ghost function Sizes(): Size
      reads this
    {
      Size(buf.Length, count)
    }

    ghost function Items(): (s: seq<T>)
      requires head < buf.Length && count <= buf.Length
      reads this, buf
      ensures |s| == count
    {
      View(buf[..], head, count)
    }

    static lemma MinimumIsPowerOfTwo()
      ensures PowerOfTwo(MIN_CAPACITY)
    {
      assert PowerOfTwo(2);
      assert PowerOfTwo(4);
    }

    constructor New(zero: T)
      ensures Valid() && fresh(buf) && Items() == []
      ensures this.zero == zero && copied == 0 && Sizes() == Size(MIN_CAPACITY, 0)
    {
      MinimumIsPowerOfTwo();
      this.zero := zero;
      buf := new T[MIN_CAPACITY](_ => zero);
      head, tail, count, copied := 0, 0, 0, 0;
    }

    constructor NewWithCapacity(capacity: int, zero: T)
      ensures Valid() && fresh(buf) && Items() == []
      ensures capacity <= buf.Length && (buf.Length > MIN_CAPACITY ==> buf.Length < 2 * capacity)
      ensures this.zero == zero && copied == 0
    {
      this.zero := zero;
      var cap := CapacityFor(capacity);
      buf := new T[cap](_ => zero);
      head, tail, count, copied := 0, 0, 0, 0;
    }

    static method CapacityFor(capacity: int) returns (cap: nat)
      ensures PowerOfTwo(cap) && cap >= MIN_CAPACITY && cap >= capacity
      ensures cap > MIN_CAPACITY ==> cap < 2 * capacity
    {
      cap := MIN_CAPACITY;
      MinimumIsPowerOfTwo();
      while cap < capacity
        invariant PowerOfTwo(cap) && cap >= MIN_CAPACITY
        invariant cap > MIN_CAPACITY ==> cap < 2 * capacity
      {
        Doubles(cap);
        cap := cap * 2;
      }
    }

    /** `Clone`: the same elements in a buffer of its own, so neither sees what becomes of the other. */
    constructor CloneOf(d: Deque<T>)
      requires d.Valid()
      ensures Valid() && fresh(buf) && Items() == d.Items()
      ensures zero == d.zero && copied == 0 && Sizes() == d.Sizes()
    {
      zero := d.zero;
      var newBuf := new T[d.buf.Length](_ => d.zero);
      var n := Copy(newBuf, 0, d.buf, 0, d.buf.Length);
      buf, head, tail, count, copied := newBuf, d.head, d.tail, d.count, 0;
      new;
      assert buf[..] == d.buf[..];
    }

    /** `copied` counts what the calls of `copy` report. */
    method Resize(newSize: nat)
      requires Valid() && PowerOfTwo(newSize) && newSize >= MIN_CAPACITY && count < newSize
      modifies this
      ensures Valid() && fresh(buf) && buf.Length == newSize
      ensures Items() == old(Items()) && count == old(count)
      ensures copied == old(copied) + count
    {
      var newBuf := new T[newSize](_ => zero);
      if head < tail {
        var n := Copy(newBuf, 0, buf, head, tail);
        copied := copied + n;
      } else if count > 0 {
        var n := Copy(newBuf, 0, buf, head, buf.Length);
        var m := Copy(newBuf, n, buf, 0, tail);
        copied := copied + n + m;
      }
      Straightened(buf[..], head, count, newBuf[..], zero);
      buf := newBuf;
      head := 0;
      tail := count;
    }

    method GrowIfNeeded()
      requires Valid()
      modifies this
      ensures Valid() && (buf == old(buf) || fresh(buf)) && count < buf.Length
      ensures Items() == old(Items()) && Sizes() == Grown(old(Sizes()))
      ensures copied == old(copied) + if buf == old(buf) then 0 else count
      ensures buf == old(buf) <==> buf.Length == old(buf.Length)
    {
      if count == buf.Length {
        Doubles(buf.Length);
        Resize(buf.Length * 2);
      }
    }

    method ShrinkIfNeeded()
      requires Valid()
      modifies this
      ensures Valid() && (buf == old(buf) || fresh(buf))
      ensures Items() == old(Items()) && Sizes() == Shrunk(old(Sizes()))
      ensures copied == old(copied) + if buf == old(buf) then 0 else count
      ensures buf == old(buf) <==> buf.Length == old(buf.Length)
    {
      if buf.Length > MIN_CAPACITY && count <= buf.Length / 4 {
        Halves(buf.Length);
        Resize(buf.Length / 2);
      }
    }

    function Next(i: nat): nat
      requires buf.Length > 0
      reads this
    {
      BitAnd(i + 1, buf.Length - 1)
    }

    function Prev(i: nat): nat
      requires buf.Length > 0
      reads this
    {
      BitAnd(i - 1, buf.Length - 1)
    }

    method PushFront(item: T)
      requires Valid()
      modifies this, buf
      ensures Valid() && (buf == old(buf) || fresh(buf))
      ensures Items() == [item] + old(Items())
      ensures Sizes() == Resized(old(Sizes()), true) && copied == old(copied) + Cost(old(Sizes()), true)
    {
      GrowIfNeeded();
      MaskBefore(head, buf.Length);
      ViewPushFront(buf[..], head, count, item);
      ClearedPushFront(buf[..], head, count, zero, item);
      var front := Prev(head);
      assert front == Slot(head, buf.Length - 1, buf.Length);
      head := front;
      ghost var was := buf[..];
      buf[head] := item;
      assert buf[..] == was[head := item];
      count := count + 1;
    }

    method PushBack(item: T)
      requires Valid()
      modifies this, buf
      ensures Valid() && (buf == old(buf) || fresh(buf))
      ensures Items() == old(Items()) + [item]
      ensures Sizes() == Resized(old(Sizes()), true) && copied == old(copied) + Cost(old(Sizes()), true)
    {
      GrowIfNeeded();
      MaskIsSlot(tail, 1, buf.Length);
      ViewPushBack(buf[..], head, count, item);
      ClearedPushBack(buf[..], head, count, zero, item);
      ghost var was := buf[..];
      buf[tail] := item;
      assert buf[..] == was[tail := item];
      tail := Next(tail);
      count := count + 1;
    }

    method PopFront() returns (item: Option<T>)
      requires Valid()
      modifies this, buf
      ensures Valid() && (buf == old(buf) || fresh(buf))
      ensures Sizes() == Resized(old(Sizes()), false) && copied == old(copied) + Cost(old(Sizes()), false)
      ensures old(Items()) == [] ==> item == None && Items() == []
      ensures old(Items()) != [] ==>
                item == Some(old(Items())[0]) && Items() == old(Items())[1..]
    {
      if count == 0 {
        return None;
      }
      item := Some(buf[head]);
      MaskIsSlot(head, 1, buf.Length);
      ViewPopFront(buf[..], head, count, zero);
      ClearedPopFront(buf[..], head, count, zero);
      ghost var was := buf[..];
      buf[head] := zero;
      assert buf[..] == was[head := zero];
      head := Next(head);
      count := count - 1;
      ShrinkIfNeeded();
    }

    method PopBack() returns (item: Option<T>)
      requires Valid()
      modifies this, buf
      ensures Valid() && (buf == old(buf) || fresh(buf))
      ensures Sizes() == Resized(old(Sizes()), false) && copied == old(copied) + Cost(old(Sizes()), false)
      ensures old(Items()) == [] ==> item == None && Items() == []
      ensures old(Items()) != [] ==>
                && item == Some(old(Items())[|old(Items())| - 1])
                && Items() == old(Items())[..|old(Items())| - 1]
    {
      if count == 0 {
        return None;
      }
      MaskBefore(tail, buf.Length);
      ViewPopBack(buf[..], head, count, zero);
      ClearedPopBack(buf[..], head, count, zero);
      tail := Prev(tail);
      item := Some(buf[tail]);
      ghost var was := buf[..];
      buf[tail] := zero;
      assert buf[..] == was[tail := zero];
      count := count - 1;
      ShrinkIfNeeded();
    }

    method At(index: int) returns (item: Option<T>)
      requires Valid()
      ensures item == if 0 <= index < |Items()| then Some(Items()[index]) else None
    {
      if index < 0 || index >= count {
        return None;
      }
      MaskIsSlot(head, index, buf.Length);
      return Some(buf[BitAnd(head + index, buf.Length - 1)]);
    }

    method Set(index: int, item: T) returns (ok: bool)
      requires Valid()
      modifies buf
      ensures Valid() && ok == (0 <= index < |old(Items())|)
      ensures Items() == if ok then old(Items())[index := item] else old(Items())
    {
      if index < 0 || index >= count {
        return false;
      }
      MaskIsSlot(head, index, buf.Length);
      ViewUpdate(buf[..], head, count, index, item);
      ClearedSet(buf[..], head, count, zero, index, item);
      ghost var was := buf[..];
      buf[BitAnd(head + index, buf.Length - 1)] := item;
      assert buf[..] == was[Slot(head, index, buf.Length) := item];
      return true;
    }

    method ToSlice() returns (result: seq<T>)
      requires Valid()
      ensures result == Items()
    {
      result := [];
      for i := 0 to count
        invariant result == Items()[..i]
      {
        MaskIsSlot(head, i, buf.Length);
        result := result + [buf[BitAnd(head + i, buf.Length - 1)]];
      }
    }

    /** Exchanges two elements. */
    method Swap(i: nat, j: nat)
      requires Valid() && i < j < count
      modifies buf
      ensures Valid() && Items() == old(Items())[i := old(Items())[j]][j := old(Items())[i]]
    {
      MaskIsSlot(head, i, buf.Length);
      MaskIsSlot(head, j, buf.Length);
      ViewSwap(buf[..], head, count, i, j);
      ClearedSwap(buf[..], head, count, zero, i, j);
      var mask := buf.Length - 1;
      var idxI, idxJ := BitAnd(head + i, mask), BitAnd(head + j, mask);
      ghost var was := buf[..];
      buf[idxI], buf[idxJ] := buf[idxJ], buf[idxI];
      assert buf[..] == was[idxI := was[idxJ]][idxJ := was[idxI]];
    }

    method ReverseInRange(first: nat, last: int)
      requires Valid() && first <= last + 1 <= count
      modifies buf
      ensures Valid() && Items() == ReverseRange(old(Items()), first, last)
    {
      var i, j := first, last;
      while i < j
        invariant Valid() && i <= count && j < count
        invariant PartlyReversed(old(Items()), Items(), first, last, i, j)
      {
        ReverseStep(old(Items()), Items(), first, last, i, j);
        Swap(i, j);
        i := i + 1;
        j := j - 1;
      }
      ReverseDone(old(Items()), Items(), first, last, i, j);
    }

    method ReverseAll()
      requires Valid()
      modifies buf
      ensures Valid() && Items() == Reverse(old(Items()))
    {
      ghost var was := Items();
      ReverseInRange(0, count - 1);
      assert was[0..|was|] == was;
    }

    /** `Rotate`, for any integer: element `(i + n) mod count` comes to position `i`. */
    method RotateBy(n: int)
      requires Valid()
      modifies buf
      ensures Valid() && Items() == Rotate(old(Items()), n)
    {
      if count <= 1 {
        return;
      }
      var k := TruncatedRemainder(n, count);
      NormalizedRemainder(n, count);
      if k == 0 {
        return;
      }
      if k < 0 {
        k := k + count;
      }
      ReverseThrice(k);
    }

    method ReverseThrice(k: nat)
      requires Valid() && 0 < k < count
      modifies buf
      ensures Valid() && Items() == old(Items())[k..] + old(Items())[..k]
    {
      ghost var s := Items();
      ReverseInRange(0, k - 1);
      ghost var s1 := Items();
      assert s1 == ReverseRange(s, 0, k - 1);
      ReverseInRange(k, count - 1);
      ghost var s2 := Items();
      assert s2 == ReverseRange(s1, k, |s| - 1);
      ReverseInRange(0, count - 1);
      ghost var s3 := Items();
      assert s3 == ReverseRange(s2, 0, |s| - 1);
      ThreeSteps(s, s1, s2, s3, k);
    }

    method Clear()
      requires Valid()
      modifies this, buf
      ensures Valid() && Items() == [] && buf == old(buf)
      ensures copied == old(copied)
    {
      for i := 0 to buf.Length
        modifies buf
        invariant forall k :: 0 <= k < i ==> buf[k] == zero
      {
        buf[i] := zero;
      }
      head, tail, count := 0, 0, 0;
    }

    /** Any run of pushes and pops: what it makes of the sequence, and exactly how much it copies. */
    method Perform(ops: seq<Op<T>>)
      requires Valid()
      modifies this, buf
      ensures Valid() && (buf == old(buf) || fresh(buf))
      ensures Items() == Performed(old(Items()), ops)
      ensures copied == old(copied) + TotalCost(old(Sizes()), ops)
      ensures copied <= old(copied) + Potential(old(Sizes())) + 2 * |ops|
      ensures Sizes() == SizeAfter(old(Sizes()), ops)
    {
      ghost var items, z := Items(), Sizes();
      for i := 0 to |ops|
        invariant Valid() && (buf == old(buf) || fresh(buf))
        invariant Items() == Performed(items, ops[..i])
        invariant Sizes() == SizeAfter(z, ops[..i]) && copied == old(copied) + TotalCost(z, ops[..i])
      {
        assert ops[..i + 1][..i] == ops[..i];
        PerformOne(ops[i]);
      }
      assert ops[..|ops|] == ops;
      AmortizedCost(z, ops);
    }

    method PerformOne(op: Op<T>)
      requires Valid()
      modifies this, buf
      ensures Valid() && (buf == old(buf) || fresh(buf))
      ensures Items() == match op
                         case FrontPush(item) => [item] + old(Items())
                         case BackPush(item) => old(Items()) + [item]
                         case FrontPop => if old(Items()) == [] then [] else old(Items())[1..]
                         case BackPop => if old(Items()) == [] then [] else old(Items())[..|old(Items())| - 1]
      ensures Sizes() == Resized(old(Sizes()), op.IsPush())
      ensures copied == old(copied) + Cost(old(Sizes()), op.IsPush())
    {
      match op {
        case FrontPush(item) => PushFront(item);
        case BackPush(item) => PushBack(item);
        case FrontPop => var _ := PopFront();
        case BackPop => var _ := PopBack();
      }
    }

    /** From a new deque, m pushes and pops copy at most 2m elements in all, and the buffer never has
        more than 8 slots, or four for each element. */
    static method Run(zero: T, ops: seq<Op<T>>) returns (d: Deque<T>)
      ensures fresh(d) && d.Valid() && d.Items() == Performed([], ops)
      ensures d.copied <= 2 * |ops| && (d.buf.Length == 8 || d.buf.Length < 4 * |d.Items()|)
    {
      MinimumIsPowerOfTwo();
      NeverWasteful(ops);
      d := new Deque.New(zero);
      d.Perform(ops);
    }
  }
}
