/** Index arithmetic on a ring of `n` slots, for the two ring buffers: remainders in
    `collections/blockingqueue`, bit masks in `collections/deque`. */
module RingIndex {

  /** The slot `i` places after `head`. */
  function Slot(head: nat, i: nat, n: nat): (s: nat)
    requires head < n && i <= n
    ensures s < n
  {
    if head + i < n then head + i else head + i - n
  }

  lemma RemainderUnique(x: int, q: int, r: int, n: nat)
    requires n > 0 && x == q * n + r && 0 <= r < n
    ensures x % n == r
  {
    var d := q - x / n;
    assert d * n == x % n - r;
    assert d >= 1 ==> d * n >= n;
    assert d <= -1 ==> d * n <= 0 - n;
  }

  lemma SlotIsRemainder(head: nat, i: nat, n: nat)
    requires head < n && i <= n
    ensures Slot(head, i, n) == (head + i) % n
  {
    if head + i < n {
      RemainderUnique(head + i, 0, head + i, n);
    } else {
      RemainderUnique(head + i, 1, head + i - n, n);
    }
  }

  // ---------- Free slots ----------

  /** The slots that hold no element hold `zero`, so that nothing taken out is kept alive. */
  ghost predicate Cleared<T>(buf: seq<T>, head: nat, count: nat, zero: T)
    requires head < |buf|
  {
    forall k {:trigger Slot(head, k, |buf|)} :: count <= k < |buf| ==> buf[Slot(head, k, |buf|)] == zero
  }

  lemma ClearedSet<T>(buf: seq<T>, head: nat, count: nat, zero: T, i: nat, x: T)
    requires head < |buf| && i < count <= |buf| && Cleared(buf, head, count, zero)
    ensures Cleared(buf[Slot(head, i, |buf|) := x], head, count, zero)
  {
  }

  lemma ClearedPushBack<T>(buf: seq<T>, head: nat, count: nat, zero: T, x: T)
    requires head < |buf| && count < |buf| && Cleared(buf, head, count, zero)
    ensures Cleared(buf[Slot(head, count, |buf|) := x], head, count + 1, zero)
  {
  }

  lemma ClearedPopBack<T>(buf: seq<T>, head: nat, count: nat, zero: T)
    requires head < |buf| && 0 < count <= |buf| && Cleared(buf, head, count, zero)
    ensures Cleared(buf[Slot(head, count - 1, |buf|) := zero], head, count - 1, zero)
  {
  }

  lemma ClearedPushFront<T>(buf: seq<T>, head: nat, count: nat, zero: T, x: T)
    requires head < |buf| && count < |buf| && Cleared(buf, head, count, zero)
    ensures var h := Slot(head, |buf| - 1, |buf|); Cleared(buf[h := x], h, count + 1, zero)
  {
    var n, h := |buf|, Slot(head, |buf| - 1, |buf|);
    forall k {:trigger Slot(h, k, n)} | count + 1 <= k < n ensures buf[h := x][Slot(h, k, n)] == zero {
      assert Slot(h, k, n) == Slot(head, k - 1, n) != h;
    }
  }

  lemma ClearedPopFront<T>(buf: seq<T>, head: nat, count: nat, zero: T)
    requires head < |buf| && 0 < count <= |buf| && Cleared(buf, head, count, zero)
    ensures Cleared(buf[head := zero], Slot(head, 1, |buf|), count - 1, zero)
  {
    var n, h := |buf|, Slot(head, 1, |buf|);
    forall k {:trigger Slot(h, k, n)} | count - 1 <= k < n ensures buf[head := zero][Slot(h, k, n)] == zero {
      assert Slot(h, k, n) == if k == n - 1 then head else Slot(head, k + 1, n);
    }
  }

  // ---------- Bit masks ----------

  /** Bitwise and of a two's-complement integer with a non-negative mask. */
  function BitAnd(x: int, mask: nat): nat
    decreases mask
  {
    if mask == 0 then 0 else 2 * BitAnd(x / 2, mask / 2) + (x % 2) * (mask % 2)
  }

  ghost predicate PowerOfTwo(n: nat) {
    n == 1 || (n > 1 && n % 2 == 0 && PowerOfTwo(n / 2))
  }

  lemma HalvedRemainder(x: int, h: nat)
    requires h > 0
    ensures x % (2 * h) == 2 * ((x / 2) % h) + x % 2
  {
    var q, r := (x / 2) / h, (x / 2) % h;
    assert x / 2 == q * h + r;
    assert q * (2 * h) == 2 * (q * h);
    RemainderUnique(x, q, 2 * r + x % 2, 2 * h);
  }

  /** Masking with a power of two less one is the remainder, for negative numbers too. */
  lemma {:induction false} MaskIsRemainder(x: int, n: nat)
    requires PowerOfTwo(n)
    ensures BitAnd(x, n - 1) == x % n
    decreases n
  {
    if n > 1 {
      var h := n / 2;
      MaskIsRemainder(x / 2, h);
      HalvedRemainder(x, h);
      assert (n - 1) / 2 == h - 1 && (n - 1) % 2 == 1;
    }
  }

  lemma MaskIsSlot(head: nat, i: nat, n: nat)
    requires PowerOfTwo(n) && head < n && i <= n
    ensures BitAnd(head + i, n - 1) == Slot(head, i, n)
  {
    MaskIsRemainder(head + i, n);
    SlotIsRemainder(head, i, n);
  }

  lemma MaskBefore(head: nat, n: nat)
    requires PowerOfTwo(n) && head < n
    ensures BitAnd(head - 1, n - 1) == Slot(head, n - 1, n)
  {
    MaskIsRemainder(head - 1, n);
    if head == 0 {
      RemainderUnique(-1, -1, n - 1, n);
    } else {
      RemainderUnique(head - 1, 0, head - 1, n);
    }
  }
}
