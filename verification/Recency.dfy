/** What an LRU cache stands for: its entries in order of use, the latest first, no key twice. */
module Recency {
  import opened FiniteSets
  import opened Options

  ghost predicate NoKeyTwice<K, V>(s: seq<(K, V)>) {
    forall i, j :: 0 <= i < j < |s| ==> s[i].0 != s[j].0
  }

  predicate Has<K(==), V>(s: seq<(K, V)>, key: K) {
    exists i :: 0 <= i < |s| && s[i].0 == key
  }

  function Without<K(==), V>(s: seq<(K, V)>, key: K): seq<(K, V)> {
    if s == [] then [] else if s[0].0 == key then Without(s[1..], key) else [s[0]] + Without(s[1..], key)
  }

  function Find<K(==), V>(s: seq<(K, V)>, key: K): Option<V> {
    if s == [] then None else if s[0].0 == key then Some(s[0].1) else Find(s[1..], key)
  }

  // ---------- The operations ----------

  function Used<K(==), V>(s: seq<(K, V)>, key: K): seq<(K, V)> {
    match Find(s, key)
    case Some(v) => [(key, v)] + Without(s, key)
    case None => s
  }

  /** At a full cache, storing a new key drops the entry used least recently. */
  function Stored<K(==), V>(s: seq<(K, V)>, capacity: nat, key: K, value: V): seq<(K, V)> {
    if Find(s, key).Some? then [(key, value)] + Without(s, key)
    else if |s| >= capacity && |s| > 0 then [(key, value)] + s[..|s| - 1]
    else [(key, value)] + s
  }

  function Trimmed<K, V>(s: seq<(K, V)>, capacity: nat): seq<(K, V)> {
    if |s| <= capacity then s else s[..capacity]
  }

  lemma {:induction false} FindAt<K, V>(s: seq<(K, V)>, i: nat)
    requires NoKeyTwice(s) && i < |s|
    ensures Find(s, s[i].0) == Some(s[i].1)
    ensures Without(s, s[i].0) == s[..i] + s[i + 1..]
  {
    if i > 0 {
      FindAt(s[1..], i - 1);
      assert s[1..][..i - 1] + s[1..][i..] == s[1..i] + s[i + 1..];
    } else {
      WithoutAbsent(s[1..], s[0].0);
    }
  }

  lemma {:induction false} WithoutAbsent<K, V>(s: seq<(K, V)>, key: K)
    requires forall i :: 0 <= i < |s| ==> s[i].0 != key
    ensures Without(s, key) == s && Find(s, key) == None
  {
    if s != [] {
      WithoutAbsent(s[1..], key);
    }
  }

  lemma {:induction false} WithoutIgnoresValue<K, V>(s: seq<(K, V)>, i: nat, v: V)
    requires i < |s|
    ensures Without(s[i := (s[i].0, v)], s[i].0) == Without(s, s[i].0)
  {
    if i > 0 {
      assert s[i := (s[i].0, v)][1..] == s[1..][i - 1 := (s[i].0, v)];
      WithoutIgnoresValue(s[1..], i - 1, v);
    }
  }

  lemma {:induction false} FindKey<K, V>(s: seq<(K, V)>, key: K)
    ensures Find(s, key).Some? <==> Has(s, key)
  {
    if s != [] && s[0].0 != key {
      FindKey(s[1..], key);
      if Has(s, key) {
        var i :| 0 <= i < |s| && s[i].0 == key;
        assert s[1..][i - 1].0 == key;
      }
    }
  }

  // ---------- What each operation does to every key ----------

  lemma {:induction false} WithoutFinds<K, V>(s: seq<(K, V)>, key: K, other: K)
    ensures Find(Without(s, key), other) == if other == key then None else Find(s, other)
  {
    if s != [] {
      WithoutFinds(s[1..], key, other);
    }
  }

  lemma {:induction false} FindPrefix<K, V>(s: seq<(K, V)>, n: nat, key: K)
    requires n <= |s|
    ensures Find(s[..n], key) == Find(s, key)
            || (Find(s[..n], key) == None && exists i :: n <= i < |s| && s[i].0 == key)
  {
    if n > 0 && s[0].0 != key {
      FindPrefix(s[1..], n - 1, key);
      assert s[..n][1..] == s[1..][..n - 1];
      if Find(s[..n], key) != Find(s, key) {
        var i :| n - 1 <= i < |s[1..]| && s[1..][i].0 == key;
        assert s[i + 1].0 == key;
      }
    } else if n == 0 {
      FindKey(s, key);
    }
  }

  lemma UsedFinds<K, V>(s: seq<(K, V)>, key: K, other: K)
    ensures Find(Used(s, key), other) == Find(s, other)
  {
    WithoutFinds(s, key, other);
    if Find(s, key).Some? {
      assert Used(s, key)[1..] == Without(s, key);
    }
  }

  /** A hit answers the value and comes first; no key finds anything else than before. */
  ghost predicate GotFrom<K(!new), V>(s: seq<(K, V)>, r: seq<(K, V)>, key: K, value: Option<V>) {
    && (if value.Some? then r != [] && r[0] == (key, value.value) else r == s)
    && (forall k :: Find(r, k) == Find(s, k))
  }

  lemma GetLaw<K(!new), V>(s: seq<(K, V)>, key: K)
    ensures GotFrom(s, Used(s, key), key, Find(s, key))
  {
    forall k ensures Find(Used(s, key), k) == Find(s, k) {
      UsedFinds(s, key, k);
    }
  }

  lemma ReplacedFinds<K, V>(s: seq<(K, V)>, key: K, value: V, other: K)
    ensures Find([(key, value)] + Without(s, key), other) == if other == key then Some(value) else Find(s, other)
  {
    assert ([(key, value)] + Without(s, key))[1..] == Without(s, key);
    WithoutFinds(s, key, other);
  }

  /** The entry that a put pushes out: a new key takes the place of the last entry of a full cache. */
  predicate PushesOut<K(==), V>(s: seq<(K, V)>, capacity: nat, key: K, other: K) {
    |s| >= capacity && |s| > 0 && s[|s| - 1].0 == other && !Has(s, key)
  }

  lemma StoredFinds<K, V>(s: seq<(K, V)>, capacity: nat, key: K, value: V, other: K)
    requires NoKeyTwice(s)
    ensures Find(Stored(s, capacity, key, value), other)
         == if other == key then Some(value)
            else if PushesOut(s, capacity, key, other) then None
            else Find(s, other)
  {
    FindKey(s, key);
    if Find(s, key).Some? {
      ReplacedFinds(s, key, value, other);
    } else if |s| >= capacity && |s| > 0 {
      var kept := s[..|s| - 1];
      assert ([(key, value)] + kept)[1..] == kept;
      FindPrefix(s, |s| - 1, other);
      LastIsOnce(s, other);
    } else {
      assert ([(key, value)] + s)[1..] == s;
    }
  }

  lemma LastIsOnce<K, V>(s: seq<(K, V)>, key: K)
    requires NoKeyTwice(s) && s != []
    ensures s[|s| - 1].0 == key ==> Find(s[..|s| - 1], key) == None
  {
    FindKey(s[..|s| - 1], key);
  }

  /** What is put is found, and comes first; every other key finds what it did before, but that a new
      key pushes the last entry out of a full cache. */
  ghost predicate PutInto<K(!new), V>(s: seq<(K, V)>, r: seq<(K, V)>, capacity: nat, key: K, value: V) {
    && r != [] && r[0] == (key, value) && Find(r, key) == Some(value)
    && (forall k :: k != key ==> Find(r, k) == if PushesOut(s, capacity, key, k) then None else Find(s, k))
  }

  lemma PutLaw<K(!new), V>(s: seq<(K, V)>, capacity: nat, key: K, value: V)
    requires NoKeyTwice(s)
    ensures PutInto(s, Stored(s, capacity, key, value), capacity, key, value)
  {
    StoredFinds(s, capacity, key, value, key);
    forall k | k != key
      ensures Find(Stored(s, capacity, key, value), k) == if PushesOut(s, capacity, key, k) then None else Find(s, k)
    {
      StoredFinds(s, capacity, key, value, k);
    }
  }

  /** That key goes, and no other key finds anything else. */
  ghost predicate RemovedFrom<K(!new), V>(s: seq<(K, V)>, r: seq<(K, V)>, key: K) {
    forall k :: Find(r, k) == if k == key then None else Find(s, k)
  }

  lemma RemoveLaw<K(!new), V>(s: seq<(K, V)>, key: K)
    ensures RemovedFrom(s, Without(s, key), key)
  {
    forall k ensures Find(Without(s, key), k) == if k == key then None else Find(s, k) {
      WithoutFinds(s, key, k);
    }
  }

  // ---------- Runs of all operations ----------

  datatype Operation<K, V> = DoGet(k: K) | DoPut(k: K, v: V) | DoRemove(k: K) | DoResize(n: int) | DoClear

  datatype Cache<K, V> = Cache(entries: seq<(K, V)>, capacity: nat)

  /** A capacity below 1 counts as 1. */
  function Room(n: int): nat { if n <= 0 then 1 else n }

  function Done<K(==), V>(c: Cache<K, V>, op: Operation<K, V>): Cache<K, V> {
    match op
    case DoGet(k) => c.(entries := Used(c.entries, k))
    case DoPut(k, v) => c.(entries := Stored(c.entries, c.capacity, k, v))
    case DoRemove(k) => c.(entries := Without(c.entries, k))
    case DoResize(n) => Cache(Trimmed(c.entries, Room(n)), Room(n))
    case DoClear => c.(entries := [])
  }

  function DoneAll<K(==), V>(c: Cache<K, V>, ops: seq<Operation<K, V>>): Cache<K, V> {
    if ops == [] then c else Done(DoneAll(c, ops[..|ops| - 1]), ops[|ops| - 1])
  }

  /** The value of the last put of the key that no removal or clearing follows. */
  function LastPut<K(==), V>(ops: seq<Operation<K, V>>, key: K): Option<V> {
    if ops == [] then None
    else
      match ops[|ops| - 1]
      case DoPut(k, v) => if k == key then Some(v) else LastPut(ops[..|ops| - 1], key)
      case DoRemove(k) => if k == key then None else LastPut(ops[..|ops| - 1], key)
      case DoClear => None
      case _ => LastPut(ops[..|ops| - 1], key)
  }

  predicate Uses<K(==), V>(op: Operation<K, V>, key: K) {
    (op.DoGet? || op.DoPut?) && op.k == key
  }

  /** When the key was last got or put, as an index into the run; -1 for never. */
  function LastUse<K(==), V>(ops: seq<Operation<K, V>>, key: K): (n: int)
    ensures -1 <= n < |ops|
  {
    if ops == [] then -1
    else if Uses(ops[|ops| - 1], key) then |ops| - 1
    else LastUse(ops[..|ops| - 1], key)
  }

  /** The latest use comes first. */
  ghost predicate ByLastUse<K, V>(s: seq<(K, V)>, ops: seq<Operation<K, V>>) {
    forall i, j :: 0 <= i < j < |s| ==> LastUse(ops, s[i].0) > LastUse(ops, s[j].0)
  }

  lemma DistinctByLastUse<K, V>(s: seq<(K, V)>, ops: seq<Operation<K, V>>)
    requires ByLastUse(s, ops)
    ensures NoKeyTwice(s)
  {
  }

  lemma {:induction false} WithoutKeeps<K, V>(s: seq<(K, V)>, key: K, ops: seq<Operation<K, V>>)
    requires ByLastUse(s, ops)
    ensures var r := Without(s, key);
            && ByLastUse(r, ops) && |r| <= |s|
            && forall i :: 0 <= i < |r| ==> r[i].0 != key && r[i] in s
  {
    if s != [] {
      WithoutKeeps(s[1..], key, ops);
      var rest := Without(s[1..], key);
      assert ByLastUse(s[1..], ops);
      forall i | 0 <= i < |rest| ensures LastUse(ops, s[0].0) > LastUse(ops, rest[i].0) {
        var j :| 0 <= j < |s[1..]| && s[1..][j] == rest[i];
        assert s[j + 1] == rest[i];
      }
    }
  }

  /** A key that has just been used, before others that have not. */
  lemma UsedFirst<K, V>(e: (K, V), rest: seq<(K, V)>, ops: seq<Operation<K, V>>, op: Operation<K, V>)
    requires ByLastUse(rest, ops) && Uses(op, e.0) && forall i :: 0 <= i < |rest| ==> rest[i].0 != e.0
    ensures ByLastUse([e] + rest, ops + [op])
  {
    assert (ops + [op])[..|ops|] == ops;
    var s := [e] + rest;
    forall i, j | 0 <= i < j < |s| ensures LastUse(ops + [op], s[i].0) > LastUse(ops + [op], s[j].0) {
      assert s[j] == rest[j - 1];
    }
  }

  lemma Unused<K, V>(s: seq<(K, V)>, ops: seq<Operation<K, V>>, op: Operation<K, V>)
    requires ByLastUse(s, ops) && forall i :: 0 <= i < |s| ==> !Uses(op, s[i].0)
    ensures ByLastUse(s, ops + [op])
  {
    assert (ops + [op])[..|ops|] == ops;
  }

  lemma AbsentKeys<K, V>(s: seq<(K, V)>, key: K)
    requires Find(s, key).None?
    ensures forall i :: 0 <= i < |s| ==> s[i].0 != key
  {
    FindKey(s, key);
  }

  lemma OrderStep<K, V>(c: Cache<K, V>, ops: seq<Operation<K, V>>, op: Operation<K, V>)
    requires ByLastUse(c.entries, ops) && |c.entries| <= c.capacity && c.capacity >= 1
    ensures var d := Done(c, op);
            ByLastUse(d.entries, ops + [op]) && |d.entries| <= d.capacity && d.capacity >= 1
  {
    var s := c.entries;
    match op
    case DoGet(k) =>
      WithoutKeeps(s, k, ops);
      if Find(s, k).Some? {
        UsedFirst((k, Find(s, k).value), Without(s, k), ops, op);
        FindKey(s, k);
        DistinctByLastUse(s, ops);
        var i :| 0 <= i < |s| && s[i].0 == k;
        FindAt(s, i);
      } else {
        AbsentKeys(s, k);
        Unused(s, ops, op);
      }
    case DoPut(k, v) =>
      WithoutKeeps(s, k, ops);
      if Find(s, k).Some? {
        UsedFirst((k, v), Without(s, k), ops, op);
        FindKey(s, k);
        DistinctByLastUse(s, ops);
        var i :| 0 <= i < |s| && s[i].0 == k;
        FindAt(s, i);
      } else {
        AbsentKeys(s, k);
        UsedFirst((k, v), if |s| >= c.capacity then s[..|s| - 1] else s, ops, op);
      }
    case DoRemove(k) =>
      WithoutKeeps(s, k, ops);
      Unused(Without(s, k), ops, op);
    case DoResize(n) => Unused(Trimmed(s, Room(n)), ops, op);
    case DoClear =>
  }

  /** The least-recently-used order, over any run from the empty cache: entries are in the order of
      their last use, as the run alone tells it, and there are never more than the capacity. */
  lemma {:induction false} OrderedByLastUse<K, V>(capacity: nat, ops: seq<Operation<K, V>>)
    requires capacity >= 1
    ensures var c := DoneAll(Cache([], capacity), ops);
            ByLastUse(c.entries, ops) && NoKeyTwice(c.entries) && |c.entries| <= c.capacity && c.capacity >= 1
  {
    if ops != [] {
      OrderedByLastUse<K, V>(capacity, ops[..|ops| - 1]);
      OrderStep(DoneAll(Cache([], capacity), ops[..|ops| - 1]), ops[..|ops| - 1], ops[|ops| - 1]);
      assert ops[..|ops| - 1] + [ops[|ops| - 1]] == ops;
      DistinctByLastUse(DoneAll(Cache([], capacity), ops).entries, ops);
    }
  }

  /** Whatever is found for a key, in any run from the empty cache, is the value of its last put, with
      no removal or clearing since. */
  lemma {:induction false} FindsLastPut<K, V>(capacity: nat, ops: seq<Operation<K, V>>, key: K)
    requires capacity >= 1
    ensures var found := Find(DoneAll(Cache([], capacity), ops).entries, key);
            found.Some? ==> found == LastPut(ops, key)
  {
    if ops != [] {
      var c := DoneAll(Cache([], capacity), ops[..|ops| - 1]);
      FindsLastPut(capacity, ops[..|ops| - 1], key);
      OrderedByLastUse<K, V>(capacity, ops[..|ops| - 1]);
      match ops[|ops| - 1]
      case DoGet(k) => UsedFinds(c.entries, k, key);
      case DoPut(k, v) => StoredFinds(c.entries, c.capacity, k, v, key);
      case DoRemove(k) => WithoutFinds(c.entries, k, key);
      case DoResize(n) => if |c.entries| > Room(n) { FindPrefix(c.entries, Room(n), key); }
      case DoClear =>
    }
  }

  // ---------- The least-recently-used guarantee ----------

  datatype Use<K, V> = Get(key: K) | Put(key: K, value: V)

  function Apply<K(==), V>(s: seq<(K, V)>, capacity: nat, u: Use<K, V>): seq<(K, V)> {
    match u
    case Get(k) => Used(s, k)
    case Put(k, v) => Stored(s, capacity, k, v)
  }

  function ApplyAll<K(==), V>(s: seq<(K, V)>, capacity: nat, us: seq<Use<K, V>>): seq<(K, V)>
    decreases |us|
  {
    if us == [] then s else ApplyAll(Apply(s, capacity, us[0]), capacity, us[1..])
  }

  function KeysOf<K, V>(us: seq<Use<K, V>>): set<K> { set i | 0 <= i < |us| :: us[i].key }

  function Keys<K, V>(s: seq<(K, V)>): set<K> { set i | 0 <= i < |s| :: s[i].0 }

  lemma {:induction false} KeysCount<K, V>(s: seq<(K, V)>)
    requires NoKeyTwice(s)
    ensures |Keys(s)| == |s|
  {
    if s != [] {
      KeysCount(s[1..]);
      assert Keys(s) == {s[0].0} + Keys(s[1..]);
      assert forall i :: 0 <= i < |s[1..]| ==> s[1..][i] == s[i + 1];
      assert s[0].0 !in Keys(s[1..]);
    }
  }

  /** `key` is at position `i`, and only keys from `recent` come before it. */
  ghost predicate HeldAt<K, V>(s: seq<(K, V)>, key: K, i: nat, recent: set<K>) {
    NoKeyTwice(s) && i < |s| && s[i].0 == key && Keys(s[..i]) <= recent && key !in recent
  }

  lemma MovedNoKeyTwice<K, V>(s: seq<(K, V)>, e: (K, V), k: nat)
    requires NoKeyTwice(s) && k < |s| && s[k].0 == e.0
    ensures NoKeyTwice([e] + (s[..k] + s[k + 1..]))
  {
    var r := [e] + (s[..k] + s[k + 1..]);
    forall m, n | 0 <= m < n < |r| ensures r[m].0 != r[n].0 {
      assert r[n] == s[if n <= k then n - 1 else n];
      assert m > 0 ==> r[m] == s[if m <= k then m - 1 else m];
    }
  }

  /** Using a present key moves it to the front. */
  lemma PresentKeeps<K, V>(s: seq<(K, V)>, e: (K, V), k: nat, key: K, i: nat, recent: set<K>) returns (j: nat)
    requires HeldAt(s, key, i, recent) && k < |s| && k != i && s[k].0 == e.0
    ensures HeldAt([e] + Without(s, e.0), key, j, recent + {e.0}) && ([e] + Without(s, e.0))[j] == s[i]
    ensures |[e] + Without(s, e.0)| == |s|
  {
    FindAt(s, k);
    MovedNoKeyTwice(s, e, k);
    j := if k < i then i else i + 1;
    var r := [e] + (s[..k] + s[k + 1..]);
    forall x | x in Keys(r[..j]) ensures x in recent + {e.0} {
      var n :| 0 <= n < j && r[..j][n].0 == x;
      if n > 0 {
        var m := if n <= k then n - 1 else n;
        assert r[n] == s[m] && s[..i][m].0 == x;
      }
    }
  }

  /** Putting a new key drops the last entry at most, which is not the one looked at. */
  lemma NewKeeps<K, V>(s: seq<(K, V)>, capacity: nat, e: (K, V), key: K, i: nat, recent: set<K>)
    requires HeldAt(s, key, i, recent) && |s| <= capacity && e.0 != key && !Has(s, e.0)
    requires |recent + {e.0}| < capacity
    ensures var r := Stored(s, capacity, e.0, e.1);
            HeldAt(r, key, i + 1, recent + {e.0}) && |r| <= capacity && r[i + 1] == s[i]
  {
    WithoutAbsent(s, e.0);
    RoomLeft(s, e.0, i, recent);
    var r := Stored(s, capacity, e.0, e.1);
    assert r[..i + 1] == [e] + s[..i];
  }

  /** Together with a new key there are fewer keys before position `i` than recent ones. */
  lemma RoomLeft<K, V>(s: seq<(K, V)>, added: K, i: nat, recent: set<K>)
    requires NoKeyTwice(s) && i < |s| && Keys(s[..i]) <= recent && forall j :: 0 <= j < |s| ==> s[j].0 != added
    ensures i + 1 <= |recent + {added}|
  {
    var before := Keys(s[..i]);
    assert added !in before && before + {added} <= recent + {added};
    SubsetCount(before + {added}, recent + {added});
    KeysCount(s[..i]);
  }

  lemma UseKeeps<K, V>(s: seq<(K, V)>, capacity: nat, u: Use<K, V>, key: K, i: nat, recent: set<K>)
    returns (j: nat)
    requires HeldAt(s, key, i, recent) && |s| <= capacity && u.key != key && |recent + {u.key}| < capacity
    ensures HeldAt(Apply(s, capacity, u), key, j, recent + {u.key})
    ensures |Apply(s, capacity, u)| <= capacity
    ensures Apply(s, capacity, u)[j] == s[i]
  {
    FindKey(s, u.key);
    if Has(s, u.key) {
      var k :| 0 <= k < |s| && s[k].0 == u.key;
      j := PresentKeeps(s, Apply(s, capacity, u)[0], k, key, i, recent);
    } else if u.Get? {
      j := i;
    } else {
      NewKeeps(s, capacity, (u.key, u.value), key, i, recent);
      j := i + 1;
    }
  }

  /** After a key has been used, it stays, with its value, as long as fewer than `capacity` other
      keys have been used since, however often. */
  lemma {:induction false} RecentlyUsedStays<K, V>(s: seq<(K, V)>, capacity: nat, us: seq<Use<K, V>>,
                                                   key: K, i: nat, recent: set<K>)
    requires HeldAt(s, key, i, recent) && |s| <= capacity
    requires key !in KeysOf(us) && |recent + KeysOf(us)| < capacity
    ensures Find(ApplyAll(s, capacity, us), key) == Some(s[i].1)
    decreases |us|
  {
    if us == [] {
      FindAt(s, i);
    } else {
      assert KeysOf(us) == {us[0].key} + KeysOf(us[1..]);
      SubsetCount(recent + {us[0].key}, recent + KeysOf(us));
      var j := UseKeeps(s, capacity, us[0], key, i, recent);
      assert (recent + {us[0].key}) + KeysOf(us[1..]) == recent + KeysOf(us);
      RecentlyUsedStays(Apply(s, capacity, us[0]), capacity, us[1..], key, j, recent + {us[0].key});
    }
  }

  /** ... and that is the best possible: `capacity` puts of other new keys drive it out. */
  lemma {:induction false} CapacityNewKeysEvict<K, V>(s: seq<(K, V)>, capacity: nat, us: seq<Use<K, V>>, key: K)
    requires NoKeyTwice(s) && 0 < |s| <= capacity
    requires forall n :: 0 <= n < |us| ==> us[n].Put? && us[n].key != key && us[n].key !in Keys(s)
    requires forall m, n :: 0 <= m < n < |us| ==> us[m].key != us[n].key
    requires |us| >= capacity
    ensures Find(ApplyAll(s, capacity, us), key) == None
  {
    PushedOut(s, capacity, us, [], key);
  }

  lemma {:induction false} PushedOut<K, V>(s: seq<(K, V)>, capacity: nat, us: seq<Use<K, V>>,
                                           front: seq<(K, V)>, key: K)
    requires |front| <= |s| && s[..|front|] == front && 0 < |s| <= capacity && NoKeyTwice(s)
    requires forall n :: 0 <= n < |front| ==> front[n].0 != key
    requires forall n :: 0 <= n < |us| ==> us[n].Put? && us[n].key != key && us[n].key !in Keys(s)
    requires forall m, n :: 0 <= m < n < |us| ==> us[m].key != us[n].key
    requires |us| + |front| >= capacity
    ensures Find(ApplyAll(s, capacity, us), key) == None
    decreases |us|
  {
    if us == [] {
      assert s == front;
      WithoutAbsent(s, key);
    } else {
      var u := us[0];
      WithoutAbsent(s, u.key);
      var r := Apply(s, capacity, u);
      var front' := if |front| + 1 <= |r| then [(u.key, u.value)] + front else [(u.key, u.value)] + front[..|r| - 1];
      assert r[..|front'|] == front';
      forall n | 0 <= n < |us[1..]| ensures us[1..][n].key !in Keys(r) {
        assert us[1..][n] == us[n + 1];
        assert Keys(r) <= {u.key} + Keys(s);
      }
      PushedOut(r, capacity, us[1..], front', key);
    }
  }
}
