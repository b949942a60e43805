/** The finite sorted map that a TreeMap stands for: a sequence of entries in strictly
    increasing key order under a comparator. Keys that compare equal are one key. */
module SortedEntries {
  import opened Options

  /** What a `Comparator` must satisfy: a total preorder, told by the sign of its result. */
  ghost predicate TotalPreorder<K(!new)>(cmp: (K, K) -> int) {
    && (forall a, b :: cmp(a, b) < 0 <==> cmp(b, a) > 0)
    && (forall a, b, c :: cmp(a, b) <= 0 && cmp(b, c) <= 0 ==> cmp(a, c) <= 0)
  }

  ghost predicate AllBelow<K, V>(cmp: (K, K) -> int, s: seq<(K, V)>, key: K) {
    forall i :: 0 <= i < |s| ==> cmp(key, s[i].0) > 0
  }

  ghost predicate AllAbove<K, V>(cmp: (K, K) -> int, s: seq<(K, V)>, key: K) {
    forall i :: 0 <= i < |s| ==> cmp(key, s[i].0) < 0
  }

  ghost predicate Sorted<K, V>(cmp: (K, K) -> int, s: seq<(K, V)>) {
    forall i, j :: 0 <= i < j < |s| ==> cmp(s[i].0, s[j].0) < 0
  }

  function Lookup<K, V>(cmp: (K, K) -> int, s: seq<(K, V)>, key: K): Option<V> {
    if s == [] then None
    else if cmp(key, s[0].0) == 0 then Some(s[0].1)
    else Lookup(cmp, s[1..], key)
  }

  /** Bind `key` to `value`. A key already present keeps its own representative. */
  function Bind<K, V>(cmp: (K, K) -> int, s: seq<(K, V)>, key: K, value: V): seq<(K, V)> {
    if s == [] then [(key, value)]
    else if cmp(key, s[0].0) < 0 then [(key, value)] + s
    else if cmp(key, s[0].0) == 0 then [(s[0].0, value)] + s[1..]
    else [s[0]] + Bind(cmp, s[1..], key, value)
  }

  function Unbind<K, V>(cmp: (K, K) -> int, s: seq<(K, V)>, key: K): seq<(K, V)> {
    if s == [] then []
    else if cmp(key, s[0].0) == 0 then s[1..]
    else [s[0]] + Unbind(cmp, s[1..], key)
  }

  // ---------- The map laws ----------

  lemma {:induction false} BindSorted<K(!new), V>(cmp: (K, K) -> int, s: seq<(K, V)>, key: K, value: V)
    requires TotalPreorder(cmp) && Sorted(cmp, s)
    ensures Sorted(cmp, Bind(cmp, s, key, value))
  {
    if s != [] {
      var b := Bind(cmp, s[1..], key, value);
      if cmp(key, s[0].0) > 0 {
        BindSorted(cmp, s[1..], key, value);
        BindAbove(cmp, s[1..], key, value, s[0].0);
        PrependSorted(cmp, s[0], b);
      } else if cmp(key, s[0].0) < 0 {
        assert AllAbove(cmp, s, key);
        PrependSorted(cmp, (key, value), s);
      } else {
        PrependSorted(cmp, (s[0].0, value), s[1..]);
      }
    }
  }

  lemma PrependSorted<K, V>(cmp: (K, K) -> int, e: (K, V), s: seq<(K, V)>)
    requires Sorted(cmp, s) && AllAbove(cmp, s, e.0)
    ensures Sorted(cmp, [e] + s)
  {
  }

  lemma {:induction false} BindAbove<K(!new), V>(cmp: (K, K) -> int, s: seq<(K, V)>, key: K, value: V, low: K)
    requires AllAbove(cmp, s, low) && cmp(low, key) < 0
    ensures AllAbove(cmp, Bind(cmp, s, key, value), low)
  {
    if s != [] && cmp(key, s[0].0) > 0 {
      BindAbove(cmp, s[1..], key, value, low);
    }
  }

  /** After `Bind`, `key` (and what compares equal to it) is bound to `value`; every other key
      is bound as before. */
  lemma {:induction false} BindLookup<K(!new), V>(cmp: (K, K) -> int, s: seq<(K, V)>, key: K, value: V, probe: K)
    requires TotalPreorder(cmp) && Sorted(cmp, s)
    ensures Lookup(cmp, Bind(cmp, s, key, value), probe)
         == if cmp(probe, key) == 0 then Some(value) else Lookup(cmp, s, probe)
  {
    if s != [] {
      var b := Bind(cmp, s, key, value);
      if cmp(key, s[0].0) > 0 {
        BindLookup(cmp, s[1..], key, value, probe);
        assert b[1..] == Bind(cmp, s[1..], key, value);
      } else if cmp(key, s[0].0) < 0 {
        assert b[1..] == s;
      } else {
        assert b[1..] == s[1..];
      }
    }
  }

  lemma {:induction false} LookupAbsent<K, V>(cmp: (K, K) -> int, s: seq<(K, V)>, key: K)
    requires AllBelow(cmp, s, key) || AllAbove(cmp, s, key)
    ensures Lookup(cmp, s, key) == None && Unbind(cmp, s, key) == s
  {
    if s != [] {
      LookupAbsent(cmp, s[1..], key);
    }
  }

  lemma {:induction false} UnbindSorted<K(!new), V>(cmp: (K, K) -> int, s: seq<(K, V)>, key: K)
    requires Sorted(cmp, s)
    ensures Sorted(cmp, Unbind(cmp, s, key))
    ensures forall e :: e in Unbind(cmp, s, key) ==> e in s
  {
    if s != [] {
      UnbindSorted(cmp, s[1..], key);
      assert forall e :: e in s[1..] ==> e in s && cmp(s[0].0, e.0) < 0;
    }
  }

  /** After `Unbind`, `key` is not bound; every other key is bound as before. */
  lemma {:induction false} UnbindLookup<K(!new), V>(cmp: (K, K) -> int, s: seq<(K, V)>, key: K, probe: K)
    requires TotalPreorder(cmp) && Sorted(cmp, s)
    ensures Lookup(cmp, Unbind(cmp, s, key), probe)
         == if cmp(probe, key) == 0 then None else Lookup(cmp, s, probe)
  {
    if s != [] {
      if cmp(key, s[0].0) == 0 {
        if cmp(probe, key) == 0 {
          assert AllAbove(cmp, s[1..], probe);
          LookupAbsent(cmp, s[1..], probe);
        }
      } else {
        UnbindLookup(cmp, s[1..], key, probe);
        assert Unbind(cmp, s, key)[1..] == Unbind(cmp, s[1..], key);
      }
    }
  }

  // ---------- Runs ----------

  datatype Op<K, V> = PutOp(key: K, value: V) | RemoveOp(key: K)

  function Performed<K, V>(cmp: (K, K) -> int, s: seq<(K, V)>, ops: seq<Op<K, V>>): seq<(K, V)> {
    if ops == [] then s
    else
      var before, op := Performed(cmp, s, ops[..|ops| - 1]), ops[|ops| - 1];
      match op
      case PutOp(key, value) => Bind(cmp, before, key, value)
      case RemoveOp(key) => Unbind(cmp, before, key)
  }

  /** What the last operation on a key that compares equal to `probe` left there. */
  function LastLeft<K, V>(cmp: (K, K) -> int, s: seq<(K, V)>, ops: seq<Op<K, V>>, probe: K): Option<V> {
    if ops == [] then Lookup(cmp, s, probe)
    else
      var op := ops[|ops| - 1];
      if cmp(probe, op.key) != 0 then LastLeft(cmp, s, ops[..|ops| - 1], probe)
      else if op.PutOp? then Some(op.value) else None
  }

  lemma {:induction false} PerformedLookup<K(!new), V>(cmp: (K, K) -> int, s: seq<(K, V)>, ops: seq<Op<K, V>>, probe: K)
    requires TotalPreorder(cmp) && Sorted(cmp, s)
    ensures Sorted(cmp, Performed(cmp, s, ops))
    ensures Lookup(cmp, Performed(cmp, s, ops), probe) == LastLeft(cmp, s, ops, probe)
  {
    if ops != [] {
      var before := Performed(cmp, s, ops[..|ops| - 1]);
      PerformedLookup(cmp, s, ops[..|ops| - 1], probe);
      match ops[|ops| - 1]
      case PutOp(key, value) =>
        BindSorted(cmp, before, key, value);
        BindLookup(cmp, before, key, value, probe);
      case RemoveOp(key) =>
        UnbindSorted(cmp, before, key);
        UnbindLookup(cmp, before, key, probe);
    }
  }

  /** Every entry of a sorted sequence is what a lookup of its key finds. */
  lemma {:induction false} LookupIndex<K(!new), V>(cmp: (K, K) -> int, s: seq<(K, V)>, i: nat)
    requires TotalPreorder(cmp) && Sorted(cmp, s) && i < |s|
    ensures Lookup(cmp, s, s[i].0) == Some(s[i].1)
  {
    if i > 0 {
      LookupIndex(cmp, s[1..], i - 1);
    }
  }

  // ---------- Splitting at the place the key belongs ----------

  lemma {:induction false} SplitBelow<K, V>(cmp: (K, K) -> int, a: seq<(K, V)>, b: seq<(K, V)>, key: K)
    requires AllBelow(cmp, a, key)
    ensures Unbind(cmp, a + b, key) == a + Unbind(cmp, b, key)
    ensures Lookup(cmp, a + b, key) == Lookup(cmp, b, key)
  {
    if a == [] {
      assert a + b == b;
    } else {
      SplitBelow(cmp, a[1..], b, key);
      assert (a + b)[1..] == a[1..] + b;
      assert cmp(key, a[0].0) > 0;
    }
  }

  lemma {:induction false} BindBelow<K, V>(cmp: (K, K) -> int, a: seq<(K, V)>, b: seq<(K, V)>, key: K, value: V)
    requires AllBelow(cmp, a, key)
    ensures Bind(cmp, a + b, key, value) == a + Bind(cmp, b, key, value)
  {
    if a == [] {
      assert a + b == b;
    } else {
      BindBelow(cmp, a[1..], b, key, value);
      assert (a + b)[1..] == a[1..] + b;
      assert cmp(key, a[0].0) > 0;
    }
  }

  lemma SplitAt<K, V>(cmp: (K, K) -> int, a: seq<(K, V)>, k: K, v: V, b: seq<(K, V)>, key: K, value: V)
    requires AllBelow(cmp, a, key) && cmp(key, k) == 0
    ensures Bind(cmp, a + [(k, v)] + b, key, value) == a + [(k, value)] + b
    ensures Unbind(cmp, a + [(k, v)] + b, key) == a + b
    ensures Lookup(cmp, a + [(k, v)] + b, key) == Some(v)
  {
    var tail := [(k, v)] + b;
    assert a + [(k, v)] + b == a + tail;
    SplitBelow(cmp, a, tail, key);
    BindBelow(cmp, a, tail, key, value);
    assert tail[1..] == b;
    assert Bind(cmp, tail, key, value) == [(k, value)] + b;
  }

  lemma SplitBetween<K, V>(cmp: (K, K) -> int, a: seq<(K, V)>, b: seq<(K, V)>, key: K)
    requires AllBelow(cmp, a, key) && AllAbove(cmp, b, key)
    ensures Unbind(cmp, a + b, key) == a + b
    ensures Lookup(cmp, a + b, key) == None
  {
    SplitBelow(cmp, a, b, key);
    LookupAbsent(cmp, b, key);
  }

  lemma BindBetween<K, V>(cmp: (K, K) -> int, a: seq<(K, V)>, b: seq<(K, V)>, key: K, value: V)
    requires AllBelow(cmp, a, key) && AllAbove(cmp, b, key)
    ensures Bind(cmp, a + b, key, value) == a + [(key, value)] + b
  {
    BindBelow(cmp, a, b, key, value);
  }

  /** Where a search goes left, the key is above everything from there on; likewise on the right. */
  lemma GoLeft<K(!new), V>(cmp: (K, K) -> int, a: seq<(K, V)>, k: K, v: V, b: seq<(K, V)>, key: K)
    requires TotalPreorder(cmp) && Sorted(cmp, a + [(k, v)] + b) && cmp(key, k) < 0
    ensures AllAbove(cmp, [(k, v)] + b, key)
  {
    var s := a + [(k, v)] + b;
    forall j | 0 <= j < |b|
      ensures cmp(key, b[j].0) < 0
    {
      assert s[|a|] == (k, v) && s[|a| + 1 + j] == b[j];
    }
  }

  lemma GoRight<K(!new), V>(cmp: (K, K) -> int, a: seq<(K, V)>, k: K, v: V, b: seq<(K, V)>, key: K)
    requires TotalPreorder(cmp) && Sorted(cmp, a + [(k, v)] + b) && cmp(key, k) > 0
    ensures AllBelow(cmp, a + [(k, v)], key)
  {
    var s := a + [(k, v)] + b;
    forall j | 0 <= j < |a|
      ensures cmp(key, a[j].0) > 0
    {
      assert s[|a|] == (k, v) && s[j] == a[j];
    }
  }

  lemma FoundHere<K(!new), V>(cmp: (K, K) -> int, a: seq<(K, V)>, k: K, v: V, b: seq<(K, V)>, key: K)
    requires TotalPreorder(cmp) && Sorted(cmp, a + [(k, v)] + b) && cmp(key, k) == 0
    ensures AllBelow(cmp, a, key)
  {
    var s := a + [(k, v)] + b;
    forall j | 0 <= j < |a|
      ensures cmp(key, a[j].0) > 0
    {
      assert s[|a|] == (k, v) && s[j] == a[j];
      assert cmp(k, key) <= 0 && cmp(a[j].0, k) < 0;
    }
  }

  /** The part of `s` that a traversal hands to `f`: it stops once `f` answers false. */
  function Visited<K, V>(s: seq<(K, V)>, f: (K, V) -> bool): seq<(K, V)> {
    if s == [] then []
    else if !f(s[0].0, s[0].1) then [s[0]]
    else [s[0]] + Visited(s[1..], f)
  }

  predicate Accepted<K, V>(s: seq<(K, V)>, f: (K, V) -> bool) {
    forall i :: 0 <= i < |s| ==> f(s[i].0, s[i].1)
  }

  lemma {:induction false} VisitedConcat<K, V>(a: seq<(K, V)>, b: seq<(K, V)>, f: (K, V) -> bool)
    ensures Visited(a + b, f) == if Accepted(a, f) then a + Visited(b, f) else Visited(a, f)
  {
    if a == [] {
      assert a + b == b;
    } else {
      VisitedConcat(a[1..], b, f);
      assert (a + b)[1..] == a[1..] + b;
      assert Accepted(a, f) <==> f(a[0].0, a[0].1) && Accepted(a[1..], f) by {
        assert forall i :: 0 < i < |a| ==> a[i] == a[1..][i - 1];
      }
      assert [a[0]] + (a[1..] + Visited(b, f)) == a + Visited(b, f);
    }
  }
}
