/** Searching a tree in key order, and what the place a search ends at means for the sorted map
    that the tree stands for. */
module TreeSearch {
  import opened Options
  import opened RedBlackTree
  import opened Sequences
  import opened SortedEntries

  /** Everything before the position is below `key`, and everything after it above. */
  ghost predicate Bracketed<K, V>(cmp: (K, K) -> int, p: Path<K, V>, key: K) {
    AllBelow(cmp, Before(p), key) && AllAbove(cmp, After(p), key)
  }

  lemma WholeSplit<K, V>(p: Path<K, V>, t: Tree<K, V>)
    requires t.Node?
    ensures Whole(p, t) == (Before(p) + Inorder(t.left)) + [(t.key, t.value)] + (Inorder(t.right) + After(p))
    ensures Whole(Down(p, t, Left), t.left) == Whole(p, t) && Whole(Down(p, t, Right), t.right) == Whole(p, t)
  {
    var b, a := Before(p), After(p);
    var l, m, r := Inorder(t.left), [(t.key, t.value)], Inorder(t.right);
    assert b + (l + m + r) + a == (b + l) + m + (r + a);
    assert b + l + (m + r + a) == (b + l) + m + (r + a);
    assert (b + l + m) + r + a == (b + l) + m + (r + a);
  }

  lemma BracketLeft<K(!new), V>(cmp: (K, K) -> int, p: Path<K, V>, t: Tree<K, V>, key: K)
    requires TotalPreorder(cmp) && Sorted(cmp, Whole(p, t))
    requires Bracketed(cmp, p, key) && t.Node? && cmp(key, t.key) < 0
    ensures Bracketed(cmp, Down(p, t, Left), key)
  {
    var r := Inorder(t.right) + After(p);
    assert AllAbove(cmp, [(t.key, t.value)] + r, key) by {
      WholeSplit(p, t);
      GoLeft(cmp, Before(p) + Inorder(t.left), t.key, t.value, r, key);
    }
    AfterLeft(p, t);
  }

  lemma AfterLeft<K, V>(p: Path<K, V>, t: Tree<K, V>)
    requires t.Node?
    ensures Before(Down(p, t, Left)) == Before(p)
    ensures After(Down(p, t, Left)) == [(t.key, t.value)] + (Inorder(t.right) + After(p))
  {
  }

  lemma BracketRight<K(!new), V>(cmp: (K, K) -> int, p: Path<K, V>, t: Tree<K, V>, key: K)
    requires TotalPreorder(cmp) && Sorted(cmp, Whole(p, t))
    requires Bracketed(cmp, p, key) && t.Node? && cmp(key, t.key) > 0
    ensures Bracketed(cmp, Down(p, t, Right), key)
  {
    WholeSplit(p, t);
    GoRight(cmp, Before(p) + Inorder(t.left), t.key, t.value, Inorder(t.right) + After(p), key);
  }

  /** A search that ends at a node has found the key. */
  lemma SearchHit<K(!new), V>(cmp: (K, K) -> int, p: Path<K, V>, t: Tree<K, V>, key: K, value: V)
    requires TotalPreorder(cmp) && Sorted(cmp, Whole(p, t)) && t.Node? && cmp(key, t.key) == 0
    ensures Lookup(cmp, Whole(p, t), key) == Some(t.value)
    ensures Bind(cmp, Whole(p, t), key, value) == Whole(p, t.(value := value))
    ensures Unbind(cmp, Whole(p, t), key) == Before(p) + Inorder(t.left) + Inorder(t.right) + After(p)
    ensures Sorted(cmp, Bind(cmp, Whole(p, t), key, value)) && Sorted(cmp, Unbind(cmp, Whole(p, t), key))
    ensures |Bind(cmp, Whole(p, t), key, value)| == |Whole(p, t)| == |Unbind(cmp, Whole(p, t), key)| + 1
  {
    SearchHitSplit(cmp, p, t, key, value);
    BindSorted(cmp, Whole(p, t), key, value);
    UnbindSorted(cmp, Whole(p, t), key);
  }

  lemma SearchHitSplit<K(!new), V>(cmp: (K, K) -> int, p: Path<K, V>, t: Tree<K, V>, key: K, value: V)
    requires TotalPreorder(cmp) && Sorted(cmp, Whole(p, t)) && t.Node? && cmp(key, t.key) == 0
    ensures Lookup(cmp, Whole(p, t), key) == Some(t.value)
    ensures Bind(cmp, Whole(p, t), key, value) == Whole(p, t.(value := value))
    ensures Unbind(cmp, Whole(p, t), key) == Before(p) + Inorder(t.left) + Inorder(t.right) + After(p)
    ensures |Whole(p, t.(value := value))| == |Whole(p, t)|
    ensures |Whole(p, t)| == |Before(p) + Inorder(t.left) + Inorder(t.right) + After(p)| + 1
  {
    var l, r := Before(p) + Inorder(t.left), Inorder(t.right) + After(p);
    WholeSplit(p, t);
    WholeSplit(p, t.(value := value));
    FoundHere(cmp, l, t.key, t.value, r, key);
    SplitAt(cmp, l, t.key, t.value, r, key, value);
  }

  /** A search that ends at a leaf has shown that the key is absent. */
  lemma SearchMiss<K, V>(cmp: (K, K) -> int, p: Path<K, V>, key: K)
    requires Bracketed(cmp, p, key)
    ensures Lookup(cmp, Whole(p, Leaf), key) == None
    ensures Unbind(cmp, Whole(p, Leaf), key) == Whole(p, Leaf)
  {
    SplitBetween(cmp, Before(p), After(p), key);
    assert Whole(p, Leaf) == Before(p) + After(p);
  }

  /** ... and is the place where a new node for it belongs. */
  lemma InsertHere<K, V>(cmp: (K, K) -> int, p: Path<K, V>, n: Tree<K, V>)
    requires n.Node? && n.left.Leaf? && n.right.Leaf? && Bracketed(cmp, p, n.key)
    ensures Bind(cmp, Whole(p, Leaf), n.key, n.value) == Whole(p, n)
    ensures |Whole(p, n)| == |Whole(p, Leaf)| + 1
  {
    BindBetween(cmp, Before(p), After(p), n.key, n.value);
    assert Whole(p, Leaf) == Before(p) + After(p);
  }

  /** At a leaf below a node, comparing with that node tells the side the leaf is on. */
  lemma BracketSide<K, V>(cmp: (K, K) -> int, p: Path<K, V>, key: K)
    requires Bracketed(cmp, p, key) && p.Step?
    ensures cmp(key, p.key) < 0 <==> p.side.Left?
  {
    if p.side.Left? {
      assert After(p)[0] == (p.key, p.value);
    } else {
      assert Before(p)[|Before(p)| - 1] == (p.key, p.value);
    }
  }

  /** A traversal visits the near subtree, then the node, then the far subtree, and stops at the
      first entry that is not accepted. */
  lemma VisitedParts<K, V>(a: seq<(K, V)>, k: K, v: V, b: seq<(K, V)>, f: (K, V) -> bool)
    ensures Visited(a + [(k, v)] + b, f)
         == (if !Accepted(a, f) then Visited(a, f)
             else if !f(k, v) then Visited(a, f) + [(k, v)]
             else Visited(a, f) + [(k, v)] + Visited(b, f))
    ensures Accepted(a + [(k, v)] + b, f) == (Accepted(a, f) && f(k, v) && Accepted(b, f))
  {
    var m := [(k, v)];
    AcceptedParts(a, k, v, b, f);
    assert a + m + b == a + (m + b);
    VisitedConcat(a, m + b, f);
    assert (m + b)[1..] == b;
    if Accepted(a, f) {
      VisitedAll(a, f);
      if f(k, v) {
        assert Visited(m + b, f) == m + Visited(b, f);
        assert a + (m + Visited(b, f)) == a + m + Visited(b, f);
      } else {
        assert Visited(m + b, f) == m;
      }
    }
  }

  lemma AcceptedParts<K, V>(a: seq<(K, V)>, k: K, v: V, b: seq<(K, V)>, f: (K, V) -> bool)
    ensures Accepted(a + [(k, v)] + b, f) == (Accepted(a, f) && f(k, v) && Accepted(b, f))
  {
    var s := a + [(k, v)] + b;
    if Accepted(s, f) {
      forall i | 0 <= i < |a| ensures f(a[i].0, a[i].1) { assert s[i] == a[i]; }
      assert s[|a|] == (k, v);
      forall i | 0 <= i < |b| ensures f(b[i].0, b[i].1) { assert s[|a| + 1 + i] == b[i]; }
    }
  }

  lemma VisitedInorder<K, V>(t: Tree<K, V>, f: (K, V) -> bool)
    requires t.Node?
    ensures Visited(Inorder(t), f)
         == (if !Accepted(Inorder(t.left), f) then Visited(Inorder(t.left), f)
             else if !f(t.key, t.value) then Visited(Inorder(t.left), f) + [(t.key, t.value)]
             else Visited(Inorder(t.left), f) + [(t.key, t.value)] + Visited(Inorder(t.right), f))
    ensures Accepted(Inorder(t), f)
         == (Accepted(Inorder(t.left), f) && f(t.key, t.value) && Accepted(Inorder(t.right), f))
  {
    VisitedParts(Inorder(t.left), t.key, t.value, Inorder(t.right), f);
  }

  lemma VisitedReverse<K, V>(t: Tree<K, V>, f: (K, V) -> bool)
    requires t.Node?
    ensures var near, far := Reverse(Inorder(t.right)), Reverse(Inorder(t.left));
            && Visited(Reverse(Inorder(t)), f)
            == (if !Accepted(near, f) then Visited(near, f)
                else if !f(t.key, t.value) then Visited(near, f) + [(t.key, t.value)]
                else Visited(near, f) + [(t.key, t.value)] + Visited(far, f))
            && Accepted(Reverse(Inorder(t)), f) == (Accepted(near, f) && f(t.key, t.value) && Accepted(far, f))
  {
    var m := [(t.key, t.value)];
    ReverseConcat(Inorder(t.left) + m, Inorder(t.right));
    ReverseConcat(Inorder(t.left), m);
    assert Reverse(m) == m;
    assert Reverse(Inorder(t)) == Reverse(Inorder(t.right)) + m + Reverse(Inorder(t.left));
    VisitedParts(Reverse(Inorder(t.right)), t.key, t.value, Reverse(Inorder(t.left)), f);
  }

  lemma {:induction false} VisitedAll<K, V>(s: seq<(K, V)>, f: (K, V) -> bool)
    requires Accepted(s, f)
    ensures Visited(s, f) == s
  {
    if s != [] {
      VisitedAll(s[1..], f);
    }
  }
}
