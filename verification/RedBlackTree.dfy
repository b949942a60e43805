/** Red-black trees as values: the shapes that the pointer structure of
    `collections/treemap/tree_map.go` takes, seen from a position inside the tree.

    A `Tree` is a subtree; a `Path` is the way from a subtree up to the root (a zipper).
    Both carry the node identities, so that a tree determines the records that represent it. */
module RedBlackTree {

  type Ref = nat  // 0 is nil

  datatype Color = Red | Black

  datatype Side = Left | Right {
    function Flip(): Side { if Left? then Right else Left }
  }

  datatype Tree<K, V> =
    | Leaf
    | Node(id: Ref, color: Color, key: K, value: V, left: Tree<K, V>, right: Tree<K, V>)

  /** `Step` says: the subtree is the `side` child of node `id`, whose other child is `sib`. */
  datatype Path<K, V> =
    | Top
    | Step(up: Path<K, V>, side: Side, id: Ref, color: Color, key: K, value: V, sib: Tree<K, V>)

  function Root<K, V>(t: Tree<K, V>): Ref { if t.Leaf? then 0 else t.id }

  function Head<K, V>(p: Path<K, V>): Ref { if p.Top? then 0 else p.id }

  /** The subtree rooted at the parent, once `t` is put into the position `p` describes. */
  function Fill<K, V>(p: Path<K, V>, t: Tree<K, V>): Tree<K, V>
    requires p.Step?
  {
    if p.side.Left? then Node(p.id, p.color, p.key, p.value, t, p.sib)
    else Node(p.id, p.color, p.key, p.value, p.sib, t)
  }

  /** The way to the sibling of `t` at `p`. */
  function Across<K, V>(p: Path<K, V>, t: Tree<K, V>): Path<K, V>
    requires p.Step?
  {
    p.(side := p.side.Flip(), sib := t)
  }

  function Plug<K, V>(p: Path<K, V>, t: Tree<K, V>): Tree<K, V>
    decreases p
  {
    if p.Top? then t else Plug(p.up, Fill(p, t))
  }

  function Depth<K, V>(p: Path<K, V>): nat { if p.Top? then 0 else 1 + Depth(p.up) }

  // ---------- Contents ----------

  function Inorder<K, V>(t: Tree<K, V>): seq<(K, V)> {
    if t.Leaf? then [] else Inorder(t.left) + [(t.key, t.value)] + Inorder(t.right)
  }

  function Before<K, V>(p: Path<K, V>): seq<(K, V)> {
    if p.Top? then []
    else if p.side.Left? then Before(p.up)
    else Before(p.up) + Inorder(p.sib) + [(p.key, p.value)]
  }

  function After<K, V>(p: Path<K, V>): seq<(K, V)> {
    if p.Top? then []
    else if p.side.Left? then [(p.key, p.value)] + Inorder(p.sib) + After(p.up)
    else After(p.up)
  }

  /** The contents of the whole tree. */
  function Whole<K, V>(p: Path<K, V>, t: Tree<K, V>): seq<(K, V)> {
    Before(p) + Inorder(t) + After(p)
  }

  lemma {:induction false} PlugInorder<K, V>(p: Path<K, V>, t: Tree<K, V>)
    ensures Inorder(Plug(p, t)) == Whole(p, t)
    decreases p
  {
    if p.Step? {
      PlugInorder(p.up, Fill(p, t));
      var kv := [(p.key, p.value)];
      if p.side.Left? {
        assert Before(p.up) + (Inorder(t) + kv + Inorder(p.sib)) + After(p.up)
            == Before(p) + Inorder(t) + (kv + Inorder(p.sib) + After(p.up));
      } else {
        assert Before(p.up) + (Inorder(p.sib) + kv + Inorder(t)) + After(p.up)
            == (Before(p.up) + Inorder(p.sib) + kv) + Inorder(t) + After(p.up);
      }
    }
  }

  // ---------- Balance ----------

  predicate IsRed<K, V>(t: Tree<K, V>) { t.Node? && t.color.Red? }

  predicate HeadRed<K, V>(p: Path<K, V>) { p.Step? && p.color.Red? }

  /** Every way down from the root of `t` to a leaf meets exactly `n` black nodes. */
  ghost predicate BlackHeight<K, V>(t: Tree<K, V>, n: int) {
    if t.Leaf? then n == 0
    else
      var m := if t.color.Black? then n - 1 else n;
      BlackHeight(t.left, m) && BlackHeight(t.right, m)
  }

  ghost predicate NoRedRed<K, V>(t: Tree<K, V>) {
    t.Node? ==>
      && (t.color.Red? ==> !IsRed(t.left) && !IsRed(t.right))
      && NoRedRed(t.left) && NoRedRed(t.right)
  }

  /** A finished red-black tree of black height `n`. */
  ghost predicate RedBlack<K, V>(t: Tree<K, V>, n: int) {
    !IsRed(t) && NoRedRed(t) && BlackHeight(t, n)
  }

  /** The surroundings of a position are balanced, provided a subtree of black height `n`
      goes there; the whole tree then has black height `total`. */
  ghost predicate PathBalanced<K, V>(p: Path<K, V>, n: int, total: int) {
    if p.Top? then n == total
    else
      && NoRedRed(p.sib)
      && BlackHeight(p.sib, n)
      && (p.color.Red? ==> !IsRed(p.sib) && p.up.Step? && p.up.color.Black?)
      && PathBalanced(p.up, if p.color.Black? then n + 1 else n, total)
  }

  lemma {:induction false} BlackHeightNat<K, V>(t: Tree<K, V>, n: int)
    requires BlackHeight(t, n)
    ensures n >= 0
    ensures t.Node? && t.color.Black? ==> n >= 1
  {
    if t.Node? {
      BlackHeightNat(t.left, if t.color.Black? then n - 1 else n);
    }
  }

  lemma {:induction false} PlugBalanced<K, V>(p: Path<K, V>, t: Tree<K, V>, n: int, total: int)
    requires PathBalanced(p, n, total) && BlackHeight(t, n) && NoRedRed(t)
    requires IsRed(t) ==> !HeadRed(p)
    ensures BlackHeight(Plug(p, t), total) && NoRedRed(Plug(p, t))
    ensures p.Step? ==> !IsRed(Plug(p, t))
    decreases p
  {
    if p.Step? {
      PlugBalanced(p.up, Fill(p, t), if p.color.Black? then n + 1 else n, total);
    }
  }

  function Size<K, V>(t: Tree<K, V>): nat { |Inorder(t)| }

  function Height<K, V>(t: Tree<K, V>): nat {
    if t.Leaf? then 0
    else 1 + if Height(t.left) > Height(t.right) then Height(t.left) else Height(t.right)
  }

  function Pow2(n: nat): nat { if n == 0 then 1 else 2 * Pow2(n - 1) }

  /** The logarithm to base 2, rounded down. */
  function Log2(n: nat): nat
    requires n > 0
  {
    if n == 1 then 0 else 1 + Log2(n / 2)
  }

  lemma {:induction false} Log2Bounds(n: nat)
    requires n > 0
    ensures Pow2(Log2(n)) <= n < 2 * Pow2(Log2(n))
  {
    if n > 1 {
      Log2Bounds(n / 2);
    }
  }

  lemma {:induction false} Log2Least(k: nat, n: nat)
    requires 0 < n && Pow2(k) <= n
    ensures k <= Log2(n)
  {
    if k > 0 {
      assert Pow2(k - 1) <= n / 2;
      Pow2Positive(k - 1);
      Log2Least(k - 1, n / 2);
    }
  }

  lemma {:induction false} Pow2Positive(k: nat)
    ensures Pow2(k) >= 1
  {
    if k > 0 {
      Pow2Positive(k - 1);
    }
  }

  lemma {:induction false} SizeLowerBound<K, V>(t: Tree<K, V>, n: nat)
    requires BlackHeight(t, n)
    ensures Pow2(n) <= Size(t) + 1
  {
    if t.Node? {
      var m := if t.color.Black? then n - 1 else n;
      BlackHeightNat(t, n);
      SizeLowerBound(t.left, m);
      SizeLowerBound(t.right, m);
    }
  }

  lemma {:induction false} HeightUpperBound<K, V>(t: Tree<K, V>, n: nat)
    requires BlackHeight(t, n) && NoRedRed(t)
    ensures Height(t) <= 2 * n + (if IsRed(t) then 1 else 0)
  {
    if t.Node? {
      var m := if t.color.Black? then n - 1 else n;
      BlackHeightNat(t, n);
      HeightUpperBound(t.left, m);
      HeightUpperBound(t.right, m);
    }
  }

  /** The O(log n) promise. */
  lemma HeightIsLogarithmic<K, V>(t: Tree<K, V>, n: int)
    requires RedBlack(t, n)
    ensures Height(t) <= 2 * Log2(Size(t) + 1)
  {
    BlackHeightNat(t, n);
    HeightUpperBound(t, n);
    SizeLowerBound(t, n);
    Log2Least(n, Size(t) + 1);
  }

  lemma {:induction false} DepthFits<K, V>(p: Path<K, V>, t: Tree<K, V>)
    ensures Depth(p) + Height(t) <= Height(Plug(p, t))
    decreases p
  {
    if p.Step? {
      DepthFits(p.up, Fill(p, t));
    }
  }

  /** Nor does any way down from the root take more comparisons. */
  lemma SearchIsLogarithmic<K, V>(whole: Tree<K, V>, p: Path<K, V>, t: Tree<K, V>, n: int, compared: nat)
    requires RedBlack(whole, n) && whole == Plug(p, t) && compared <= Depth(p) + Height(t)
    ensures compared <= 2 * Log2(Size(whole) + 1)
  {
    DepthFits(p, t);
    HeightIsLogarithmic(whole, n);
  }

  // ---------- Rotations ----------

  /** The subtree `rotateLeft` (`side` Left) or `rotateRight` (`side` Right) makes out of `t`:
      the child on the other side comes up and `t`'s root goes down to `side`. */
  function Rotated<K, V>(t: Tree<K, V>, side: Side): Tree<K, V>
    requires t.Node? && (if side.Left? then t.right.Node? else t.left.Node?)
  {
    if side.Left? then
      var r := t.right;
      r.(left := t.(right := r.left))
    else
      var l := t.left;
      l.(right := t.(left := l.right))
  }

  lemma Regroup<T>(a: seq<T>, x: seq<T>, b: seq<T>, y: seq<T>, c: seq<T>)
    ensures a + x + (b + y + c) == (a + x + b) + y + c
  {
  }

  lemma RotatedInorder<K, V>(t: Tree<K, V>, side: Side)
    requires t.Node? && (if side.Left? then t.right.Node? else t.left.Node?)
    ensures Inorder(Rotated(t, side)) == Inorder(t)
  {
    var u := Rotated(t, side);
    var kt, ku := [(t.key, t.value)], [(u.key, u.value)];
    if side.Left? {
      var a, b, c := Inorder(t.left), Inorder(t.right.left), Inorder(t.right.right);
      Regroup(a, kt, b, ku, c);
    } else {
      var a, b, c := Inorder(t.left.left), Inorder(t.left.right), Inorder(t.right);
      Regroup(a, ku, b, kt, c);
    }
  }

  // ---------- Insertion: the red node at the position may have a red parent ----------

  /** What the repair loop of an insertion keeps: apart from a red parent, all is well. */
  ghost predicate InsertPending<K, V>(p: Path<K, V>, t: Tree<K, V>, n: int, total: int) {
    IsRed(t) && NoRedRed(t) && BlackHeight(t, n) && PathBalanced(p, n, total)
  }

  /** Red uncle: parent and uncle turn black, the grandparent red; the problem moves up to it. */
  function Recolored<K, V>(p: Path<K, V>, t: Tree<K, V>): Tree<K, V>
    requires p.Step? && p.up.Step? && p.up.sib.Node?
  {
    Fill(p.up.(color := Red, sib := p.up.sib.(color := Black)), Fill(p.(color := Black), t))
  }

  lemma RecoloredPending<K, V>(p: Path<K, V>, t: Tree<K, V>, n: int, total: int)
    requires InsertPending(p, t, n, total) && HeadRed(p) && IsRed(p.up.sib)
    ensures InsertPending(p.up.up, Recolored(p, t), n + 1, total)
    ensures Whole(p.up.up, Recolored(p, t)) == Whole(p, t)
  {
    assert PathBalanced(p.up, n, total);
    PlugInorder(p, t);
    PlugInorder(p.up.up, Fill(p.up, Fill(p, t)));
    var u := p.up.sib;
    assert Inorder(u.(color := Black)) == Inorder(u);
    assert Inorder(Fill(p.(color := Black), t)) == Inorder(Fill(p, t));
    assert Inorder(Recolored(p, t)) == Inorder(Fill(p.up, Fill(p, t)));
  }

  /** The node at the position is the inner grandchild: rotating its parent makes the parent the
      outer grandchild, which is the new position. */
  function TurnedOut<K, V>(p: Path<K, V>, t: Tree<K, V>): (Path<K, V>, Tree<K, V>)
    requires p.Step? && t.Node?
  {
    var r := Rotated(Fill(p, t), p.side.Flip());
    if p.side.Right? then (Step(p.up, Left, r.id, r.color, r.key, r.value, r.right), r.left)
    else (Step(p.up, Right, r.id, r.color, r.key, r.value, r.left), r.right)
  }

  lemma TurnedOutPending<K, V>(p: Path<K, V>, t: Tree<K, V>, n: int, total: int)
    requires InsertPending(p, t, n, total) && HeadRed(p)
    ensures var (q, u) := TurnedOut(p, t);
            && InsertPending(q, u, n, total) && HeadRed(q) && q.up == p.up && q.side == p.side.Flip()
            && Fill(q, u) == Rotated(Fill(p, t), p.side.Flip())
            && Whole(q, u) == Whole(p, t)
  {
    var (q, u) := TurnedOut(p, t);
    RotatedInorder(Fill(p, t), p.side.Flip());
    PlugInorder(p, t);
    PlugInorder(p.up, Fill(p, t));
    PlugInorder(q, u);
    PlugInorder(p.up, Fill(q, u));
  }

  /** The outer grandchild stays; its parent, now black, is above the old grandparent, now red. */
  function Lifted<K, V>(p: Path<K, V>): Path<K, V>
    requires p.Step? && p.up.Step?
  {
    var g := p.up;
    Step(g.up, p.side, p.id, Black, p.key, p.value, Fill(g.(color := Red), p.sib))
  }

  lemma LiftedPending<K, V>(p: Path<K, V>, t: Tree<K, V>, n: int, total: int)
    requires InsertPending(p, t, n, total) && HeadRed(p) && !IsRed(p.up.sib) && p.side == p.up.side
    ensures InsertPending(Lifted(p), t, n, total)
    ensures Fill(Lifted(p), t) == Rotated(Fill(p.up.(color := Red), Fill(p.(color := Black), t)), p.side.Flip())
    ensures Whole(Lifted(p), t) == Whole(p, t)
  {
    assert PathBalanced(p.up, n, total);
    var g := Fill(p.up.(color := Red), Fill(p.(color := Black), t));
    RotatedInorder(g, p.side.Flip());
    assert Inorder(Fill(p.(color := Black), t)) == Inorder(Fill(p, t));
    assert Inorder(g) == Inorder(Fill(p.up, Fill(p, t)));
    PlugInorder(p, t);
    PlugInorder(p.up.up, Fill(p.up, Fill(p, t)));
    PlugInorder(Lifted(p), t);
    PlugInorder(p.up.up, Fill(Lifted(p), t));
  }

  lemma {:induction false} PlugNode<K, V>(p: Path<K, V>, t: Tree<K, V>)
    requires t.Node? || p.Step?
    ensures Plug(p, t).Node?
    decreases p
  {
    if p.Step? {
      PlugNode(p.up, Fill(p, t));
    }
  }

  /** When the parent is not red, blackening the root finishes the insertion. */
  lemma InsertDone<K, V>(p: Path<K, V>, t: Tree<K, V>, n: int, total: int)
    requires InsertPending(p, t, n, total) && !HeadRed(p)
    ensures Plug(p, t).Node?
    ensures var w := Plug(p, t).(color := Black);
            RedBlack(w, if p.Top? then total + 1 else total) && Inorder(w) == Whole(p, t)
  {
    PlugNode(p, t);
    PlugBalanced(p, t, n, total);
    PlugInorder(p, t);
  }

  // ---------- Positions in a finished tree ----------

  /** Nothing is out of order at this position: with `t` there, the whole tree is red-black. */
  ghost predicate Settled<K, V>(p: Path<K, V>, t: Tree<K, V>, n: int, total: int) {
    && NoRedRed(t) && BlackHeight(t, n) && PathBalanced(p, n, total)
    && (IsRed(t) ==> p.Step? && !HeadRed(p))
  }

  lemma SettledPlug<K, V>(p: Path<K, V>, t: Tree<K, V>, n: int, total: int)
    requires Settled(p, t, n, total)
    ensures RedBlack(Plug(p, t), total)
  {
    PlugBalanced(p, t, n, total);
  }

  function Kid<K, V>(t: Tree<K, V>, side: Side): Tree<K, V>
    requires t.Node?
  {
    if side.Left? then t.left else t.right
  }

  function WithKid<K, V>(t: Tree<K, V>, side: Side, kid: Tree<K, V>): Tree<K, V>
    requires t.Node?
  {
    if side.Left? then t.(left := kid) else t.(right := kid)
  }

  /** The way to the `side` child of `t`. */
  function Down<K, V>(p: Path<K, V>, t: Tree<K, V>, side: Side): Path<K, V>
    requires t.Node?
  {
    Step(p, side, t.id, t.color, t.key, t.value, Kid(t, side.Flip()))
  }

  lemma SettledDown<K, V>(p: Path<K, V>, t: Tree<K, V>, n: int, total: int, side: Side)
    requires Settled(p, t, n, total) && t.Node?
    ensures Settled(Down(p, t, side), Kid(t, side), if t.color.Black? then n - 1 else n, total)
  {
  }

  function Leftmost<K, V>(t: Tree<K, V>): Tree<K, V>
    requires t.Node?
    ensures Leftmost(t).Node? && Leftmost(t).left.Leaf?
  {
    if t.left.Leaf? then t else Leftmost(t.left)
  }

  function Rightmost<K, V>(t: Tree<K, V>): Tree<K, V>
    requires t.Node?
    ensures Rightmost(t).Node? && Rightmost(t).right.Leaf?
  {
    if t.right.Leaf? then t else Rightmost(t.right)
  }

  function LeftPath<K, V>(p: Path<K, V>, t: Tree<K, V>): Path<K, V>
    requires t.Node?
    decreases t
  {
    if t.left.Leaf? then p else LeftPath(Down(p, t, Left), t.left)
  }

  lemma {:induction false} LeftmostSettled<K, V>(p: Path<K, V>, t: Tree<K, V>, n: int, total: int)
    returns (m: int)
    requires Settled(p, t, n, total) && t.Node?
    ensures Settled(LeftPath(p, t), Leftmost(t), m, total)
    ensures Before(LeftPath(p, t)) == Before(p)
    ensures Inorder(Leftmost(t)) + After(LeftPath(p, t)) == Inorder(t) + After(p)
    decreases t
  {
    if t.left.Leaf? {
      m := n;
    } else {
      SettledDown(p, t, n, total, Left);
      m := LeftmostSettled(Down(p, t, Left), t.left, if t.color.Black? then n - 1 else n, total);
      assert Inorder(t.left) + ([(t.key, t.value)] + Inorder(t.right) + After(p)) == Inorder(t) + After(p);
    }
  }

  /** The node with two children, after it has taken over its successor's key and value. */
  function Replaced<K, V>(t: Tree<K, V>): Tree<K, V>
    requires t.Node? && t.right.Node?
  {
    t.(key := Leftmost(t.right).key, value := Leftmost(t.right).value)
  }

  /** Unlinking the successor then deletes exactly the entry the node held before. */
  lemma SuccessorSettled<K, V>(p: Path<K, V>, t: Tree<K, V>, n: int, total: int) returns (m: int)
    requires Settled(p, t, n, total) && t.Node? && t.right.Node?
    ensures var q, u := LeftPath(Down(p, Replaced(t), Right), t.right), Leftmost(t.right);
            && Settled(q, u, m, total)
            && Before(q) + Inorder(u.left) + Inorder(u.right) + After(q)
            == Before(p) + Inorder(t.left) + Inorder(t.right) + After(p)
  {
    var d, u := Down(p, Replaced(t), Right), Leftmost(t.right);
    var q := LeftPath(d, t.right);
    SettledDown(p, Replaced(t), n, total, Right);
    m := LeftmostSettled(d, t.right, if t.color.Black? then n - 1 else n, total);
    var kv := [(u.key, u.value)];
    assert Inorder(u) == kv + Inorder(u.right);
    MovedEntry(Before(p) + Inorder(t.left), kv, Inorder(u.right), After(q), Inorder(t.right), After(p));
  }

  lemma MovedEntry<T>(l: seq<T>, kv: seq<T>, r: seq<T>, a: seq<T>, far: seq<T>, rest: seq<T>)
    requires kv + r + a == far + rest
    ensures (l + kv) + [] + r + a == l + far + rest
  {
    calc {
      (l + kv) + [] + r + a;
      l + (kv + r + a);
      l + far + rest;
    }
  }

  /** In-order, the leftmost node comes first and the rightmost last. */
  lemma {:induction false} LeftmostIsFirst<K, V>(t: Tree<K, V>)
    requires t.Node?
    ensures Inorder(t) != [] && Inorder(t)[0] == (Leftmost(t).key, Leftmost(t).value)
  {
    if t.left.Node? {
      LeftmostIsFirst(t.left);
    }
  }

  lemma {:induction false} RightmostIsLast<K, V>(t: Tree<K, V>)
    requires t.Node?
    ensures Inorder(t) != [] && Inorder(t)[|Inorder(t)| - 1] == (Rightmost(t).key, Rightmost(t).value)
  {
    if t.right.Node? {
      RightmostIsLast(t.right);
    }
  }

  // ---------- Deletion: one black node is missing at the position ----------

  function Blackened<K, V>(t: Tree<K, V>): Tree<K, V> { if t.Leaf? then t else t.(color := Black) }

  /** What the repair loop of a deletion keeps: the subtree is one black node short. It may be
      red, even with a red child; blackening its root would then repair everything. */
  ghost predicate DeletePending<K, V>(p: Path<K, V>, t: Tree<K, V>, n: int, total: int) {
    NoRedRed(Blackened(t)) && BlackHeight(t, n) && PathBalanced(p, n + 1, total)
  }

  /** Taking out a node that has at most one child leaves the tree settled, if the node was red,
      or one black node short. */
  lemma SpliceSettled<K, V>(p: Path<K, V>, t: Tree<K, V>, n: int, total: int)
    requires Settled(p, t, n, total) && t.Node? && (t.left.Leaf? || t.right.Leaf?)
    ensures var child := if t.left.Node? then t.left else t.right;
            if t.color.Red? then child.Leaf? && Settled(p, child, n, total)
            else DeletePending(p, child, n - 1, total)
  {
    var m := if t.color.Black? then n - 1 else n;
    var child := if t.left.Node? then t.left else t.right;
    assert NoRedRed(child) && BlackHeight(child, m) && BlackHeight(if t.left.Node? then t.right else t.left, m);
    BlackHeightNat(child, m);
  }

  lemma SiblingExists<K, V>(p: Path<K, V>, t: Tree<K, V>, n: int, total: int)
    requires DeletePending(p, t, n, total) && p.Step?
    ensures p.sib.Node?
  {
    BlackHeightNat(t, n);
  }

  /** Red sibling: it is rotated above the parent, and the new sibling is black. */
  function SiblingRaised<K, V>(p: Path<K, V>): Path<K, V>
    requires p.Step? && p.sib.Node?
  {
    var s := p.sib;
    Step(Step(p.up, p.side, s.id, Black, s.key, s.value, Kid(s, p.side.Flip())),
         p.side, p.id, Red, p.key, p.value, Kid(s, p.side))
  }

  lemma SiblingRaisedPending<K, V>(p: Path<K, V>, t: Tree<K, V>, n: int, total: int)
    requires DeletePending(p, t, n, total) && !IsRed(t) && p.Step? && IsRed(p.sib)
    ensures var q := SiblingRaised(p);
            && DeletePending(q, t, n, total) && !IsRed(q.sib)
            && Whole(q, t) == Whole(p, t)
            && Fill(q.up, Fill(q, t)) == Rotated(Fill(p.(color := Red, sib := p.sib.(color := Black)), t), p.side)
  {
    var q := SiblingRaised(p);
    var g := Fill(p.(color := Red, sib := p.sib.(color := Black)), t);
    RotatedInorder(g, p.side);
    assert Inorder(p.sib.(color := Black)) == Inorder(p.sib);
    assert Inorder(g) == Inorder(Fill(p, t));
    PlugInorder(p, t);
    PlugInorder(p.up, Fill(p, t));
    PlugInorder(q, t);
    PlugInorder(q.up, Fill(q, t));
    PlugInorder(p.up, Fill(q.up, Fill(q, t)));
  }

  /** Black sibling with black children: it turns red, and the parent is now one short. */
  lemma SiblingReddenedPending<K, V>(p: Path<K, V>, t: Tree<K, V>, n: int, total: int)
    requires DeletePending(p, t, n, total) && !IsRed(t) && p.Step? && p.sib.Node? && p.sib.color.Black?
    requires !IsRed(p.sib.left) && !IsRed(p.sib.right)
    ensures var u := Fill(p.(sib := p.sib.(color := Red)), t);
            && DeletePending(p.up, u, if p.color.Black? then n + 1 else n, total)
            && Whole(p.up, u) == Whole(p, t)
  {
    var u := Fill(p.(sib := p.sib.(color := Red)), t);
    assert Inorder(p.sib.(color := Red)) == Inorder(p.sib);
    assert Inorder(u) == Inorder(Fill(p, t));
    PlugInorder(p, t);
    PlugInorder(p.up, Fill(p, t));
    PlugInorder(p.up, u);
  }

  /** Black sibling whose near child is red and far child is not: the sibling is rotated away. */
  function NearRaised<K, V>(s: Tree<K, V>, side: Side): Tree<K, V>
    requires s.Node? && Kid(s, side).Node?
  {
    Rotated(WithKid(s.(color := Red), side, Kid(s, side).(color := Black)), side.Flip())
  }

  lemma NearRaisedPending<K, V>(p: Path<K, V>, t: Tree<K, V>, n: int, total: int)
    requires DeletePending(p, t, n, total) && p.Step? && p.sib.Node? && p.sib.color.Black?
    requires IsRed(Kid(p.sib, p.side)) && !IsRed(Kid(p.sib, p.side.Flip()))
    ensures var s := NearRaised(p.sib, p.side);
            && DeletePending(p.(sib := s), t, n, total)
            && s.color.Black? && IsRed(Kid(s, p.side.Flip()))
            && Inorder(s) == Inorder(p.sib)
            && Before(p.(sib := s)) == Before(p) && After(p.(sib := s)) == After(p)
  {
    var near, far := Kid(p.sib, p.side), Kid(p.sib, p.side.Flip());
    assert NoRedRed(near) && BlackHeight(near, n) && NoRedRed(far) && BlackHeight(far, n);
    var w := WithKid(p.sib.(color := Red), p.side, near.(color := Black));
    RotatedInorder(w, p.side.Flip());
    assert Inorder(near.(color := Black)) == Inorder(near);
    assert Inorder(w) == Inorder(p.sib);
  }

  /** Black sibling whose far child is red: the last rotation, which fills the gap. */
  function Refilled<K, V>(p: Path<K, V>, t: Tree<K, V>): Tree<K, V>
    requires p.Step? && p.sib.Node? && Kid(p.sib, p.side.Flip()).Node?
  {
    var far := Kid(p.sib, p.side.Flip());
    var s := WithKid(p.sib.(color := p.color), p.side.Flip(), far.(color := Black));
    Rotated(Fill(p.(color := Black, sib := s), t), p.side)
  }

  lemma RefilledSettled<K, V>(p: Path<K, V>, t: Tree<K, V>, n: int, total: int)
    requires DeletePending(p, t, n, total) && !IsRed(t) && p.Step? && p.sib.Node? && p.sib.color.Black?
    requires IsRed(Kid(p.sib, p.side.Flip()))
    requires p.up.Top? ==> p.color.Black?
    ensures var u := Refilled(p, t);
            && Settled(p.up, u, if p.color.Black? then n + 2 else n + 1, total)
            && Whole(p.up, u) == Whole(p, t)
  {
    var near, far := Kid(p.sib, p.side), Kid(p.sib, p.side.Flip());
    assert NoRedRed(near) && BlackHeight(near, n) && NoRedRed(far) && BlackHeight(far, n);
    var s := WithKid(p.sib.(color := p.color), p.side.Flip(), far.(color := Black));
    var g := Fill(p.(color := Black, sib := s), t);
    RotatedInorder(g, p.side);
    assert Inorder(far.(color := Black)) == Inorder(far);
    assert Inorder(s) == Inorder(p.sib);
    assert Inorder(g) == Inorder(Fill(p, t));
    PlugInorder(p, t);
    PlugInorder(p.up, Fill(p, t));
    PlugInorder(p.up, Refilled(p, t));
  }

  // One round of the repair: first a red sibling is raised; then either the (black) sibling turns
  // red and the gap moves up, or its red child is brought to the far side and the gap is filled.

  function Raised<K, V>(p: Path<K, V>): Path<K, V>
    requires p.Step?
  {
    if IsRed(p.sib) then SiblingRaised(p) else p
  }

  predicate RedKid<K, V>(t: Tree<K, V>) { t.Node? && (IsRed(t.left) || IsRed(t.right)) }

  function Straightened<K, V>(p: Path<K, V>): Path<K, V>
    requires p.Step? && RedKid(p.sib)
  {
    if IsRed(Kid(p.sib, p.side.Flip())) then p else p.(sib := NearRaised(p.sib, p.side))
  }

  function RoundPath<K, V>(p: Path<K, V>): Path<K, V>
    requires p.Step?
  {
    Raised(p).up
  }

  function RoundTree<K, V>(p: Path<K, V>, t: Tree<K, V>): Tree<K, V>
    requires p.Step? && Raised(p).sib.Node?
  {
    var q := Raised(p);
    if RedKid(q.sib) then Refilled(Straightened(q), t) else Fill(q.(sib := q.sib.(color := Red)), t)
  }

  lemma RoundKeeps<K, V>(p: Path<K, V>, t: Tree<K, V>, n: int, total: int) returns (m: int)
    requires DeletePending(p, t, n, total) && !IsRed(t) && p.Step?
    ensures p.sib.Node? && Raised(p).sib.Node?
    ensures var q, u := RoundPath(p), RoundTree(p, t);
            && Whole(q, u) == Whole(p, t)
            && (if RedKid(Raised(p).sib) then RedBlack(Plug(q, u), total) else DeletePending(q, u, m, total))
            && (IsRed(u) || Depth(q) < Depth(p))
  {
    SiblingExists(p, t, n, total);
    var q := Raised(p);
    if IsRed(p.sib) {
      SiblingRaisedPending(p, t, n, total);
    }
    SiblingExists(q, t, n, total);
    if RedKid(q.sib) {
      if !IsRed(Kid(q.sib, q.side.Flip())) {
        NearRaisedPending(q, t, n, total);
      }
      RefilledSettled(Straightened(q), t, n, total);
      SettledPlug(q.up, RoundTree(p, t), if q.color.Black? then n + 2 else n + 1, total);
      m := n;
    } else {
      SiblingReddenedPending(q, t, n, total);
      m := if q.color.Black? then n + 1 else n;
    }
  }

  /** When the subtree is red, or is the whole tree, blackening it finishes the deletion. */
  lemma DeleteDone<K, V>(p: Path<K, V>, t: Tree<K, V>, n: int, total: int)
    requires DeletePending(p, t, n, total) && (IsRed(t) || p.Top?)
    ensures var w := Plug(p, Blackened(t));
            && RedBlack(w, if IsRed(t) then total else total - 1)
            && Inorder(w) == Whole(p, t)
  {
    if IsRed(t) {
      PlugBalanced(p, Blackened(t), n + 1, total);
    }
    PlugInorder(p, Blackened(t));
    assert Inorder(Blackened(t)) == Inorder(t);
  }
}
