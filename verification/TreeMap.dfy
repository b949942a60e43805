/** The red-black TreeMap of `collections/treemap/tree_map.go`, working in place on an arena of
    nodes with parent links. */
module TreeMaps {
  import opened FiniteSets
  import opened NodeArena
  import opened Options
  import opened RedBlackTree
  import opened Sequences
  import opened SortedEntries
  import opened TreeSearch

  class TreeMap<K(!new), V> {
    const cmp: (K, K) -> int
    var nodes: Arena<K, V>
    var root: Ref
    var size: int

    ghost var tree: Tree<K, V>
    ghost var blackHeight: int

    /** The nodes reachable from the root are `t` in the surroundings `p`. */
    ghost predicate Shape(p: Path<K, V>, t: Tree<K, V>)
      reads this
    {
      At(nodes, root, p, t)
    }

    ghost predicate Valid()
      reads this
    {
      && TotalPreorder(cmp)
      && Shape(Top, tree)
      && RedBlack(tree, blackHeight)
      && Sorted(cmp, Inorder(tree))
      && size == Size(tree)
    }

    ghost function Entries(): seq<(K, V)>
      reads this
    {
      Inorder(tree)
    }

    /** The link that leads to `n`, in its parent or in the map, is set to `other`: the three-way
        choice that both rotations and `deleteNode` make. */
    method ReplaceLink(n: Ref, parent: Ref, other: Ref, ghost side: Side)
      requires parent != 0 ==> parent in nodes && (nodes[parent].left == n <==> side.Left?)
      modifies this`nodes, this`root
      ensures nodes == if parent == 0 then old(nodes) else SetLink(old(nodes), parent, side, other)
      ensures root == if parent == 0 then other else old(root)
    {
      if parent == 0 {
        root := other;
      } else if n == nodes[parent].left {
        nodes := nodes[parent := nodes[parent].(left := other)];
      } else {
        nodes := nodes[parent := nodes[parent].(right := other)];
      }
    }

    method RotateLeft(n: Ref, ghost r': Ref, ghost m: Ref, ghost q: Ref, ghost link: Side)
      requires RotationReady(nodes, Left, n, r', m, q, link)
      modifies this`nodes, this`root
      ensures RotationWrites(old(nodes), nodes, Left, n, r', m, q, link)
      ensures root == if q == 0 then r' else old(root)
    {
      var r := nodes[n].right;
      nodes := nodes[n := nodes[n].(right := nodes[r].left)];
      if nodes[r].left != 0 {
        nodes := nodes[nodes[r].left := nodes[nodes[r].left].(parent := n)];
      }
      nodes := nodes[r := nodes[r].(parent := nodes[n].parent)];
      ReplaceLink(n, nodes[n].parent, r, link);
      nodes := nodes[r := nodes[r].(left := n)];
      nodes := nodes[n := nodes[n].(parent := r)];
    }

    method RotateRight(n: Ref, ghost l': Ref, ghost m: Ref, ghost q: Ref, ghost link: Side)
      requires RotationReady(nodes, Right, n, l', m, q, link)
      modifies this`nodes, this`root
      ensures RotationWrites(old(nodes), nodes, Right, n, l', m, q, link)
      ensures root == if q == 0 then l' else old(root)
    {
      var l := nodes[n].left;
      nodes := nodes[n := nodes[n].(left := nodes[l].right)];
      if nodes[l].right != 0 {
        nodes := nodes[nodes[l].right := nodes[nodes[l].right].(parent := n)];
      }
      nodes := nodes[l := nodes[l].(parent := nodes[n].parent)];
      ReplaceLink(n, nodes[n].parent, l, link);
      nodes := nodes[l := nodes[l].(right := n)];
      nodes := nodes[n := nodes[n].(parent := l)];
    }

    /** `rotateLeft` or `rotateRight` at `n`: the subtree there becomes its rotation and the
        rest of the tree stays. */
    method Rotate(n: Ref, side: Side, ghost p: Path<K, V>, ghost t: Tree<K, V>)
      requires Shape(p, t) && t.Node? && n == t.id
      requires if side.Left? then t.right.Node? else t.left.Node?
      modifies this`nodes, this`root
      ensures Shape(p, Rotated(t, side))
    {
      ghost var h, r, m := nodes, Root(Rotated(t, side)), Root(Moved(t, side));
      RotationNodes(h, root, p, t, side);
      if side.Left? {
        RotateLeft(n, r, m, Head(p), SideOf(p));
      } else {
        RotateRight(n, r, m, Head(p), SideOf(p));
      }
      RotationHolds(h, nodes, old(root), p, t, side);
    }

    function Child(n: Ref, side: Side): Ref
      requires n in nodes
      reads this
    {
      ChildLink(nodes[n], side)
    }

    predicate NilOrBlack(n: Ref)
      requires n != 0 ==> n in nodes
      reads this
    {
      n == 0 || nodes[n].color == Black
    }

    method SetColor(n: Ref, color: Color, ghost p: Path<K, V>, ghost t: Tree<K, V>)
      requires Shape(p, t) && t.Node? && n == t.id
      modifies this`nodes
      ensures Shape(p, t.(color := color))
    {
      WriteNode(nodes, root, p, t, t.key, t.value, color);
      nodes := nodes[n := nodes[n].(color := color)];
    }

    /** Red uncle: three color writes. */
    method RecolorUncle(n: Ref, uncle: Ref, ghost p: Path<K, V>, ghost t: Tree<K, V>)
      requires Shape(p, t) && t.Node? && n == t.id
      requires p.Step? && p.up.Step? && p.up.sib.Node? && uncle == p.up.sib.id
      modifies this`nodes
      ensures Shape(p.up.up, Recolored(p, t))
    {
      var parent := nodes[n].parent;
      MoveUp(nodes, root, p, t);
      ghost var t1 := Fill(p.(color := Black), t);
      SetColor(parent, Black, p.up, Fill(p, t));
      MoveAcross(nodes, root, p.up, t1);
      ghost var u := p.up.sib.(color := Black);
      SetColor(uncle, Black, Across(p.up, t1), p.up.sib);
      MoveAcross(nodes, root, Across(p.up, t1), u);
      MoveUp(nodes, root, Across(p.up, t1), u);
      SetColor(nodes[parent].parent, Red, p.up.up, Fill(Across(p.up, t1), u));
    }

    /** Black uncle, inner grandchild: the parent is rotated out and becomes the node to repair. */
    method TurnOut(n: Ref, side: Side, ghost p: Path<K, V>, ghost t: Tree<K, V>) returns (n': Ref)
      requires Shape(p, t) && t.Node? && n == t.id
      requires p.Step? && p.side == side.Flip()
      modifies this`nodes, this`root
      ensures Shape(TurnedOut(p, t).0, TurnedOut(p, t).1) && n' == p.id
    {
      MoveUp(nodes, root, p, t);
      n' := nodes[n].parent;
      Rotate(n', side, p.up, Fill(p, t));
      MoveUp(nodes, root, TurnedOut(p, t).0, TurnedOut(p, t).1);
    }

    /** Black uncle, outer grandchild: two color writes and a rotation of the grandparent. */
    method LiftParent(n: Ref, side: Side, ghost p: Path<K, V>, ghost t: Tree<K, V>)
      requires Shape(p, t) && t.Node? && n == t.id
      requires p.Step? && p.up.Step? && p.side == p.up.side == side
      modifies this`nodes, this`root
      ensures Shape(Lifted(p), t)
    {
      var parent := nodes[n].parent;
      MoveUp(nodes, root, p, t);
      ghost var t1 := Fill(p.(color := Black), t);
      SetColor(parent, Black, p.up, Fill(p, t));
      MoveUp(nodes, root, p.up, t1);
      var grandparent := nodes[parent].parent;
      SetColor(grandparent, Red, p.up.up, Fill(p.up, t1));
      ghost var g := Fill(p.up.(color := Red), t1);
      Rotate(grandparent, side.Flip(), p.up.up, g);
      assert Rotated(g, side.Flip()) == Fill(Lifted(p), t);
      MoveUp(nodes, root, Lifted(p), t);
    }

    /** One round of `insertFixup`, at a node whose parent is red. The source spells out the two
        mirror images; `side` says which one this is. */
    method InsertRound(n: Ref, ghost p: Path<K, V>, ghost t: Tree<K, V>, ghost b: int, ghost total: int)
      returns (n': Ref, ghost p': Path<K, V>, ghost t': Tree<K, V>, ghost b': int)
      requires Shape(p, t) && t.Node? && n == t.id && InsertPending(p, t, b, total) && HeadRed(p)
      modifies this`nodes, this`root
      ensures Shape(p', t') && t'.Node? && n' == t'.id && InsertPending(p', t', b', total)
      ensures Whole(p', t') == Whole(p, t)
      ensures Depth(p') < Depth(p)
    {
      n', p', t', b' := n, p, t, b;
      Neighbours(nodes, root, p, t);
      var parent := nodes[n].parent;
      var grandparent := nodes[parent].parent;
      var side := if parent == nodes[grandparent].left then Left else Right;
      var uncle := Child(grandparent, side.Flip());
      if uncle != 0 && nodes[uncle].color == Red {
        RecoloredPending(p, t, b, total);
        RecolorUncle(n, uncle, p, t);
        n', p', t', b' := grandparent, p.up.up, Recolored(p, t), b + 1;
      } else {
        if n == Child(parent, side.Flip()) {
          TurnedOutPending(p, t, b, total);
          n' := TurnOut(n, side, p, t);
          p', t' := TurnedOut(p, t).0, TurnedOut(p, t).1;
        }
        LiftedPending(p', t', b, total);
        LiftParent(n', side, p', t');
        p' := Lifted(p');
      }
    }

    method InsertFixup(node: Ref, ghost p0: Path<K, V>, ghost t0: Tree<K, V>, ghost n0: int, ghost total: int)
      requires Shape(p0, t0) && t0.Node? && node == t0.id && InsertPending(p0, t0, n0, total)
      modifies this`nodes, this`root, this`tree, this`blackHeight
      ensures Shape(Top, tree) && RedBlack(tree, blackHeight)
      ensures Inorder(tree) == Whole(p0, t0)
    {
      var n := node;
      ghost var p, t, b := p0, t0, n0;
      while nodes[n].parent != 0 && nodes[nodes[n].parent].color == Red
        invariant Shape(p, t) && t.Node? && n == t.id && InsertPending(p, t, b, total)
        invariant Whole(p, t) == Whole(p0, t0)
        decreases Depth(p)
      {
        n, p, t, b := InsertRound(n, p, t, b, total);
      }
      InsertDone(p, t, b, total);
      MoveToTop(nodes, root, p, t);
      tree, blackHeight := Plug(p, t).(color := Black), if p.Top? then total + 1 else total;
      SetColor(root, Black, Top, Plug(p, t));
    }

    /** Red sibling: two color writes and a rotation of the parent. */
    method RaiseSibling(sibling: Ref, parent: Ref, side: Side, ghost p: Path<K, V>, ghost t: Tree<K, V>)
      requires Shape(p, t) && p.Step? && p.sib.Node? && parent == p.id && sibling == p.sib.id && side == p.side
      modifies this`nodes, this`root
      ensures Shape(SiblingRaised(p), t)
    {
      ghost var s, q := p.sib.(color := Black), SiblingRaised(p);
      MoveAcross(nodes, root, p, t);
      SetColor(sibling, Black, Across(p, t), p.sib);
      MoveUp(nodes, root, Across(p, t), s);
      SetColor(parent, Red, p.up, Fill(p.(sib := s), t));
      Rotate(parent, side, p.up, Fill(p.(color := Red, sib := s), t));
      assert Rotated(Fill(p.(color := Red, sib := s), t), side) == Fill(q.up, Fill(q, t));
      MoveUp(nodes, root, q.up, Fill(q, t));
      MoveUp(nodes, root, q, t);
    }

    method ReddenSibling(sibling: Ref, ghost p: Path<K, V>, ghost t: Tree<K, V>)
      requires Shape(p, t) && p.Step? && p.sib.Node? && sibling == p.sib.id
      modifies this`nodes
      ensures Shape(p.up, Fill(p.(sib := p.sib.(color := Red)), t))
    {
      MoveAcross(nodes, root, p, t);
      SetColor(sibling, Red, Across(p, t), p.sib);
      MoveUp(nodes, root, Across(p, t), p.sib.(color := Red));
    }

    /** Red near child, black far child: two color writes and a rotation of the sibling. */
    method RaiseNear(sibling: Ref, near: Ref, side: Side, ghost p: Path<K, V>, ghost t: Tree<K, V>)
      requires Shape(p, t) && p.Step? && p.sib.Node? && sibling == p.sib.id && side == p.side
      requires Kid(p.sib, side).Node? && near == Kid(p.sib, side).id
      modifies this`nodes, this`root
      ensures Shape(p.(sib := NearRaised(p.sib, side)), t)
    {
      ghost var x, s, n := Across(p, t), p.sib, Kid(p.sib, side);
      MoveAcross(nodes, root, p, t);
      MoveUp(nodes, root, Down(x, s, side), n);
      SetColor(near, Black, Down(x, s, side), n);
      MoveUp(nodes, root, Down(x, s, side), n.(color := Black));
      ghost var w := WithKid(s, side, n.(color := Black));
      SetColor(sibling, Red, x, w);
      Rotate(sibling, side.Flip(), x, w.(color := Red));
      MoveAcross(nodes, root, x, NearRaised(s, side));
    }

    /** Red far child: three color writes and the final rotation of the parent. */
    method Refill(sibling: Ref, parent: Ref, far: Ref, side: Side, ghost p: Path<K, V>, ghost t: Tree<K, V>)
      requires Shape(p, t) && p.Step? && p.sib.Node? && parent == p.id && sibling == p.sib.id && side == p.side
      requires Kid(p.sib, side.Flip()).Node? && far == Kid(p.sib, side.Flip()).id
      requires parent in nodes && nodes[parent].color == p.color
      modifies this`nodes, this`root
      ensures Shape(p.up, Refilled(p, t))
    {
      ghost var x, f, back := Across(p, t), Kid(p.sib, side.Flip()), side.Flip();
      MoveAcross(nodes, root, p, t);
      ghost var s := p.sib.(color := p.color);
      SetColor(sibling, nodes[parent].color, x, p.sib);
      MoveAcross(nodes, root, x, s);
      MoveUp(nodes, root, p.(sib := s), t);
      SetColor(parent, Black, p.up, Fill(p.(sib := s), t));
      ghost var q := p.(color := Black, sib := s);
      MoveUp(nodes, root, q, t);
      MoveAcross(nodes, root, q, t);
      MoveUp(nodes, root, Down(Across(q, t), s, back), f);
      SetColor(far, Black, Down(Across(q, t), s, back), f);
      MoveUp(nodes, root, Down(Across(q, t), s, back), f.(color := Black));
      ghost var w := WithKid(s, back, f.(color := Black));
      MoveUp(nodes, root, Across(q, t), w);
      Rotate(parent, side, p.up, Fill(q.(sib := w), t));
    }

    /** The second half of a round when the black sibling has a red child. */
    method RefillRound(sibling0: Ref, parent: Ref, side: Side, ghost p0: Path<K, V>, ghost t: Tree<K, V>)
      requires Shape(p0, t) && p0.Step? && parent == p0.id && side == p0.side
      requires RedKid(p0.sib) && sibling0 == p0.sib.id
      modifies this`nodes, this`root
      ensures Shape(p0.up, Refilled(Straightened(p0), t))
    {
      var sibling := sibling0;
      SiblingLinks(nodes, root, p0, t);
      if NilOrBlack(Child(sibling, side.Flip())) {
        RaiseNear(sibling, Child(sibling, side), side, p0, t);
        SiblingLinks(nodes, root, Straightened(p0), t);
        sibling := Child(parent, side.Flip());
      }
      Refill(sibling, parent, Child(sibling, side.Flip()), side, Straightened(p0), t);
    }

    /** The first half of a round: a red sibling is raised, and the new one is looked up. */
    method NextSibling(sibling0: Ref, parent: Ref, side: Side, ghost p: Path<K, V>, ghost t: Tree<K, V>)
      returns (sibling: Ref)
      requires Shape(p, t) && p.Step? && parent == p.id && side == p.side
      requires p.sib.Node? && Raised(p).sib.Node? && sibling0 == p.sib.id
      modifies this`nodes, this`root
      ensures Shape(Raised(p), t) && sibling == Raised(p).sib.id
    {
      sibling := sibling0;
      SiblingLinks(nodes, root, p, t);
      if sibling != 0 && nodes[sibling].color == Red {
        RaiseSibling(sibling, parent, side, p, t);
        SiblingLinks(nodes, root, Raised(p), t);
        sibling := Child(parent, side.Flip());
      }
    }

    /** One round of `deleteFixup`. The source spells out the two mirror images; `side` says which
        one this is. `done` is its `break`. */
    method DeleteRound(n: Ref, parent: Ref, ghost p: Path<K, V>, ghost t: Tree<K, V>)
      returns (n': Ref, parent': Ref, done: bool)
      requires Shape(p, t) && n == Root(t) && p.Step? && parent == p.id
      requires p.sib.Node? && Raised(p).sib.Node?
      modifies this`nodes, this`root
      ensures Shape(RoundPath(p), RoundTree(p, t))
      ensures done == RedKid(Raised(p).sib)
      ensures done ==> n' == root
      ensures !done ==> n' == Root(RoundTree(p, t)) && parent' == Head(RoundPath(p))
    {
      SiblingLinks(nodes, root, p, t);
      var side := if n == nodes[parent].left then Left else Right;
      var sibling := NextSibling(Child(parent, side.Flip()), parent, side, p, t);
      ghost var q := Raised(p);
      SiblingLinks(nodes, root, q, t);
      if sibling == 0 || (NilOrBlack(nodes[sibling].left) && NilOrBlack(nodes[sibling].right)) {
        parent' := nodes[parent].parent;
        if sibling != 0 {
          ReddenSibling(sibling, q, t);
        }
        n', done := parent, false;
      } else {
        RefillRound(sibling, parent, side, q, t);
        n', parent', done := root, parent, true;
      }
    }

    method DeleteFixup(node: Ref, parent0: Ref,
                       ghost p0: Path<K, V>, ghost t0: Tree<K, V>, ghost n0: int, ghost total: int)
      requires Shape(p0, t0) && node == Root(t0) && parent0 == Head(p0) && DeletePending(p0, t0, n0, total)
      modifies this`nodes, this`root, this`tree, this`blackHeight
      ensures Shape(Top, tree) && RedBlack(tree, blackHeight)
      ensures Inorder(tree) == Whole(p0, t0)
    {
      var n, parent, done := node, parent0, false;
      ghost var p, t, b := p0, t0, n0;
      while !done && NilOrBlack(n) && n != root
        invariant Shape(p, t)
        invariant Whole(p, t) == Whole(p0, t0)
        invariant done ==> n == root && RedBlack(Plug(p, t), total)
        invariant !done ==> n == Root(t) && parent == Head(p) && DeletePending(p, t, b, total)
        decreases !done, !IsRed(t), Depth(p)
      {
        RootIsTop(nodes, root, p, t);
        ghost var b' := RoundKeeps(p, t, b, total);
        n, parent, done := DeleteRound(n, parent, p, t);
        p, t, b := RoundPath(p), RoundTree(p, t), b';
      }
      if done {
        PlugInorder(p, t);
        MoveToTop(nodes, root, p, t);
        p, t := Top, Plug(p, t);
      }
      FinishDelete(n, p, t, b, total, done);
    }

    /** The last statement of `deleteFixup`: the node it stopped at turns black, if there is one. */
    method FinishDelete(n: Ref,
                        ghost p: Path<K, V>, ghost t: Tree<K, V>, ghost b: int, ghost total: int, ghost done: bool)
      requires Shape(p, t) && n == Root(t)
      requires if done then p.Top? && RedBlack(t, total) else DeletePending(p, t, b, total) && (IsRed(t) || n == root)
      modifies this`nodes, this`root, this`tree, this`blackHeight
      ensures Shape(Top, tree) && RedBlack(tree, blackHeight)
      ensures Inorder(tree) == Whole(p, t)
    {
      RootIsTop(nodes, root, p, t);
      tree, blackHeight := Plug(p, Blackened(t)), if done || IsRed(t) then total else total - 1;
      if n != 0 {
        SetColor(n, Black, p, t);
      }
      MoveToTop(nodes, root, p, Blackened(t));
      if !done {
        DeleteDone(p, t, b, total);
      }
    }

    method Minimum(start: Ref, ghost p: Path<K, V>, ghost t: Tree<K, V>) returns (n: Ref)
      requires Shape(p, t) && t.Node? && start == t.id
      ensures n == Leftmost(t).id && n in nodes
      ensures nodes[n].key == Leftmost(t).key && nodes[n].value == Leftmost(t).value
    {
      n := start;
      ghost var q, u := p, t;
      while nodes[n].left != 0
        invariant Shape(q, u) && u.Node? && n == u.id && Leftmost(u) == Leftmost(t)
        decreases u
      {
        MoveUp(nodes, root, Down(q, u, Left), u.left);
        n := nodes[n].left;
        q, u := Down(q, u, Left), u.left;
      }
      assert Holds(nodes, u.left, n);
    }

    method Maximum(start: Ref, ghost p: Path<K, V>, ghost t: Tree<K, V>) returns (n: Ref)
      requires Shape(p, t) && t.Node? && start == t.id
      ensures n == Rightmost(t).id && n in nodes
      ensures nodes[n].key == Rightmost(t).key && nodes[n].value == Rightmost(t).value
    {
      n := start;
      ghost var q, u := p, t;
      while nodes[n].right != 0
        invariant Shape(q, u) && u.Node? && n == u.id && Rightmost(u) == Rightmost(t)
        decreases u
      {
        MoveUp(nodes, root, Down(q, u, Right), u.right);
        n := nodes[n].right;
        q, u := Down(q, u, Right), u.right;
      }
      assert Holds(nodes, u.right, n);
    }

    /** The first part of `deleteNode`, for a node with two children: it takes over the successor's
        key and value, and the successor is the node to unlink. */
    method TakeSuccessor(n: Ref, ghost p: Path<K, V>, ghost t: Tree<K, V>, ghost b: int, ghost total: int)
      returns (successor: Ref, ghost q: Path<K, V>, ghost u: Tree<K, V>, ghost m: int)
      requires Shape(p, t) && t.Node? && n == t.id && t.left.Node? && t.right.Node?
      requires Settled(p, t, b, total)
      modifies this`nodes
      ensures Shape(q, u) && u.Node? && successor == u.id && u.left.Leaf?
      ensures Settled(q, u, m, total)
      ensures Before(q) + Inorder(u.left) + Inorder(u.right) + After(q)
           == Before(p) + Inorder(t.left) + Inorder(t.right) + After(p)
    {
      MoveUp(nodes, root, Down(p, t, Right), t.right);
      u := Leftmost(t.right);
      successor := Minimum(nodes[n].right, Down(p, t, Right), t.right);
      WriteNode(nodes, root, p, t, u.key, u.value, t.color);
      nodes := nodes[n := nodes[n].(key := nodes[successor].key, value := nodes[successor].value)];
      ghost var d := Down(p, Replaced(t), Right);
      MoveUp(nodes, root, d, t.right);
      MoveToLeftmost(nodes, root, d, t.right);
      q := LeftPath(d, t.right);
      m := SuccessorSettled(p, t, b, total);
    }

    method DeleteNode(node: Ref, ghost p0: Path<K, V>, ghost t0: Tree<K, V>, ghost n0: int, ghost total: int)
      requires Shape(p0, t0) && t0.Node? && node == t0.id && Settled(p0, t0, n0, total)
      modifies this`nodes, this`root, this`tree, this`blackHeight
      ensures Shape(Top, tree) && RedBlack(tree, blackHeight)
      ensures Inorder(tree) == Before(p0) + Inorder(t0.left) + Inorder(t0.right) + After(p0)
    {
      var n := node;
      ghost var p, t, b := p0, t0, n0;
      OwnLinks(nodes, root, p, t);
      if nodes[n].left != 0 && nodes[n].right != 0 {
        n, p, t, b := TakeSuccessor(n, p0, t0, n0, total);
      }
      Unlink(n, p, t, b, total);
    }

    /** The second part of `deleteNode`: a node with at most one child is unlinked, and a missing
        black node is made up for. */
    method Unlink(n: Ref, ghost p: Path<K, V>, ghost t: Tree<K, V>, ghost b: int, ghost total: int)
      requires Shape(p, t) && t.Node? && n == t.id && (t.left.Leaf? || t.right.Leaf?) && Settled(p, t, b, total)
      modifies this`nodes, this`root, this`tree, this`blackHeight
      ensures Shape(Top, tree) && RedBlack(tree, blackHeight)
      ensures Inorder(tree) == Before(p) + Inorder(t.left) + Inorder(t.right) + After(p)
    {
      ghost var c := if t.left.Node? then t.left else t.right;
      SpliceSettled(p, t, b, total);
      var child, parent, color := SpliceOut(n, p, t);
      if color == Black {
        DeleteFixup(child, parent, p, c, b - 1, total);
      } else {
        SettledPlug(p, c, b, total);
        MoveToTop(nodes, root, p, c);
        PlugInorder(p, c);
        tree, blackHeight := Plug(p, c), total;
      }
    }

    method SpliceOut(n: Ref, ghost p: Path<K, V>, ghost t: Tree<K, V>) returns (child: Ref, parent: Ref, color: Color)
      requires Shape(p, t) && t.Node? && n == t.id && (t.left.Leaf? || t.right.Leaf?)
      modifies this`nodes, this`root
      ensures var c := if t.left.Node? then t.left else t.right;
              Shape(p, c) && child == Root(c)
      ensures parent == Head(p) && color == t.color
    {
      OwnLinks(nodes, root, p, t);
      Splice(nodes, root, p, t);
      child := if nodes[n].left != 0 then nodes[n].left else nodes[n].right;
      parent, color := nodes[n].parent, nodes[n].color;
      if child != 0 {
        nodes := nodes[child := nodes[child].(parent := parent)];
      }
      ReplaceLink(n, parent, child, SideOf(p));
    }

    // ---------- Searching ----------

    /** A search for `key` has come to this position of the tree. */
    ghost predicate Seeking(p: Path<K, V>, t: Tree<K, V>, b: int, key: K)
      reads this
    {
      && Shape(p, t) && Settled(p, t, b, blackHeight)
      && Whole(p, t) == Entries() && Bracketed(cmp, p, key)
    }

    lemma SeekDown(p: Path<K, V>, t: Tree<K, V>, b: int, key: K, side: Side)
      requires Valid() && Seeking(p, t, b, key) && t.Node?
      requires if side.Left? then cmp(key, t.key) < 0 else cmp(key, t.key) > 0
      ensures Seeking(Down(p, t, side), Kid(t, side), if t.color.Black? then b - 1 else b, key)
    {
      MoveUp(nodes, root, Down(p, t, side), Kid(t, side));
      SettledDown(p, t, b, blackHeight, side);
      WholeSplit(p, t);
      if side.Left? {
        BracketLeft(cmp, p, t, key);
      } else {
        BracketRight(cmp, p, t, key);
      }
    }

    /** The loop of `findNode`. */
    method Descend(key: K)
      returns (n: Ref, ghost p: Path<K, V>, ghost t: Tree<K, V>, ghost b: int, ghost compared: nat)
      requires Valid()
      ensures Seeking(p, t, b, key) && n == Root(t) && (t.Leaf? || cmp(key, t.key) == 0)
      ensures Plug(p, t) == tree && compared == Depth(p) + if t.Leaf? then 0 else 1
    {
      n := root;
      p, t, b, compared := Top, tree, blackHeight, 0;
      while n != 0
        invariant Seeking(p, t, b, key) && n == Root(t)
        invariant compared == Depth(p) && Plug(p, t) == tree
        decreases t
      {
        OwnLinks(nodes, root, p, t);
        var c := cmp(key, nodes[n].key);
        compared := compared + 1;
        if c < 0 {
          SeekDown(p, t, b, key, Left);
          n := nodes[n].left;
          p, t, b := Down(p, t, Left), t.left, if t.color.Black? then b - 1 else b;
        } else if c > 0 {
          SeekDown(p, t, b, key, Right);
          n := nodes[n].right;
          p, t, b := Down(p, t, Right), t.right, if t.color.Black? then b - 1 else b;
        } else {
          return;
        }
      }
    }

    /** The node with the key, or nil, after a logarithmic number of comparisons. */
    method FindNode(key: K)
      returns (n: Ref, ghost p: Path<K, V>, ghost t: Tree<K, V>, ghost b: int, ghost compared: nat)
      requires Valid()
      ensures Seeking(p, t, b, key) && n == Root(t) && (t.Leaf? || cmp(key, t.key) == 0)
      ensures n == 0 <==> t.Leaf?
      ensures n != 0 ==> n in nodes && nodes[n].value == t.value
      ensures Lookup(cmp, Entries(), key) == if n == 0 then None else Some(nodes[n].value)
      ensures compared <= 2 * Log2(size + 1)
    {
      n, p, t, b, compared := Descend(key);
      SearchIsLogarithmic(tree, p, t, blackHeight, compared);
      SearchTells(n, p, t, b, key);
    }

    lemma SearchTells(n: Ref, p: Path<K, V>, t: Tree<K, V>, b: int, key: K)
      requires Valid() && Seeking(p, t, b, key) && n == Root(t) && (t.Leaf? || cmp(key, t.key) == 0)
      ensures n == 0 <==> t.Leaf?
      ensures n != 0 ==> n in nodes && nodes[n].value == t.value
      ensures Lookup(cmp, Entries(), key) == if n == 0 then None else Some(nodes[n].value)
    {
      if t.Leaf? {
        SearchMiss(cmp, p, key);
      } else {
        OwnLinks(nodes, root, p, t);
        SearchHit(cmp, p, t, key, t.value);
      }
    }

    // ---------- The map operations ----------

    constructor (cmp: (K, K) -> int)
      requires TotalPreorder(cmp)
      ensures Valid() && this.cmp == cmp && Entries() == []
    {
      this.cmp := cmp;
      nodes, root, size := map[], 0, 0;
      tree, blackHeight := Leaf, 0;
    }

    method Get(key: K) returns (value: Option<V>)
      requires Valid()
      ensures value == Lookup(cmp, Entries(), key)
    {
      ghost var p, t, b, compared;
      var n;
      n, p, t, b, compared := FindNode(key);
      if n == 0 {
        return None;
      }
      return Some(nodes[n].value);
    }

    /** Any address that no node has, reachable or not. */
    method Allocate() returns (n: Ref)
      ensures n != 0 && n !in nodes
    {
      FreshExists(nodes.Keys);
      n :| n != 0 && n !in nodes.Keys;
    }

    method Put(key: K, value: V)
      requires Valid()
      modifies this
      ensures Valid() && Entries() == Bind(cmp, old(Entries()), key, value)
    {
      if root == 0 {
        var n := Allocate();
        tree, blackHeight := Node(n, Black, key, value, Leaf, Leaf), 1;
        LinkNew(nodes, root, Top, tree);
        nodes := nodes[n := Record(key, value, Black, 0, 0, 0)];
        root := n;
        size := 1;
        return;
      }
      var parent, current := 0, root;
      ghost var p, t, b := Top, tree, blackHeight;
      while current != 0
        invariant Seeking(p, t, b, key) && current == Root(t) && parent == Head(p)
        invariant Valid() && Entries() == old(Entries())
        invariant p.Top? ==> current != 0
        decreases t
      {
        OwnLinks(nodes, root, p, t);
        parent := current;
        var c := cmp(key, nodes[current].key);
        if c < 0 {
          SeekDown(p, t, b, key, Left);
          current := nodes[current].left;
          p, t, b := Down(p, t, Left), t.left, if t.color.Black? then b - 1 else b;
        } else if c > 0 {
          SeekDown(p, t, b, key, Right);
          current := nodes[current].right;
          p, t, b := Down(p, t, Right), t.right, if t.color.Black? then b - 1 else b;
        } else {
          SetValue(current, value, p, t, b, key);
          return;
        }
      }
      AddNode(key, value, parent, p, b);
    }

    /** The end of `Put` when the key is there already: only the value changes. */
    method SetValue(n: Ref, value: V, ghost p: Path<K, V>, ghost t: Tree<K, V>, ghost b: int, ghost key: K)
      requires Valid() && Seeking(p, t, b, key) && t.Node? && n == t.id && cmp(key, t.key) == 0
      modifies this`nodes, this`tree
      ensures Valid() && Entries() == Bind(cmp, old(Entries()), key, value)
    {
      ghost var h, u := nodes, t.(value := value);
      ValueWritten(h, p, t, b, key, value);
      nodes := nodes[n := nodes[n].(value := value)];
      tree := Plug(p, u);
    }

    /** What the one write makes of the tree. */
    lemma ValueWritten(h: Arena<K, V>, p: Path<K, V>, t: Tree<K, V>, b: int, key: K, value: V)
      requires Valid() && h == nodes && Seeking(p, t, b, key) && t.Node? && cmp(key, t.key) == 0
      ensures t.id in h
      ensures var whole := Plug(p, t.(value := value));
              && At(h[t.id := h[t.id].(value := value)], root, Top, whole)
              && RedBlack(whole, blackHeight) && Sorted(cmp, Inorder(whole)) && size == Size(whole)
              && Inorder(whole) == Bind(cmp, Entries(), key, value)
    {
      var u := t.(value := value);
      SearchHit(cmp, p, t, key, value);
      OwnLinks(h, root, p, t);
      PlugInorder(p, u);
      assert At(h[t.id := h[t.id].(value := value)], root, Top, Plug(p, u)) by {
        NewValueHolds(h, root, p, t, value);
      }
      SettledPlug(p, u, b, blackHeight);
    }

    /** The end of `Put` when the key is new. */
    method AddNode(key: K, value: V, parent: Ref, ghost p: Path<K, V>, ghost b: int)
      requires Valid() && Seeking(p, Leaf, b, key) && p.Step? && parent == p.id
      modifies this
      ensures Valid() && Entries() == Bind(cmp, old(Entries()), key, value)
    {
      BracketSide(cmp, p, key);
      InsertHere(cmp, p, Node(0, Red, key, value, Leaf, Leaf));
      BindSorted(cmp, Entries(), key, value);
      var newNode := LinkNode(key, value, parent, p);
      size := size + 1;
      InsertFixup(newNode, p, Node(newNode, Red, key, value, Leaf, Leaf), b, blackHeight);
    }

    method LinkNode(key: K, value: V, parent: Ref, ghost p: Path<K, V>) returns (newNode: Ref)
      requires Shape(p, Leaf) && p.Step? && parent == p.id && (cmp(key, p.key) < 0 <==> p.side.Left?)
      modifies this`nodes
      ensures Shape(p, Node(newNode, Red, key, value, Leaf, Leaf))
    {
      newNode := Allocate();
      LinkNew(nodes, root, p, Node(newNode, Red, key, value, Leaf, Leaf));
      nodes := nodes[newNode := Record(key, value, Red, 0, 0, parent)];
      if cmp(key, nodes[parent].key) < 0 {
        nodes := nodes[parent := nodes[parent].(left := newNode)];
      } else {
        nodes := nodes[parent := nodes[parent].(right := newNode)];
      }
    }

    method Remove(key: K) returns (value: Option<V>)
      requires Valid()
      modifies this
      ensures Valid() && Entries() == Unbind(cmp, old(Entries()), key)
      ensures value == Lookup(cmp, old(Entries()), key)
    {
      ghost var p, t, b, compared;
      var n;
      n, p, t, b, compared := FindNode(key);
      if n == 0 {
        SearchMiss(cmp, p, key);
        return None;
      }
      SearchHit(cmp, p, t, key, t.value);
      value := Some(nodes[n].value);
      DeleteNode(n, p, t, b, blackHeight);
      size := size - 1;
    }

    /** Any run of `Put` and `Remove`: the tree stays a red-black search tree, and every lookup finds
        what the last call for the key left. */
    method Perform(ops: seq<Op<K, V>>)
      requires Valid()
      modifies this
      ensures Valid() && Entries() == Performed(cmp, old(Entries()), ops)
      ensures forall key :: Lookup(cmp, Entries(), key) == LastLeft(cmp, old(Entries()), ops, key)
    {
      for i := 0 to |ops|
        invariant Valid() && Entries() == Performed(cmp, old(Entries()), ops[..i])
      {
        assert ops[..i + 1][..i] == ops[..i];
        match ops[i] {
          case PutOp(key, value) => Put(key, value);
          case RemoveOp(key) => var _ := Remove(key);
        }
      }
      assert ops[..|ops|] == ops;
      forall key ensures Lookup(cmp, Entries(), key) == LastLeft(cmp, old(Entries()), ops, key) {
        PerformedLookup(cmp, old(Entries()), ops, key);
      }
    }

    method Clear()
      requires Valid()
      modifies this
      ensures Valid() && Entries() == []
    {
      root, size := 0, 0;
      tree, blackHeight := Leaf, 0;
    }

    method First() returns (entry: Option<(K, V)>)
      requires Valid()
      ensures entry == if Entries() == [] then None else Some(Entries()[0])
    {
      if root == 0 {
        return None;
      }
      LeftmostIsFirst(tree);
      var n := Minimum(root, Top, tree);
      return Some((nodes[n].key, nodes[n].value));
    }

    method Last() returns (entry: Option<(K, V)>)
      requires Valid()
      ensures entry == if Entries() == [] then None else Some(Entries()[|Entries()| - 1])
    {
      if root == 0 {
        return None;
      }
      RightmostIsLast(tree);
      var n := Maximum(root, Top, tree);
      return Some((nodes[n].key, nodes[n].value));
    }

    /** `inorderTraversal`: what it hands to `f`, and whether it ran to the end. */
    method InorderTraversal(n: Ref, f: (K, V) -> bool, ghost p: Path<K, V>, ghost t: Tree<K, V>)
      returns (visited: seq<(K, V)>, ok: bool)
      requires Shape(p, t) && n == Root(t)
      ensures visited == Visited(Inorder(t), f) && ok == Accepted(Inorder(t), f)
      decreases t
    {
      if n == 0 {
        return [], true;
      }
      OwnLinks(nodes, root, p, t);
      MoveUp(nodes, root, Down(p, t, Left), t.left);
      MoveUp(nodes, root, Down(p, t, Right), t.right);
      VisitedInorder(t, f);
      visited, ok := InorderTraversal(nodes[n].left, f, Down(p, t, Left), t.left);
      if !ok {
        return;
      }
      visited := visited + [(nodes[n].key, nodes[n].value)];
      if !f(nodes[n].key, nodes[n].value) {
        return visited, false;
      }
      var rest;
      rest, ok := InorderTraversal(nodes[n].right, f, Down(p, t, Right), t.right);
      visited := visited + rest;
    }

    method ReverseInorderTraversal(n: Ref, f: (K, V) -> bool, ghost p: Path<K, V>, ghost t: Tree<K, V>)
      returns (visited: seq<(K, V)>, ok: bool)
      requires Shape(p, t) && n == Root(t)
      ensures visited == Visited(Reverse(Inorder(t)), f) && ok == Accepted(Reverse(Inorder(t)), f)
      decreases t
    {
      if n == 0 {
        return [], true;
      }
      OwnLinks(nodes, root, p, t);
      MoveUp(nodes, root, Down(p, t, Left), t.left);
      MoveUp(nodes, root, Down(p, t, Right), t.right);
      VisitedReverse(t, f);
      visited, ok := ReverseInorderTraversal(nodes[n].right, f, Down(p, t, Right), t.right);
      if !ok {
        return;
      }
      visited := visited + [(nodes[n].key, nodes[n].value)];
      if !f(nodes[n].key, nodes[n].value) {
        return visited, false;
      }
      var rest;
      rest, ok := ReverseInorderTraversal(nodes[n].left, f, Down(p, t, Left), t.left);
      visited := visited + rest;
    }

    /** `Keys`, `Values` and `Entries` at once: all entries in key order. */
    method ListEntries() returns (entries: seq<(K, V)>)
      requires Valid()
      ensures entries == Entries() && |entries| == size
    {
      var ok;
      entries, ok := InorderTraversal(root, (k, v) => true, Top, tree);
      VisitedAll(Entries(), (k: K, v: V) => true);
    }
  }
}
