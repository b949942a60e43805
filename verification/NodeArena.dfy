/** The heap of nodes behind a TreeMap, and what it means for the records reachable from a
    position to be exactly a `Tree` inside a `Path`. */
module NodeArena {
  import opened RedBlackTree

  datatype Record<K, V> = Record(key: K, value: V, color: Color, left: Ref, right: Ref, parent: Ref)

  type Arena<K, V> = map<Ref, Record<K, V>>

  function Ids<K, V>(t: Tree<K, V>): set<Ref> {
    if t.Leaf? then {} else {t.id} + Ids(t.left) + Ids(t.right)
  }

  function PathIds<K, V>(p: Path<K, V>): set<Ref> {
    if p.Top? then {} else {p.id} + Ids(p.sib) + PathIds(p.up)
  }

  ghost predicate Distinct<K, V>(t: Tree<K, V>) {
    t.Node? ==>
      && t.id !in Ids(t.left) && t.id !in Ids(t.right) && Ids(t.left) !! Ids(t.right)
      && Distinct(t.left) && Distinct(t.right)
  }

  ghost predicate PathDistinct<K, V>(p: Path<K, V>) {
    p.Step? ==>
      && p.id !in Ids(p.sib) && p.id !in PathIds(p.up) && Ids(p.sib) !! PathIds(p.up)
      && Distinct(p.sib) && PathDistinct(p.up)
  }

  /** The records below a link to `Root(t)` are those of `t`; `parent` is its parent link. */
  ghost predicate Holds<K, V>(h: Arena<K, V>, t: Tree<K, V>, parent: Ref) {
    t.Node? ==>
      && t.id != 0 && t.id in h
      && h[t.id] == Record(t.key, t.value, t.color, Root(t.left), Root(t.right), parent)
      && Holds(h, t.left, t.id) && Holds(h, t.right, t.id)
  }

  /** The records above a subtree linked as `hole` are those of `p`. */
  ghost predicate PathHolds<K, V>(h: Arena<K, V>, root: Ref, p: Path<K, V>, hole: Ref) {
    if p.Top? then root == hole
    else
      && p.id != 0 && p.id in h
      && h[p.id] == (if p.side.Left? then Record(p.key, p.value, p.color, hole, Root(p.sib), Head(p.up))
                                     else Record(p.key, p.value, p.color, Root(p.sib), hole, Head(p.up)))
      && Holds(h, p.sib, p.id)
      && PathHolds(h, root, p.up, p.id)
  }

  /** The whole tree of the arena is `t` in the surroundings `p`. */
  ghost predicate At<K, V>(h: Arena<K, V>, root: Ref, p: Path<K, V>, t: Tree<K, V>) {
    && PathHolds(h, root, p, Root(t)) && Holds(h, t, Head(p))
    && Distinct(t) && PathDistinct(p) && Ids(t) !! PathIds(p)
  }

  // ---------- Framing ----------

  lemma {:induction false} HoldsFrame<K, V>(h: Arena<K, V>, h': Arena<K, V>, t: Tree<K, V>, parent: Ref)
    requires Holds(h, t, parent)
    requires forall i :: i in Ids(t) && i in h ==> i in h' && h'[i] == h[i]
    ensures Holds(h', t, parent)
  {
    if t.Node? {
      HoldsFrame(h, h', t.left, t.id);
      HoldsFrame(h, h', t.right, t.id);
    }
  }

  lemma {:induction false} PathFrame<K, V>(h: Arena<K, V>, h': Arena<K, V>, root: Ref, p: Path<K, V>, hole: Ref)
    requires PathHolds(h, root, p, hole)
    requires forall i :: i in PathIds(p) && i in h ==> i in h' && h'[i] == h[i]
    ensures PathHolds(h', root, p, hole)
  {
    if p.Step? {
      HoldsFrame(h, h', p.sib, p.id);
      PathFrame(h, h', root, p.up, p.id);
    }
  }

  lemma {:induction false} IdsInArena<K, V>(h: Arena<K, V>, t: Tree<K, V>, parent: Ref)
    requires Holds(h, t, parent)
    ensures Ids(t) <= h.Keys && 0 !in Ids(t)
  {
    if t.Node? {
      IdsInArena(h, t.left, t.id);
      IdsInArena(h, t.right, t.id);
    }
  }

  lemma {:induction false} PathIdsInArena<K, V>(h: Arena<K, V>, root: Ref, p: Path<K, V>, hole: Ref)
    requires PathHolds(h, root, p, hole)
    ensures PathIds(p) <= h.Keys && 0 !in PathIds(p)
  {
    if p.Step? {
      IdsInArena(h, p.sib, p.id);
      PathIdsInArena(h, root, p.up, p.id);
    }
  }

  // ---------- Moving the position ----------

  lemma MoveUp<K, V>(h: Arena<K, V>, root: Ref, p: Path<K, V>, t: Tree<K, V>)
    requires p.Step?
    ensures At(h, root, p, t) <==> At(h, root, p.up, Fill(p, t))
  {
  }

  lemma MoveAcross<K, V>(h: Arena<K, V>, root: Ref, p: Path<K, V>, t: Tree<K, V>)
    requires p.Step?
    ensures At(h, root, p, t) <==> At(h, root, Across(p, t), p.sib)
  {
    MoveUp(h, root, p, t);
    MoveUp(h, root, Across(p, t), p.sib);
  }

  lemma {:induction false} MoveToTop<K, V>(h: Arena<K, V>, root: Ref, p: Path<K, V>, t: Tree<K, V>)
    requires At(h, root, p, t)
    ensures At(h, root, Top, Plug(p, t))
    decreases p
  {
    if p.Step? {
      MoveUp(h, root, p, t);
      MoveToTop(h, root, p.up, Fill(p, t));
    }
  }

  lemma RotatedIds<K, V>(t: Tree<K, V>, side: Side)
    requires t.Node? && (if side.Left? then t.right.Node? else t.left.Node?)
    requires Distinct(t)
    ensures Ids(Rotated(t, side)) == Ids(t) && Distinct(Rotated(t, side))
  {
    assert Distinct(t.left) && Distinct(t.right);
  }

  // ---------- Writing ----------

  /** Writing data or color into the node at the position changes that node of the tree only. */
  lemma WriteNode<K, V>(h: Arena<K, V>, root: Ref, p: Path<K, V>, t: Tree<K, V>, key: K, value: V, color: Color)
    requires At(h, root, p, t) && t.Node?
    ensures At(h[t.id := h[t.id].(key := key, value := value, color := color)], root, p,
               t.(key := key, value := value, color := color))
  {
    var h' := h[t.id := h[t.id].(key := key, value := value, color := color)];
    HoldsFrame(h, h', t.left, t.id);
    HoldsFrame(h, h', t.right, t.id);
    PathFrame(h, h', root, p, t.id);
  }

  function SetLink<K, V>(h: Arena<K, V>, n: Ref, side: Side, link: Ref): Arena<K, V>
    requires n in h
  {
    h[n := if side.Left? then h[n].(left := link) else h[n].(right := link)]
  }

  /** The arena after the parent's link to `hole` (or the root link) is set to `link`. */
  function Relinked<K, V>(h: Arena<K, V>, p: Path<K, V>, link: Ref): Arena<K, V>
    requires p.Step? ==> p.id in h
  {
    if p.Top? then h
    else SetLink(h, p.id, p.side, link)
  }

  lemma NewValueHolds<K, V>(h: Arena<K, V>, root: Ref, p: Path<K, V>, t: Tree<K, V>, value: V)
    requires At(h, root, p, t) && t.Node?
    ensures t.id in h
    ensures At(h[t.id := h[t.id].(value := value)], root, Top, Plug(p, t.(value := value)))
  {
    WriteNode(h, root, p, t, t.key, value, t.color);
    OwnLinks(h, root, p, t);
    MoveToTop(h[t.id := h[t.id].(value := value)], root, p, t.(value := value));
  }

  lemma Relink<K, V>(h: Arena<K, V>, root: Ref, p: Path<K, V>, hole: Ref, link: Ref)
    requires PathHolds(h, root, p, hole) && PathDistinct(p)
    ensures PathHolds(Relinked(h, p, link), if p.Top? then link else root, p, link)
  {
    if p.Step? {
      var h' := Relinked(h, p, link);
      HoldsFrame(h, h', p.sib, p.id);
      PathFrame(h, h', root, p.up, p.id);
    }
  }

  /** What the links around a node with a grandparent say. */
  lemma Neighbours<K, V>(h: Arena<K, V>, root: Ref, p: Path<K, V>, t: Tree<K, V>)
    requires At(h, root, p, t) && t.Node? && p.Step? && p.up.Step?
    ensures t.id in h && p.id in h && p.up.id in h
    ensures h[t.id].parent == p.id && h[p.id].parent == p.up.id
    ensures h[p.id].left == t.id <==> p.side.Left?
    ensures h[p.id].right == t.id <==> p.side.Right?
    ensures h[p.up.id].left == p.id <==> p.up.side.Left?
    ensures (if p.up.side.Left? then h[p.up.id].right else h[p.up.id].left) == Root(p.up.sib)
    ensures p.up.sib.Node? ==> p.up.sib.id != 0 && p.up.sib.id in h && h[p.up.sib.id].color == p.up.sib.color
  {
    MoveUp(h, root, p, t);
    SideIsDecided(h, root, p, t);
    SideIsDecided(h, root, p.up, Fill(p, t));
  }

  function ChildLink<K, V>(r: Record<K, V>, side: Side): Ref { if side.Left? then r.left else r.right }

  /** A link is nil exactly for a leaf, and otherwise leads to a record of the right color. */
  ghost predicate LinksTo<K, V>(h: Arena<K, V>, link: Ref, t: Tree<K, V>) {
    link == Root(t) && (link == 0 <==> t.Leaf?) && (t.Node? ==> link in h && h[link].color == t.color)
  }

  /** What the links around the sibling of a position say. */
  lemma SiblingLinks<K, V>(h: Arena<K, V>, root: Ref, p: Path<K, V>, t: Tree<K, V>)
    requires At(h, root, p, t) && p.Step? && p.sib.Node?
    ensures p.id in h && h[p.id].color == p.color && h[p.id].parent == Head(p.up)
    ensures h[p.id].left == Root(t) <==> p.side.Left?
    ensures LinksTo(h, ChildLink(h[p.id], p.side.Flip()), p.sib)
    ensures LinksTo(h, h[p.sib.id].left, p.sib.left) && LinksTo(h, h[p.sib.id].right, p.sib.right)
  {
    SideIsDecided(h, root, p, t);
    assert Holds(h, p.sib.left, p.sib.id) && Holds(h, p.sib.right, p.sib.id);
  }

  /** What the record of the node at the position says. */
  lemma OwnLinks<K, V>(h: Arena<K, V>, root: Ref, p: Path<K, V>, t: Tree<K, V>)
    requires At(h, root, p, t) && t.Node?
    ensures t.id in h && t.id != 0
    ensures LinksTo(h, h[t.id].left, t.left) && LinksTo(h, h[t.id].right, t.right)
  {
    assert Holds(h, t.left, t.id) && Holds(h, t.right, t.id);
  }

  lemma {:induction false} RootOnPath<K, V>(h: Arena<K, V>, root: Ref, p: Path<K, V>, hole: Ref)
    requires PathHolds(h, root, p, hole) && p.Step?
    ensures root in PathIds(p)
  {
    if p.up.Step? {
      RootOnPath(h, root, p.up, p.id);
    }
  }

  /** Comparing with the root link tells whether the position is the root, even when it is nil. */
  lemma RootIsTop<K, V>(h: Arena<K, V>, root: Ref, p: Path<K, V>, t: Tree<K, V>)
    requires At(h, root, p, t)
    ensures Root(t) == root <==> p.Top?
  {
    if p.Step? {
      RootOnPath(h, root, p, Root(t));
      PathIdsInArena(h, root, p, Root(t));
    }
  }

  /** `h'` is `h` after the pointer writes of a rotation at `n` to `side`, where `r` comes up,
      `m` changes hands and `q` is the parent, with `n` as its `link` child. */
  ghost predicate RotationWrites<K, V>(h: Arena<K, V>, h': Arena<K, V>, side: Side,
                                      n: Ref, r: Ref, m: Ref, q: Ref, link: Side)
  {
    && n in h && r in h && (m != 0 ==> m in h) && (q != 0 ==> q in h)
    && h'.Keys == h.Keys
    && (forall i :: i in h && i != n && i != r && i != m && i != q ==> h'[i] == h[i])
    && h'[n] == (if side.Left? then h[n].(right := m, parent := r) else h[n].(left := m, parent := r))
    && h'[r] == (if side.Left? then h[r].(left := n, parent := q) else h[r].(right := n, parent := q))
    && (m != 0 ==> h'[m] == h[m].(parent := n))
    && (q != 0 ==> h'[q] == if link.Left? then h[q].(left := r) else h[q].(right := r))
  }

  /** The subtree that changes hands in a rotation. */
  function Moved<K, V>(t: Tree<K, V>, side: Side): Tree<K, V>
    requires t.Node? && (if side.Left? then t.right.Node? else t.left.Node?)
  {
    if side.Left? then t.right.left else t.left.right
  }

  function SideOf<K, V>(p: Path<K, V>): Side { if p.Top? then Left else p.side }

  ghost predicate RotationReady<K, V>(h: Arena<K, V>, side: Side, n: Ref, r: Ref, m: Ref, q: Ref, link: Side) {
    && n in h && r in h && (m != 0 ==> m in h) && (q != 0 ==> q in h)
    && n != 0 && r != 0 && n != r && m != n && m != r && q != n && q != r && (m != 0 ==> m != q)
    && (if side.Left? then h[n].right == r && h[r].left == m else h[n].left == r && h[r].right == m)
    && h[n].parent == q
    && (q != 0 ==> (h[q].left == n <==> link.Left?) && (h[q].right == n <==> link.Right?))
  }

  /** The up to four nodes a rotation writes are different nodes. */
  lemma RotationNodes<K, V>(h: Arena<K, V>, root: Ref, p: Path<K, V>, t: Tree<K, V>, side: Side)
    requires At(h, root, p, t)
    requires t.Node? && (if side.Left? then t.right.Node? else t.left.Node?)
    ensures RotationReady(h, side, t.id, Root(Rotated(t, side)), Root(Moved(t, side)), Head(p), SideOf(p))
    ensures p.Step? <==> Head(p) != 0
  {
    var u := if side.Left? then t.right else t.left;
    assert Holds(h, u, t.id) && Distinct(u);
    if p.Step? {
      SideIsDecided(h, root, p, t);
    }
    IdsInArena(h, t, Head(p));
    PathIdsInArena(h, root, p, t.id);
  }

  lemma RotatedSubtreeHolds<K, V>(h: Arena<K, V>, h': Arena<K, V>, p: Path<K, V>, t: Tree<K, V>, side: Side)
    requires t.Node? && (if side.Left? then t.right.Node? else t.left.Node?)
    requires Holds(h, t, Head(p)) && Distinct(t) && Head(p) !in Ids(t) && 0 !in Ids(t)
    requires RotationWrites(h, h', side, t.id, Root(Rotated(t, side)), Root(Moved(t, side)), Head(p), SideOf(p))
    ensures Holds(h', Rotated(t, side), Head(p))
  {
    var u := if side.Left? then t.right else t.left;
    var a, b, c := if side.Left? then t.left else t.right,
                   if side.Left? then u.left else u.right,
                   if side.Left? then u.right else u.left;
    assert Holds(h, u, t.id) && Distinct(u);
    HoldsFrame(h, h', a, t.id);
    HoldsFrame(h, h', c, u.id);
    if b.Node? {
      assert Holds(h, b, u.id) && Distinct(b);
      HoldsFrame(h, h', b.left, b.id);
      HoldsFrame(h, h', b.right, b.id);
    }
    assert Holds(h', b, t.id);
  }

  lemma RotationHolds<K, V>(h: Arena<K, V>, h': Arena<K, V>, root: Ref, p: Path<K, V>, t: Tree<K, V>, side: Side)
    requires At(h, root, p, t)
    requires t.Node? && (if side.Left? then t.right.Node? else t.left.Node?)
    requires RotationWrites(h, h', side, t.id, Root(Rotated(t, side)), Root(Moved(t, side)), Head(p), SideOf(p))
    ensures At(h', if p.Top? then Root(Rotated(t, side)) else root, p, Rotated(t, side))
  {
    var u := Root(Rotated(t, side));
    PathIdsInArena(h, root, p, t.id);
    IdsInArena(h, t, Head(p));
    RotatedSubtreeHolds(h, h', p, t, side);
    RotatedIds(t, side);
    Relink(h, root, p, t.id, u);
    PathFrame(Relinked(h, p, u), h', if p.Top? then u else root, p, u);
  }

  /** A fresh node, linked where a leaf was. */
  lemma LinkNew<K, V>(h: Arena<K, V>, root: Ref, p: Path<K, V>, n: Tree<K, V>)
    requires At(h, root, p, Leaf) && n.Node? && n.left.Leaf? && n.right.Leaf?
    requires n.id != 0 && n.id !in h
    ensures p.Step? ==> p.id in h
    ensures var h1 := h[n.id := Record(n.key, n.value, n.color, 0, 0, Head(p))];
            At(Relinked(h1, p, n.id), if p.Top? then n.id else root, p, n)
  {
    var h1 := h[n.id := Record(n.key, n.value, n.color, 0, 0, Head(p))];
    PathIdsInArena(h, root, p, 0);
    PathFrame(h, h1, root, p, 0);
    Relink(h1, root, p, 0, n.id);
  }

  /** The arena after `child` gets `parent` as its parent link. */
  function Adopted<K, V>(h: Arena<K, V>, child: Ref, parent: Ref): Arena<K, V>
    requires child != 0 ==> child in h
  {
    if child == 0 then h else h[child := h[child].(parent := parent)]
  }

  /** A node with at most one child is unlinked: the child takes its place. */
  lemma Splice<K, V>(h: Arena<K, V>, root: Ref, p: Path<K, V>, t: Tree<K, V>)
    requires At(h, root, p, t) && t.Node? && (t.left.Leaf? || t.right.Leaf?)
    ensures var child := if t.left.Node? then t.left else t.right;
            && (child.Node? ==> child.id in h && child.id != 0) && (p.Step? ==> p.id in h && p.id != t.id)
            && h[t.id].parent == Head(p)
            && (p.Step? ==> (Adopted(h, Root(child), Head(p))[p.id].left == t.id <==> p.side.Left?))
            && At(Relinked(Adopted(h, Root(child), Head(p)), p, Root(child)),
                  if p.Top? then Root(child) else root, p, child)
  {
    var child := if t.left.Node? then t.left else t.right;
    assert Holds(h, child, t.id) && Distinct(child);
    PathIdsInArena(h, root, p, t.id);
    if p.Step? {
      SideIsDecided(h, root, p, t);
    }
    var h1 := Adopted(h, Root(child), Head(p));
    PathFrame(h, h1, root, p, t.id);
    Relink(h1, root, p, t.id, Root(child));
    var h2 := Relinked(h1, p, Root(child));
    if child.Node? {
      HoldsFrame(h, h2, child.left, child.id);
      HoldsFrame(h, h2, child.right, child.id);
    }
  }

  lemma {:induction false} MoveToLeftmost<K, V>(h: Arena<K, V>, root: Ref, p: Path<K, V>, t: Tree<K, V>)
    requires At(h, root, p, t) && t.Node?
    ensures At(h, root, LeftPath(p, t), Leftmost(t))
    decreases t
  {
    if t.left.Node? {
      MoveUp(h, root, Down(p, t, Left), t.left);
      MoveToLeftmost(h, root, Down(p, t, Left), t.left);
    }
  }

  /** The parent's two links differ, so comparing with one of them tells the side. */
  lemma SideIsDecided<K, V>(h: Arena<K, V>, root: Ref, p: Path<K, V>, t: Tree<K, V>)
    requires At(h, root, p, t) && p.Step? && (t.Node? || p.sib.Node?)
    ensures (h[p.id].left == Root(t)) <==> p.side.Left?
    ensures (h[p.id].right == Root(t)) <==> p.side.Right?
  {
  }
}
