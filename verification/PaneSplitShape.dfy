/** Where a split puts the new pane: in the tree, beside the pane that was split under a split of the direction
    asked for, and on the screen, right beside it in every layout. */
module PaneSplitShape {
  import opened Basics
  import opened PaneTree
  import opened PaneSplitClose
  import opened PaneBindings
  import opened PaneGeometry

  /** Somewhere in the tree, `a` and `b` are neighbours, in this order, in a split of this direction. */
  predicate Neighbours(n: Node, dir: Direction, a: Id, b: Id) {
    && n.Split?
    && ((n.dir == dir && exists i, j :: 0 <= i < |n.children| && 0 <= j < |n.children| && j == i + 1
                                        && n.children[i].id == a && n.children[j].id == b)
        || exists i :: 0 <= i < |n.children| && Neighbours(n.children[i], dir, a, b))
  }

  /** The node with this id is a split in the other direction, or a leaf alone: a new split is needed. */
  ghost predicate Alone(n: Node, p: Id, dir: Direction) {
    n.Split? ==>
      forall i :: 0 <= i < |n.children| ==> Alone(n.children[i], p, dir) && (n.children[i].id == p ==> n.dir != dir)
  }

  lemma HereNeighbours(n: Node, dir: Direction, i: nat, a: Id, b: Id)
    requires n.Split? && n.dir == dir && i + 1 < |n.children| && n.children[i].id == a && n.children[i + 1].id == b
    ensures Neighbours(n, dir, a, b)
  {
    var j := i + 1;
    assert n.children[i].id == a && n.children[j].id == b;
  }

  lemma BelowNeighbours(n: Node, k: nat, dir: Direction, a: Id, b: Id)
    requires n.Split? && k < |n.children| && Neighbours(n.children[k], dir, a, b)
    ensures Neighbours(n, dir, a, b)
  {
  }

  /** The new leaf joins the group of the pane, or makes one with it. */
  lemma {:induction false} SplitNeighbours(n: Node, p: Id, dir: Direction, leaf: Node, splitId: Id, before: bool)
    requires Unique(n) && p in LeafIds(n)
    ensures Neighbours(SplitAt(n, p, dir, leaf, splitId, before), dir,
                       if before then leaf.id else p, if before then p else leaf.id)
  {
    hide Neighbours, Ids, LeafIds;
    var a, b := if before then leaf.id else p, if before then p else leaf.id;
    var m := SplitAt(n, p, dir, leaf, splitId, before);
    if n.Leaf? {
      OnlyLeaf(n, p);
      HereNeighbours(m, dir, 0, a, b);
    } else {
      LeafHasHolder(n, p);
      var k := Holder(n.children, p, 0);
      if n.dir == dir && n.children[k].id == p {
        HereNeighbours(m, dir, k, a, b);
      } else {
        SplitNeighbours(n.children[k], p, dir, leaf, splitId, before);
        BelowNeighbours(m, k, dir, a, b);
      }
    }
  }

  /** A split of this id and direction, without a layout, of the pane and the new leaf alone. */
  predicate PairOf(q: Node, splitId: Id, dir: Direction, p: Id, leaf: Node, before: bool) {
    && q.Split? && q.id == splitId && q.dir == dir && q.layout == None && |q.children| == 2
    && q.children[if before then 0 else 1] == leaf
    && q.children[if before then 1 else 0].Leaf? && q.children[if before then 1 else 0].id == p
  }

  predicate HasPair(n: Node, splitId: Id, dir: Direction, p: Id, leaf: Node, before: bool) {
    || PairOf(n, splitId, dir, p, leaf, before)
    || (n.Split? && exists i :: 0 <= i < |n.children| && HasPair(n.children[i], splitId, dir, p, leaf, before))
  }

  lemma PairBelow(n: Node, k: nat, splitId: Id, dir: Direction, p: Id, leaf: Node, before: bool)
    requires n.Split? && k < |n.children| && HasPair(n.children[k], splitId, dir, p, leaf, before)
    ensures HasPair(n, splitId, dir, p, leaf, before)
  {
  }

  lemma {:induction false} AbsentAlone(n: Node, p: Id, dir: Direction)
    requires p !in Ids(n)
    ensures Alone(n, p, dir)
  {
    if n.Split? {
      forall i | 0 <= i < |n.children| ensures Alone(n.children[i], p, dir) && n.children[i].id != p {
        AbsentAlone(n.children[i], p, dir);
        assert n.children[i].id in Ids(n.children[i]);
      }
    }
  }

  /** Only the child that holds the pane matters. */
  lemma AloneBelow(n: Node, p: Id, dir: Direction, k: nat)
    requires Unique(n) && n.Split? && k < |n.children| && p in Ids(n.children[k])
    ensures Alone(n, p, dir) <==> Alone(n.children[k], p, dir) && (n.children[k].id == p ==> n.dir != dir)
  {
    HolderUnique(n, p, k);
    forall i | 0 <= i < |n.children| && i != k ensures Alone(n.children[i], p, dir) && n.children[i].id != p {
      AbsentAlone(n.children[i], p, dir);
      assert n.children[i].id in Ids(n.children[i]);
    }
  }

  lemma InsertIds(n: Node, at: nat, leaf: Node, x: Id)
    requires n.Split? && at <= |n.children| && leaf.Leaf? && x !in Ids(n) && x != leaf.id
    ensures x !in Ids(n.(children := InsertAt(n.children, at, leaf)))
  {
    hide InsertAt;
    var m := n.(children := InsertAt(n.children, at, leaf));
    InsertedChildren(n.children, at, leaf);
    forall c | c in m.children ensures x !in Ids(c) {
      if c in n.children { ChildIds(n, c); }
    }
    forall i | 0 <= i < |m.children| ensures x !in Ids(m.children[i]) {
      assert m.children[i] in m.children;
    }
  }

  lemma ChildIds(n: Node, c: Node)
    requires n.Split? && c in n.children
    ensures Ids(c) <= Ids(n)
  {
    var i :| 0 <= i < |n.children| && n.children[i] == c;
  }

  lemma UpdateIds(n: Node, k: nat, c: Node, x: Id)
    requires n.Split? && k < |n.children| && x !in Ids(n)
    ensures x in Ids(n.(children := n.children[k := c])) <==> x in Ids(c)
  {
    var m := n.(children := n.children[k := c]);
    forall i | 0 <= i < |m.children| && i != k ensures x !in Ids(m.children[i]) {
      assert m.children[i] == n.children[i];
    }
    assert m.children[k] == c;
  }

  /** A new split comes into the tree if and only if the pane is in no split of that direction; it is made of the
      pane and the new leaf. */
  lemma {:induction false} NewSplitIff(n: Node, p: Id, dir: Direction, leaf: Node, splitId: Id, before: bool)
    requires Good(n) && p in LeafIds(n) && leaf.Leaf? && splitId !in Ids(n) && splitId != leaf.id
    ensures var m := SplitAt(n, p, dir, leaf, splitId, before);
            && (splitId in Ids(m) <==> Alone(n, p, dir))
            && (Alone(n, p, dir) ==> HasPair(m, splitId, dir, p, leaf, before))
  {
    hide Ids, LeafIds, HasPair, Alone;
    var m := SplitAt(n, p, dir, leaf, splitId, before);
    if n.Leaf? {
      OnlyLeaf(n, p);
      LeafAlone(n, p, dir);
      PairHere(m, splitId, dir, p, leaf, before);
    } else {
      LeafHasHolder(n, p);
      var k := Holder(n.children, p, 0);
      LeafInIds(n.children[k], p);
      AloneBelow(n, p, dir, k);
      if n.dir == dir && n.children[k].id == p {
        InsertIds(n, if before then k else k + 1, leaf, splitId);
      } else {
        ChildHasNot(n, k, splitId);
        NewSplitIff(n.children[k], p, dir, leaf, splitId, before);
        UpdateIds(n, k, SplitAt(n.children[k], p, dir, leaf, splitId, before), splitId);
        if Alone(n, p, dir) { PairBelow(m, k, splitId, dir, p, leaf, before); }
      }
    }
  }

  lemma LeafAlone(n: Node, p: Id, dir: Direction)
    requires n.Leaf?
    ensures Alone(n, p, dir)
  {
  }

  lemma PairHere(m: Node, splitId: Id, dir: Direction, p: Id, leaf: Node, before: bool)
    requires PairOf(m, splitId, dir, p, leaf, before)
    ensures HasPair(m, splitId, dir, p, leaf, before) && splitId in Ids(m)
  {
  }

  lemma ChildHasNot(n: Node, k: nat, x: Id)
    requires n.Split? && k < |n.children| && x !in Ids(n)
    ensures x !in Ids(n.children[k])
  {
  }

  // ---------- on the screen ----------

  /** `b` begins where `a` ends, left to right or top to bottom, and the two have the same extent across. */
  predicate Follows(a: Rect, b: Rect, dir: Direction) {
    match dir
    case Horizontal => b.left == a.right && b.top == a.top && b.bottom == a.bottom
    case Vertical => b.top == a.bottom && b.left == a.left && b.right == a.right
  }

  lemma {:induction false} NeighboursFollow(n: Node, m: map<Id, Rect>, dir: Direction, a: Id, b: Id)
    requires Tiled(n, m) && Neighbours(n, dir, a, b)
    ensures a in m && b in m && Follows(m[a], m[b], dir)
  {
    hide Ids;
    if i, j :| n.dir == dir && 0 <= i < |n.children| && 0 <= j < |n.children| && j == i + 1
               && n.children[i].id == a && n.children[j].id == b
    {
      ChildTiled(n, m, i);
      ChildTiled(n, m, j);
      SameAcross(n, m, i);
      SameAcross(n, m, j);
    } else {
      var i :| 0 <= i < |n.children| && Neighbours(n.children[i], dir, a, b);
      ChildTiled(n, m, i);
      NeighboursFollow(n.children[i], m, dir, a, b);
    }
  }

  /** In every layout of the tree the two panes are drawn one right after the other. */
  ghost predicate DrawnBeside(m: Node, dir: Direction, a: Id, b: Id)
    requires Bushy(m) && a in Ids(m) && b in Ids(m)
  {
    forall area, size :: Placeable(m, area, size) ==>
      Follows(Placement(m, area, size)[a], Placement(m, area, size)[b], dir)
  }

  /** A split draws the new pane right after the old one in the direction asked for, or right before it, in every
      layout of the new tree; a new split node comes in exactly when the pane was in no split of that direction,
      and holds the two alone. */
  lemma SplitDraws(root: Node, p: Id, dir: Direction, leaf: Node, splitId: Id, before: bool)
    requires Good(root) && p in LeafIds(root)
    requires leaf.Leaf? && leaf.id !in Ids(root) && splitId !in Ids(root) && splitId != leaf.id
    ensures var m := AddBeside(root, p, dir, leaf, splitId, before);
            && Good(m) && p in Ids(m) && leaf.id in Ids(m)
            && DrawnBeside(m, dir, if before then leaf.id else p, if before then p else leaf.id)
            && (splitId in Ids(m) <==> Alone(root, p, dir))
            && (Alone(root, p, dir) ==> HasPair(m, splitId, dir, p, leaf, before))
  {
    hide Ids, LeafIds, Bindings, SplitAt, AddBeside, Neighbours, Alone, HasPair, Placeable, RectOf, Follows;
    AddBesideIsSplitAt(root, p, dir, leaf, splitId, before);
    SplitPaneGrows(root, p, dir, leaf, splitId, before);
    SplitNeighbours(root, p, dir, leaf, splitId, before);
    NewSplitIff(root, p, dir, leaf, splitId, before);
    var m := AddBeside(root, p, dir, leaf, splitId, before);
    LeafInIds(m, p);
    LeafInIds(m, leaf.id);
    NeighboursDrawn(m, dir, if before then leaf.id else p, if before then p else leaf.id);
  }

  lemma NeighboursDrawn(m: Node, dir: Direction, a: Id, b: Id)
    requires Good(m) && a in Ids(m) && b in Ids(m) && Neighbours(m, dir, a, b)
    ensures DrawnBeside(m, dir, a, b)
  {
    hide Ids, Neighbours, Placeable, RectOf, Follows;
    forall area, size | Placeable(m, area, size)
      ensures Follows(Placement(m, area, size)[a], Placement(m, area, size)[b], dir)
    {
      PlacementTiles(m, area, size, Placement(m, area, size));
      NeighboursFollow(m, Placement(m, area, size), dir, a, b);
    }
  }

  // ---------- closing ----------

  /** The first leaf is the first in the visual order. */
  lemma {:induction false} FirstInOrder(n: Node)
    requires Bushy(n)
    ensures OrderedLeaves(n) != [] && FirstLeaf(n) == OrderedLeaves(n)[0]
  {
    if n.Split? { FirstInOrder(n.children[0]); }
  }

  /** What takes the place of a split that loses its `k`-th child: the other child if there were two. */
  function Shortened(q: Node, k: nat): Node
    requires q.Split? && k < |q.children|
  {
    if |q.children| == 2 then q.children[1 - k] else q.(children := q.children[..k] + q.children[k + 1..])
  }

  /** Closing a pane shortens its parent, and nothing else changes. The focus goes to the first pane, in visual
      order, of the sibling to its left, or of the one to its right when it was first. */
  lemma {:induction false} RemoveAtParent(n: Node, p: Id)
    requires Good(n) && p in Ids(n) && p != n.id
    ensures FindParent(n, p).Some?
    ensures var q := FindParent(n, p).value;
            var k := IndexOf(q.children, p, 0);
            && |q.children| >= 2
            && RemoveLeaf(n, p).root == MapNode(n, q.id, Become(Shortened(q, k)))
            && var near := OrderedLeaves(q.children[if k > 0 then k - 1 else 1]);
               near != [] && RemoveLeaf(n, p).focus == Some(near[0])
  {
    hide Ids, FindParent, MapNode, RemoveLeaf, OrderedLeaves, FirstLeaf;
    ParentBushy(n, p);
    var k := HoldingChild(n, p);
    ParentStep(n, p, k);
    var c := n.children[k];
    if c.id == p {
      DirectChild(n, p, k);
      RemoveHere(n, p, k);
    } else {
      RemoveAtParent(c, p);
      RemoveInside(n, p, k);
      ParentExists(c, p);
      var q := FindParent(c, p).value;
      MapChild(n, q.id, Become(Shortened(q, IndexOf(q.children, p, 0))), k);
    }
  }

  lemma RemoveHere(n: Node, p: Id, k: nat)
    requires Good(n) && n.Split? && k < |n.children| && IndexOf(n.children, p, 0) == k
    ensures var s := if k > 0 then k - 1 else 1;
            && OrderedLeaves(n.children[s]) != []
            && RemoveLeaf(n, p) == Removal(MapNode(n, n.id, Become(Shortened(n, k))),
                                           Some(OrderedLeaves(n.children[s])[0]))
  {
    hide OrderedLeaves, FirstLeaf;
    FirstInOrder(n.children[if k > 0 then k - 1 else 1]);
    assert Without(n.children, k) == n.children[..k] + n.children[k + 1..];
    if |n.children| == 2 { assert Without(n.children, k) == [n.children[1 - k]]; }
  }

  lemma RemoveInside(n: Node, p: Id, k: nat)
    requires Good(n) && n.Split? && k < |n.children| && p in Ids(n.children[k]) && n.children[k].id != p
    ensures var r := RemoveLeaf(n.children[k], p);
            RemoveLeaf(n, p) == Removal(n.(children := n.children[k := r.root]), r.focus)
  {
    HolderUnique(n, p, k);
    forall i | 0 <= i < |n.children| ensures n.children[i].id != p {
      if i != k { assert n.children[i].id in Ids(n.children[i]); }
    }
    assert IndexOf(n.children, p, 0) == -1;
  }
}
