/** Directional focus: the structural climb of movePaneFocus agrees with the rectangles that any positive
    assignment of sizes gives to the panes. */
module PaneGeometry {
  import opened Basics
  import opened PaneTree
  import opened PaneSplitClose

  // ---------- the walk ----------

  /** The leaf next to the boundary just crossed. */
  function EdgeLeaf(n: Node, axis: Direction, forward: bool): (r: Id)
    requires Bushy(n)
  {
    if n.Leaf? then n.id
    else EdgeLeaf(n.children[if n.dir == axis && !forward then |n.children| - 1 else 0], axis, forward)
  }

  /** The place of the sibling one step along. */
  function Beside(k: int, forward: bool): int { if forward then k + 1 else k - 1 }

  /** The walk seen from the root: the innermost ancestor that splits along the axis and has a sibling on
      that side decides. */
  function Focus(n: Node, p: Id, axis: Direction, forward: bool): Option<Id>
    requires Bushy(n)
  {
    if n.Leaf? || n.id == p then None
    else
      var k := Holder(n.children, p, 0);
      if k == |n.children| then None
      else
        var inner := Focus(n.children[k], p, axis, forward);
        var s := Beside(k, forward);
        if inner.Some? || n.dir != axis || !(0 <= s < |n.children|) then inner
        else Some(EdgeLeaf(n.children[s], axis, forward))
  }

  /** How many ancestors a node has. */
  ghost function Depth(n: Node, p: Id): nat {
    if n.Leaf? || n.id == p then 0
    else
      var k := Holder(n.children, p, 0);
      if k == |n.children| then 0 else 1 + Depth(n.children[k], p)
  }

  lemma HoldingChild(n: Node, p: Id) returns (k: nat)
    requires Unique(n) && p in Ids(n) && p != n.id
    ensures n.Split? && k < |n.children| && p in Ids(n.children[k])
    ensures Holder(n.children, p, 0) == k
  {
    InSomeChild(n, p);
    k :| 0 <= k < |n.children| && p in Ids(n.children[k]);
    HolderUnique(n, p, k);
  }

  lemma {:induction false} ParentBushy(n: Node, p: Id)
    requires Good(n) && p in Ids(n) && p != n.id
    ensures FindParent(n, p).Some? && Bushy(FindParent(n, p).value)
  {
    InSomeChild(n, p);
    var k :| 0 <= k < |n.children| && p in Ids(n.children[k]);
    ParentStep(n, p, k);
    if n.children[k].id != p { ParentBushy(n.children[k], p); }
  }

  /** One turn of the climb: the parent answers, or the question is passed to the parent, which is nearer
      the root. */
  lemma {:induction false} Climb(n: Node, p: Id, axis: Direction, forward: bool)
    requires Good(n) && p in Ids(n) && p != n.id
    ensures FindParent(n, p).Some? && Bushy(FindParent(n, p).value)
    ensures var q := FindParent(n, p).value;
            && q.id in Ids(n) && Depth(n, q.id) + 1 == Depth(n, p)
            && var s := Beside(IndexOf(q.children, p, 0), forward);
               Focus(n, p, axis, forward) ==
               if q.dir == axis && 0 <= s < |q.children| then Some(EdgeLeaf(q.children[s], axis, forward))
               else Focus(n, q.id, axis, forward)
  {
    hide Ids, FindParent;
    ParentBushy(n, p);
    var k := HoldingChild(n, p);
    ParentStep(n, p, k);
    var c := n.children[k];
    if c.id == p {
      DirectChild(n, p, k);
    } else {
      Climb(c, p, axis, forward);
      HolderUnique(n, FindParent(c, p).value.id, k);
    }
  }

  datatype Move = Left | Right | Up | Down

  function AxisOf(d: Move): Direction { if d.Left? || d.Right? then Horizontal else Vertical }

  function Forward(d: Move): bool { d.Right? || d.Down? }

  /** Where a move leads. */
  function Neighbour(root: Node, p: Id, d: Move): Option<Id>
    requires Bushy(root)
  {
    Focus(root, p, AxisOf(d), Forward(d))
  }

  /** The climbing loop answers as the walk from the root does: on every placement of the panes the one that lies
      where the move leads. An unknown pane has nowhere to go. */
  method MovePaneFocus(root: Node, paneId: Id, d: Move) returns (r: Option<Id>)
    requires Good(root)
    ensures r == if paneId in Ids(root) then Neighbour(root, paneId, d) else None
    ensures r.Some? ==> paneId in Ids(root) && r.value in LeafIds(root)
    ensures paneId in Ids(root) ==>
              forall area, size :: Placeable(root, area, size) ==>
                LeadsTo(Placement(root, area, size), area, paneId, d, r)
  {
    hide Placeable, RectOf, LeadsTo;
    if !ContainsId(root, paneId) { return None; }
    MovesAgree(root, paneId, d);
    var axis, forward := AxisOf(d), Forward(d);
    var current := paneId;
    while true
      invariant current in Ids(root)
      invariant Focus(root, current, axis, forward) == Focus(root, paneId, axis, forward)
      decreases Depth(root, current)
    {
      var parent := FindParent(root, current);
      if current != root.id { Climb(root, current, axis, forward); }
      if parent.None? { return None; }
      var q := parent.value;
      if q.dir == axis {
        var s := Beside(IndexOf(q.children, current, 0), forward);
        if 0 <= s < |q.children| { return Some(EdgeLeaf(q.children[s], axis, forward)); }
      }
      current := q.id;
    }
  }

  // ---------- the rectangles ----------

  datatype Rect = Rect(left: real, right: real, top: real, bottom: real)

  function Lo(r: Rect, axis: Direction): real { if axis.Horizontal? then r.left else r.top }

  function Hi(r: Rect, axis: Direction): real { if axis.Horizontal? then r.right else r.bottom }

  /** The edge on the side of the movement, and the one opposite. */
  function Far(r: Rect, axis: Direction, forward: bool): real { if forward then Hi(r, axis) else Lo(r, axis) }

  function Near(r: Rect, axis: Direction, forward: bool): real { Far(r, axis, !forward) }

  function Other(axis: Direction): Direction { if axis.Horizontal? then Vertical else Horizontal }

  predicate Inside(a: Rect, b: Rect, axis: Direction) { Lo(b, axis) <= Lo(a, axis) < Hi(a, axis) <= Hi(b, axis) }

  /** Every split is cut along its own axis into its children, in order and without gaps, and its children
      have its full extent across. */
  ghost predicate Tiled(n: Node, m: map<Id, Rect>) {
    && n.id in m && Lo(m[n.id], Horizontal) < Hi(m[n.id], Horizontal) && Lo(m[n.id], Vertical) < Hi(m[n.id], Vertical)
    && (n.Split? ==>
          var cs, r, d := n.children, m[n.id], n.dir;
          && |cs| > 0
          && (forall i :: 0 <= i < |cs| ==> Tiled(cs[i], m))
          && (forall i :: 0 <= i < |cs| ==> Lo(m[cs[i].id], Other(d)) == Lo(r, Other(d)))
          && (forall i :: 0 <= i < |cs| ==> Hi(m[cs[i].id], Other(d)) == Hi(r, Other(d)))
          && Lo(m[cs[0].id], d) == Lo(r, d) && Hi(m[cs[|cs| - 1].id], d) == Hi(r, d)
          && (forall i, j :: 0 <= i && j == i + 1 && j < |cs| ==> Hi(m[cs[i].id], d) == Lo(m[cs[j].id], d)))
  }

  lemma {:induction false} ChainUp(n: Node, m: map<Id, Rect>, k: nat)
    requires Tiled(n, m) && n.Split? && k < |n.children|
    ensures n.children[k].id in m
    ensures Lo(m[n.id], n.dir) <= Lo(m[n.children[k].id], n.dir)
    ensures k > 0 ==> Lo(m[n.id], n.dir) < Lo(m[n.children[k].id], n.dir)
  {
    if k > 0 { ChainUp(n, m, k - 1); }
  }

  lemma {:induction false} ChainDown(n: Node, m: map<Id, Rect>, k: nat)
    requires Tiled(n, m) && n.Split? && k < |n.children|
    ensures n.children[k].id in m
    ensures Hi(m[n.children[k].id], n.dir) <= Hi(m[n.id], n.dir)
    ensures k < |n.children| - 1 ==> Hi(m[n.children[k].id], n.dir) < Hi(m[n.id], n.dir)
    decreases |n.children| - k
  {
    if k < |n.children| - 1 { ChainDown(n, m, k + 1); }
  }

  lemma ChildInside(n: Node, m: map<Id, Rect>, k: nat, axis: Direction)
    requires Tiled(n, m) && n.Split? && k < |n.children|
    ensures n.children[k].id in m && Inside(m[n.children[k].id], m[n.id], axis)
  {
    ChainUp(n, m, k);
    ChainDown(n, m, k);
  }

  /** No node leaves its ancestor's rectangle. */
  lemma {:induction false} NodeInside(n: Node, m: map<Id, Rect>, p: Id, axis: Direction)
    requires Tiled(n, m) && p in Ids(n)
    ensures p in m && Inside(m[p], m[n.id], axis)
  {
    if p != n.id {
      InSomeChild(n, p);
      var k :| 0 <= k < |n.children| && p in Ids(n.children[k]);
      NodeInside(n.children[k], m, p, axis);
      ChildInside(n, m, k, axis);
    }
  }

  /** The edge leaf of a subtree has the subtree's own near edge, and begins where the subtree does across. */
  lemma {:induction false} EdgeLeafAtEdge(n: Node, m: map<Id, Rect>, axis: Direction, forward: bool)
    requires Bushy(n) && Tiled(n, m)
    ensures var q := EdgeLeaf(n, axis, forward);
            && q in LeafIds(n) && q in m
            && Near(m[q], axis, forward) == Near(m[n.id], axis, forward)
            && Lo(m[q], Other(axis)) == Lo(m[n.id], Other(axis))
  {
    if n.Split? {
      var k := if n.dir == axis && !forward then |n.children| - 1 else 0;
      EdgeLeafAtEdge(n.children[k], m, axis, forward);
      assert EdgeLeaf(n, axis, forward) in LeafIds(n.children[k]);
    }
  }

  /** The two ways a child can be reached, on one axis. */
  lemma StepAcross(n: Node, m: map<Id, Rect>, k: nat, axis: Direction, forward: bool)
    requires Tiled(n, m) && n.Split? && k < |n.children|
    ensures forall i :: 0 <= i < |n.children| ==> n.children[i].id in m
    ensures var c, s := m[n.children[k].id], Beside(k, forward);
            if n.dir == axis && 0 <= s < |n.children|
            then && Near(m[n.children[s].id], axis, forward) == Far(c, axis, forward)
                 && Far(c, axis, forward) != Far(m[n.id], axis, forward)
            else Far(c, axis, forward) == Far(m[n.id], axis, forward)
  {
    ChainUp(n, m, k);
    ChainDown(n, m, k);
  }

  lemma LeafOfChild(n: Node, k: nat, q: Id)
    requires n.Split? && k < |n.children| && q in LeafIds(n.children[k])
    ensures q in LeafIds(n)
  {
  }

  ghost predicate Matches(n: Node, m: map<Id, Rect>, p: Id, axis: Direction, forward: bool, f: Option<Id>)
    requires p in m && n.id in m
  {
    && (f.None? <==> Far(m[p], axis, forward) == Far(m[n.id], axis, forward))
    && (f.Some? ==> && f.value in LeafIds(n) && f.value in m
                    && Near(m[f.value], axis, forward) == Far(m[p], axis, forward)
                    && Lo(m[f.value], Other(axis)) <= Lo(m[p], Other(axis)))
  }

  /** The walk agrees with the geometry: it stops exactly at the edge of the workspace, and otherwise the
      pane it names begins where this one ends, and across the movement begins no later than this one. */
  lemma {:induction false} FocusMatches(n: Node, m: map<Id, Rect>, p: Id, axis: Direction, forward: bool)
    requires Good(n) && Tiled(n, m) && p in Ids(n)
    ensures p in m && Matches(n, m, p, axis, forward, Focus(n, p, axis, forward))
  {
    hide Ids, LeafIds, EdgeLeaf, Tiled;
    NodeInside(n, m, p, axis);
    NodeInside(n, m, p, Other(axis));
    if p != n.id {
      var k := HoldingChild(n, p);
      ChildTiled(n, m, k);
      FocusMatches(n.children[k], m, p, axis, forward);
      NodeInside(n.children[k], m, p, axis);
      ChildInside(n, m, k, axis);
      StepAcross(n, m, k, axis, forward);
      var inner, s := Focus(n.children[k], p, axis, forward), Beside(k, forward);
      if inner.Some? {
        LeafOfChild(n, k, inner.value);
      } else if n.dir == axis && 0 <= s < |n.children| {
        ChildTiled(n, m, s);
        EdgeLeafAtEdge(n.children[s], m, axis, forward);
        SameAcross(n, m, s);
        LeafOfChild(n, s, EdgeLeaf(n.children[s], axis, forward));
      }
    }
  }

  lemma SameAcross(n: Node, m: map<Id, Rect>, k: nat)
    requires Tiled(n, m) && n.Split? && k < |n.children|
    ensures n.children[k].id in m
    ensures Lo(m[n.children[k].id], Other(n.dir)) == Lo(m[n.id], Other(n.dir))
    ensures Hi(m[n.children[k].id], Other(n.dir)) == Hi(m[n.id], Other(n.dir))
  {
  }

  lemma ChildTiled(n: Node, m: map<Id, Rect>, k: nat)
    requires Tiled(n, m) && n.Split? && k < |n.children|
    ensures n.id in m && n.children[k].id in m && Tiled(n.children[k], m)
  {
  }

  // ---------- every assignment of sizes ----------

  /** Positive sizes for these nodes. */
  ghost predicate Sized(n: Node, size: map<Id, real>) { forall x :: x in Ids(n) ==> x in size && size[x] > 0.0 }

  /** The total size of the first `i` children. */
  ghost function Total(cs: seq<Node>, size: map<Id, real>, i: nat): real
    requires i <= |cs| && forall j :: 0 <= j < |cs| ==> cs[j].id in size
  {
    if i == 0 then 0.0 else Total(cs, size, i - 1) + size[cs[i - 1].id]
  }

  lemma {:induction false} TotalGrows(cs: seq<Node>, size: map<Id, real>, i: nat, j: nat)
    requires i <= j <= |cs| && forall k :: 0 <= k < |cs| ==> cs[k].id in size && size[cs[k].id] > 0.0
    ensures Total(cs, size, i) <= Total(cs, size, j)
    ensures i < j ==> Total(cs, size, i) < Total(cs, size, j)
    decreases j
  {
    if i < j { TotalGrows(cs, size, i, j - 1); }
  }

  function Times(w: real, u: real): real { w * u }

  /** The point of the interval `lo..hi` that leaves `a` parts of `t` before it. */
  function Portion(lo: real, hi: real, a: real, t: real): real
    requires t > 0.0
  {
    lo + Times(hi - lo, a / t)
  }

  /** The `i`-th cut of the interval `lo..hi` when it is shared out in proportion to the sizes. */
  ghost function Cut(cs: seq<Node>, size: map<Id, real>, lo: real, hi: real, i: nat): real
    requires i <= |cs| && forall j :: 0 <= j < |cs| ==> cs[j].id in size
    requires Total(cs, size, |cs|) > 0.0
  {
    Portion(lo, hi, Total(cs, size, i), Total(cs, size, |cs|))
  }

  lemma Proportion(lo: real, hi: real, a: real, b: real, t: real)
    requires lo < hi && a < b && t > 0.0
    ensures Portion(lo, hi, a, t) < Portion(lo, hi, b, t)
  {
    hide Times;
    Quotient(a, b, t);
    Scaled(hi - lo, a / t, b / t);
  }

  lemma Quotient(a: real, b: real, t: real)
    requires a < b && t > 0.0
    ensures a / t < b / t
  {
  }

  lemma Scaled(w: real, u: real, v: real)
    requires w > 0.0 && u < v
    ensures Times(w, u) < Times(w, v)
  {
  }

  lemma Cuts(cs: seq<Node>, size: map<Id, real>, lo: real, hi: real)
    requires |cs| > 0 && lo < hi && forall k :: 0 <= k < |cs| ==> cs[k].id in size && size[cs[k].id] > 0.0
    ensures Total(cs, size, |cs|) > 0.0
    ensures Cut(cs, size, lo, hi, 0) == lo && Cut(cs, size, lo, hi, |cs|) == hi
    ensures forall i :: 0 <= i < |cs| ==> Cut(cs, size, lo, hi, i) < Cut(cs, size, lo, hi, i + 1)
  {
    hide Total, Cut;
    NoTotal(cs, size);
    TotalGrows(cs, size, 0, |cs|);
    CutEnds(cs, size, lo, hi);
    forall i | 0 <= i < |cs| ensures Cut(cs, size, lo, hi, i) < Cut(cs, size, lo, hi, i + 1) {
      CutStep(cs, size, lo, hi, i);
    }
  }

  lemma NoTotal(cs: seq<Node>, size: map<Id, real>)
    requires forall k :: 0 <= k < |cs| ==> cs[k].id in size
    ensures Total(cs, size, 0) == 0.0
  {
  }

  lemma CutEnds(cs: seq<Node>, size: map<Id, real>, lo: real, hi: real)
    requires (forall k :: 0 <= k < |cs| ==> cs[k].id in size) && Total(cs, size, |cs|) > 0.0
    ensures Cut(cs, size, lo, hi, 0) == lo && Cut(cs, size, lo, hi, |cs|) == hi
  {
    hide Portion;
    Whole(lo, hi, Total(cs, size, |cs|));
  }

  lemma Whole(lo: real, hi: real, t: real)
    requires t > 0.0
    ensures Portion(lo, hi, 0.0, t) == lo && Portion(lo, hi, t, t) == hi
  {
  }

  lemma CutStep(cs: seq<Node>, size: map<Id, real>, lo: real, hi: real, i: nat)
    requires i < |cs| && lo < hi && forall k :: 0 <= k < |cs| ==> cs[k].id in size && size[cs[k].id] > 0.0
    requires Total(cs, size, |cs|) > 0.0
    ensures Cut(cs, size, lo, hi, i) < Cut(cs, size, lo, hi, i + 1)
  {
    hide Total, Portion;
    TotalGrows(cs, size, i, i + 1);
    Proportion(lo, hi, Total(cs, size, i), Total(cs, size, i + 1), Total(cs, size, |cs|));
  }

  /** The rectangle with one axis replaced. */
  function Slice(r: Rect, d: Direction, lo: real, hi: real): Rect {
    if d.Horizontal? then r.(left := lo, right := hi) else r.(top := lo, bottom := hi)
  }

  ghost predicate Placeable(n: Node, r: Rect, size: map<Id, real>) {
    Bushy(n) && Sized(n, size) && r.left < r.right && r.top < r.bottom
  }

  /** The rectangle of the `k`-th child. */
  ghost function ChildRect(n: Node, r: Rect, size: map<Id, real>, k: nat): (c: Rect)
    requires Placeable(n, r, size) && n.Split? && k < |n.children|
    ensures Placeable(n.children[k], c, size)
  {
    ChildrenSized(n, size);
    Cuts(n.children, size, Lo(r, n.dir), Hi(r, n.dir));
    Slice(r, n.dir,
          Cut(n.children, size, Lo(r, n.dir), Hi(r, n.dir), k),
          Cut(n.children, size, Lo(r, n.dir), Hi(r, n.dir), k + 1))
  }

  lemma ChildrenSized(n: Node, size: map<Id, real>)
    requires n.Split? && Sized(n, size)
    ensures forall k :: 0 <= k < |n.children| ==>
            Sized(n.children[k], size) && n.children[k].id in size && size[n.children[k].id] > 0.0
  {
    forall k | 0 <= k < |n.children|
      ensures Sized(n.children[k], size) && n.children[k].id in size && size[n.children[k].id] > 0.0
    {
      assert Ids(n.children[k]) <= Ids(n) && n.children[k].id in Ids(n.children[k]);
    }
  }

  /** Where node `x` is drawn when `n` fills `r`. */
  ghost function RectOf(n: Node, r: Rect, size: map<Id, real>, x: Id): Rect
    requires Placeable(n, r, size)
    decreases n
  {
    if n.Leaf? || x == n.id then r
    else
      var k := Holder(n.children, x, 0);
      if k == |n.children| then r else RectOf(n.children[k], ChildRect(n, r, size, k), size, x)
  }

  ghost function Placement(n: Node, r: Rect, size: map<Id, real>): map<Id, Rect>
    requires Placeable(n, r, size)
  {
    map x | x in Ids(n) :: RectOf(n, r, size, x)
  }

  lemma {:induction false} PlacementTiles(n: Node, r: Rect, size: map<Id, real>, m: map<Id, Rect>)
    requires Unique(n) && Placeable(n, r, size)
    requires forall x :: x in Ids(n) ==> x in m && m[x] == RectOf(n, r, size, x)
    ensures Tiled(n, m) && m[n.id] == r
  {
    hide Ids, Tiled, Sized;
    if n.Leaf? {
      LeafTiled(n, m);
    } else {
      forall k | 0 <= k < |n.children|
        ensures Tiled(n.children[k], m) && n.children[k].id in m && m[n.children[k].id] == ChildRect(n, r, size, k)
      {
        InheritRects(n, r, size, m, k);
        PlacementTiles(n.children[k], ChildRect(n, r, size, k), size, m);
      }
      SplitTiled(n, r, size, m);
    }
  }

  lemma LeafTiled(n: Node, m: map<Id, Rect>)
    requires n.Leaf? && n.id in m && m[n.id].left < m[n.id].right && m[n.id].top < m[n.id].bottom
    ensures Tiled(n, m)
  {
  }

  lemma InheritRects(n: Node, r: Rect, size: map<Id, real>, m: map<Id, Rect>, k: nat)
    requires Unique(n) && Placeable(n, r, size) && n.Split? && k < |n.children|
    requires forall x :: x in Ids(n) ==> x in m && m[x] == RectOf(n, r, size, x)
    ensures n.children[k].id in m
    ensures forall x :: x in Ids(n.children[k]) ==>
            x in m && m[x] == RectOf(n.children[k], ChildRect(n, r, size, k), size, x)
  {
    forall x | x in Ids(n.children[k])
      ensures x in m && m[x] == RectOf(n.children[k], ChildRect(n, r, size, k), size, x)
    {
      HolderUnique(n, x, k);
    }
  }

  lemma SplitTiled(n: Node, r: Rect, size: map<Id, real>, m: map<Id, Rect>)
    requires Placeable(n, r, size) && n.Split? && n.id in m && m[n.id] == r
    requires forall k :: 0 <= k < |n.children| ==>
            Tiled(n.children[k], m) && n.children[k].id in m && m[n.children[k].id] == ChildRect(n, r, size, k)
    ensures Tiled(n, m)
  {
    hide Cut, Total, Ids;
    ChildrenSized(n, size);
    Cuts(n.children, size, Lo(r, n.dir), Hi(r, n.dir));
  }

  lemma PlacedSolid(root: Node, r: Rect, size: map<Id, real>, p: Id, axis: Direction)
    requires Good(root) && Placeable(root, r, size) && p in Ids(root)
    ensures var m := Placement(root, r, size); Lo(m[p], axis) < Hi(m[p], axis)
  {
    PlacementTiles(root, r, size, Placement(root, r, size));
    NodeInside(root, Placement(root, r, size), p, axis);
  }

  /** The two share more than a point of this axis. */
  predicate Overlaps(a: Rect, b: Rect, axis: Direction) { Lo(a, axis) < Hi(b, axis) && Lo(b, axis) < Hi(a, axis) }

  /** The answer to a move on a placement that fills `area`: none exactly at that edge of the area, and otherwise
      a pane that touches this one's edge from the other side. The two lie beside each other exactly when, across
      the movement, this one begins before that one ends. */
  ghost predicate LeadsTo(m: map<Id, Rect>, area: Rect, p: Id, d: Move, f: Option<Id>)
    requires p in m && (f.Some? ==> f.value in m)
  {
    var here := m[p];
    match d
    case Left =>
      && (f.None? <==> here.left == area.left)
      && (f.Some? ==> m[f.value].right == here.left && BesideRows(m[f.value], here))
    case Right =>
      && (f.None? <==> here.right == area.right)
      && (f.Some? ==> m[f.value].left == here.right && BesideRows(m[f.value], here))
    case Up =>
      && (f.None? <==> here.top == area.top)
      && (f.Some? ==> m[f.value].bottom == here.top && BesideColumns(m[f.value], here))
    case Down =>
      && (f.None? <==> here.bottom == area.bottom)
      && (f.Some? ==> m[f.value].top == here.bottom && BesideColumns(m[f.value], here))
  }

  predicate BesideRows(a: Rect, b: Rect) {
    a.top <= b.top && (a.top < b.bottom && b.top < a.bottom <==> b.top < a.bottom)
  }

  predicate BesideColumns(a: Rect, b: Rect) {
    a.left <= b.left && (a.left < b.right && b.left < a.right <==> b.left < a.right)
  }

  /** Directional focus agrees with the rendered layout, for every positive assignment of sizes. */
  lemma FocusAgreesWithLayout(root: Node, area: Rect, size: map<Id, real>, p: Id, d: Move)
    requires Good(root) && Placeable(root, area, size) && p in Ids(root)
    ensures var m, f := Placement(root, area, size), Neighbour(root, p, d);
            && m[root.id] == area
            && (f.Some? ==> f.value in LeafIds(root))
            && LeadsTo(m, area, p, d, f)
  {
    hide Ids, LeafIds, RectOf, Tiled, Focus, Placeable;
    PlacedSolid(root, area, size, p, Horizontal);
    PlacedSolid(root, area, size, p, Vertical);
    PlacementTiles(root, area, size, Placement(root, area, size));
    FocusMatches(root, Placement(root, area, size), p, AxisOf(d), Forward(d));
  }

  lemma MovesAgree(root: Node, p: Id, d: Move)
    requires Good(root) && p in Ids(root)
    ensures var f := Neighbour(root, p, d);
            && (f.Some? ==> f.value in Ids(root) && f.value in LeafIds(root))
            && forall area, size :: Placeable(root, area, size) ==> LeadsTo(Placement(root, area, size), area, p, d, f)
  {
    hide Ids, LeafIds, RectOf, Focus, Placeable, LeadsTo;
    var f := Neighbour(root, p, d);
    SomePlacement(root);
    var square, even := Rect(0.0, 1.0, 0.0, 1.0), EvenSizes(root);
    FocusAgreesWithLayout(root, square, even, p, d);
    forall area, size | Placeable(root, area, size) ensures LeadsTo(Placement(root, area, size), area, p, d, f) {
      FocusAgreesWithLayout(root, area, size, p, d);
    }
  }

  ghost function EvenSizes(n: Node): map<Id, real> { map x | x in Ids(n) :: 1.0 }

  lemma SomePlacement(n: Node)
    requires Bushy(n)
    ensures Placeable(n, Rect(0.0, 1.0, 0.0, 1.0), EvenSizes(n))
  {
  }
}
