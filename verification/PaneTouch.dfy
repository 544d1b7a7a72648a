/** When directional focus lands on a pane that lies right beside this one: exactly when in every layout, and
    by the shape of the tree alone. */
module PaneTouch {
  import opened Basics
  import opened PaneTree
  import opened PaneGeometry

  // ---------- the shape ----------

  /** Below `n`, pane `p` is first in every split across the axis. */
  predicate Flush(n: Node, p: Id, axis: Direction) {
    n.Leaf? || n.id == p ||
    var k := Holder(n.children, p, 0);
    k == |n.children| || ((n.dir == axis || k == 0) && Flush(n.children[k], p, axis))
  }

  function EdgeChild(n: Node, axis: Direction, forward: bool): (k: nat)
    requires Bushy(n) && n.Split?
    ensures k < |n.children|
  {
    if n.dir == axis && !forward then |n.children| - 1 else 0
  }

  /** The edge leaf of `n` has the whole extent of `n` across the axis. */
  predicate Spanning(n: Node, axis: Direction, forward: bool)
    requires Bushy(n)
  {
    n.Leaf? || (n.dir == axis && Spanning(n.children[EdgeChild(n, axis, forward)], axis, forward))
  }

  /** Where the walk finds its sibling, the pane is flush or the sibling's edge leaf spans it. */
  predicate Touching(n: Node, p: Id, axis: Direction, forward: bool)
    requires Bushy(n)
  {
    n.Leaf? || n.id == p ||
    var k := Holder(n.children, p, 0);
    k == |n.children| ||
    if Focus(n.children[k], p, axis, forward).Some? then Touching(n.children[k], p, axis, forward)
    else
      var s := Beside(k, forward);
      n.dir == axis && 0 <= s < |n.children| ==>
        Flush(n.children[k], p, axis) || Spanning(n.children[s], axis, forward)
  }

  // ---------- it is enough ----------

  lemma {:induction false} FlushBegins(n: Node, m: map<Id, Rect>, p: Id, axis: Direction)
    requires Unique(n) && Tiled(n, m) && p in Ids(n) && Flush(n, p, axis)
    ensures p in m && Lo(m[p], Other(axis)) == Lo(m[n.id], Other(axis))
  {
    hide Ids;
    if p != n.id {
      var k := HoldingChild(n, p);
      FlushBegins(n.children[k], m, p, axis);
    }
  }

  lemma {:induction false} SpanningEnds(n: Node, m: map<Id, Rect>, axis: Direction, forward: bool)
    requires Bushy(n) && Tiled(n, m) && Spanning(n, axis, forward)
    ensures var q := EdgeLeaf(n, axis, forward); q in m && Hi(m[q], Other(axis)) == Hi(m[n.id], Other(axis))
  {
    if n.Split? {
      SpanningEnds(n.children[EdgeChild(n, axis, forward)], m, axis, forward);
    }
  }

  lemma {:induction false} TouchingOverlaps(n: Node, m: map<Id, Rect>, p: Id, axis: Direction, forward: bool)
    requires Good(n) && Tiled(n, m) && p in Ids(n) && Focus(n, p, axis, forward).Some? && Touching(n, p, axis, forward)
    ensures var q := Focus(n, p, axis, forward).value;
            q in m && p in m && Overlaps(m[q], m[p], Other(axis))
  {
    hide Ids, LeafIds, EdgeLeaf, Tiled, Flush, Spanning;
    var k := HoldingChild(n, p);
    var c, s := n.children[k], Beside(k, forward);
    ChildTiled(n, m, k);
    if Focus(c, p, axis, forward).Some? {
      TouchingOverlaps(c, m, p, axis, forward);
    } else {
      var sib := n.children[s];
      ChildTiled(n, m, s);
      SameAcross(n, m, k);
      SameAcross(n, m, s);
      NodeInside(c, m, p, Other(axis));
      EdgeLeafAtEdge(sib, m, axis, forward);
      EdgeSolid(sib, m, axis, forward);
      if Flush(c, p, axis) { FlushBegins(c, m, p, axis); } else { SpanningEnds(sib, m, axis, forward); }
    }
  }

  lemma EdgeSolid(n: Node, m: map<Id, Rect>, axis: Direction, forward: bool)
    requires Bushy(n) && Tiled(n, m)
    ensures var q := EdgeLeaf(n, axis, forward); q in m && Lo(m[q], Other(axis)) < Hi(m[q], Other(axis))
  {
    EdgeLeafAtEdge(n, m, axis, forward);
    NodeInside(n, m, EdgeLeaf(n, axis, forward), Other(axis));
  }

  // ---------- it is needed: a layout that keeps them apart ----------

  /** Where pane `p` begins across the axis, as a part of `n`, when all sizes are equal. */
  ghost function Offset(n: Node, p: Id, axis: Direction): real {
    if n.Leaf? || n.id == p then 0.0
    else
      var k := Holder(n.children, p, 0);
      if k == |n.children| then 0.0
      else if n.dir == axis then Offset(n.children[k], p, axis)
      else (k as real + Offset(n.children[k], p, axis)) / (|n.children| as real)
  }

  lemma Share(k: real, u: real, c: real)
    requires 0.0 <= k && 0.0 <= u < 1.0 && k + 1.0 <= c
    ensures 0.0 <= (k + u) / c < 1.0 && (k + u > 0.0 ==> (k + u) / c > 0.0)
  {
    Quotient(k + u, c, c);
    if k + u > 0.0 { Quotient(0.0, k + u, c); }
  }

  lemma {:induction false} OffsetRange(n: Node, p: Id, axis: Direction)
    requires Bushy(n)
    ensures 0.0 <= Offset(n, p, axis) < 1.0
    ensures !Flush(n, p, axis) ==> Offset(n, p, axis) > 0.0
  {
    if n.Split? && n.id != p {
      var k := Holder(n.children, p, 0);
      if k < |n.children| {
        OffsetRange(n.children[k], p, axis);
        Share(k as real, Offset(n.children[k], p, axis), |n.children| as real);
      }
    }
  }

  /** The first child of the first split across the axis on the way to the edge leaf. */
  ghost function Thin(n: Node, axis: Direction, forward: bool): (r: Id)
    requires Bushy(n) && !Spanning(n, axis, forward)
    ensures r in Ids(n)
  {
    if n.dir != axis then n.children[0].id
    else
      var k := EdgeChild(n, axis, forward);
      assert Ids(n.children[k]) <= Ids(n);
      Thin(n.children[k], axis, forward)
  }

  /** All sizes equal, but for one. */
  ghost predicate SizesAre(n: Node, size: map<Id, real>, thin: Id, eps: real) {
    forall x :: x in Ids(n) ==> x in size && size[x] == if x == thin then eps else 1.0
  }

  lemma SizesBelow(n: Node, size: map<Id, real>, thin: Id, eps: real, k: nat)
    requires SizesAre(n, size, thin, eps) && n.Split? && k < |n.children|
    ensures SizesAre(n.children[k], size, thin, eps)
  {
    assert Ids(n.children[k]) <= Ids(n);
  }

  lemma {:induction false} EvenTotal(cs: seq<Node>, size: map<Id, real>, i: nat)
    requires i <= |cs| && forall j :: 0 <= j < |cs| ==> cs[j].id in size && size[cs[j].id] == 1.0
    ensures Total(cs, size, i) == i as real
  {
    if i > 0 { EvenTotal(cs, size, i - 1); }
  }

  lemma ThinTotal(cs: seq<Node>, size: map<Id, real>, eps: real, i: nat)
    requires 1 <= i <= |cs| && cs[0].id in size && size[cs[0].id] == eps
    requires forall j :: 0 < j < |cs| ==> cs[j].id in size && size[cs[j].id] == 1.0
    ensures Total(cs, size, i) == eps + (i - 1) as real
  {
    if i > 1 { ThinTotal(cs, size, eps, i - 1); }
  }

  /** The child's rectangle is where the nested rectangles are taken from. */
  lemma RectBelow(n: Node, r: Rect, size: map<Id, real>, k: nat, x: Id)
    requires Unique(n) && Placeable(n, r, size) && n.Split? && k < |n.children| && x in Ids(n.children[k])
    ensures RectOf(n, r, size, x) == RectOf(n.children[k], ChildRect(n, r, size, k), size, x)
  {
    HolderUnique(n, x, k);
  }

  /** Across its own axis a split hands its extent to its children. */
  lemma ChildAcross(n: Node, r: Rect, size: map<Id, real>, k: nat)
    requires Placeable(n, r, size) && n.Split? && k < |n.children|
    ensures var c := ChildRect(n, r, size, k);
            Lo(c, Other(n.dir)) == Lo(r, Other(n.dir)) && Hi(c, Other(n.dir)) == Hi(r, Other(n.dir))
  {
  }

  /** A share of a share. */
  lemma Nested(lo: real, hi: real, k: real, u: real, c: real)
    requires c > 0.0
    ensures var a, b := Portion(lo, hi, k, c), Portion(lo, hi, k + 1.0, c);
            a + Times(b - a, u) == lo + Times(hi - lo, (k + u) / c)
  {
    var w := hi - lo;
    assert (k + 1.0) / c == k / c + 1.0 / c;
    assert (k + u) / c == k / c + u / c;
    assert w * (k / c + 1.0 / c) == w * (k / c) + w * (1.0 / c);
    assert w * (k / c + u / c) == w * (k / c) + w * (u / c);
    assert (w * (1.0 / c)) * u == w * (u / c);
  }

  /** With equal sizes a pane begins at its offset. */
  lemma {:induction false} EvenBegins(n: Node, r: Rect, size: map<Id, real>, p: Id, axis: Direction)
    requires Unique(n) && Placeable(n, r, size) && p in Ids(n) && forall x :: x in Ids(n) ==> size[x] == 1.0
    ensures Lo(RectOf(n, r, size, p), Other(axis)) ==
            Lo(r, Other(axis)) + Times(Hi(r, Other(axis)) - Lo(r, Other(axis)), Offset(n, p, axis))
  {
    hide Ids, Times, Portion, Placeable, ChildRect;
    if p == n.id {
      TimesZero(Hi(r, Other(axis)) - Lo(r, Other(axis)));
      RectAtRoot(n, r, size);
    } else {
      var k := HoldingChild(n, p);
      RectBelow(n, r, size, k, p);
      IdsBelow(n, k);
      var c := ChildRect(n, r, size, k);
      EvenBegins(n.children[k], c, size, p, axis);
      if n.dir == axis {
        ChildAcross(n, r, size, k);
      } else {
        EvenChild(n, r, size, k);
        Nested(Lo(r, n.dir), Hi(r, n.dir), k as real, Offset(n.children[k], p, axis), |n.children| as real);
      }
    }
  }

  lemma TimesZero(w: real)
    ensures Times(w, 0.0) == 0.0
  {
  }

  lemma RectAtRoot(n: Node, r: Rect, size: map<Id, real>)
    requires Placeable(n, r, size)
    ensures RectOf(n, r, size, n.id) == r
  {
  }

  lemma IdsBelow(n: Node, k: nat)
    requires n.Split? && k < |n.children|
    ensures Ids(n.children[k]) <= Ids(n)
  {
  }

  lemma EvenChild(n: Node, r: Rect, size: map<Id, real>, k: nat)
    requires Placeable(n, r, size) && n.Split? && k < |n.children| && forall x :: x in Ids(n) ==> size[x] == 1.0
    ensures var c, t := ChildRect(n, r, size, k), |n.children| as real;
            && Lo(c, n.dir) == Portion(Lo(r, n.dir), Hi(r, n.dir), k as real, t)
            && Hi(c, n.dir) == Portion(Lo(r, n.dir), Hi(r, n.dir), k as real + 1.0, t)
  {
    hide Portion, Ids;
    ChildrenSized(n, size);
    ChildrenEven(n, size);
    EvenTotal(n.children, size, k);
    EvenTotal(n.children, size, k + 1);
    EvenTotal(n.children, size, |n.children|);
  }

  lemma ChildrenEven(n: Node, size: map<Id, real>)
    requires n.Split? && forall x :: x in Ids(n) ==> x in size && size[x] == 1.0
    ensures forall j :: 0 <= j < |n.children| ==> n.children[j].id in size && size[n.children[j].id] == 1.0
  {
    forall j | 0 <= j < |n.children| ensures n.children[j].id in size && size[n.children[j].id] == 1.0 {
      assert n.children[j].id in Ids(n.children[j]) && Ids(n.children[j]) <= Ids(n);
    }
  }

  /** No rectangle leaves the one it is taken from. */
  lemma PlacedInside(n: Node, r: Rect, size: map<Id, real>, p: Id, axis: Direction)
    requires Unique(n) && Placeable(n, r, size) && p in Ids(n)
    ensures Inside(RectOf(n, r, size, p), r, axis)
  {
    var m := Placement(n, r, size);
    PlacementTiles(n, r, size, m);
    NodeInside(n, m, p, axis);
  }

  lemma Thinner(eps: real, t: real)
    requires 0.0 < eps && t >= 1.0
    ensures eps / t <= eps
  {
    assert eps <= eps * t;
  }

  lemma ThinShare(lo: real, hi: real, eps: real, t: real)
    requires lo < hi && 0.0 < eps && t >= 1.0
    ensures Portion(lo, hi, eps, t) <= lo + Times(hi - lo, eps)
  {
    hide Times;
    Thinner(eps, t);
    if eps / t < eps { Scaled(hi - lo, eps / t, eps); }
  }

  lemma EdgeInChild(n: Node, axis: Direction, forward: bool)
    requires Bushy(n) && n.Split?
    ensures var c := n.children[EdgeChild(n, axis, forward)];
            EdgeLeaf(n, axis, forward) == EdgeLeaf(c, axis, forward) && EdgeLeaf(n, axis, forward) in Ids(c)
  {
    var c := n.children[EdgeChild(n, axis, forward)];
    EdgeIsLeaf(c, axis, forward);
  }

  lemma {:induction false} EdgeIsLeaf(n: Node, axis: Direction, forward: bool)
    requires Bushy(n)
    ensures EdgeLeaf(n, axis, forward) in LeafIds(n)
  {
    if n.Split? {
      var k := EdgeChild(n, axis, forward);
      EdgeIsLeaf(n.children[k], axis, forward);
      LeafOfChild(n, k, EdgeLeaf(n.children[k], axis, forward));
    }
  }

  /** With that one size small, the edge leaf ends early. */
  lemma {:induction false} ThinEnds(n: Node, r: Rect, size: map<Id, real>, eps: real, axis: Direction, forward: bool)
    requires Good(n) && Placeable(n, r, size) && !Spanning(n, axis, forward) && 0.0 < eps
    requires SizesAre(n, size, Thin(n, axis, forward), eps)
    ensures EdgeLeaf(n, axis, forward) in Ids(n)
    ensures Hi(RectOf(n, r, size, EdgeLeaf(n, axis, forward)), Other(axis)) <=
            Lo(r, Other(axis)) + Times(Hi(r, Other(axis)) - Lo(r, Other(axis)), eps)
  {
    hide Ids, Times, Portion, Placeable, ChildRect, EdgeLeaf, SizesAre;
    var k := EdgeChild(n, axis, forward);
    var q := EdgeLeaf(n, axis, forward);
    EdgeInChild(n, axis, forward);
    IdsBelow(n, k);
    RectBelow(n, r, size, k, q);
    if n.dir == axis {
      SizesBelow(n, size, Thin(n, axis, forward), eps, k);
      ThinEnds(n.children[k], ChildRect(n, r, size, k), size, eps, axis, forward);
      ChildAcross(n, r, size, k);
    } else {
      PlacedInside(n.children[0], ChildRect(n, r, size, 0), size, q, Other(axis));
      ThinFirst(n, r, size, eps);
    }
  }

  lemma ThinFirst(n: Node, r: Rect, size: map<Id, real>, eps: real)
    requires Good(n) && Placeable(n, r, size) && n.Split? && 0.0 < eps && SizesAre(n, size, n.children[0].id, eps)
    ensures Hi(ChildRect(n, r, size, 0), n.dir) <= Lo(r, n.dir) + Times(Hi(r, n.dir) - Lo(r, n.dir), eps)
  {
    hide Portion, Times, Ids;
    ChildrenSized(n, size);
    ChildrenThin(n, size, eps);
    ThinTotal(n.children, size, eps, 1);
    ThinTotal(n.children, size, eps, |n.children|);
    ThinShare(Lo(r, n.dir), Hi(r, n.dir), eps, eps + (|n.children| - 1) as real);
  }

  lemma ChildrenThin(n: Node, size: map<Id, real>, eps: real)
    requires Good(n) && n.Split? && SizesAre(n, size, n.children[0].id, eps)
    ensures n.children[0].id in size && size[n.children[0].id] == eps
    ensures forall j :: 0 < j < |n.children| ==> n.children[j].id in size && size[n.children[j].id] == 1.0
  {
    forall j | 0 <= j < |n.children|
      ensures n.children[j].id in Ids(n) && (j > 0 ==> n.children[j].id != n.children[0].id)
    {
      assert n.children[j].id in Ids(n.children[j]) && Ids(n.children[j]) <= Ids(n);
      if j > 0 { assert Ids(n.children[0]) !! Ids(n.children[j]); }
    }
  }

  /** The child to make thin, and how thin, seen from the root. */
  ghost function Squeeze(n: Node, p: Id, axis: Direction, forward: bool): (Id, real)
    requires Good(n) && p in Ids(n) && Focus(n, p, axis, forward).Some? && !Touching(n, p, axis, forward)
  {
    var k := Holder(n.children, p, 0);
    var c := n.children[k];
    if Focus(c, p, axis, forward).Some? then Squeeze(c, p, axis, forward)
    else (Thin(n.children[Beside(k, forward)], axis, forward), Offset(c, p, axis))
  }

  lemma {:induction false} SqueezeRange(n: Node, p: Id, axis: Direction, forward: bool)
    requires Good(n) && p in Ids(n) && Focus(n, p, axis, forward).Some? && !Touching(n, p, axis, forward)
    ensures 0.0 < Squeeze(n, p, axis, forward).1 < 1.0
  {
    var k := Holder(n.children, p, 0);
    if Focus(n.children[k], p, axis, forward).Some? {
      SqueezeRange(n.children[k], p, axis, forward);
    } else {
      OffsetRange(n.children[k], p, axis);
    }
  }

  lemma {:induction false} FocusInside(n: Node, p: Id, axis: Direction, forward: bool)
    requires Good(n) && p in Ids(n) && Focus(n, p, axis, forward).Some?
    ensures Focus(n, p, axis, forward).value in Ids(n)
  {
    hide Ids;
    var k := HoldingChild(n, p);
    IdsBelow(n, k);
    if Focus(n.children[k], p, axis, forward).Some? {
      FocusInside(n.children[k], p, axis, forward);
    } else {
      var s := Beside(k, forward);
      IdsBelow(n, s);
      EdgeIsLeaf(n.children[s], axis, forward);
      LeafInIds(n.children[s], EdgeLeaf(n.children[s], axis, forward));
    }
  }

  /** In the squeezed layout this pane begins after the named one has ended. */
  lemma {:induction false} Apart(n: Node, r: Rect, size: map<Id, real>, p: Id, axis: Direction, forward: bool)
    requires Good(n) && p in Ids(n) && Focus(n, p, axis, forward).Some? && !Touching(n, p, axis, forward)
    requires Placeable(n, r, size)
    requires var t := Squeeze(n, p, axis, forward); SizesAre(n, size, t.0, t.1)
    ensures var q := Focus(n, p, axis, forward).value;
            Hi(RectOf(n, r, size, q), Other(axis)) <= Lo(RectOf(n, r, size, p), Other(axis))
  {
    hide Ids, Placeable, ChildRect, SizesAre, RectOf, Flush, Spanning, Thin, Offset;
    var t := Squeeze(n, p, axis, forward);
    var k := HoldingChild(n, p);
    var c := n.children[k];
    SizesBelow(n, size, t.0, t.1, k);
    RectBelow(n, r, size, k, p);
    if Focus(c, p, axis, forward).Some? {
      FocusInside(c, p, axis, forward);
      RectBelow(n, r, size, k, Focus(c, p, axis, forward).value);
      Apart(c, ChildRect(n, r, size, k), size, p, axis, forward);
    } else {
      var s := Beside(k, forward);
      SizesBelow(n, size, t.0, t.1, s);
      ApartHere(n, r, size, p, k, s, axis, forward);
    }
  }

  lemma ApartHere(n: Node, r: Rect, size: map<Id, real>, p: Id, k: nat, s: nat, axis: Direction, forward: bool)
    requires Good(n) && Placeable(n, r, size) && n.Split? && n.dir == axis
    requires k < |n.children| && s < |n.children| && k != s && p in Ids(n.children[k])
    requires !Flush(n.children[k], p, axis) && !Spanning(n.children[s], axis, forward)
    requires SizesAre(n.children[k], size, Thin(n.children[s], axis, forward), Offset(n.children[k], p, axis))
    requires SizesAre(n.children[s], size, Thin(n.children[s], axis, forward), Offset(n.children[k], p, axis))
    ensures Hi(RectOf(n, r, size, EdgeLeaf(n.children[s], axis, forward)), Other(axis)) <=
            Lo(RectOf(n, r, size, p), Other(axis))
  {
    hide Ids, Placeable, ChildRect, RectOf, Flush, Spanning, Thin, Offset, EdgeLeaf, Times;
    var c, sib := n.children[k], n.children[s];
    var thin, eps := Thin(sib, axis, forward), Offset(c, p, axis);
    OffsetRange(c, p, axis);
    HolderUnique(n, thin, s);
    ThinEnds(sib, ChildRect(n, r, size, s), size, eps, axis, forward);
    RectBelow(n, r, size, s, EdgeLeaf(sib, axis, forward));
    EvenBegins(c, ChildRect(n, r, size, k), size, p, axis);
    RectBelow(n, r, size, k, p);
    ChildAcross(n, r, size, k);
    ChildAcross(n, r, size, s);
  }

  ghost predicate AlwaysOverlaps(root: Node, q: Id, p: Id, across: Direction)
    requires Bushy(root) && q in Ids(root) && p in Ids(root)
  {
    forall r, size :: Placeable(root, r, size) ==>
      Overlaps(Placement(root, r, size)[q], Placement(root, r, size)[p], across)
  }

  ghost function SqueezedSizes(root: Node, thin: Id, eps: real): map<Id, real> {
    map x | x in Ids(root) :: if x == thin then eps else 1.0
  }

  /** The pane named lies right beside this one in every layout if and only if, at the ancestor where the walk
      turns, this pane is first across the movement or the neighbour is not split across it. */
  lemma TouchesIff(root: Node, p: Id, d: Move)
    requires Good(root) && p in Ids(root) && Focus(root, p, AxisOf(d), Forward(d)).Some?
    ensures var q := Focus(root, p, AxisOf(d), Forward(d)).value;
            && q in Ids(root)
            && (AlwaysOverlaps(root, q, p, Other(AxisOf(d))) <==> Touching(root, p, AxisOf(d), Forward(d)))
  {
    hide Touching, AlwaysOverlaps;
    var axis, forward := AxisOf(d), Forward(d);
    FocusInside(root, p, axis, forward);
    if Touching(root, p, axis, forward) {
      AllOverlap(root, p, axis, forward);
    } else {
      OneApart(root, p, axis, forward);
    }
  }

  lemma AllOverlap(root: Node, p: Id, axis: Direction, forward: bool)
    requires Good(root) && p in Ids(root) && Focus(root, p, axis, forward).Some? && Touching(root, p, axis, forward)
    requires Focus(root, p, axis, forward).value in Ids(root)
    ensures AlwaysOverlaps(root, Focus(root, p, axis, forward).value, p, Other(axis))
  {
    hide Touching, RectOf, Ids, Focus, Overlaps;
    var q := Focus(root, p, axis, forward).value;
    forall r, size | Placeable(root, r, size)
      ensures Overlaps(Placement(root, r, size)[q], Placement(root, r, size)[p], Other(axis))
    {
      PlacementTiles(root, r, size, Placement(root, r, size));
      TouchingOverlaps(root, Placement(root, r, size), p, axis, forward);
    }
  }

  lemma OneApart(root: Node, p: Id, axis: Direction, forward: bool)
    requires Good(root) && p in Ids(root) && Focus(root, p, axis, forward).Some? && !Touching(root, p, axis, forward)
    requires Focus(root, p, axis, forward).value in Ids(root)
    ensures !AlwaysOverlaps(root, Focus(root, p, axis, forward).value, p, Other(axis))
  {
    hide Touching, RectOf, Ids, Focus;
    var t := Squeeze(root, p, axis, forward);
    var q := Focus(root, p, axis, forward).value;
    var r, size := Rect(0.0, 1.0, 0.0, 1.0), SqueezedSizes(root, t.0, t.1);
    SqueezeRange(root, p, axis, forward);
    assert Placeable(root, r, size);
    Apart(root, r, size, p, axis, forward);
    assert !Overlaps(Placement(root, r, size)[q], Placement(root, r, size)[p], Other(axis));
  }

  /** Two columns of two: to the right of the lower left pane the walk names the upper right one, which some
      layouts put out of its reach. */
  lemma LowerLeft(left: Node, right: Node, a: Node, b: Node, c: Node, d: Node, root: Node)
    requires a.Leaf? && b.Leaf? && c.Leaf? && d.Leaf? && Good(root)
    requires left.Split? && left.dir == Vertical && left.children == [a, b]
    requires right.Split? && right.dir == Vertical && right.children == [c, d]
    requires root.Split? && root.dir == Horizontal && root.children == [left, right]
    ensures Focus(root, b.id, Horizontal, true) == Some(c.id) && !Touching(root, b.id, Horizontal, true)
  {
    assert root.children[0] == left && root.children[1] == right;
    assert left.children[0] == a && left.children[1] == b && right.children[0] == c;
    assert Ids(a) == {a.id} && Ids(b) == {b.id};
    assert b.id in Ids(left.children[1]) && Ids(left.children[1]) <= Ids(left);
    HolderUnique(root, b.id, 0);
    HolderUnique(left, b.id, 1);
    assert Focus(left, b.id, Horizontal, true).None?;
    assert EdgeLeaf(right, Horizontal, true) == c.id;
  }
}
