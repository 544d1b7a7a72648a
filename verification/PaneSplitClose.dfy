/** Closing a pane undoes the split that made it. */
module PaneSplitClose {
  import opened Basics
  import opened PaneTree

  /** Splitting in one pass from the root: the reference the two-step source is compared with. */
  function SplitAt(n: Node, p: Id, dir: Direction, leaf: Node, splitId: Id, before: bool): Node {
    if n.Leaf? then if n.id == p then Edited(WrapWith(dir, leaf, splitId, before), n) else n
    else
      var k := Holder(n.children, p, 0);
      if k == |n.children| then n
      else if n.dir == dir && n.children[k].id == p then
        n.(children := InsertAt(n.children, if before then k else k + 1, leaf))
      else n.(children := n.children[k := SplitAt(n.children[k], p, dir, leaf, splitId, before)])
  }

  lemma LeafHasHolder(n: Node, p: Id)
    requires Unique(n) && n.Split? && p in LeafIds(n)
    ensures var k := Holder(n.children, p, 0);
            k < |n.children| && p in LeafIds(n.children[k]) && p != n.id
  {
    var i :| 0 <= i < |n.children| && p in LeafIds(n.children[i]);
    HolderUnique(n, p, i);
  }

  /** The parent search finds the split itself for a direct child, else searches the child that holds
      the id. */
  lemma ParentStep(n: Node, p: Id, k: nat)
    requires Unique(n) && n.Split? && k < |n.children| && p in Ids(n.children[k])
    ensures FindParent(n, p) == if n.children[k].id == p then Some(n) else FindParent(n.children[k], p)
  {
    HolderUnique(n, p, k);
    ScanStep(n, p, k, 0);
    if n.children[k].id != p { ParentExists(n.children[k], p); }
  }

  lemma {:induction false} ScanStep(n: Node, p: Id, k: nat, i: nat)
    requires Unique(n) && n.Split? && i <= k < |n.children| && p in Ids(n.children[k])
    requires forall j :: 0 <= j < |n.children| && j != k ==> p !in Ids(n.children[j])
    ensures ScanForParent(n, p, i) ==
            if n.children[k].id == p then Some(n)
            else if FindParent(n.children[k], p).Some? then FindParent(n.children[k], p)
            else ScanForParent(n, p, k + 1)
    decreases k - i
  {
    if i < k {
      ParentAbsent(n.children[i], p);
      ScanStep(n, p, k, i + 1);
    }
  }

  lemma {:induction false} ParentAbsent(n: Node, p: Id)
    requires p !in Ids(n)
    ensures FindParent(n, p) == None
    decreases n
  {
    if n.Split? { ScanAbsent(n, p, 0); }
  }

  lemma {:induction false} ScanAbsent(n: Node, p: Id, i: nat)
    requires n.Split? && p !in Ids(n) && i <= |n.children|
    ensures ScanForParent(n, p, i) == None
    decreases n, |n.children| - i
  {
    if i < |n.children| {
      ParentAbsent(n.children[i], p);
      ScanAbsent(n, p, i + 1);
    }
  }

  /** Every id below the root has a parent, which is a node of the tree. */
  lemma {:induction false} ParentExists(n: Node, p: Id)
    requires Unique(n) && p in Ids(n) && p != n.id
    ensures FindParent(n, p).Some? && FindParent(n, p).value.id in Ids(n)
    decreases n
  {
    InSomeChild(n, p);
    var k :| 0 <= k < |n.children| && p in Ids(n.children[k]);
    HolderUnique(n, p, k);
    ScanStep(n, p, k, 0);
    if n.children[k].id != p { ParentExists(n.children[k], p); }
  }

  lemma MapRoot(n: Node, e: Edit)
    ensures MapNode(n, n.id, e) == Edited(e, n)
  {
  }

  /** The source's find-parent-then-map is the one-pass split. */
  lemma {:induction false} AddBesideIsSplitAt(n: Node, p: Id, dir: Direction, leaf: Node, splitId: Id, before: bool)
    requires Unique(n) && p in LeafIds(n)
    ensures AddBeside(n, p, dir, leaf, splitId, before) == SplitAt(n, p, dir, leaf, splitId, before)
  {
    hide MapNode, FindParent, Ids, LeafIds;
    if n.Leaf? {
      AddBesideLeaf(n, p, dir, leaf, splitId, before);
    } else {
      LeafHasHolder(n, p);
      var k := Holder(n.children, p, 0);
      if n.children[k].id == p {
        AddBesideDirect(n, p, k, dir, leaf, splitId, before);
      } else {
        AddBesideIsSplitAt(n.children[k], p, dir, leaf, splitId, before);
        AddBesideDeep(n, p, k, dir, leaf, splitId, before);
      }
    }
  }

  /** Beside a direct child. */
  lemma AddBesideDirect(n: Node, p: Id, k: nat, dir: Direction, leaf: Node, splitId: Id, before: bool)
    requires Unique(n) && n.Split? && k < |n.children| && Holder(n.children, p, 0) == k
    requires n.children[k].id == p && p in LeafIds(n.children[k])
    ensures AddBeside(n, p, dir, leaf, splitId, before) == SplitAt(n, p, dir, leaf, splitId, before)
  {
    hide MapNode, FindParent, Ids, LeafIds;
    var c := n.children[k];
    ParentStep(n, p, k);
    DirectChild(n, p, k);
    LeafIdIsLeaf(c, p);
    MapChild(n, p, WrapWith(dir, leaf, splitId, before), k);
    MapRoot(c, WrapWith(dir, leaf, splitId, before));
    MapRoot(n, Become(n.(children := InsertAt(n.children, if before then k else k + 1, leaf))));
  }

  /** Beside a leaf further down: both ways go into the child that holds it. */
  lemma AddBesideDeep(n: Node, p: Id, k: nat, dir: Direction, leaf: Node, splitId: Id, before: bool)
    requires Unique(n) && n.Split? && k < |n.children| && Holder(n.children, p, 0) == k
    requires n.children[k].id != p && p in LeafIds(n.children[k])
    requires AddBeside(n.children[k], p, dir, leaf, splitId, before) ==
             SplitAt(n.children[k], p, dir, leaf, splitId, before)
    ensures AddBeside(n, p, dir, leaf, splitId, before) == SplitAt(n, p, dir, leaf, splitId, before)
  {
    hide MapNode, FindParent, Ids, LeafIds;
    var c := n.children[k];
    ParentStep(n, p, k);
    ParentExists(c, p);
    MapChild(n, p, WrapWith(dir, leaf, splitId, before), k);
    var q := FindParent(c, p).value;
    var at := IndexOf(q.children, p, 0);
    MapChild(n, q.id, Become(q.(children := InsertAt(q.children, if before then at else at + 1, leaf))), k);
  }

  lemma AddBesideLeaf(n: Node, p: Id, dir: Direction, leaf: Node, splitId: Id, before: bool)
    requires n.Leaf? && p in LeafIds(n)
    ensures AddBeside(n, p, dir, leaf, splitId, before) == SplitAt(n, p, dir, leaf, splitId, before)
  {
  }

  /** A leaf's id names a leaf: a direct child with that id is one, at the index found. */
  lemma DirectChild(n: Node, p: Id, k: nat)
    requires Unique(n) && n.Split? && k < |n.children| && n.children[k].id == p
    ensures IndexOf(n.children, p, 0) == k
  {
    HolderUnique(n, p, k);
    var i := IndexOf(n.children, p, 0);
    assert n.children[i].id in Ids(n.children[i]);
  }

  lemma LeafIdIsLeaf(n: Node, p: Id)
    requires Unique(n) && p in LeafIds(n) && n.id == p
    ensures n.Leaf?
  {
    if n.Split? { LeafHasHolder(n, p); }
  }

  /** Where the focus goes when the new leaf is closed again: to `p`, unless it was put before `p` in a
      group in which `p` is not first. */
  function FocusAfter(n: Node, p: Id, dir: Direction, before: bool): Id
    requires Bushy(n)
  {
    if n.Leaf? then p
    else
      var k := Holder(n.children, p, 0);
      if k == |n.children| then p
      else if n.dir == dir && n.children[k].id == p then
        if before && k > 0 then FirstLeaf(n.children[k - 1]) else p
      else FocusAfter(n.children[k], p, dir, before)
  }

  ghost predicate Extends(m: Node, n: Node, leafId: Id, splitId: Id) {
    m.Split? && m.id != leafId && Bushy(m) && leafId in Ids(m) && Ids(m) <= Ids(n) + {leafId, splitId}
  }

  lemma {:induction false} SplitAtShape(n: Node, p: Id, dir: Direction, leaf: Node, splitId: Id, before: bool)
    requires Good(n) && p in LeafIds(n) && leaf.Leaf? && leaf.id !in Ids(n) && splitId != leaf.id
    ensures Extends(SplitAt(n, p, dir, leaf, splitId, before), n, leaf.id, splitId)
  {
    hide Ids, LeafIds, Extends;
    if n.Leaf? {
      OnlyLeaf(n, p);
      PairShape(n, dir, leaf, splitId, before);
    } else {
      LeafHasHolder(n, p);
      var k := Holder(n.children, p, 0);
      if n.dir == dir && n.children[k].id == p {
        InsertShape(n, leaf, if before then k else k + 1, splitId);
      } else {
        var c := n.children[k];
        SplitAtShape(c, p, dir, leaf, splitId, before);
        DeepShape(n, k, SplitAt(c, p, dir, leaf, splitId, before), leaf.id, splitId);
      }
    }
  }

  lemma PairShape(n: Node, dir: Direction, leaf: Node, splitId: Id, before: bool)
    requires n.Leaf? && leaf.Leaf? && splitId != leaf.id
    ensures Extends(Edited(WrapWith(dir, leaf, splitId, before), n), n, leaf.id, splitId)
  {
    var m := Edited(WrapWith(dir, leaf, splitId, before), n);
    assert m.children[if before then 0 else 1] == leaf && m.children[if before then 1 else 0] == n;
  }

  lemma InsertShape(n: Node, leaf: Node, at: nat, splitId: Id)
    requires Bushy(n) && n.Split? && at <= |n.children| && leaf.Leaf? && n.id != leaf.id
    ensures Extends(n.(children := InsertAt(n.children, at, leaf)), n, leaf.id, splitId)
  {
    var cs := InsertAt(n.children, at, leaf);
    assert cs[at] == leaf;
    forall i | 0 <= i < |cs| ensures Bushy(cs[i]) && Ids(cs[i]) <= Ids(n) + {leaf.id} {
      if i < at { assert cs[i] == n.children[i]; } else if i > at { assert cs[i] == n.children[i - 1]; }
    }
    var m := n.(children := cs);
    assert leaf.id in Ids(cs[at]) && Ids(cs[at]) <= Ids(m);
  }

  lemma DeepShape(n: Node, k: nat, c: Node, leafId: Id, splitId: Id)
    requires Bushy(n) && n.Split? && k < |n.children| && n.id != leafId && Extends(c, n.children[k], leafId, splitId)
    ensures Extends(n.(children := n.children[k := c]), n, leafId, splitId)
  {
    var cs := n.children[k := c];
    forall i | 0 <= i < |cs| ensures Bushy(cs[i]) && Ids(cs[i]) <= Ids(n) + {leafId, splitId} {
      if i != k { assert cs[i] == n.children[i]; } else { assert Ids(n.children[k]) <= Ids(n); }
    }
    var m := n.(children := cs);
    assert leafId in Ids(cs[k]) && Ids(cs[k]) <= Ids(m);
  }

  /** Removing the new leaf gives back the tree, node for node. */
  lemma {:induction false} RemoveUndoesSplit(n: Node, p: Id, dir: Direction, leaf: Node, splitId: Id, before: bool)
    requires Good(n) && p in LeafIds(n)
    requires leaf.Leaf? && leaf.id !in Ids(n) && splitId !in Ids(n) && splitId != leaf.id
    ensures var m := SplitAt(n, p, dir, leaf, splitId, before);
            Bushy(m) && RemoveLeaf(m, leaf.id) == Removal(n, Some(FocusAfter(n, p, dir, before)))
  {
    hide RemoveLeaf, Ids;
    SplitAtShape(n, p, dir, leaf, splitId, before);
    var m := SplitAt(n, p, dir, leaf, splitId, before);
    if n.Leaf? {
      RemoveFromPair(n, leaf, m, before);
    } else {
      LeafHasHolder(n, p);
      var k := Holder(n.children, p, 0);
      if n.dir == dir && n.children[k].id == p {
        LeafIdIsLeaf(n.children[k], p);
        RemoveInserted(n, leaf, if before then k else k + 1);
      } else {
        var c := n.children[k];
        SplitAtShape(c, p, dir, leaf, splitId, before);
        RemoveUndoesSplit(c, p, dir, leaf, splitId, before);
        RemoveDeep(n, k, SplitAt(c, p, dir, leaf, splitId, before), leaf.id, FocusAfter(c, p, dir, before));
      }
    }
  }

  lemma RemoveFromPair(n: Node, leaf: Node, m: Node, before: bool)
    requires n.Leaf? && leaf.Leaf? && n.id != leaf.id && Bushy(m) && m.Split?
    requires m.children == if before then [leaf, n] else [n, leaf]
    ensures RemoveLeaf(m, leaf.id) == Removal(n, Some(n.id))
  {
    var at := if before then 0 else 1;
    assert m.children[at] == leaf && m.children[1 - at] == n;
    assert IndexOf(m.children, leaf.id, 0) == at;
    assert Without(m.children, at) == [n];
  }

  lemma InsertedIndex(n: Node, leaf: Node, at: nat)
    requires n.Split? && at <= |n.children| && leaf.Leaf? && leaf.id !in Ids(n)
    ensures var cs := InsertAt(n.children, at, leaf);
            IndexOf(cs, leaf.id, 0) == at && Without(cs, at) == n.children
  {
    hide Ids;
    var cs := InsertAt(n.children, at, leaf);
    assert cs[at] == leaf;
    forall i | 0 <= i < at ensures cs[i].id != leaf.id {
      assert cs[i] == n.children[i] && n.children[i].id in Ids(n.children[i]);
    }
    assert Without(cs, at) == n.children;
  }

  /** A direct child is dropped where it stands when at least two are left. */
  lemma RemoveDirect(n: Node, id: Id, k: nat)
    requires Bushy(n) && n.Split? && k < |n.children| && IndexOf(n.children, id, 0) == k && |n.children| > 2
    ensures var rest := Without(n.children, k);
            && (forall i :: 0 <= i < |rest| ==> Bushy(rest[i]))
            && RemoveLeaf(n, id) == Removal(n.(children := rest), Some(FirstLeaf(rest[if k > 0 then k - 1 else 0])))
  {
    hide Bushy, FirstLeaf;
    BushyWithout(n, k);
  }

  lemma BushyWithout(n: Node, k: nat)
    requires Bushy(n) && n.Split? && k < |n.children|
    ensures var rest := Without(n.children, k); forall i :: 0 <= i < |rest| ==> Bushy(rest[i])
  {
    var rest := Without(n.children, k);
    assert forall i :: 0 <= i < |rest| ==> rest[i] in n.children;
  }

  lemma RemoveInserted(n: Node, leaf: Node, at: nat)
    requires Bushy(n) && n.Split? && at <= |n.children| && leaf.Leaf? && leaf.id !in Ids(n)
    requires Bushy(n.(children := InsertAt(n.children, at, leaf)))
    ensures RemoveLeaf(n.(children := InsertAt(n.children, at, leaf)), leaf.id) ==
            Removal(n, Some(FirstLeaf(n.children[if at > 0 then at - 1 else 0])))
  {
    hide RemoveLeaf, FirstLeaf, Ids;
    InsertedIndex(n, leaf, at);
    RemoveDirect(n.(children := InsertAt(n.children, at, leaf)), leaf.id, at);
  }

  lemma HolderIs(cs: seq<Node>, id: Id, k: nat)
    requires k < |cs| && id in Ids(cs[k]) && forall i :: 0 <= i < |cs| && i != k ==> id !in Ids(cs[i])
    ensures Holder(cs, id, 0) == k
  {
  }

  lemma RemoveDeep(n: Node, k: nat, c: Node, id: Id, focus: Id)
    requires Bushy(n) && n.Split? && k < |n.children| && id !in Ids(n)
    requires Bushy(c) && c.id != id && id in Ids(c) && RemoveLeaf(c, id) == Removal(n.children[k], Some(focus))
    ensures var m := n.(children := n.children[k := c]);
            Bushy(m) && RemoveLeaf(m, id) == Removal(n, Some(focus))
  {
    var cs := n.children[k := c];
    forall i | 0 <= i < |cs| && i != k ensures cs[i].id != id && id !in Ids(cs[i]) {
      assert cs[i] == n.children[i] && n.children[i].id in Ids(n.children[i]);
    }
    assert IndexOf(cs, id, 0) == -1;
    HolderIs(cs, id, k);
    assert cs[k := n.children[k]] == n.children;
  }

  /** Close undoes split: the tree comes back exactly, with the focus on the pane that was split. */
  lemma CloseUndoesSplit(root: Node, p: Id, dir: Direction, leafId: Id, splitId: Id, freshId: Id)
    requires Good(root) && p in LeafIds(root)
    requires leafId !in Ids(root) && splitId !in Ids(root) && leafId != splitId
    ensures var m := SplitPane(root, p, dir, leafId, splitId);
            Bushy(m) && ClosePane(m, leafId, freshId) == (root, p)
  {
    var leaf := Leaf(leafId, EMPTY);
    AddBesideIsSplitAt(root, p, dir, leaf, splitId, false);
    SplitAtShape(root, p, dir, leaf, splitId, false);
    RemoveUndoesSplit(root, p, dir, leaf, splitId, false);
    FocusAfterAfter(root, p, dir);
  }

  lemma {:induction false} FocusAfterAfter(n: Node, p: Id, dir: Direction)
    requires Bushy(n)
    ensures FocusAfter(n, p, dir, false) == p
  {
    if n.Split? && Holder(n.children, p, 0) < |n.children| {
      FocusAfterAfter(n.children[Holder(n.children, p, 0)], p, dir);
    }
  }

  // ---------- with a session ----------

  lemma {:induction false} ClearKeepsShape(n: Node, s: SessionId)
    ensures Ids(ClearSession(n, s)) == Ids(n) && LeafIds(ClearSession(n, s)) == LeafIds(n)
    ensures Unique(n) ==> Unique(ClearSession(n, s))
    ensures Bushy(n) ==> Bushy(ClearSession(n, s))
    ensures ClearSession(n, s).id == n.id
  {
    if n.Split? {
      var m := ClearSession(n, s);
      forall i | 0 <= i < |n.children|
        ensures Ids(m.children[i]) == Ids(n.children[i]) && LeafIds(m.children[i]) == LeafIds(n.children[i])
        ensures Unique(n.children[i]) ==> Unique(m.children[i])
        ensures Bushy(n.children[i]) ==> Bushy(m.children[i])
      {
        ClearKeepsShape(n.children[i], s);
      }
      assert Ids(m) == Ids(n);
      assert LeafIds(m) == LeafIds(n);
    }
  }

  /** The pane whose closing gives the focus elsewhere: the new leaf went before it into a group where it
      has a left neighbour. */
  predicate HasLeftNeighbour(n: Node, p: Id, dir: Direction) {
    n.Split? &&
    var k := Holder(n.children, p, 0);
    && k < |n.children|
    && if n.dir == dir && n.children[k].id == p then k > 0 else HasLeftNeighbour(n.children[k], p, dir)
  }

  lemma {:induction false} FocusAfterIff(n: Node, p: Id, dir: Direction, before: bool)
    requires Good(n) && p in LeafIds(n)
    ensures FocusAfter(n, p, dir, before) == p <==> !(before && HasLeftNeighbour(n, p, dir))
  {
    if n.Split? {
      LeafHasHolder(n, p);
      var k := Holder(n.children, p, 0);
      if n.dir == dir && n.children[k].id == p {
        if before && k > 0 {
          HolderUnique(n, p, k);
          assert FirstLeaf(n.children[k - 1]) in LeafIds(n.children[k - 1]);
        }
      } else {
        FocusAfterIff(n.children[k], p, dir, before);
      }
    }
  }

  /** The same for a split that carries a session, up to clearing that session first. The focus returns to
      the pane exactly when the new leaf was not put before it beside a left neighbour. */
  lemma CloseUndoesSplitWithSession(
    root: Node, p: Id, dir: Direction, s: SessionId, before: bool, leafId: Id, splitId: Id, freshId: Id)
    requires Good(root) && p in LeafIds(root)
    requires leafId !in Ids(root) && splitId !in Ids(root) && leafId != splitId
    ensures var m := SplitPaneWithSession(root, p, dir, s, before, leafId, splitId);
            && Bushy(m)
            && ClosePane(m, leafId, freshId).0 == ClearSession(root, s)
            && (ClosePane(m, leafId, freshId).1 == p <==> !(before && HasLeftNeighbour(ClearSession(root, s), p, dir)))
  {
    var cleared, leaf := ClearSession(root, s), Leaf(leafId, Some(s));
    ClearKeepsShape(root, s);
    AddBesideIsSplitAt(cleared, p, dir, leaf, splitId, before);
    SplitAtShape(cleared, p, dir, leaf, splitId, before);
    RemoveUndoesSplit(cleared, p, dir, leaf, splitId, before);
    FocusAfterIff(cleared, p, dir, before);
  }

  // ---------- leaf order ----------

  /** The leaves in depth-first, left-to-right order. */
  function OrderedLeaves(n: Node): seq<Id>
    decreases n
  {
    if n.Leaf? then [n.id] else OrderedLeavesOf(n.children)
  }

  function OrderedLeavesOf(cs: seq<Node>): seq<Id>
    decreases cs
  {
    if cs == [] then [] else OrderedLeaves(cs[0]) + OrderedLeavesOf(cs[1..])
  }

  /** `x` put right after (or before) the first `p`. */
  function InsertBeside(s: seq<Id>, p: Id, x: Id, before: bool): seq<Id> {
    if s == [] then []
    else if s[0] == p then (if before then [x, p] else [p, x]) + s[1..]
    else [s[0]] + InsertBeside(s[1..], p, x, before)
  }

  lemma {:induction false} BesideConcat(s: seq<Id>, t: seq<Id>, p: Id, x: Id, before: bool)
    ensures p in s ==> InsertBeside(s + t, p, x, before) == InsertBeside(s, p, x, before) + t
    ensures p !in s ==> InsertBeside(s + t, p, x, before) == s + InsertBeside(t, p, x, before)
  {
    if s == [] {
      assert s + t == t;
    } else {
      assert (s + t)[1..] == s[1..] + t;
      BesideConcat(s[1..], t, p, x, before);
    }
  }

  lemma {:induction false} OrderedConcat(a: seq<Node>, b: seq<Node>)
    ensures OrderedLeavesOf(a + b) == OrderedLeavesOf(a) + OrderedLeavesOf(b)
  {
    if a == [] {
      assert a + b == b;
    } else {
      assert (a + b)[1..] == a[1..] + b;
      OrderedConcat(a[1..], b);
    }
  }

  lemma {:induction false} OrderedMembers(n: Node, x: Id)
    ensures x in OrderedLeaves(n) <==> x in LeafIds(n)
    decreases n
  {
    if n.Split? { OrderedMembersOf(n.children, x); }
  }

  lemma {:induction false} OrderedMembersOf(cs: seq<Node>, x: Id)
    ensures x in OrderedLeavesOf(cs) <==> exists i :: 0 <= i < |cs| && x in LeafIds(cs[i])
    decreases cs
  {
    if cs != [] {
      OrderedMembers(cs[0], x);
      OrderedMembersOf(cs[1..], x);
      if x in OrderedLeavesOf(cs[1..]) {
        var i :| 0 <= i < |cs[1..]| && x in LeafIds(cs[1..][i]);
        assert cs[i + 1] == cs[1..][i];
      }
      if i :| 1 <= i < |cs| && x in LeafIds(cs[i]) {
        assert cs[1..][i - 1] == cs[i];
      }
    }
  }

  /** The order of a list of nodes, cut around one of them. */
  lemma OrderedCut(cs: seq<Node>, k: nat)
    requires k < |cs|
    ensures OrderedLeavesOf(cs) == OrderedLeavesOf(cs[..k]) + (OrderedLeaves(cs[k]) + OrderedLeavesOf(cs[k + 1..]))
  {
    assert cs == cs[..k] + cs[k..] && cs[k..][1..] == cs[k + 1..];
    OrderedConcat(cs[..k], cs[k..]);
  }

  lemma BesideCut(l: seq<Id>, c: seq<Id>, r: seq<Id>, p: Id, x: Id, before: bool)
    requires p !in l && p in c
    ensures InsertBeside(l + (c + r), p, x, before) == l + InsertBeside(c, p, x, before) + r
  {
    hide InsertBeside;
    BesideConcat(l, c + r, p, x, before);
    BesideConcat(c, r, p, x, before);
    assert l + (InsertBeside(c, p, x, before) + r) == l + InsertBeside(c, p, x, before) + r;
  }

  lemma AbsentBefore(cs: seq<Node>, k: nat, p: Id)
    requires k <= |cs| && forall i :: 0 <= i < k ==> p !in LeafIds(cs[i])
    ensures p !in OrderedLeavesOf(cs[..k])
  {
    hide LeafIds, OrderedLeavesOf;
    OrderedMembersOf(cs[..k], p);
  }

  /** Replacing the one child that holds `p` by `mid` acts on the order where that child's leaves are. */
  lemma ReplaceInOrder(cs: seq<Node>, k: nat, mid: seq<Node>, p: Id, x: Id, before: bool)
    requires k < |cs| && p in LeafIds(cs[k]) && forall i :: 0 <= i < k ==> p !in LeafIds(cs[i])
    requires OrderedLeavesOf(mid) == InsertBeside(OrderedLeaves(cs[k]), p, x, before)
    ensures OrderedLeavesOf(cs[..k] + mid + cs[k + 1..]) == InsertBeside(OrderedLeavesOf(cs), p, x, before)
  {
    hide OrderedLeaves, OrderedLeavesOf, InsertBeside, LeafIds;
    OrderedConcat(cs[..k] + mid, cs[k + 1..]);
    OrderedConcat(cs[..k], mid);
    OrderedCut(cs, k);
    AbsentBefore(cs, k, p);
    OrderedMembers(cs[k], p);
    BesideCut(OrderedLeavesOf(cs[..k]), OrderedLeaves(cs[k]), OrderedLeavesOf(cs[k + 1..]), p, x, before);
  }

  lemma OrderedSplit(n: Node)
    requires n.Split?
    ensures OrderedLeaves(n) == OrderedLeavesOf(n.children)
  {
  }

  lemma OrderedOne(n: Node)
    ensures OrderedLeavesOf([n]) == OrderedLeaves(n)
  {
    assert [n][1..] == [] && OrderedLeavesOf([]) == [];
  }

  /** A split puts exactly one leaf into the visual order, right beside the pane that was split. */
  lemma {:induction false} SplitInOrder(n: Node, p: Id, dir: Direction, leaf: Node, splitId: Id, before: bool)
    requires Unique(n) && p in LeafIds(n) && leaf.Leaf?
    ensures OrderedLeaves(SplitAt(n, p, dir, leaf, splitId, before)) ==
            InsertBeside(OrderedLeaves(n), p, leaf.id, before)
  {
    hide Ids, LeafIds, OrderedLeaves, OrderedLeavesOf, InsertBeside;
    if n.Leaf? {
      OnlyLeaf(n, p);
      PairInOrder(n, p, leaf, before);
      OrderedSplit(SplitAt(n, p, dir, leaf, splitId, before));
    } else {
      LeafHasHolder(n, p);
      var k := Holder(n.children, p, 0);
      HolderOnly(n, p, k);
      OrderedSplit(n);
      OrderedSplit(SplitAt(n, p, dir, leaf, splitId, before));
      if n.dir == dir && n.children[k].id == p {
        LeafIdIsLeaf(n.children[k], p);
        InsertInOrder(n.children, k, p, leaf, before);
      } else {
        SplitInOrder(n.children[k], p, dir, leaf, splitId, before);
        UpdateInOrder(n.children, k, SplitAt(n.children[k], p, dir, leaf, splitId, before), p, leaf.id, before);
      }
    }
  }

  /** A leaf that joins the group. */
  lemma InsertInOrder(cs: seq<Node>, k: nat, p: Id, leaf: Node, before: bool)
    requires k < |cs| && p in LeafIds(cs[k]) && forall i :: 0 <= i < k ==> p !in LeafIds(cs[i])
    requires cs[k].Leaf? && cs[k].id == p && leaf.Leaf?
    ensures OrderedLeavesOf(InsertAt(cs, if before then k else k + 1, leaf)) ==
            InsertBeside(OrderedLeavesOf(cs), p, leaf.id, before)
  {
    hide LeafIds, OrderedLeaves, OrderedLeavesOf, InsertBeside;
    PairInOrder(cs[k], p, leaf, before);
    var mid := if before then [leaf, cs[k]] else [cs[k], leaf];
    ReplaceInOrder(cs, k, mid, p, leaf.id, before);
    assert InsertAt(cs, if before then k else k + 1, leaf) == cs[..k] + mid + cs[k + 1..];
  }

  /** A child that is split further down. */
  lemma UpdateInOrder(cs: seq<Node>, k: nat, c: Node, p: Id, x: Id, before: bool)
    requires k < |cs| && p in LeafIds(cs[k]) && forall i :: 0 <= i < k ==> p !in LeafIds(cs[i])
    requires OrderedLeaves(c) == InsertBeside(OrderedLeaves(cs[k]), p, x, before)
    ensures OrderedLeavesOf(cs[k := c]) == InsertBeside(OrderedLeavesOf(cs), p, x, before)
  {
    hide LeafIds, OrderedLeaves, OrderedLeavesOf, InsertBeside;
    OrderedOne(c);
    ReplaceInOrder(cs, k, [c], p, x, before);
    assert cs[k := c] == cs[..k] + [c] + cs[k + 1..];
  }

  lemma OnlyLeaf(n: Node, p: Id)
    requires n.Leaf? && p in LeafIds(n)
    ensures n.id == p
  {
  }

  lemma HolderOnly(n: Node, p: Id, k: nat)
    requires Unique(n) && n.Split? && k < |n.children| && p in LeafIds(n.children[k])
    ensures forall i :: 0 <= i < |n.children| && i != k ==> p !in LeafIds(n.children[i])
  {
    HolderUnique(n, p, k);
  }

  lemma PairInOrder(n: Node, p: Id, leaf: Node, before: bool)
    requires n.Leaf? && n.id == p && leaf.Leaf?
    ensures OrderedLeavesOf(if before then [leaf, n] else [n, leaf]) ==
            InsertBeside(OrderedLeaves(n), p, leaf.id, before)
  {
    var s := if before then [leaf, n] else [n, leaf];
    assert s[1..] == [s[1]] && [s[1]][1..] == [];
    assert OrderedLeavesOf([]) == [] && OrderedLeavesOf([s[1]]) == [s[1].id];
  }
}
