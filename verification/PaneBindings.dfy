/** What each tree operation does to the ids, the leaves and the session bindings of a pane tree. */
module PaneBindings {
  import opened Basics
  import opened PaneTree
  import opened PaneSplitClose

  ghost function Held(id: Id, s: Option<SessionId>): set<(Id, SessionId)> {
    if s.Some? then {(id, s.value)} else {}
  }

  ghost function NotOn(bs: set<(Id, SessionId)>, p: Id): set<(Id, SessionId)> {
    set b | b in bs && b.0 != p
  }

  ghost function NotOf(bs: set<(Id, SessionId)>, s: SessionId): set<(Id, SessionId)> {
    set b | b in bs && b.1 != s
  }

  // ---------- one child ----------

  /** The binding of a leaf lies in the child that holds the leaf. */
  lemma BindingWhere(n: Node, k: nat, b: (Id, SessionId))
    requires Unique(n) && n.Split? && k < |n.children| && b in Bindings(n) && b.0 in Ids(n.children[k])
    ensures b in Bindings(n.children[k])
  {
    var i :| 0 <= i < |n.children| && b in Bindings(n.children[i]);
    HolderUnique(n, b.0, k);
  }

  lemma LeafWhere(n: Node, k: nat, x: Id)
    requires Unique(n) && n.Split? && k < |n.children| && x in LeafIds(n) && x in Ids(n.children[k])
    ensures x in LeafIds(n.children[k])
  {
    var i :| 0 <= i < |n.children| && x in LeafIds(n.children[i]);
    HolderUnique(n, x, k);
  }

  /** The members of a rebuilt split, when its children are all the old ones but the `k`-th, and `c`. */
  ghost predicate Swapped(m: Node, n: Node, k: nat, c: Node)
    requires n.Split? && k < |n.children|
  {
    && (forall x :: x in Ids(m) <==> x in Ids(c) || (x in Ids(n) && x !in Ids(n.children[k])))
    && (forall x :: x in LeafIds(m) <==> x in LeafIds(c) || (x in LeafIds(n) && x !in Ids(n.children[k])))
    && (forall b :: b in Bindings(m) <==> b in Bindings(c) || (b in Bindings(n) && b.0 !in Ids(n.children[k])))
  }

  lemma SwapIds(n: Node, k: nat, c: Node)
    requires Unique(n) && n.Split? && k < |n.children|
    ensures var m := n.(children := n.children[k := c]);
            forall x :: x in Ids(m) <==> x in Ids(c) || (x in Ids(n) && x !in Ids(n.children[k]))
  {
    var cs := n.children[k := c];
    var m := n.(children := cs);
    forall x ensures x in Ids(m) <==> x in Ids(c) || (x in Ids(n) && x !in Ids(n.children[k])) {
      if x in Ids(m) && x != m.id {
        InSomeChild(m, x);
        var i :| 0 <= i < |cs| && x in Ids(cs[i]);
        if i != k { assert cs[i] == n.children[i]; HolderUnique(n, x, i); }
      }
      if x in Ids(n) && x !in Ids(n.children[k]) && x != n.id {
        InSomeChild(n, x);
        var i :| 0 <= i < |n.children| && x in Ids(n.children[i]);
        assert cs[i] == n.children[i];
      }
      assert cs[k] == c;
    }
  }

  lemma SwapLeaves(n: Node, k: nat, c: Node)
    requires Unique(n) && n.Split? && k < |n.children|
    ensures var m := n.(children := n.children[k := c]);
            forall x :: x in LeafIds(m) <==> x in LeafIds(c) || (x in LeafIds(n) && x !in Ids(n.children[k]))
  {
    var cs := n.children[k := c];
    var m := n.(children := cs);
    forall x ensures x in LeafIds(m) <==> x in LeafIds(c) || (x in LeafIds(n) && x !in Ids(n.children[k])) {
      if x in LeafIds(m) {
        var i :| 0 <= i < |cs| && x in LeafIds(cs[i]);
        if i != k { assert cs[i] == n.children[i]; HolderUnique(n, x, i); }
      }
      if x in LeafIds(n) && x !in Ids(n.children[k]) {
        var i :| 0 <= i < |n.children| && x in LeafIds(n.children[i]);
        assert cs[i] == n.children[i];
      }
      assert cs[k] == c;
    }
  }

  lemma SwapBindings(n: Node, k: nat, c: Node)
    requires Unique(n) && n.Split? && k < |n.children|
    ensures var m := n.(children := n.children[k := c]);
            forall b :: b in Bindings(m) <==> b in Bindings(c) || (b in Bindings(n) && b.0 !in Ids(n.children[k]))
  {
    hide Ids;
    var cs := n.children[k := c];
    var m := n.(children := cs);
    forall b ensures b in Bindings(m) <==> b in Bindings(c) || (b in Bindings(n) && b.0 !in Ids(n.children[k])) {
      if b in Bindings(m) {
        var i :| 0 <= i < |cs| && b in Bindings(cs[i]);
        if i != k { assert cs[i] == n.children[i]; HolderUnique(n, b.0, i); }
      }
      if b in Bindings(n) && b.0 !in Ids(n.children[k]) {
        var i :| 0 <= i < |n.children| && b in Bindings(n.children[i]);
        assert cs[i] == n.children[i];
      }
      assert cs[k] == c;
    }
  }

  /** A child may be replaced by a good tree that brings no id from elsewhere in the tree. */
  lemma SwapChild(n: Node, k: nat, c: Node)
    requires Good(n) && n.Split? && k < |n.children| && Good(c)
    requires forall x :: x in Ids(c) ==> x in Ids(n.children[k]) || x !in Ids(n)
    ensures var m := n.(children := n.children[k := c]);
            Good(m) && Swapped(m, n, k, c)
  {
    hide Ids;
    SwapIds(n, k, c);
    SwapLeaves(n, k, c);
    SwapBindings(n, k, c);
    var cs := n.children[k := c];
    forall i | 0 <= i < |cs| ensures Unique(cs[i]) && Bushy(cs[i]) && n.id !in Ids(cs[i]) {
      if i == k { NotRoot(n, k); } else { assert cs[i] == n.children[i]; }
    }
    forall i, j | 0 <= i < j < |cs| ensures Ids(cs[i]) !! Ids(cs[j]) {
      var o := if i == k then j else i;
      if i == k || j == k {
        assert cs[o] == n.children[o];
        SwapDisjoint(n, k, c, o);
      }
    }
  }

  lemma NotRoot(n: Node, k: nat)
    requires Unique(n) && n.Split? && k < |n.children|
    ensures n.id in Ids(n) && n.id !in Ids(n.children[k])
  {
  }

  lemma SwapDisjoint(n: Node, k: nat, c: Node, o: nat)
    requires Unique(n) && n.Split? && k < |n.children| && o < |n.children| && o != k
    requires forall x :: x in Ids(c) ==> x in Ids(n.children[k]) || x !in Ids(n)
    ensures Ids(c) !! Ids(n.children[o])
  {
    hide Ids;
    forall x | x in Ids(c) ensures x !in Ids(n.children[o]) {
      if x in Ids(n.children[o]) { HolderUnique(n, x, o); }
    }
  }

  // ---------- binding a leaf, clearing a session, recording a layout ----------

  /** The tree keeps its shape. */
  ghost predicate SameShape(m: Node, n: Node) {
    Good(m) && Ids(m) == Ids(n) && LeafIds(m) == LeafIds(n)
  }

  /** Binding changes the one leaf and nothing else. */
  lemma {:induction false} BindLeaf(n: Node, p: Id, v: Option<SessionId>)
    requires Good(n) && p in LeafIds(n)
    ensures var m := MapNode(n, p, Bind(v));
            SameShape(m, n) && Bindings(m) == NotOn(Bindings(n), p) + Held(p, v)
  {
    hide Ids, MapNode, LeafIds, Bindings;
    if n.Leaf? {
      BindOnlyLeaf(n, p, v);
    } else {
      LeafHasHolder(n, p);
      var k := Holder(n.children, p, 0);
      var c := n.children[k];
      BindLeaf(c, p, v);
      MapChild(n, p, Bind(v), k);
      var c' := MapNode(c, p, Bind(v));
      SwapChild(n, k, c');
      SwapSame(MapNode(n, p, Bind(v)), n, k, c');
      BindingsFrom(MapNode(n, p, Bind(v)), n, k, c', p, v);
    }
  }

  lemma BindOnlyLeaf(n: Node, p: Id, v: Option<SessionId>)
    requires n.Leaf? && p in LeafIds(n)
    ensures var m := MapNode(n, p, Bind(v));
            SameShape(m, n) && Bindings(m) == NotOn(Bindings(n), p) + Held(p, v)
  {
  }

  lemma IdsOfChild(n: Node, k: nat)
    requires n.Split? && k < |n.children|
    ensures Ids(n.children[k]) <= Ids(n) && LeafIds(n.children[k]) <= LeafIds(n)
    ensures Bindings(n.children[k]) <= Bindings(n)
  {
  }

  lemma SwapSame(m: Node, n: Node, k: nat, c: Node)
    requires Unique(n) && n.Split? && k < |n.children| && Swapped(m, n, k, c)
    requires Ids(c) == Ids(n.children[k]) && LeafIds(c) == LeafIds(n.children[k])
    ensures Ids(m) == Ids(n) && LeafIds(m) == LeafIds(n)
  {
    hide Ids, LeafIds, Bindings;
    IdsOfChild(n, k);
    forall x ensures x in Ids(m) <==> x in Ids(n) {}
    forall x ensures x in LeafIds(m) <==> x in LeafIds(n) {
      if x in LeafIds(n) && x in Ids(n.children[k]) { LeafWhere(n, k, x); }
    }
    assert Ids(m) == Ids(n) && LeafIds(m) == LeafIds(n);
  }

  lemma BindingsFrom(m: Node, n: Node, k: nat, c: Node, p: Id, v: Option<SessionId>)
    requires Unique(n) && n.Split? && k < |n.children| && Swapped(m, n, k, c) && p in Ids(n.children[k])
    requires Bindings(c) == NotOn(Bindings(n.children[k]), p) + Held(p, v)
    ensures Bindings(m) == NotOn(Bindings(n), p) + Held(p, v)
  {
    hide Ids, LeafIds, Bindings;
    IdsOfChild(n, k);
    forall b ensures b in Bindings(m) <==> b in NotOn(Bindings(n), p) + Held(p, v) {
      if b in Bindings(n) && b.0 in Ids(n.children[k]) { BindingWhere(n, k, b); }
    }
  }

  /** Clearing removes exactly the bindings of that session. */
  lemma {:induction false} ClearBindings(n: Node, s: SessionId)
    ensures Bindings(ClearSession(n, s)) == NotOf(Bindings(n), s)
  {
    if n.Split? {
      var m := ClearSession(n, s);
      forall i | 0 <= i < |n.children| ensures Bindings(m.children[i]) == NotOf(Bindings(n.children[i]), s) {
        ClearBindings(n.children[i], s);
      }
    }
  }

  /** Recording a layout changes no id, leaf or binding. */
  lemma LayoutKeeps(n: Node, q: Id, layout: map<Id, real>)
    ensures var m := MapNode(n, q, SetLayout(layout));
            && m.id == n.id && Ids(m) == Ids(n) && LeafIds(m) == LeafIds(n) && Bindings(m) == Bindings(n)
            && (Unique(n) ==> Unique(m)) && (Bushy(n) ==> Bushy(m))
  {
    hide Ids, LeafIds, Bindings, Unique, Bushy, MapNode;
    LayoutShape(n, q, layout);
    LayoutLeaves(n, q, layout);
    LayoutBindings(n, q, layout);
  }

  lemma {:induction false} LayoutShape(n: Node, q: Id, layout: map<Id, real>)
    ensures var m := MapNode(n, q, SetLayout(layout));
            && m.id == n.id && Ids(m) == Ids(n)
            && (Unique(n) ==> Unique(m)) && (Bushy(n) ==> Bushy(m))
  {
    if n.Split? && n.id != q {
      var m := MapNode(n, q, SetLayout(layout));
      assert |m.children| == |n.children|;
      forall i | 0 <= i < |n.children|
        ensures Ids(m.children[i]) == Ids(n.children[i])
        ensures Unique(n.children[i]) ==> Unique(m.children[i])
        ensures Bushy(n.children[i]) ==> Bushy(m.children[i])
      {
        LayoutShape(n.children[i], q, layout);
      }
      assert Ids(m) == Ids(n);
    }
  }

  lemma {:induction false} LayoutLeaves(n: Node, q: Id, layout: map<Id, real>)
    ensures LeafIds(MapNode(n, q, SetLayout(layout))) == LeafIds(n)
  {
    if n.Split? && n.id != q {
      var m := MapNode(n, q, SetLayout(layout));
      forall i | 0 <= i < |n.children| ensures LeafIds(m.children[i]) == LeafIds(n.children[i]) {
        LayoutLeaves(n.children[i], q, layout);
      }
    }
  }

  lemma {:induction false} LayoutBindings(n: Node, q: Id, layout: map<Id, real>)
    ensures Bindings(MapNode(n, q, SetLayout(layout))) == Bindings(n)
  {
    if n.Split? && n.id != q {
      var m := MapNode(n, q, SetLayout(layout));
      forall i | 0 <= i < |n.children| ensures Bindings(m.children[i]) == Bindings(n.children[i]) {
        LayoutBindings(n.children[i], q, layout);
      }
    }
  }

  // ---------- what stays of a tree ----------

  /** The same tree: nodes, directions, layouts and order; only the sessions of leaves may differ. */
  predicate SameTree(m: Node, n: Node) {
    && m.id == n.id && (m.Leaf? <==> n.Leaf?)
    && (n.Split? ==>
          && m.dir == n.dir && m.layout == n.layout && |m.children| == |n.children|
          && forall i :: 0 <= i < |n.children| ==> SameTree(m.children[i], n.children[i]))
  }

  lemma {:induction false} SameItself(n: Node)
    ensures SameTree(n, n)
  {
    if n.Split? {
      forall i | 0 <= i < |n.children| ensures SameTree(n.children[i], n.children[i]) { SameItself(n.children[i]); }
    }
  }

  lemma {:induction false} ClearSameTree(n: Node, s: SessionId)
    ensures SameTree(ClearSession(n, s), n)
  {
    if n.Split? {
      forall i | 0 <= i < |n.children| ensures SameTree(ClearSession(n.children[i], s), n.children[i]) {
        ClearSameTree(n.children[i], s);
      }
    }
  }

  lemma {:induction false} BindSameTree(n: Node, p: Id, v: Option<SessionId>)
    ensures SameTree(MapNode(n, p, Bind(v)), n)
  {
    if n.Split? && n.id == p {
      SameItself(n);
    } else if n.Split? {
      forall i | 0 <= i < |n.children| ensures SameTree(MapNode(n.children[i], p, Bind(v)), n.children[i]) {
        BindSameTree(n.children[i], p, v);
      }
    }
  }

  /** The same tree and the same sessions, but the split `q`, if there is one, has this layout. */
  predicate Relaid(m: Node, n: Node, q: Id, layout: map<Id, real>) {
    if n.Leaf? then m == n
    else
      && m.Split? && m.id == n.id && m.dir == n.dir && |m.children| == |n.children|
      && m.layout == (if n.id == q then Some(layout) else n.layout)
      && forall i :: 0 <= i < |n.children| ==> Relaid(m.children[i], n.children[i], q, layout)
  }

  lemma {:induction false} RelaidAbsent(n: Node, q: Id, layout: map<Id, real>)
    requires q !in Ids(n)
    ensures Relaid(n, n, q, layout)
  {
    if n.Split? {
      forall i | 0 <= i < |n.children| ensures Relaid(n.children[i], n.children[i], q, layout) {
        RelaidAbsent(n.children[i], q, layout);
      }
    }
  }

  lemma {:induction false} MapRelaid(n: Node, q: Id, layout: map<Id, real>)
    requires Unique(n)
    ensures Relaid(MapNode(n, q, SetLayout(layout)), n, q, layout)
  {
    if n.Split? && n.id == q {
      forall i | 0 <= i < |n.children| ensures Relaid(n.children[i], n.children[i], q, layout) {
        RelaidAbsent(n.children[i], q, layout);
      }
    } else if n.Split? {
      forall i | 0 <= i < |n.children|
        ensures Relaid(MapNode(n.children[i], q, SetLayout(layout)), n.children[i], q, layout)
      {
        MapRelaid(n.children[i], q, layout);
      }
    }
  }

  /** Recording a layout gives it to the split with that id and leaves every other node as it was; a leaf or an
      unknown id takes none. */
  lemma LayoutRecorded(n: Node, q: Id, layout: map<Id, real>)
    requires Unique(n)
    ensures Relaid(SetSplitLayout(n, q, layout), n, q, layout)
  {
    hide Ids, MapNode;
    if FindNode(n, q).None? {
      RelaidAbsent(n, q, layout);
    } else if FindNode(n, q).value.Leaf? {
      LeafRelaid(n, q, layout);
    } else {
      MapRelaid(n, q, layout);
    }
  }

  /** The leaf of this id is found, so no split has it. */
  lemma {:induction false} LeafRelaid(n: Node, q: Id, layout: map<Id, real>)
    requires Unique(n) && FindNode(n, q).Some? && FindNode(n, q).value.Leaf?
    ensures Relaid(n, n, q, layout)
  {
    if n.Split? {
      InSomeChild(n, q);
      var k :| 0 <= k < |n.children| && q in Ids(n.children[k]);
      HolderUnique(n, q, k);
      ScanFinds(n, q, k, 0);
      forall i | 0 <= i < |n.children| ensures Relaid(n.children[i], n.children[i], q, layout) {
        if i == k { LeafRelaid(n.children[k], q, layout); } else { RelaidAbsent(n.children[i], q, layout); }
      }
    }
  }

  lemma {:induction false} ScanFinds(n: Node, p: Id, k: nat, i: nat)
    requires n.Split? && i <= k < |n.children| && p in Ids(n.children[k])
    requires forall j :: 0 <= j < |n.children| && j != k ==> p !in Ids(n.children[j])
    ensures ScanForNode(n, p, i) == FindNode(n.children[k], p)
    decreases k - i
  {
    hide Ids;
    if i < k { ScanFinds(n, p, k, i + 1); }
  }

  // ---------- splitting ----------

  /** One leaf more; the split node's id is the only other new id. */
  ghost predicate Grown(m: Node, n: Node, leaf: Node, splitId: Id) {
    && Good(m)
    && Ids(m) <= Ids(n) + {leaf.id, splitId}
    && LeafIds(m) == LeafIds(n) + {leaf.id}
    && Bindings(m) == Bindings(n) + Bindings(leaf)
  }

  lemma {:induction false} SplitGrows(n: Node, p: Id, dir: Direction, leaf: Node, splitId: Id, before: bool)
    requires Good(n) && p in LeafIds(n)
    requires leaf.Leaf? && leaf.id !in Ids(n) && splitId !in Ids(n) && splitId != leaf.id
    ensures Grown(SplitAt(n, p, dir, leaf, splitId, before), n, leaf, splitId)
  {
    hide Ids, LeafIds, Bindings, Grown;
    var m := SplitAt(n, p, dir, leaf, splitId, before);
    if n.Leaf? {
      OnlyLeaf(n, p);
      PairGrows(n, leaf, splitId, m, before);
    } else {
      LeafHasHolder(n, p);
      var k := Holder(n.children, p, 0);
      if n.dir == dir && n.children[k].id == p {
        InsertGrows(n, leaf, splitId, if before then k else k + 1);
      } else {
        IdsOfChild(n, k);
        SplitGrows(n.children[k], p, dir, leaf, splitId, before);
        DeepGrows(n, k, SplitAt(n.children[k], p, dir, leaf, splitId, before), leaf, splitId);
      }
    }
  }

  lemma PairGrows(n: Node, leaf: Node, splitId: Id, m: Node, before: bool)
    requires n.Leaf? && leaf.Leaf? && leaf.id != n.id && splitId != n.id && splitId != leaf.id
    requires m.Split? && m.id == splitId && m.children == if before then [leaf, n] else [n, leaf]
    ensures Grown(m, n, leaf, splitId)
  {
    hide Ids, LeafIds, Bindings;
    OneLeaf(n);
    OneLeaf(leaf);
    Members(m);
    assert forall c :: c in m.children <==> c == n || c == leaf;
    assert forall i :: 0 <= i < |m.children| ==> m.children[i] == n || m.children[i] == leaf;
    assert n in m.children && leaf in m.children;
    forall x ensures x in LeafIds(m) <==> x in LeafIds(n) + {leaf.id} {}
    assert LeafIds(m) == LeafIds(n) + {leaf.id};
    assert Bindings(m) == Bindings(n) + Bindings(leaf);
    forall x | x in Ids(m) ensures x in Ids(n) + {leaf.id, splitId} {}
    assert forall i :: 0 <= i < |m.children| ==> Unique(m.children[i]) && m.id !in Ids(m.children[i]);
    assert Ids(m.children[0]) !! Ids(m.children[1]);
    assert Unique(m) && Bushy(m);
  }

  /** The members of a split whose children gained one leaf. */
  lemma InsertGrows(n: Node, leaf: Node, splitId: Id, at: nat)
    requires Good(n) && n.Split? && at <= |n.children| && leaf.Leaf? && leaf.id !in Ids(n)
    ensures Grown(n.(children := InsertAt(n.children, at, leaf)), n, leaf, splitId)
  {
    hide Ids, LeafIds, Bindings;
    var cs := InsertAt(n.children, at, leaf);
    InsertedIs(n, leaf, at);
    InsertedMembers(n, leaf, at);
    forall i, j | 0 <= i < j < |cs| ensures Ids(cs[i]) !! Ids(cs[j]) {
      if i != at && j != at {
        assert Ids(n.children[if i < at then i else i - 1]) !! Ids(n.children[if j < at then j else j - 1]);
      }
    }
  }

  lemma InsertedIs(n: Node, leaf: Node, at: nat)
    requires Good(n) && n.Split? && at <= |n.children| && leaf.Leaf? && leaf.id !in Ids(n)
    ensures var cs := InsertAt(n.children, at, leaf);
            && cs[at] == leaf && Ids(leaf) == {leaf.id}
            && (forall i :: 0 <= i < at ==> cs[i] == n.children[i])
            && (forall i :: at < i < |cs| ==> cs[i] == n.children[i - 1])
            && (forall i :: 0 <= i < |cs| ==> Unique(cs[i]) && Bushy(cs[i]) && n.id !in Ids(cs[i]))
            && (forall i :: 0 <= i < |cs| && i != at ==> leaf.id !in Ids(cs[i]))
  {
    hide Ids;
    OneLeaf(leaf);
    var cs := InsertAt(n.children, at, leaf);
    forall i | 0 <= i < |cs|
      ensures Unique(cs[i]) && Bushy(cs[i]) && n.id !in Ids(cs[i]) && (i != at ==> leaf.id !in Ids(cs[i]))
    {
      if i != at {
        var c := n.children[if i < at then i else i - 1];
        assert cs[i] == c && Unique(c) && Ids(c) <= Ids(n);
      }
    }
  }

  lemma InsertedMembers(n: Node, leaf: Node, at: nat)
    requires n.Split? && at <= |n.children| && leaf.Leaf?
    ensures var m := n.(children := InsertAt(n.children, at, leaf));
            && Ids(m) == Ids(n) + {leaf.id}
            && LeafIds(m) == LeafIds(n) + {leaf.id}
            && Bindings(m) == Bindings(n) + Bindings(leaf)
  {
    hide Ids, LeafIds, Bindings, InsertAt;
    var m := n.(children := InsertAt(n.children, at, leaf));
    OneLeaf(leaf);
    InsertedChildren(n.children, at, leaf);
    Members(n);
    Members(m);
    assert Ids(m) == Ids(n) + {leaf.id};
    forall x ensures x in LeafIds(m) <==> x in LeafIds(n) + {leaf.id} {
      if x == leaf.id { assert leaf in m.children && x in LeafIds(leaf); }
    }
    assert LeafIds(m) == LeafIds(n) + {leaf.id};
    assert Bindings(m) == Bindings(n) + Bindings(leaf);
  }

  lemma OneLeaf(n: Node)
    requires n.Leaf?
    ensures Ids(n) == {n.id} && LeafIds(n) == {n.id} && Bindings(n) == Held(n.id, n.session)
  {
  }

  lemma InsertedChildren(cs: seq<Node>, at: nat, leaf: Node)
    requires at <= |cs|
    ensures forall c :: c in InsertAt(cs, at, leaf) <==> c in cs || c == leaf
  {
    assert cs == cs[..at] + cs[at..];
  }

  /** Ids, leaves and bindings are those of the children. */
  lemma Members(n: Node)
    requires n.Split?
    ensures forall x :: x in Ids(n) <==> x == n.id || exists c :: c in n.children && x in Ids(c)
    ensures forall x :: x in LeafIds(n) <==> exists c :: c in n.children && x in LeafIds(c)
    ensures forall b :: b in Bindings(n) <==> exists c :: c in n.children && b in Bindings(c)
  {
    forall x | x in Ids(n) && x != n.id ensures exists c :: c in n.children && x in Ids(c) {
      InSomeChild(n, x);
      var i :| 0 <= i < |n.children| && x in Ids(n.children[i]);
      assert n.children[i] in n.children;
    }
    forall x | x in LeafIds(n) ensures exists c :: c in n.children && x in LeafIds(c) {
      var i :| 0 <= i < |n.children| && x in LeafIds(n.children[i]);
      assert n.children[i] in n.children;
    }
    forall b | b in Bindings(n) ensures exists c :: c in n.children && b in Bindings(c) {
      var i :| 0 <= i < |n.children| && b in Bindings(n.children[i]);
      assert n.children[i] in n.children;
    }
  }

  lemma DeepGrows(n: Node, k: nat, c: Node, leaf: Node, splitId: Id)
    requires Good(n) && n.Split? && k < |n.children|
    requires leaf.id !in Ids(n) && splitId !in Ids(n) && Grown(c, n.children[k], leaf, splitId)
    ensures Grown(n.(children := n.children[k := c]), n, leaf, splitId)
  {
    hide Ids, LeafIds, Bindings;
    SwapChild(n, k, c);
    IdsOfChild(n, k);
    var m := n.(children := n.children[k := c]);
    forall x ensures x in LeafIds(m) <==> x in LeafIds(n) + {leaf.id} {
      if x in LeafIds(n) && x in Ids(n.children[k]) { LeafWhere(n, k, x); }
    }
    forall b ensures b in Bindings(m) <==> b in Bindings(n) + Bindings(leaf) {
      if b in Bindings(n) && b.0 in Ids(n.children[k]) { BindingWhere(n, k, b); }
    }
    forall x | x in Ids(m) ensures x in Ids(n) + {leaf.id, splitId} {}
    assert LeafIds(m) == LeafIds(n) + {leaf.id} && Bindings(m) == Bindings(n) + Bindings(leaf);
  }

  // ---------- closing ----------

  ghost predicate Shrunk(m: Node, n: Node, p: Id) {
    && Good(m)
    && Ids(m) <= Ids(n)
    && LeafIds(m) == LeafIds(n) - {p}
    && Bindings(m) == NotOn(Bindings(n), p)
  }

  /** Removing a leaf removes that leaf, and every other leaf keeps its session. */
  lemma {:induction false} RemoveShrinks(n: Node, p: Id)
    requires Good(n) && n.Split? && p in LeafIds(n)
    ensures RemoveLeaf(n, p).focus.Some? && Shrunk(RemoveLeaf(n, p).root, n, p)
  {
    hide Ids, LeafIds, Bindings, Shrunk, RemoveLeaf;
    LeafHasHolder(n, p);
    var k := Holder(n.children, p, 0);
    if n.children[k].id == p {
      DirectChild(n, p, k);
      LeafIdIsLeaf(n.children[k], p);
      if |n.children| > 2 {
        RemoveDirect(n, p, k);
        DropShrinks(n, k);
      } else {
        RemoveCollapses(n, p, k);
        CollapseShrinks(n, k);
      }
    } else {
      var c := n.children[k];
      if c.Leaf? { OnlyLeaf(c, p); assert false; }
      RemoveShrinks(c, p);
      RemoveBelow(n, p, k);
      DeepShrinks(n, k, RemoveLeaf(c, p).root, p);
    }
  }

  lemma RemoveCollapses(n: Node, p: Id, k: nat)
    requires Bushy(n) && n.Split? && k < |n.children| == 2 && IndexOf(n.children, p, 0) == k
    ensures RemoveLeaf(n, p) == Removal(n.children[1 - k], Some(FirstLeaf(n.children[1 - k])))
  {
    assert Without(n.children, k) == [n.children[1 - k]];
  }

  lemma RemoveBelow(n: Node, p: Id, k: nat)
    requires Good(n) && n.Split? && k < |n.children| && p in Ids(n.children[k]) && n.children[k].id != p
    ensures var r := RemoveLeaf(n.children[k], p);
            RemoveLeaf(n, p) == Removal(n.(children := n.children[k := r.root]), r.focus)
  {
    hide Ids;
    HolderUnique(n, p, k);
    forall i | 0 <= i < |n.children| ensures n.children[i].id != p {
      assert n.children[i].id in Ids(n.children[i]);
    }
  }

  lemma CollapseShrinks(n: Node, k: nat)
    requires Good(n) && n.Split? && k < |n.children| == 2 && n.children[k].Leaf?
    ensures Shrunk(n.children[1 - k], n, n.children[k].id)
  {
    var o := n.children[1 - k];
    assert Ids(n.children[0]) !! Ids(n.children[1]);
    forall x ensures x in LeafIds(o) <==> x in LeafIds(n) - {n.children[k].id} {}
    forall b ensures b in Bindings(o) <==> b in NotOn(Bindings(n), n.children[k].id) {}
  }

  lemma DropShrinks(n: Node, k: nat)
    requires Good(n) && n.Split? && k < |n.children| && n.children[k].Leaf? && |n.children| > 2
    ensures Shrunk(n.(children := Without(n.children, k)), n, n.children[k].id)
  {
    hide Ids, LeafIds, Bindings;
    var cs := Without(n.children, k);
    DroppedMembers(n, k);
    forall i, j | 0 <= i < j < |cs| ensures Ids(cs[i]) !! Ids(cs[j]) {
      assert Ids(n.children[if i < k then i else i + 1]) !! Ids(n.children[if j < k then j else j + 1]);
    }
    forall i | 0 <= i < |cs| ensures Unique(cs[i]) && Bushy(cs[i]) && n.id !in Ids(cs[i]) {
      assert cs[i] == n.children[if i < k then i else i + 1];
    }
  }

  lemma DroppedMembers(n: Node, k: nat)
    requires Unique(n) && n.Split? && k < |n.children| && n.children[k].Leaf?
    ensures var m, p := n.(children := Without(n.children, k)), n.children[k].id;
            Ids(m) <= Ids(n) && LeafIds(m) == LeafIds(n) - {p} && Bindings(m) == NotOn(Bindings(n), p)
  {
    hide Ids, LeafIds, Bindings, Without;
    var m, p := n.(children := Without(n.children, k)), n.children[k].id;
    OneLeaf(n.children[k]);
    DroppedChildren(n, k);
    Members(n);
    Members(m);
    assert Ids(m) <= Ids(n);
    assert LeafIds(m) == LeafIds(n) - {p};
    assert Bindings(m) == NotOn(Bindings(n), p);
  }

  lemma DroppedChildren(n: Node, k: nat)
    requires Unique(n) && n.Split? && k < |n.children|
    ensures forall c :: c in n.children <==> c in Without(n.children, k) || c == n.children[k]
    ensures forall c :: c in Without(n.children, k) ==> n.children[k].id !in Ids(c)
  {
    var cs := Without(n.children, k);
    assert n.children == n.children[..k] + [n.children[k]] + n.children[k + 1..];
    HolderUnique(n, n.children[k].id, k);
    forall c | c in cs ensures n.children[k].id !in Ids(c) {
      var i :| 0 <= i < |cs| && cs[i] == c;
      assert c == n.children[if i < k then i else i + 1];
    }
  }

  lemma DeepShrinks(n: Node, k: nat, c: Node, p: Id)
    requires Good(n) && n.Split? && k < |n.children| && p in Ids(n.children[k]) && Shrunk(c, n.children[k], p)
    ensures Shrunk(n.(children := n.children[k := c]), n, p)
  {
    hide Ids, LeafIds, Bindings;
    SwapChild(n, k, c);
    IdsOfChild(n, k);
    var m := n.(children := n.children[k := c]);
    forall x ensures x in LeafIds(m) <==> x in LeafIds(n) - {p} {
      if x in LeafIds(n) && x in Ids(n.children[k]) { LeafWhere(n, k, x); }
    }
    forall b ensures b in Bindings(m) <==> b in NotOn(Bindings(n), p) {
      if b in Bindings(n) && b.0 in Ids(n.children[k]) { BindingWhere(n, k, b); }
    }
    forall x | x in Ids(m) ensures x in Ids(n) {}
    assert LeafIds(m) == LeafIds(n) - {p} && Bindings(m) == NotOn(Bindings(n), p);
  }

  /** The operations of the workspace on one good tree. */
  lemma SplitPaneGrows(root: Node, p: Id, dir: Direction, leaf: Node, splitId: Id, before: bool)
    requires Good(root) && p in LeafIds(root)
    requires leaf.Leaf? && leaf.id !in Ids(root) && splitId !in Ids(root) && splitId != leaf.id
    ensures Grown(AddBeside(root, p, dir, leaf, splitId, before), root, leaf, splitId)
  {
    AddBesideIsSplitAt(root, p, dir, leaf, splitId, before);
    SplitGrows(root, p, dir, leaf, splitId, before);
  }

  lemma ClosePaneShrinks(root: Node, p: Id, freshId: Id)
    requires Good(root) && p in LeafIds(root)
    ensures var r := ClosePane(root, p, freshId);
            && r.1 in LeafIds(r.0)
            && (if root.Leaf? then r.0 == Leaf(freshId, EMPTY) else Shrunk(r.0, root, p))
  {
    if root.Split? {
      RemoveShrinks(root, p);
    } else {
      OnlyLeaf(root, p);
    }
  }
}
