/** The split-pane tree of the workspace (web/src/features/terminal/paneTree.ts): immutable n-ary trees
    whose leaves hold at most one session each. Ids are opaque; the random ids the source generates are
    parameters. */
module PaneTree {
  import opened Basics

  type Id = int
  type SessionId = int

  datatype Direction = Horizontal | Vertical

  datatype Node =
    | Leaf(id: Id, session: Option<SessionId>)
    | Split(id: Id, dir: Direction, children: seq<Node>, layout: Option<map<Id, real>>)

  // ---------- structure ----------

  ghost function Ids(n: Node): (r: set<Id>)
    ensures n.id in r
    ensures n.Split? ==> forall i :: 0 <= i < |n.children| ==> Ids(n.children[i]) <= r
  {
    match n
    case Leaf(id, _) => {id}
    case Split(id, _, cs, _) => {id} + set i, x | 0 <= i < |cs| && x in Ids(cs[i]) :: x
  }

  /** An id of a split other than its own lies in one of its children. */
  lemma InSomeChild(n: Node, x: Id)
    requires n.Split? && x in Ids(n) && x != n.id
    ensures exists i :: 0 <= i < |n.children| && x in Ids(n.children[i])
  {
  }

  /** No two nodes share an id. */
  ghost predicate Unique(n: Node) {
    n.Split? ==>
      && (forall i :: 0 <= i < |n.children| ==> Unique(n.children[i]) && n.id !in Ids(n.children[i]))
      && (forall i, j :: 0 <= i < j < |n.children| ==> Ids(n.children[i]) !! Ids(n.children[j]))
  }

  /** Every split has at least two children. */
  predicate Bushy(n: Node) {
    n.Split? ==> |n.children| >= 2 && forall i :: 0 <= i < |n.children| ==> Bushy(n.children[i])
  }

  ghost predicate Good(n: Node) { Unique(n) && Bushy(n) }

  /** The ids of the leaves. */
  ghost function LeafIds(n: Node): (r: set<Id>)
    ensures r <= Ids(n)
  {
    match n
    case Leaf(id, _) => {id}
    case Split(_, _, cs, _) => set i, x | 0 <= i < |cs| && x in LeafIds(cs[i]) :: x
  }

  lemma LeafInIds(n: Node, x: Id)
    requires x in LeafIds(n)
    ensures x in Ids(n)
  {
  }

  /** Which leaf holds which session. */
  ghost function Bindings(n: Node): (r: set<(Id, SessionId)>)
    ensures forall b :: b in r ==> b.0 in LeafIds(n)
  {
    match n
    case Leaf(id, s) => if s.Some? then {(id, s.value)} else {}
    case Split(_, _, cs, _) => set i, b | 0 <= i < |cs| && b in Bindings(cs[i]) :: b
  }

  // ---------- lookup ----------

  /** The first child at or after `i` whose own id is `id`, or -1. */
  function IndexOf(cs: seq<Node>, id: Id, i: nat): (r: int)
    requires i <= |cs|
    ensures r == -1 || i <= r < |cs|
    ensures r != -1 ==> cs[r].id == id && forall j :: i <= j < r ==> cs[j].id != id
    ensures r == -1 ==> forall j :: i <= j < |cs| ==> cs[j].id != id
    decreases |cs| - i
  {
    if i == |cs| then -1
    else if cs[i].id == id then i
    else IndexOf(cs, id, i + 1)
  }

  predicate ContainsId(n: Node, id: Id)
    ensures ContainsId(n, id) <==> id in Ids(n)
  {
    n.id == id || (n.Split? && exists i :: 0 <= i < |n.children| && ContainsId(n.children[i], id))
  }

  /** The first child at or after `i` that contains `id`, or the number of children. */
  function Holder(cs: seq<Node>, id: Id, i: nat): (r: nat)
    requires i <= |cs|
    ensures i <= r <= |cs|
    ensures r < |cs| ==> id in Ids(cs[r])
    ensures forall j :: i <= j < r ==> id !in Ids(cs[j])
    decreases |cs| - i
  {
    if i == |cs| || ContainsId(cs[i], id) then i else Holder(cs, id, i + 1)
  }

  /** The direct parent of the node with this id; nothing for the root or an absent id. */
  function FindParent(n: Node, id: Id): (r: Option<Node>)
    ensures r.Some? ==> r.value.Split? && IndexOf(r.value.children, id, 0) != -1
    decreases n
  {
    if n.id == id || n.Leaf? then None else ScanForParent(n, id, 0)
  }

  function ScanForParent(n: Node, id: Id, i: nat): (r: Option<Node>)
    requires n.Split? && i <= |n.children|
    ensures r.Some? ==> r.value.Split? && IndexOf(r.value.children, id, 0) != -1
    decreases n, |n.children| - i
  {
    if i == |n.children| then None
    else if n.children[i].id == id then Some(n)
    else
      var found := FindParent(n.children[i], id);
      if found.Some? then found else ScanForParent(n, id, i + 1)
  }

  function FindNode(n: Node, id: Id): (r: Option<Node>)
    ensures r.Some? ==> r.value.id == id
    ensures r.Some? <==> id in Ids(n)
    decreases n
  {
    if n.id == id then Some(n)
    else if n.Leaf? then None
    else ScanForNode(n, id, 0)
  }

  function ScanForNode(n: Node, id: Id, i: nat): (r: Option<Node>)
    requires n.Split? && i <= |n.children|
    ensures r.Some? ==> r.value.id == id
    ensures r.Some? <==> exists j :: i <= j < |n.children| && id in Ids(n.children[j])
    decreases n, |n.children| - i
  {
    if i == |n.children| then None
    else
      var found := FindNode(n.children[i], id);
      if found.Some? then found else ScanForNode(n, id, i + 1)
  }

  function FindLeaf(n: Node, id: Id): Option<Node> {
    var f := FindNode(n, id);
    if f.Some? && f.value.Leaf? then f else None
  }

  function FirstLeaf(n: Node): (r: Id)
    requires Bushy(n)
    ensures r in LeafIds(n)
  {
    if n.Leaf? then n.id else FirstLeaf(n.children[0])
  }

  // ---------- rebuilding ----------

  /** The callbacks that the operations map over a node. */
  datatype Edit =
    | Become(node: Node)
    | WrapWith(dir: Direction, leaf: Node, splitId: Id, before: bool)
    | Bind(session: Option<SessionId>)
    | SetLayout(layout: map<Id, real>)

  /** Wrapping and binding act on leaves, layouts on splits; other nodes are left alone. */
  function Edited(e: Edit, n: Node): Node {
    match e
    case Become(node) => node
    case WrapWith(dir, leaf, splitId, before) =>
      if n.Leaf? then Split(splitId, dir, if before then [leaf, n] else [n, leaf], None) else n
    case Bind(s) => if n.Leaf? then n.(session := s) else n
    case SetLayout(layout) => if n.Split? then n.(layout := Some(layout)) else n
  }

  /** The node with this id replaced by its edited form. */
  function MapNode(n: Node, id: Id, e: Edit): Node {
    if n.id == id then Edited(e, n)
    else if n.Leaf? then n
    else n.(children := seq(|n.children|, i requires 0 <= i < |n.children| => MapNode(n.children[i], id, e)))
  }

  /** Mapping an absent id changes nothing. */
  lemma {:induction false} MapAbsent(n: Node, id: Id, e: Edit)
    requires id !in Ids(n)
    ensures MapNode(n, id, e) == n
  {
    if n.Split? {
      forall i | 0 <= i < |n.children| ensures MapNode(n.children[i], id, e) == n.children[i] {
        MapAbsent(n.children[i], id, e);
      }
      assert MapNode(n, id, e).children == n.children;
    }
  }

  /** With unique ids, mapping an id below the root changes exactly the child that holds it. */
  lemma MapChild(n: Node, id: Id, e: Edit, k: nat)
    requires Unique(n) && n.Split? && k < |n.children| && id in Ids(n.children[k])
    ensures MapNode(n, id, e) == n.(children := n.children[k := MapNode(n.children[k], id, e)])
  {
    HolderUnique(n, id, k);
    var m := MapNode(n, id, e);
    forall i | 0 <= i < |n.children|
      ensures m.children[i] == n.children[k := MapNode(n.children[k], id, e)][i]
    {
      if i != k { MapAbsent(n.children[i], id, e); }
    }
    assert m.children == n.children[k := MapNode(n.children[k], id, e)];
  }

  /** The child that holds an id is the only one that does. */
  lemma HolderUnique(n: Node, id: Id, k: nat)
    requires Unique(n) && n.Split? && k < |n.children| && id in Ids(n.children[k])
    ensures Holder(n.children, id, 0) == k
    ensures id != n.id
    ensures forall j :: 0 <= j < |n.children| && j != k ==> id !in Ids(n.children[j])
  {
    forall j | 0 <= j < |n.children| && j != k ensures id !in Ids(n.children[j]) {
      if j < k {
        assert Ids(n.children[j]) !! Ids(n.children[k]);
      } else {
        assert Ids(n.children[k]) !! Ids(n.children[j]);
      }
    }
  }

  // ---------- operations ----------

  const EMPTY: Option<SessionId> := None

  function InsertAt(cs: seq<Node>, k: int, leaf: Node): seq<Node>
    requires 0 <= k <= |cs|
  {
    cs[..k] + [leaf] + cs[k..]
  }

  /** The shared body of splitPane and splitPaneWithSession: the new leaf joins the target's parent when
      that already splits in the same direction, and otherwise the target is wrapped. */
  function AddBeside(root: Node, paneId: Id, dir: Direction, leaf: Node, splitId: Id, before: bool): Node {
    var parent := FindParent(root, paneId);
    if parent.Some? && parent.value.dir == dir then
      var q := parent.value;
      var at := IndexOf(q.children, paneId, 0);
      var q' := q.(children := InsertAt(q.children, if before then at else at + 1, leaf));
      MapNode(root, q.id, Become(q'))
    else MapNode(root, paneId, WrapWith(dir, leaf, splitId, before))
  }

  function SplitPane(root: Node, paneId: Id, dir: Direction, leafId: Id, splitId: Id): Node {
    AddBeside(root, paneId, dir, Leaf(leafId, EMPTY), splitId, false)
  }

  function ClearSession(n: Node, s: SessionId): Node {
    if n.Leaf? then if n.session == Some(s) then n.(session := EMPTY) else n
    else n.(children := seq(|n.children|, i requires 0 <= i < |n.children| => ClearSession(n.children[i], s)))
  }

  function SplitPaneWithSession(
    root: Node, paneId: Id, dir: Direction, s: SessionId, before: bool, leafId: Id, splitId: Id): Node
  {
    AddBeside(ClearSession(root, s), paneId, dir, Leaf(leafId, Some(s)), splitId, before)
  }

  function Without(cs: seq<Node>, k: int): seq<Node>
    requires 0 <= k < |cs|
  {
    cs[..k] + cs[k + 1..]
  }

  datatype Removal = Removal(root: Node, focus: Option<Id>)

  /** Drop a child; a split left with one child is replaced by it. */
  function RemoveLeaf(n: Node, id: Id): (r: Removal)
    requires Bushy(n)
    ensures Bushy(r.root)
    ensures r.focus.Some? ==> r.focus.value in LeafIds(r.root)
  {
    if n.Leaf? then Removal(n, None)
    else
      var k := IndexOf(n.children, id, 0);
      if k != -1 then
        var rest := Without(n.children, k);
        assert forall i :: 0 <= i < |rest| ==> rest[i] in n.children;
        if |rest| == 1 then Removal(rest[0], Some(FirstLeaf(rest[0])))
        else
          var near := if k > 0 then k - 1 else 0;
          var focus := FirstLeaf(rest[near]);
          assert focus in LeafIds(rest[near]);
          Removal(n.(children := rest), Some(focus))
      else
        var h := Holder(n.children, id, 0);
        if h == |n.children| then Removal(n, None)
        else
          var r := RemoveLeaf(n.children[h], id);
          var cs := n.children[h := r.root];
          assert r.focus.Some? ==> r.focus.value in LeafIds(cs[h]);
          Removal(n.(children := cs), r.focus)
  }

  /** Closing the last pane leaves a fresh empty one. */
  function ClosePane(root: Node, paneId: Id, freshId: Id): (r: (Node, Id))
    requires Bushy(root)
    ensures Bushy(r.0) && r.1 in LeafIds(r.0)
  {
    if root.Leaf? && root.id == paneId then (Leaf(freshId, EMPTY), freshId)
    else
      var r := RemoveLeaf(root, paneId);
      (r.root, if r.focus.Some? then r.focus.value else FirstLeaf(r.root))
  }

  function DetachPane(root: Node, paneId: Id): Node { MapNode(root, paneId, Bind(EMPTY)) }

  function AssignSession(root: Node, paneId: Id, s: SessionId): Node {
    MapNode(ClearSession(root, s), paneId, Bind(Some(s)))
  }

  /** A layout is recorded only on a split. */
  function SetSplitLayout(root: Node, splitId: Id, layout: map<Id, real>): Node {
    var target := FindNode(root, splitId);
    if target.None? || target.value.Leaf? then root else MapNode(root, splitId, SetLayout(layout))
  }
}
