/** Every action of the workspace keeps its invariant, and what each does to the panes and to the sessions
    they show. */
module WorkspaceInvariant {
  import opened Basics
  import opened PaneTree
  import opened PaneSplitClose
  import opened PaneBindings
  import opened Workspace

  // ---------- finding a leaf ----------

  lemma FoundBelow(n: Node, p: Id, k: nat)
    requires Unique(n) && n.Split? && k < |n.children| && p in Ids(n.children[k])
    ensures FindNode(n, p) == FindNode(n.children[k], p)
  {
    HolderUnique(n, p, k);
    ScanFinds(n, p, k, 0);
  }

  /** The leaf search answers for leaves and only for them, with the session the leaf is bound to. */
  lemma {:induction false} FindLeafExact(n: Node, p: Id)
    requires Unique(n)
    ensures FindLeaf(n, p).Some? <==> p in LeafIds(n)
    ensures FindLeaf(n, p).Some? ==> FindLeaf(n, p).value.Leaf?
    ensures FindLeaf(n, p).Some? ==>
              var s := FindLeaf(n, p).value.session;
              (s.Some? ==> (p, s.value) in Bindings(n)) && forall b :: b in Bindings(n) && b.0 == p ==> s == Some(b.1)
  {
    if n.Split? && p == n.id {
      if p in LeafIds(n) { LeafHasHolder(n, p); }
    } else if n.Split? && p in Ids(n) {
      InSomeChild(n, p);
      var k :| 0 <= k < |n.children| && p in Ids(n.children[k]);
      FoundBelow(n, p, k);
      FindLeafExact(n.children[k], p);
      if p in LeafIds(n) { LeafWhere(n, k, p); }
      forall b | b in Bindings(n) && b.0 == p ensures b in Bindings(n.children[k]) { BindingWhere(n, k, b); }
    }
  }

  lemma OwnerExact(ws: seq<Window>, p: Id)
    requires Distinct(ws)
    ensures var k := OwnerOf(ws, p, 0);
            (k == -1 <==> p !in AllLeaves(ws)) && (k != -1 ==> p in LeafIds(ws[k].root))
  {
    hide LeafIds, Ids, Bindings, FindLeaf;
    forall i | 0 <= i < |ws| ensures FindLeaf(ws[i].root, p).Some? <==> p in LeafIds(ws[i].root) {
      FindLeafExact(ws[i].root, p);
    }
  }

  // ---------- one window replaced ----------

  lemma UpdateIsReplace(ws: seq<Window>, k: nat, c: Change)
    requires k < |ws| && forall i, j :: 0 <= i < j < |ws| ==> ws[i].id != ws[j].id
    ensures UpdateWindow(ws, ws[k].id, c) == ws[k := Changed(c, ws[k])]
  {
    hide Changed;
  }

  lemma WindowIds(ws: seq<Window>, k: nat)
    requires k < |ws|
    ensures Ids(ws[k].root) <= AllIds(ws) && LeafIds(ws[k].root) <= AllLeaves(ws)
    ensures Bindings(ws[k].root) <= AllBindings(ws)
    ensures AllLeaves(ws) <= AllIds(ws)
  {
  }

  lemma ReplaceDistinct(ws: seq<Window>, k: nat, w: Window, drawn: set<Id>)
    requires Distinct(ws) && k < |ws| && w.id == ws[k].id && Good(w.root) && w.focused in LeafIds(w.root)
    requires Ids(w.root) <= Ids(ws[k].root) + drawn && drawn !! AllIds(ws)
    ensures Distinct(ws[k := w])
  {
    hide Ids, LeafIds, Good, AllIds;
    var ws' := ws[k := w];
    forall i, j | 0 <= i < j < |ws'| ensures Ids(ws'[i].root) !! Ids(ws'[j].root) {
      if i == k || j == k {
        var o := if i == k then j else i;
        WindowIds(ws, o);
        assert Ids(ws[o].root) !! Ids(ws[k].root);
      }
    }
  }

  lemma ReplaceHas(ws: seq<Window>, k: nat, w: Window, id: WindowId)
    requires k < |ws| && w.id == ws[k].id
    ensures HasWindow(ws[k := w], id) == HasWindow(ws, id)
  {
    var ws' := ws[k := w];
    assert forall i :: 0 <= i < |ws| ==> ws'[i].id == ws[i].id;
    if i :| 0 <= i < |ws'| && ws'[i].id == id { assert ws[i].id == id; }
    if i :| 0 <= i < |ws| && ws[i].id == id { assert ws'[i].id == id; }
  }

  ghost function NotIn(bs: set<(Id, SessionId)>, ids: set<Id>): set<(Id, SessionId)> {
    set b | b in bs && b.0 !in ids
  }

  lemma LeafElsewhere(ws: seq<Window>, k: nat, i: nat, x: Id)
    requires Distinct(ws) && k < |ws| && i < |ws| && x in LeafIds(ws[i].root) && x in Ids(ws[k].root)
    ensures i == k
  {
    assert x in Ids(ws[i].root);
  }

  lemma ReplaceLeaves(ws: seq<Window>, k: nat, w: Window)
    requires Distinct(ws) && k < |ws|
    ensures AllLeaves(ws[k := w]) == AllLeaves(ws) - LeafIds(ws[k].root) + LeafIds(w.root)
  {
    hide LeafIds, Distinct;
    var ws' := ws[k := w];
    forall x ensures x in AllLeaves(ws') <==> x in AllLeaves(ws) - LeafIds(ws[k].root) + LeafIds(w.root) {
      if x in AllLeaves(ws') {
        var i :| 0 <= i < |ws'| && x in LeafIds(ws'[i].root);
        if i != k {
          assert ws'[i] == ws[i];
          if x in LeafIds(ws[k].root) { LeafElsewhere(ws, k, i, x); }
        }
      }
      if x in AllLeaves(ws) && x !in LeafIds(ws[k].root) {
        var i :| 0 <= i < |ws| && x in LeafIds(ws[i].root);
        assert ws'[i] == ws[i];
      }
      assert ws'[k] == w;
    }
  }

  lemma ReplaceBindings(ws: seq<Window>, k: nat, w: Window, gone: set<Id>, extra: set<(Id, SessionId)>)
    requires Distinct(ws) && k < |ws| && gone <= Ids(ws[k].root)
    requires Bindings(w.root) == NotIn(Bindings(ws[k].root), gone) + extra
    ensures AllBindings(ws[k := w]) == NotIn(AllBindings(ws), gone) + extra
  {
    hide Bindings, Distinct, Ids;
    var ws' := ws[k := w];
    forall b ensures b in AllBindings(ws') <==> b in NotIn(AllBindings(ws), gone) + extra {
      assert ws'[k] == w;
      if b in AllBindings(ws') {
        var i :| 0 <= i < |ws'| && b in Bindings(ws'[i].root);
        if i != k {
          assert ws'[i] == ws[i];
          if b.0 in gone { LeafElsewhere(ws, k, i, b.0); }
        }
      }
      if b in AllBindings(ws) && b.0 !in gone {
        var i :| 0 <= i < |ws| && b in Bindings(ws[i].root);
        if i != k { assert ws'[i] == ws[i]; }
      }
      if b in extra { assert b in Bindings(ws'[k].root); }
    }
  }

  // ---------- every window edited ----------

  /** Same windows, same panes; only bindings and layouts may differ. */
  ghost predicate SameFrame(ws': seq<Window>, ws: seq<Window>) {
    && |ws'| == |ws|
    && forall i :: 0 <= i < |ws| ==>
         && ws'[i].id == ws[i].id && ws'[i].focused == ws[i].focused
         && Good(ws'[i].root) && Ids(ws'[i].root) == Ids(ws[i].root) && LeafIds(ws'[i].root) == LeafIds(ws[i].root)
  }

  lemma FrameKeeps(ws': seq<Window>, ws: seq<Window>)
    requires Distinct(ws) && SameFrame(ws', ws)
    ensures Distinct(ws') && AllLeaves(ws') == AllLeaves(ws) && AllIds(ws') == AllIds(ws)
    ensures forall id :: HasWindow(ws', id) == HasWindow(ws, id)
  {
    hide Good, Ids, LeafIds;
    forall id ensures HasWindow(ws', id) == HasWindow(ws, id) {
      if i :| 0 <= i < |ws| && ws[i].id == id { assert ws'[i].id == id; }
    }
  }

  lemma ClearFrame(ws: seq<Window>, s: SessionId)
    requires Distinct(ws)
    ensures SameFrame(ClearEverywhere(ws, s), ws)
    ensures AllBindings(ClearEverywhere(ws, s)) == NotOf(AllBindings(ws), s)
  {
    hide Ids, LeafIds, Bindings, ClearSession, Unique, Bushy;
    var ws' := ClearEverywhere(ws, s);
    forall i | 0 <= i < |ws|
      ensures Good(ws'[i].root) && Ids(ws'[i].root) == Ids(ws[i].root) && LeafIds(ws'[i].root) == LeafIds(ws[i].root)
      ensures Bindings(ws'[i].root) == NotOf(Bindings(ws[i].root), s)
    {
      ClearKeepsShape(ws[i].root, s);
      ClearBindings(ws[i].root, s);
    }
    forall b ensures b in AllBindings(ws') <==> b in NotOf(AllBindings(ws), s) {
      if b in AllBindings(ws') {
        var i :| 0 <= i < |ws'| && b in Bindings(ws'[i].root);
        assert b in Bindings(ws[i].root);
      }
      if b in NotOf(AllBindings(ws), s) {
        var i :| 0 <= i < |ws| && b in Bindings(ws[i].root);
        assert b in Bindings(ws'[i].root);
      }
    }
  }

  ghost function Listed(bs: set<(Id, SessionId)>, known: set<SessionId>): set<(Id, SessionId)> {
    set b | b in bs && b.1 in known
  }

  lemma {:induction false} RetainTree(n: Node, known: set<SessionId>)
    ensures var m := RetainKnown(n, known);
            && m.id == n.id && Ids(m) == Ids(n) && LeafIds(m) == LeafIds(n)
            && (Unique(n) ==> Unique(m)) && (Bushy(n) ==> Bushy(m))
  {
    hide Bindings;
    if n.Split? {
      var m := RetainKnown(n, known);
      assert |m.children| == |n.children|;
      forall i | 0 <= i < |n.children|
        ensures m.children[i].id == n.children[i].id
        ensures Ids(m.children[i]) == Ids(n.children[i]) && LeafIds(m.children[i]) == LeafIds(n.children[i])
        ensures (Unique(n.children[i]) ==> Unique(m.children[i])) && (Bushy(n.children[i]) ==> Bushy(m.children[i]))
      {
        RetainTree(n.children[i], known);
      }
      assert Ids(m) == Ids(n);
      assert LeafIds(m) == LeafIds(n);
    }
  }

  /** Reconciling with the server keeps exactly the bindings of the sessions it listed. */
  lemma {:induction false} RetainBindings(n: Node, known: set<SessionId>)
    ensures Bindings(RetainKnown(n, known)) == Listed(Bindings(n), known)
  {
    if n.Split? {
      var m := RetainKnown(n, known);
      forall i | 0 <= i < |n.children| ensures Bindings(m.children[i]) == Listed(Bindings(n.children[i]), known) {
        RetainBindings(n.children[i], known);
      }
    }
  }

  lemma RetainFrame(ws: seq<Window>, known: set<SessionId>)
    requires Distinct(ws)
    ensures SameFrame(RetainEverywhere(ws, known), ws)
    ensures AllBindings(RetainEverywhere(ws, known)) == Listed(AllBindings(ws), known)
  {
    hide Ids, LeafIds, Bindings, RetainKnown, Unique, Bushy;
    var ws' := RetainEverywhere(ws, known);
    forall i | 0 <= i < |ws|
      ensures Good(ws'[i].root) && Ids(ws'[i].root) == Ids(ws[i].root) && LeafIds(ws'[i].root) == LeafIds(ws[i].root)
      ensures Bindings(ws'[i].root) == Listed(Bindings(ws[i].root), known)
    {
      RetainTree(ws[i].root, known);
      RetainBindings(ws[i].root, known);
    }
    forall b ensures b in AllBindings(ws') <==> b in Listed(AllBindings(ws), known) {
      if b in AllBindings(ws') {
        var i :| 0 <= i < |ws'| && b in Bindings(ws'[i].root);
        assert b in Bindings(ws[i].root);
      }
      if b in Listed(AllBindings(ws), known) {
        var i :| 0 <= i < |ws| && b in Bindings(ws[i].root);
        assert b in Bindings(ws'[i].root);
      }
    }
  }

  lemma LayoutFrame(ws: seq<Window>, split: Id, layout: map<Id, real>)
    requires Distinct(ws)
    ensures SameFrame(LayoutEverywhere(ws, split, layout), ws)
    ensures AllBindings(LayoutEverywhere(ws, split, layout)) == AllBindings(ws)
  {
    hide Ids, LeafIds, Bindings, MapNode, Unique, Bushy;
    var ws' := LayoutEverywhere(ws, split, layout);
    forall i | 0 <= i < |ws|
      ensures Good(ws'[i].root) && Ids(ws'[i].root) == Ids(ws[i].root) && LeafIds(ws'[i].root) == LeafIds(ws[i].root)
      ensures Bindings(ws'[i].root) == Bindings(ws[i].root)
    {
      LayoutKeeps(ws[i].root, split, layout);
    }
  }

  // ---------- windows chosen and ordered ----------

  /** The windows of `ws'` are windows of `ws`, each taken at most once. */
  ghost predicate Selects(ws': seq<Window>, ws: seq<Window>, from: seq<nat>) {
    && |from| == |ws'|
    && (forall i :: 0 <= i < |from| ==> from[i] < |ws| && ws'[i] == ws[from[i]])
    && (forall i, j :: 0 <= i < j < |from| ==> from[i] != from[j])
  }

  lemma SelectDistinct(ws': seq<Window>, ws: seq<Window>, from: seq<nat>)
    requires Distinct(ws) && Selects(ws', ws, from)
    ensures Distinct(ws')
  {
    hide Good, Ids, LeafIds;
    forall i, j | 0 <= i < j < |ws'| ensures ws'[i].id != ws'[j].id && Ids(ws'[i].root) !! Ids(ws'[j].root) {
      var a, b := from[i], from[j];
      if a < b {
        assert Ids(ws[a].root) !! Ids(ws[b].root);
      } else {
        assert ws[b].id != ws[a].id && Ids(ws[b].root) !! Ids(ws[a].root);
      }
    }
  }

  ghost function DropPlan(n: nat, k: nat): seq<nat>
    requires k < n
  {
    seq(n - 1, i => if i < k then i else i + 1)
  }

  lemma DropSelects(ws: seq<Window>, k: nat)
    requires k < |ws|
    ensures Selects(Drop(ws, k), ws, DropPlan(|ws|, k))
  {
  }

  /** The windows that stay, and where. */
  lemma DropPlaces(ws: seq<Window>, k: nat)
    requires k < |ws|
    ensures |Drop(ws, k)| == |ws| - 1
    ensures forall i :: 0 <= i < |ws| && i != k ==> ws[i] == Drop(ws, k)[if i < k then i else i - 1]
    ensures forall i :: 0 <= i < |ws| - 1 ==> Drop(ws, k)[i] == ws[if i < k then i else i + 1]
  {
  }

  lemma DropLeaves(ws: seq<Window>, k: nat)
    requires Distinct(ws) && k < |ws|
    ensures AllLeaves(Drop(ws, k)) == AllLeaves(ws) - LeafIds(ws[k].root)
  {
    hide LeafIds, Distinct, Ids, Drop;
    var ws' := Drop(ws, k);
    DropPlaces(ws, k);
    forall x ensures x in AllLeaves(ws') <==> x in AllLeaves(ws) - LeafIds(ws[k].root) {
      if x in AllLeaves(ws') {
        var i :| 0 <= i < |ws'| && x in LeafIds(ws'[i].root);
        if x in LeafIds(ws[k].root) { LeafElsewhere(ws, k, if i < k then i else i + 1, x); }
      }
      if x in AllLeaves(ws) && x !in LeafIds(ws[k].root) {
        var i :| 0 <= i < |ws| && x in LeafIds(ws[i].root);
        assert x in LeafIds(ws'[if i < k then i else i - 1].root);
      }
    }
  }

  lemma DropBindings(ws: seq<Window>, k: nat)
    requires Distinct(ws) && k < |ws|
    ensures AllBindings(Drop(ws, k)) == NotIn(AllBindings(ws), LeafIds(ws[k].root))
  {
    hide LeafIds, Bindings, Distinct, Ids, Drop;
    var ws' := Drop(ws, k);
    DropPlaces(ws, k);
    forall b ensures b in AllBindings(ws') <==> b in NotIn(AllBindings(ws), LeafIds(ws[k].root)) {
      if b in AllBindings(ws') {
        var i :| 0 <= i < |ws'| && b in Bindings(ws'[i].root);
        if b.0 in LeafIds(ws[k].root) { LeafElsewhere(ws, k, if i < k then i else i + 1, b.0); }
      }
      if b in NotIn(AllBindings(ws), LeafIds(ws[k].root)) {
        var i :| 0 <= i < |ws| && b in Bindings(ws[i].root);
        assert b in Bindings(ws'[if i < k then i else i - 1].root);
      }
    }
  }

  ghost function MovePlan(n: nat, from: nat, to: nat): seq<nat>
    requires from < n && to < n
  {
    seq(n, i => if i == to then from else
                var j := if i < to then i else i - 1; if 0 <= j < from then j else if j < 0 then 0 else j + 1)
  }

  /** A reordered list holds the same windows: the moved one at its new index, the others in their order. */
  lemma ReorderMoves(ws: seq<Window>, id: WindowId, toIndex: int)
    requires HasWindow(ws, id)
    ensures var ws', from, to := ReorderWindow(ws, id, toIndex), IndexOfWindow(ws, id, 0), Clamped(toIndex, |ws|);
            && |ws'| == |ws| && 0 <= to < |ws| && ws'[to] == ws[from]
            && Drop(ws', to) == Drop(ws, from)
  {
    var ws', from, to := ReorderWindow(ws, id, toIndex), IndexOfWindow(ws, id, 0), Clamped(toIndex, |ws|);
    if from != to {
      var rest := Drop(ws, from);
      assert Drop(ws', to) == rest[..to] + rest[to..];
    }
  }

  lemma ReorderSelects(ws: seq<Window>, from: nat, to: nat)
    requires from < |ws| && to < |ws|
    ensures var rest := Drop(ws, from);
            Selects(rest[..to] + [ws[from]] + rest[to..], ws, MovePlan(|ws|, from, to))
  {
  }

  lemma SelectAllSets(ws': seq<Window>, ws: seq<Window>)
    requires forall w :: w in ws' <==> w in ws
    ensures AllLeaves(ws') == AllLeaves(ws) && AllBindings(ws') == AllBindings(ws)
    ensures forall id :: HasWindow(ws', id) == HasWindow(ws, id)
  {
    SubSets(ws', ws);
    SubSets(ws, ws');
  }

  lemma SubSets(ws': seq<Window>, ws: seq<Window>)
    requires forall w :: w in ws' ==> w in ws
    ensures AllLeaves(ws') <= AllLeaves(ws) && AllBindings(ws') <= AllBindings(ws)
    ensures forall id :: HasWindow(ws', id) ==> HasWindow(ws, id)
  {
    hide LeafIds, Bindings;
    forall x | x in AllLeaves(ws') ensures x in AllLeaves(ws) {
      var i :| 0 <= i < |ws'| && x in LeafIds(ws'[i].root);
      assert ws'[i] in ws;
      var j :| 0 <= j < |ws| && ws[j] == ws'[i];
    }
    forall b | b in AllBindings(ws') ensures b in AllBindings(ws) {
      var i :| 0 <= i < |ws'| && b in Bindings(ws'[i].root);
      assert ws'[i] in ws;
      var j :| 0 <= j < |ws| && ws[j] == ws'[i];
    }
    forall id | HasWindow(ws', id) ensures HasWindow(ws, id) {
      var i :| 0 <= i < |ws'| && ws'[i].id == id;
      assert ws'[i] in ws;
      var j :| 0 <= j < |ws| && ws[j] == ws'[i];
    }
  }
}
