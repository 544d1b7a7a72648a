/** The workspace over whole runs: the invariant holds after every sequence of actions. */
module WorkspaceRuns {
  import opened Basics
  import opened PaneTree
  import opened PaneSplitClose
  import opened PaneBindings
  import opened Workspace
  import opened WorkspaceInvariant

  /** A sound state with these panes and these bindings. */
  ghost predicate Becomes(st: State, leaves: set<Id>, bs: set<(Id, SessionId)>) {
    Sound(st) && AllLeaves(st.windows) == leaves && AllBindings(st.windows) == bs
  }

  ghost predicate Unbound(bs: set<(Id, SessionId)>, s: SessionId) { forall b :: b in bs ==> b.1 != s }

  // ---------- the abstract effect of an action ----------

  /** Session `s` moves to pane `p` and `p` gives up what it showed. */
  ghost function Moved(bs: set<(Id, SessionId)>, p: Id, s: SessionId): set<(Id, SessionId)> {
    NotOn(NotOf(bs, s), p) + {(p, s)}
  }

  ghost function AssignedBindings(st: State, p: Id, s: SessionId): set<(Id, SessionId)> {
    if p in AllLeaves(st.windows) then Moved(AllBindings(st.windows), p, s) else AllBindings(st.windows)
  }

  ghost function LeavesAfter(st: State, a: Action): set<Id> {
    var ls := AllLeaves(st.windows);
    match a
    case AddWindow(_, leaf) => ls + {leaf}
    case CloseWindow(id, _, leaf) =>
      var k := IndexOfWindow(st.windows, id, 0);
      if k == -1 then ls else if |st.windows| == 1 then {leaf} else ls - LeafIds(st.windows[k].root)
    case SplitAction(p, _, leaf, _) => if p in ls then ls + {leaf} else ls
    case SplitWithSession(p, _, _, leaf, _) => if p in ls then ls + {leaf} else ls
    case CloseAction(p, leaf) =>
      var k := OwnerOf(st.windows, p, 0);
      if k == -1 then ls else if st.windows[k].root.Leaf? then ls - {p} + {leaf} else ls - {p}
    case _ => ls
  }

  ghost function BindingsAfter(st: State, a: Action): set<(Id, SessionId)>
    requires |st.windows| > 0
  {
    var ls, bs := AllLeaves(st.windows), AllBindings(st.windows);
    match a
    case CloseWindow(id, _, _) =>
      var k := IndexOfWindow(st.windows, id, 0);
      if k == -1 then bs else NotIn(bs, LeafIds(st.windows[k].root))
    case CloseAction(p, _) => NotOn(bs, p)
    case DetachAction(p) => NotOn(bs, p)
    case AssignToPane(p, s) => AssignedBindings(st, p, s)
    case AssignFromSidebar(p, s) =>
      if ShowsRunning(st.windows[ActiveIndex(st)].root, st.sessions) then bs else AssignedBindings(st, p, s)
    case Dive(s) => if Unbound(bs, s) then Moved(bs, st.windows[ActiveIndex(st)].focused, s) else bs
    case SplitWithSession(p, _, s, leaf, _) => if p in ls then NotOf(bs, s) + {(leaf, s)} else bs
    case OpenInPane(p, s, listed) =>
      var k := OwnerOf(st.windows, p, 0);
      if k == -1 then bs
      else
        var target := OpenTarget(st.(sessions := listed), k, p);
        if target.None? then bs else AssignedBindings(st, target.value, s)
    case RefreshSessions(listed) => Listed(bs, listed.Keys)
    case DeleteSession(s) => NotOf(bs, s)
    case _ => bs
  }

  // ---------- one window replaced ----------

  /** Replacing window `k` by a good one that brings only drawn ids, gives up the bindings on `vacated`
      panes and the panes `gone`, and gains the panes `added` and the bindings `extra`. */
  lemma PutWindow(
    st: State, st': State, k: nat, w: Window, drawn: set<Id>, vacated: set<Id>, gone: set<Id>, added: set<Id>,
    extra: set<(Id, SessionId)>)
    requires Distinct(st.windows) && k < |st.windows| && w.id == st.windows[k].id
    requires Good(w.root) && w.focused in LeafIds(w.root)
    requires Ids(w.root) <= Ids(st.windows[k].root) + drawn && drawn !! AllIds(st.windows)
    requires vacated <= Ids(st.windows[k].root) && gone <= LeafIds(st.windows[k].root)
    requires LeafIds(w.root) == LeafIds(st.windows[k].root) - gone + added
    requires Bindings(w.root) == NotIn(Bindings(st.windows[k].root), vacated) + extra
    requires OneHome(NotIn(AllBindings(st.windows), vacated) + extra)
    requires st'.windows == st.windows[k := w]
    requires st'.active == w.id || (st'.active == st.active && HasWindow(st.windows, st.active))
    ensures Becomes(st', AllLeaves(st.windows) - gone + added, NotIn(AllBindings(st.windows), vacated) + extra)
  {
    hide Ids, LeafIds, Bindings, Good, Distinct, AllIds, AllLeaves, AllBindings, OneHome;
    ReplaceDistinct(st.windows, k, w, drawn);
    ReplaceHas(st.windows, k, w, st.active);
    assert st'.windows[k].id == w.id;
    ReplaceLeaves(st.windows, k, w);
    ReplaceBindings(st.windows, k, w, vacated, extra);
    WindowIds(st.windows, k);
    assert AllLeaves(st'.windows) == AllLeaves(st.windows) - gone + added;
  }

  lemma TreeOf(ws: seq<Window>, k: nat)
    requires Distinct(ws) && k < |ws|
    ensures Good(ws[k].root) && ws[k].focused in LeafIds(ws[k].root)
    ensures forall i, j :: 0 <= i < j < |ws| ==> ws[i].id != ws[j].id
  {
  }

  lemma NotInNone(bs: set<(Id, SessionId)>)
    ensures NotIn(bs, {}) == bs && bs + {} == bs
  {
  }

  lemma NotInOne(bs: set<(Id, SessionId)>, p: Id)
    ensures NotIn(bs, {p}) == NotOn(bs, p)
  {
  }

  lemma OneHomeLess(bs: set<(Id, SessionId)>, less: set<(Id, SessionId)>)
    requires OneHome(bs) && less <= bs
    ensures OneHome(less)
  {
  }

  lemma OneHomeMore(bs: set<(Id, SessionId)>, p: Id, s: SessionId)
    requires OneHome(bs) && Unbound(bs, s)
    ensures OneHome(bs + {(p, s)})
  {
  }

  // ---------- actions on one pane ----------

  lemma RefocusBecomes(st: State, k: nat, p: Id)
    requires Sound(st) && k < |st.windows| && p in LeafIds(st.windows[k].root)
    ensures var ws := UpdateWindow(st.windows, st.windows[k].id, Refocus(p));
            Becomes(st.(windows := ws, active := st.windows[k].id), AllLeaves(st.windows), AllBindings(st.windows))
  {
    hide Ids, LeafIds, Bindings, Good, Distinct, AllIds, AllLeaves, AllBindings, OneHome, UpdateWindow;
    TreeOf(st.windows, k);
    UpdateIsReplace(st.windows, k, Refocus(p));
    NotInNone(AllBindings(st.windows));
    NotInNone(Bindings(st.windows[k].root));
    var st' := st.(windows := st.windows[k := Changed(Refocus(p), st.windows[k])], active := st.windows[k].id);
    PutWindow(st, st', k, st.windows[k].(focused := p), {}, {}, {}, {}, {});
    assert AllLeaves(st.windows) - {} + {} == AllLeaves(st.windows);
  }

  lemma SplitBecomes(st: State, k: nat, p: Id, dir: Direction, leafId: Id, splitId: Id)
    requires Sound(st) && k < |st.windows| && p in LeafIds(st.windows[k].root)
    requires leafId !in AllIds(st.windows) && splitId !in AllIds(st.windows) && leafId != splitId
    ensures var root := SplitPane(st.windows[k].root, p, dir, leafId, splitId);
            var ws := UpdateWindow(st.windows, st.windows[k].id, Reroot(root, leafId));
            Becomes(st.(windows := ws, active := st.windows[k].id), AllLeaves(st.windows) + {leafId},
              AllBindings(st.windows))
  {
    hide Ids, LeafIds, Bindings, Good, Distinct, AllIds, AllLeaves, AllBindings, OneHome, UpdateWindow, AddBeside;
    var w := st.windows[k];
    var leaf := Leaf(leafId, EMPTY);
    TreeOf(st.windows, k);
    WindowIds(st.windows, k);
    SplitPaneGrows(w.root, p, dir, leaf, splitId, false);
    OneLeaf(leaf);
    var c := Reroot(SplitPane(w.root, p, dir, leafId, splitId), leafId);
    UpdateIsReplace(st.windows, k, c);
    NotInNone(AllBindings(st.windows));
    NotInNone(Bindings(w.root));
    var st' := st.(windows := st.windows[k := Changed(c, w)], active := w.id);
    PutWindow(st, st', k, Changed(c, w), {leafId, splitId}, {}, {}, {leafId}, {});
    assert AllLeaves(st.windows) - {} + {leafId} == AllLeaves(st.windows) + {leafId};
  }

  lemma CloseBecomes(st: State, st': State, k: nat, p: Id, freshLeaf: Id)
    requires Sound(st) && k < |st.windows| && p in LeafIds(st.windows[k].root) && freshLeaf !in AllIds(st.windows)
    requires Bushy(st.windows[k].root)
    requires var (root, focus) := ClosePane(st.windows[k].root, p, freshLeaf);
             && st'.windows == UpdateWindow(st.windows, st.windows[k].id, Reroot(root, focus))
             && st'.active == st.windows[k].id
    ensures Becomes(st',
                    AllLeaves(st.windows) - {p} + (if st.windows[k].root.Leaf? then {freshLeaf} else {}),
                    NotOn(AllBindings(st.windows), p))
  {
    hide Ids, LeafIds, Bindings, Good, Distinct, AllIds, AllLeaves, AllBindings, OneHome, UpdateWindow, ClosePane,
      NotIn, NotOn;
    var w := st.windows[k];
    TreeOf(st.windows, k);
    ClosePaneShrinks(w.root, p, freshLeaf);
    var r := ClosePane(w.root, p, freshLeaf);
    var c := Reroot(r.0, r.1);
    UpdateIsReplace(st.windows, k, c);
    NotInOne(AllBindings(st.windows), p);
    NotInOne(Bindings(w.root), p);
    NotInSubset(AllBindings(st.windows), {p});
    OneHomeLess(AllBindings(st.windows), NotOn(AllBindings(st.windows), p) + {});
    var added := if w.root.Leaf? then {freshLeaf} else {};
    if w.root.Leaf? { LastPane(w.root, p, freshLeaf); }
    PutWindow(st, st', k, Changed(c, w), added, {p}, {p}, added, {});
    assert NotOn(AllBindings(st.windows), p) + {} == NotOn(AllBindings(st.windows), p);
  }

  lemma NotInSubset(bs: set<(Id, SessionId)>, ids: set<Id>)
    ensures NotIn(bs, ids) <= bs
  {
  }

  lemma LastPane(n: Node, p: Id, freshLeaf: Id)
    requires n.Leaf? && p in LeafIds(n)
    ensures var m := Leaf(freshLeaf, EMPTY);
            && Good(m) && Ids(m) == {freshLeaf} && LeafIds(m) == LeafIds(n) - {p} + {freshLeaf}
            && Bindings(m) == NotOn(Bindings(n), p) == {}
  {
  }

  lemma DetachBecomes(st: State, k: nat, p: Id)
    requires Sound(st) && k < |st.windows| && p in LeafIds(st.windows[k].root)
    ensures Becomes(st.(windows := UpdateWindow(st.windows, st.windows[k].id, Detach(p))),
                    AllLeaves(st.windows), NotOn(AllBindings(st.windows), p))
  {
    hide Ids, LeafIds, Bindings, Good, Distinct, AllIds, AllLeaves, AllBindings, OneHome, UpdateWindow, MapNode,
      NotIn, NotOn;
    var w := st.windows[k];
    TreeOf(st.windows, k);
    BindLeaf(w.root, p, EMPTY);
    UpdateIsReplace(st.windows, k, Detach(p));
    NotInOne(AllBindings(st.windows), p);
    NotInOne(Bindings(w.root), p);
    NotInSubset(AllBindings(st.windows), {p});
    assert NotOn(AllBindings(st.windows), p) + {} == NotOn(AllBindings(st.windows), p);
    OneHomeLess(AllBindings(st.windows), NotOn(AllBindings(st.windows), p) + {});
    var st' := st.(windows := st.windows[k := Changed(Detach(p), w)]);
    PutWindow(st, st', k, Changed(Detach(p), w), {}, {p}, {}, {}, {});
    assert AllLeaves(st.windows) - {} + {} == AllLeaves(st.windows);
  }

  // ---------- actions that move a session ----------

  /** Clearing everywhere first leaves a sound state in which the session is shown nowhere. */
  lemma ClearBecomes(st: State, s: SessionId)
    requires Sound(st)
    ensures var ws := ClearEverywhere(st.windows, s);
            && Becomes(st.(windows := ws), AllLeaves(st.windows), NotOf(AllBindings(st.windows), s))
            && SameFrame(ws, st.windows) && AllIds(ws) == AllIds(st.windows)
  {
    hide Ids, LeafIds, Bindings, Good, Distinct, AllIds, AllLeaves, AllBindings, OneHome, ClearEverywhere, SameFrame,
      HasWindow;
    ClearFrame(st.windows, s);
    FrameKeeps(ClearEverywhere(st.windows, s), st.windows);
    FrameLength(ClearEverywhere(st.windows, s), st.windows);
    OneHomeLess(AllBindings(st.windows), NotOf(AllBindings(st.windows), s));
  }

  lemma FrameLength(ws': seq<Window>, ws: seq<Window>)
    requires SameFrame(ws', ws)
    ensures |ws'| == |ws|
  {
  }

  lemma FrameWindow(ws': seq<Window>, ws: seq<Window>, k: nat)
    requires SameFrame(ws', ws) && k < |ws|
    ensures |ws'| == |ws| && ws'[k].id == ws[k].id && LeafIds(ws'[k].root) == LeafIds(ws[k].root)
  {
  }

  lemma {:induction false} ClearTwice(n: Node, s: SessionId)
    requires Unbound(Bindings(n), s)
    ensures ClearSession(n, s) == n
  {
    if n.Split? {
      forall i | 0 <= i < |n.children| ensures ClearSession(n.children[i], s) == n.children[i] {
        ClearTwice(n.children[i], s);
      }
      assert ClearSession(n, s).children == n.children;
    } else {
      assert n.session == Some(s) ==> (n.id, s) in Bindings(n);
    }
  }

  lemma AssignBecomes(st: State, k: nat, p: Id, s: SessionId)
    requires Sound(st) && k < |st.windows| && p in LeafIds(st.windows[k].root)
    ensures var ws := UpdateWindow(ClearEverywhere(st.windows, s), st.windows[k].id, Assign(p, s));
            Becomes(st.(windows := ws, active := st.windows[k].id), AllLeaves(st.windows),
              Moved(AllBindings(st.windows), p, s))
  {
    hide Ids, LeafIds, Bindings, Good, Distinct, AllIds, AllLeaves, AllBindings, OneHome, UpdateWindow, MapNode,
      ClearEverywhere,
      SameFrame, ClearSession, NotIn, NotOn;
    ClearBecomes(st, s);
    var ws := ClearEverywhere(st.windows, s);
    var bs := NotOf(AllBindings(st.windows), s);
    FrameWindow(ws, st.windows, k);
    var mid := st.(windows := ws);
    var w := ws[k];
    TreeOf(ws, k);
    WindowIds(ws, k);
    ClearTwice(w.root, s);
    BindLeaf(w.root, p, Some(s));
    UpdateIsReplace(ws, k, Assign(p, s));
    NotInOne(bs, p);
    NotInOne(Bindings(w.root), p);
    NotInSubset(bs, {p});
    OneHomeLess(bs, NotOn(bs, p));
    OneHomeMore(NotOn(bs, p), p, s);
    var st' := st.(windows := ws[k := Changed(Assign(p, s), w)], active := w.id);
    PutWindow(mid, st', k, Changed(Assign(p, s), w), {}, {p}, {}, {}, {(p, s)});
    assert AllLeaves(ws) - {} + {} == AllLeaves(ws);
  }

  lemma AssignedBecomes(st: State, p: Id, s: SessionId)
    requires Sound(st)
    ensures Becomes(Assigned(st, p, s), AllLeaves(st.windows), AssignedBindings(st, p, s))
  {
    hide LeafIds, Distinct, AllLeaves, AllBindings, OneHome, UpdateWindow, ClearEverywhere;
    OwnerExact(st.windows, p);
    var k := OwnerOf(st.windows, p, 0);
    if k != -1 { AssignBecomes(st, k, p, s); }
  }

  lemma SplitOffBecomes(st: State, k: nat, p: Id, dir: Direction, before: bool, s: SessionId, leafId: Id, splitId: Id)
    requires Sound(st) && k < |st.windows| && p in LeafIds(st.windows[k].root)
    requires leafId !in AllIds(st.windows) && splitId !in AllIds(st.windows) && leafId != splitId
    requires |ClearEverywhere(st.windows, s)| == |st.windows|
    ensures var ws := ClearEverywhere(st.windows, s);
            var root := SplitPaneWithSession(ws[k].root, p, dir, s, before, leafId, splitId);
            var ws' := UpdateWindow(ws, st.windows[k].id, Reroot(root, leafId));
            Becomes(st.(windows := ws', active := st.windows[k].id),
                    AllLeaves(st.windows) + {leafId}, NotOf(AllBindings(st.windows), s) + {(leafId, s)})
  {
    hide Ids, LeafIds, Bindings, Good, Distinct, AllIds, AllLeaves, AllBindings, OneHome, UpdateWindow, AddBeside,
      ClearEverywhere,
      SameFrame, ClearSession, NotIn;
    ClearBecomes(st, s);
    var ws := ClearEverywhere(st.windows, s);
    var bs := NotOf(AllBindings(st.windows), s);
    FrameWindow(ws, st.windows, k);
    var mid := st.(windows := ws);
    var w := ws[k];
    var leaf := Leaf(leafId, Some(s));
    TreeOf(ws, k);
    WindowIds(ws, k);
    ClearTwice(w.root, s);
    SplitPaneGrows(w.root, p, dir, leaf, splitId, before);
    OneLeaf(leaf);
    var c := Reroot(SplitPaneWithSession(w.root, p, dir, s, before, leafId, splitId), leafId);
    UpdateIsReplace(ws, k, c);
    NotInNone(bs);
    NotInNone(Bindings(w.root));
    OneHomeMore(bs, leafId, s);
    var st' := st.(windows := ws[k := Changed(c, w)], active := w.id);
    PutWindow(mid, st', k, Changed(c, w), {leafId, splitId}, {}, {}, {leafId}, {(leafId, s)});
    assert AllLeaves(ws) - {} + {leafId} == AllLeaves(ws) + {leafId};
  }

  lemma IndexKept(ws': seq<Window>, ws: seq<Window>, k: nat)
    requires SameFrame(ws', ws) && Distinct(ws) && k < |ws|
    ensures IndexOfWindow(ws', ws[k].id, 0) == k
  {
    hide Ids, LeafIds, Good;
  }

  lemma SplitWithSessionBecomes(st: State, a: Action)
    requires Sound(st) && a.SplitWithSession? && Fresh(st, a)
    ensures Becomes(SplitOff(st, a.pane, a.edge, a.session, a.leafId, a.splitId), LeavesAfter(st, a),
            BindingsAfter(st, a))
  {
    hide Ids, LeafIds, Distinct, AllLeaves, AllBindings, AllIds, OneHome, UpdateWindow, ClearEverywhere,
      SplitPaneWithSession, SameFrame;
    OwnerExact(st.windows, a.pane);
    var k := OwnerOf(st.windows, a.pane, 0);
    if k != -1 {
      ClearBecomes(st, a.session);
      FrameWindow(ClearEverywhere(st.windows, a.session), st.windows, k);
      IndexKept(ClearEverywhere(st.windows, a.session), st.windows, k);
      SplitOffBecomes(st, k, a.pane, EdgeDirection(a.edge), EdgeBefore(a.edge), a.session, a.leafId, a.splitId);
    }
  }

  lemma BindingOwner(ws: seq<Window>, k: nat, b: (Id, SessionId))
    requires k < |ws| && b in Bindings(ws[k].root)
    ensures b in AllBindings(ws) && b.0 in LeafIds(ws[k].root) && b.0 in AllLeaves(ws)
  {
  }

  lemma ShownNowhere(ws: seq<Window>, s: SessionId)
    requires forall j, b :: 0 <= j < |ws| && b in Bindings(ws[j].root) ==> b.1 != s
    ensures Unbound(AllBindings(ws), s)
  {
  }

  lemma FocusedIsLeaf(st: State)
    requires Sound(st)
    ensures st.windows[ActiveIndex(st)].focused in LeafIds(st.windows[ActiveIndex(st)].root)
    ensures st.windows[ActiveIndex(st)].focused in AllLeaves(st.windows)
    ensures st.windows[ActiveIndex(st)].id == st.active
  {
  }

  lemma DiveBecomes(st: State, s: SessionId)
    requires Sound(st) && forall i :: 0 <= i < |st.windows| ==> Bushy(st.windows[i].root)
    ensures Becomes(Step(st, Dive(s)), LeavesAfter(st, Dive(s)), BindingsAfter(st, Dive(s)))
  {
    hide Ids, LeafIds, Bindings, Distinct, AllLeaves, AllBindings, OneHome, UpdateWindow, ClearEverywhere;
    var hit := WindowOfSession(st.windows, s, 0);
    if hit.Some? {
      BindingOwner(st.windows, hit.value.0, (hit.value.1, s));
      RefocusBecomes(st, hit.value.0, hit.value.1);
    } else {
      ShownNowhere(st.windows, s);
      FocusedIsLeaf(st);
      AssignedBecomes(st, st.windows[ActiveIndex(st)].focused, s);
    }
  }

  // ---------- actions on windows ----------

  lemma AddWindowBecomes(st: State, id: WindowId, leaf: Id)
    requires Sound(st) && !HasWindow(st.windows, id) && leaf !in AllIds(st.windows)
    ensures Becomes(st.(windows := st.windows + [FreshWindow(id, leaf)], active := id),
            AllLeaves(st.windows) + {leaf}, AllBindings(st.windows))
  {
    AddDistinct(st.windows, id, leaf);
    AddSets(st.windows, id, leaf);
    var ws := st.windows + [FreshWindow(id, leaf)];
    assert ws[|st.windows|].id == id;
  }

  lemma AddDistinct(ws: seq<Window>, id: WindowId, leaf: Id)
    requires Distinct(ws) && !HasWindow(ws, id) && leaf !in AllIds(ws)
    ensures Distinct(ws + [FreshWindow(id, leaf)])
  {
    hide Ids, LeafIds, Good;
    var w := FreshWindow(id, leaf);
    LastPane(w.root, leaf, leaf) by { OneLeaf(w.root); }
    var ws' := ws + [w];
    forall i, j | 0 <= i < j < |ws'| ensures Ids(ws'[i].root) !! Ids(ws'[j].root) {
      if j == |ws| { WindowIds(ws, i); }
    }
  }

  lemma AddSets(ws: seq<Window>, id: WindowId, leaf: Id)
    ensures var ws' := ws + [FreshWindow(id, leaf)];
            AllLeaves(ws') == AllLeaves(ws) + {leaf} && AllBindings(ws') == AllBindings(ws)
  {
    hide LeafIds, Bindings;
    var w := FreshWindow(id, leaf);
    OneLeaf(w.root);
    var ws' := ws + [w];
    assert ws'[|ws|] == w && forall i :: 0 <= i < |ws| ==> ws'[i] == ws[i];
    forall x ensures x in AllLeaves(ws') <==> x in AllLeaves(ws) + {leaf} {
      if x in AllLeaves(ws) { var i :| 0 <= i < |ws| && x in LeafIds(ws[i].root); assert x in LeafIds(ws'[i].root); }
      if x == leaf { assert x in LeafIds(ws'[|ws|].root); }
    }
    forall b ensures b in AllBindings(ws') <==> b in AllBindings(ws) {
      if b in AllBindings(ws) {
        var i :| 0 <= i < |ws| && b in Bindings(ws[i].root);
        assert b in Bindings(ws'[i].root);
      }
    }
  }

  lemma CloseWindowBecomes(st: State, a: Action)
    requires Sound(st) && a.CloseWindow? && Fresh(st, a)
    requires forall i :: 0 <= i < |st.windows| ==> Bushy(st.windows[i].root)
    ensures Becomes(Step(st, a), LeavesAfter(st, a), BindingsAfter(st, a))
  {
    hide Ids, LeafIds, Bindings, Distinct, AllLeaves, AllBindings, OneHome, AllIds;
    var ws := st.windows;
    var k := IndexOfWindow(ws, a.windowId, 0);
    if k != -1 {
      NotInSubset(AllBindings(ws), LeafIds(ws[k].root));
      OneHomeLess(AllBindings(ws), NotIn(AllBindings(ws), LeafIds(ws[k].root)));
      DropLeaves(ws, k);
      DropBindings(ws, k);
      if |ws| == 1 {
        OnlyWindow(ws, a.freshId, a.freshLeaf);
      } else {
        DropSelects(ws, k);
        SelectDistinct(Drop(ws, k), ws, DropPlan(|ws|, k));
        DropActive(st, k);
      }
    }
  }

  lemma OnlyWindow(ws: seq<Window>, id: WindowId, leaf: Id)
    requires |ws| == 1 && Distinct(ws)
    ensures var ws' := [FreshWindow(id, leaf)];
            && Distinct(ws') && HasWindow(ws', id) && AllLeaves(ws') == {leaf}
            && AllBindings(ws') == {} == NotIn(AllBindings(ws), LeafIds(ws[0].root))
  {
    var ws' := [FreshWindow(id, leaf)];
    assert ws'[0].id == id;
    OneLeaf(ws'[0].root);
    assert AllLeaves(ws') == LeafIds(ws'[0].root);
    assert AllBindings(ws') == Bindings(ws'[0].root);
    assert AllBindings(ws) == Bindings(ws[0].root);
  }

  /** Whichever window becomes active is one that stays. */
  lemma DropActive(st: State, k: nat)
    requires k < |st.windows| && |st.windows| > 1 && HasWindow(st.windows, st.active)
    ensures var rest := Drop(st.windows, k);
            HasWindow(rest, if st.windows[k].id != st.active then st.active else rest[if k > 0 then k - 1 else 0].id)
  {
    var rest := Drop(st.windows, k);
    if st.windows[k].id != st.active {
      var i :| 0 <= i < |st.windows| && st.windows[i].id == st.active;
      assert rest[if i < k then i else i - 1] == st.windows[i];
    }
  }

  lemma ReorderBecomes(st: State, id: WindowId, toIndex: int)
    requires Sound(st)
    ensures Becomes(st.(windows := ReorderWindow(st.windows, id, toIndex)), AllLeaves(st.windows),
            AllBindings(st.windows))
  {
    hide Distinct, AllLeaves, AllBindings, OneHome;
    var ws := st.windows;
    var from, to := IndexOfWindow(ws, id, 0), Clamped(toIndex, |ws|);
    if from != -1 && from != to {
      ReorderSelects(ws, from, to);
      SelectDistinct(ReorderWindow(ws, id, toIndex), ws, MovePlan(|ws|, from, to));
      SameWindows(ws, from, to);
      SelectAllSets(ReorderWindow(ws, id, toIndex), ws);
    }
  }

  lemma SameWindows(ws: seq<Window>, from: nat, to: nat)
    requires from < |ws| && to < |ws|
    ensures var rest := Drop(ws, from); forall w :: w in rest[..to] + [ws[from]] + rest[to..] <==> w in ws
  {
    var rest := Drop(ws, from);
    assert rest == rest[..to] + rest[to..];
    assert ws == ws[..from] + [ws[from]] + ws[from + 1..];
    forall w ensures w in rest[..to] + [ws[from]] + rest[to..] <==> w in ws {
      assert w in rest <==> w in rest[..to] || w in rest[to..];
      assert w in rest <==> w in ws[..from] || w in ws[from + 1..];
      assert w in ws <==> w in ws[..from] || w == ws[from] || w in ws[from + 1..];
    }
  }

  // ---------- every action ----------

  lemma TreesBushy(st: State)
    requires Sound(st)
    ensures forall i :: 0 <= i < |st.windows| ==> Bushy(st.windows[i].root)
  {
  }

  lemma FrameBecomes(st: State, ws: seq<Window>, bs: set<(Id, SessionId)>)
    requires Sound(st) && SameFrame(ws, st.windows) && AllBindings(ws) == bs && bs <= AllBindings(st.windows)
    ensures Becomes(st.(windows := ws), AllLeaves(st.windows), bs)
  {
    hide Distinct, AllLeaves, AllBindings, SameFrame, HasWindow;
    FrameKeeps(ws, st.windows);
    FrameLength(ws, st.windows);
    OneHomeLess(AllBindings(st.windows), bs);
  }

  lemma AbsentPane(ws: seq<Window>, p: Id)
    requires p !in AllLeaves(ws)
    ensures NotOn(AllBindings(ws), p) == AllBindings(ws)
  {
    forall b | b in AllBindings(ws) ensures b.0 != p {
      var i :| 0 <= i < |ws| && b in Bindings(ws[i].root);
      BindingOwner(ws, i, b);
    }
  }

  lemma PaneActionBecomes(st: State, a: Action)
    requires Sound(st) && Fresh(st, a) && forall i :: 0 <= i < |st.windows| ==> Bushy(st.windows[i].root)
    requires a.FocusPane? || a.SplitAction? || a.CloseAction? || a.DetachAction?
    ensures Becomes(Step(st, a), LeavesAfter(st, a), BindingsAfter(st, a))
  {
    hide Ids, LeafIds, Bindings, Distinct, AllLeaves, AllBindings, OneHome, AllIds, UpdateWindow, SplitPane,
      ClosePane, NotOn;
    OwnerExact(st.windows, a.pane);
    var k := OwnerOf(st.windows, a.pane, 0);
    if k == -1 {
      AbsentPane(st.windows, a.pane);
    } else {
      match a
      case FocusPane(p) => RefocusBecomes(st, k, p);
      case SplitAction(p, dir, leafId, splitId) => SplitBecomes(st, k, p, dir, leafId, splitId);
      case CloseAction(p, freshLeaf) =>
        CloseBecomes(st, Step(st, a), k, p, freshLeaf);
        assert AllLeaves(st.windows) - {p} + {} == AllLeaves(st.windows) - {p};
      case DetachAction(p) => DetachBecomes(st, k, p);
    }
  }

  lemma ListedSubset(bs: set<(Id, SessionId)>, known: set<SessionId>, s: SessionId)
    ensures Listed(bs, known) <= bs && NotOf(bs, s) <= bs
  {
  }

  lemma SessionActionBecomes(st: State, a: Action)
    requires Sound(st) && forall i :: 0 <= i < |st.windows| ==> Bushy(st.windows[i].root)
    requires || a.LayoutAction? || a.RefreshSessions? || a.DeleteSession?
             || a.CloseSession? || a.OpenInPane? || a.AssignFromSidebar?
    ensures Becomes(Step(st, a), LeavesAfter(st, a), BindingsAfter(st, a))
  {
    hide Distinct, AllLeaves, AllBindings, OneHome, SameFrame, HasWindow, UpdateWindow, ClearEverywhere,
      RetainEverywhere,
      LayoutEverywhere, Listed, NotOf, ShowsRunning, AssignedBindings;
    match a
    case LayoutAction(splitId, layout) =>
      LayoutFrame(st.windows, splitId, layout);
      FrameBecomes(st, LayoutEverywhere(st.windows, splitId, layout), AllBindings(st.windows));
    case RefreshSessions(listed) =>
      RetainFrame(st.windows, listed.Keys);
      ListedSubset(AllBindings(st.windows), listed.Keys, 0);
      FrameBecomes(st, RetainEverywhere(st.windows, listed.Keys), Listed(AllBindings(st.windows), listed.Keys));
    case DeleteSession(s) => ClearBecomes(st, s);
    case OpenInPane(p, s, listed) =>
      var st1 := st.(sessions := listed);
      var k := OwnerOf(st1.windows, p, 0);
      if k != -1 && OpenTarget(st1, k, p).Some? { AssignedAgain(st, st1, OpenTarget(st1, k, p).value, s); }
    case AssignFromSidebar(p, s) => AssignedBecomes(st, p, s);
    case CloseSession(_) =>
  }

  lemma AssignedAgain(st: State, st1: State, p: Id, s: SessionId)
    requires Sound(st) && st1.windows == st.windows && st1.active == st.active
    ensures Becomes(Assigned(st1, p, s), AllLeaves(st.windows), AssignedBindings(st, p, s))
  {
    AssignedBecomes(st1, p, s);
  }

  /** Every action keeps the invariant, and its effect on the panes and on what they show is the abstract
      one. */
  lemma StepMeaning(st: State, a: Action)
    requires Sound(st) && Fresh(st, a)
    ensures forall i :: 0 <= i < |st.windows| ==> Bushy(st.windows[i].root)
    ensures Becomes(Step(st, a), LeavesAfter(st, a), BindingsAfter(st, a))
  {
    hide Distinct, AllLeaves, AllBindings, AllIds, OneHome, HasWindow, UpdateWindow, ClearEverywhere, AssignedBindings;
    TreesBushy(st);
    match a
    case AddWindow(id, leaf) => AddWindowBecomes(st, id, leaf);
    case CloseWindow(_, _, _) => CloseWindowBecomes(st, a);
    case SetActiveWindow(id) => ActiveNamed(st.windows, id);
    case ReorderTo(id, toIndex) => ReorderBecomes(st, id, toIndex);
    case FocusPane(_) => PaneActionBecomes(st, a);
    case SplitAction(_, _, _, _) => PaneActionBecomes(st, a);
    case CloseAction(_, _) => PaneActionBecomes(st, a);
    case DetachAction(_) => PaneActionBecomes(st, a);
    case ReloadPane(_) =>
    case AssignToPane(p, s) => AssignedBecomes(st, p, s);
    case Dive(s) => DiveBecomes(st, s);
    case SplitWithSession(_, _, _, _, _) => SplitWithSessionBecomes(st, a);
    case _ => SessionActionBecomes(st, a);
  }

  lemma ActiveNamed(ws: seq<Window>, id: WindowId)
    ensures HasWindow(ws, id) <==> IndexOfWindow(ws, id, 0) != -1
  {
  }

  // ---------- runs ----------

  ghost predicate Shaped(st: State) {
    |st.windows| > 0 && forall i :: 0 <= i < |st.windows| ==> Bushy(st.windows[i].root)
  }

  /** `end` can be reached by these actions, each drawing ids that are new when it runs. From a state in
      which an action makes no sense, anything could be reached. */
  ghost predicate Runs(st: State, acts: seq<Action>, end: State)
    decreases |acts|
  {
    if acts == [] then end == st
    else Fresh(st, acts[0]) && (Shaped(st) ==> Runs(Step(st, acts[0]), acts[1..], end))
  }

  /** From any sound workspace, every sequence of actions leads to a sound workspace. */
  lemma {:induction false} AlwaysSound(st: State, acts: seq<Action>, end: State)
    requires Sound(st) && Runs(st, acts, end)
    ensures Sound(end)
    decreases |acts|
  {
    if acts != [] {
      StepMeaning(st, acts[0]);
      AlwaysSound(Step(st, acts[0]), acts[1..], end);
    }
  }

  /** No reload counter outlives its pane. */
  ghost predicate Tidy(st: State) { st.reloads.Keys <= AllLeaves(st.windows) }

  /** Only reloading a pane that does not exist leaves a stale counter behind. */
  lemma TidyIff(st: State, a: Action)
    requires Sound(st) && Fresh(st, a) && Tidy(st) && Shaped(st)
    ensures Tidy(Step(st, a)) <==> !(a.ReloadPane? && a.pane !in AllLeaves(st.windows))
  {
    hide Distinct, AllBindings, AllIds, AllLeaves, OneHome, HasWindow, UpdateWindow, ClearEverywhere,
      RetainEverywhere, LayoutEverywhere,
      Sound, LeafIds, ShowsRunning, BindingsAfter;
    StepMeaning(st, a);
    PaneGone(st, a);
    if a.CloseWindow? && |st.windows| == 1 { OneWindowLeaves(st.windows); }
  }

  lemma OneWindowLeaves(ws: seq<Window>)
    requires |ws| == 1
    ensures AllLeaves(ws) == LeafIds(ws[0].root)
  {
  }

  lemma PaneGone(st: State, a: Action)
    requires Sound(st)
    ensures a.CloseAction? ==> (OwnerOf(st.windows, a.pane, 0) == -1 <==> a.pane !in AllLeaves(st.windows))
  {
    if a.CloseAction? { OwnerExact(st.windows, a.pane); }
  }

  // ---------- what the actions are for ----------

  lemma ActiveIs(ws: seq<Window>, k: nat, c: Change, st: State)
    requires k < |ws| && (forall i, j :: 0 <= i < j < |ws| ==> ws[i].id != ws[j].id)
    requires st.windows == UpdateWindow(ws, ws[k].id, c) && st.active == ws[k].id
    ensures |st.windows| == |ws| && ActiveIndex(st) == k && st.windows[k] == Changed(c, ws[k])
  {
    hide Changed;
    UpdateIsReplace(ws, k, c);
    ChangedId(c, ws[k]);
    assert forall j :: 0 <= j < |ws| ==> st.windows[j].id == ws[j].id;
  }

  lemma ChangedId(c: Change, w: Window)
    ensures Changed(c, w).id == w.id
  {
  }

  /** After a dive the session is shown by the focused pane of the active window. */
  lemma DiveShows(st: State, s: SessionId)
    requires Sound(st) && Shaped(st)
    ensures var end := Step(st, Dive(s));
            Sound(end) && (end.windows[ActiveIndex(end)].focused, s) in AllBindings(end.windows)
  {
    hide Distinct, AllBindings, AllLeaves, AllIds, OneHome, UpdateWindow, ClearEverywhere, Bindings, LeafIds, SameFrame;
    var end := Step(st, Dive(s));
    StepMeaning(st, Dive(s));
    TreeOf(st.windows, 0);
    var hit := WindowOfSession(st.windows, s, 0);
    if hit.Some? {
      BindingOwner(st.windows, hit.value.0, (hit.value.1, s));
      ActiveIs(st.windows, hit.value.0, Refocus(hit.value.1), end);
    } else {
      FocusedIsLeaf(st);
      ShownNowhere(st.windows, s);
      var f := st.windows[ActiveIndex(st)].focused;
      OwnerExact(st.windows, f);
      var k := OwnerOf(st.windows, f, 0);
      ClearBecomes(st, s);
      var cleared := ClearEverywhere(st.windows, s);
      FrameWindow(cleared, st.windows, k);
      TreeOf(cleared, k);
      ActiveIs(cleared, k, Assign(f, s), end);
    }
  }

  lemma {:induction false} EmptyIsEmpty(n: Node)
    requires Unique(n)
    ensures var e := FirstEmpty(n);
            e.Some? ==> e.value in LeafIds(n) && forall b :: b in Bindings(n) ==> b.0 != e.value
    decreases n, 0
  {
    if n.Split? { EmptyScan(n, 0); }
  }

  lemma {:induction false} EmptyScan(n: Node, i: nat)
    requires Unique(n) && n.Split? && i <= |n.children|
    ensures var e := ScanForEmpty(n, i);
            e.Some? ==> e.value in LeafIds(n) && forall b :: b in Bindings(n) ==> b.0 != e.value
    decreases n, 0, |n.children| - i
  {
    if i < |n.children| {
      var c := n.children[i];
      EmptyIsEmpty(c);
      EmptyScan(n, i + 1);
      if FirstEmpty(c).Some? {
        var e := FirstEmpty(c).value;
        forall b | b in Bindings(n) ensures b.0 != e {
          if b.0 == e { BindingWhere(n, i, b); }
        }
      }
    }
  }

  lemma BindingHome(ws: seq<Window>, k: nat, b: (Id, SessionId))
    requires Distinct(ws) && k < |ws| && b in AllBindings(ws) && b.0 in LeafIds(ws[k].root)
    ensures b in Bindings(ws[k].root)
  {
    var i :| 0 <= i < |ws| && b in Bindings(ws[i].root);
    LeafElsewhere(ws, k, i, b.0);
  }

  /** The pane chosen for a new shell shows no running session. */
  lemma TargetIsFree(st: State, p: Id, b: (Id, SessionId))
    requires Sound(st) && b in AllBindings(st.windows) && b.1 in st.sessions && st.sessions[b.1]
    ensures var k := OwnerOf(st.windows, p, 0); k != -1 ==> OpenTarget(st, k, p) != Some(b.0)
  {
    hide Ids, LeafIds, Bindings, AllBindings, OneHome, FindLeaf, FirstEmpty, AllLeaves;
    OwnerExact(st.windows, p);
    var k := OwnerOf(st.windows, p, 0);
    if k != -1 {
      TreeOf(st.windows, k);
      FindLeafExact(st.windows[k].root, p);
      EmptyIsEmpty(st.windows[k].root);
      var t := OpenTarget(st, k, p);
      if t == Some(b.0) { BindingHome(st.windows, k, b); }
    }
  }

  /** Opening a new shell never takes a pane away from a running session. */
  lemma OpenKeepsRunning(st: State, p: Id, s: SessionId, listed: map<SessionId, bool>, b: (Id, SessionId))
    requires Sound(st) && Shaped(st) && Unbound(AllBindings(st.windows), s)
    requires b in AllBindings(st.windows) && b.1 in listed && listed[b.1]
    ensures b in AllBindings(Step(st, OpenInPane(p, s, listed)).windows)
  {
    hide AllBindings, AllLeaves, AllIds, UpdateWindow, ClearEverywhere, OpenTarget;
    StepMeaning(st, OpenInPane(p, s, listed));
    TargetIsFree(st.(sessions := listed), p, b);
  }

  /** Closing the pane a split made puts the workspace back, with that window active and the pane that was
      split focused. */
  lemma StoreCloseUndoesSplit(st: State, p: Id, dir: Direction, leafId: Id, splitId: Id, freshId: Id)
    requires Sound(st) && Shaped(st) && Fresh(st, SplitAction(p, dir, leafId, splitId)) && p in AllLeaves(st.windows)
    ensures var k, mid := OwnerOf(st.windows, p, 0), Step(st, SplitAction(p, dir, leafId, splitId));
            && Shaped(mid) && k != -1
            && var end := Step(mid, CloseAction(leafId, freshId));
               end.windows == st.windows[k := st.windows[k].(focused := p)] && end.active == st.windows[k].id
  {
    hide AllBindings, AllLeaves, AllIds, UpdateWindow, LeafIds, Ids, Bindings, OneHome, ClosePane, SplitPane;
    OwnerExact(st.windows, p);
    var k := OwnerOf(st.windows, p, 0);
    var mid := Step(st, SplitAction(p, dir, leafId, splitId));
    StepMeaning(st, SplitAction(p, dir, leafId, splitId));
    TreesBushy(mid);
    WindowIds(st.windows, k);
    CloseUndoesSplit(st.windows[k].root, p, dir, leafId, splitId, freshId);
    var c := Reroot(SplitPane(st.windows[k].root, p, dir, leafId, splitId), leafId);
    ActiveIs(st.windows, k, c, mid);
    UpdateIsReplace(st.windows, k, c);
    OwnerExact(mid.windows, leafId);
    TreeOf(mid.windows, k);
    WindowIds(mid.windows, k);
    var k' := OwnerOf(mid.windows, leafId, 0);
    LeafInIds(mid.windows[k].root, leafId);
    LeafElsewhere(mid.windows, k, k', leafId);
    UpdateIsReplace(mid.windows, k, Reroot(st.windows[k].root, p));
  }
}
