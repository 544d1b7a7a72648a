/** What every action leaves in each window, node by node and in what order, and in the counters and the list of
    sessions. Together with the panes and bindings of WorkspaceRuns this is the whole state. */
module WorkspaceTrees {
  import opened Basics
  import opened PaneTree
  import opened PaneSplitClose
  import opened PaneBindings
  import PaneSplitShape
  import opened Workspace
  import opened WorkspaceInvariant
  import opened WorkspaceRuns

  // ---------- one tree ----------

  /** `m` is `n` with the new leaf drawn right before or right after the pane in every layout, under a new split
      exactly when the pane was in none of that direction; without the leaf it is `n` again. */
  ghost predicate SplitShown(n: Node, m: Node, dir: Direction, p: Id, leaf: Node, splitId: Id, before: bool) {
    && Good(m) && p in Ids(m) && leaf.id in Ids(m)
    && PaneSplitShape.DrawnBeside(m, dir, if before then leaf.id else p, if before then p else leaf.id)
    && (splitId in Ids(m) <==> PaneSplitShape.Alone(n, p, dir))
    && (PaneSplitShape.Alone(n, p, dir) ==> PaneSplitShape.HasPair(m, splitId, dir, p, leaf, before))
    && RemoveLeaf(m, leaf.id).root == n
  }

  lemma ShowsSplit(n: Node, p: Id, dir: Direction, leaf: Node, splitId: Id, before: bool)
    requires Good(n) && p in LeafIds(n)
    requires leaf.Leaf? && leaf.id !in Ids(n) && splitId !in Ids(n) && splitId != leaf.id
    ensures SplitShown(n, AddBeside(n, p, dir, leaf, splitId, before), dir, p, leaf, splitId, before)
  {
    hide Ids, LeafIds, AddBeside, SplitAt, RemoveLeaf, Unique, Bushy, PaneSplitShape.DrawnBeside, PaneSplitShape.Alone,
      PaneSplitShape.HasPair;
    PaneSplitShape.SplitDraws(n, p, dir, leaf, splitId, before);
    AddBesideIsSplitAt(n, p, dir, leaf, splitId, before);
    RemoveUndoesSplit(n, p, dir, leaf, splitId, before);
  }

  /** The side of the pane a session is dropped on. */
  ghost predicate DroppedAt(n: Node, m: Node, e: Edge, p: Id, leaf: Node, splitId: Id) {
    match e
    case Left => SplitShown(n, m, Horizontal, p, leaf, splitId, true)
    case Right => SplitShown(n, m, Horizontal, p, leaf, splitId, false)
    case Top => SplitShown(n, m, Vertical, p, leaf, splitId, true)
    case Bottom => SplitShown(n, m, Vertical, p, leaf, splitId, false)
  }

  /** The tree of the window that holds the pane: a split shows the new leaf, a close shortens the pane's parent
      or leaves a fresh leaf alone, and nothing else moves a node. */
  ghost predicate TreeAfter(a: Action, n: Node, m: Node) {
    match a
    case SplitAction(p, dir, leafId, splitId) => SplitShown(n, m, dir, p, Leaf(leafId, None), splitId, false)
    case SplitWithSession(p, e, s, leafId, splitId) =>
      DroppedAt(ClearSession(n, s), m, e, p, Leaf(leafId, Some(s)), splitId)
    case CloseAction(p, freshLeaf) =>
      if n.Leaf? then m == Leaf(freshLeaf, None)
      else
        && FindParent(n, p).Some?
        && var q := FindParent(n, p).value;
           m == MapNode(n, q.id, Become(PaneSplitShape.Shortened(q, IndexOf(q.children, p, 0))))
    case _ => SameTree(m, n)
  }

  // ---------- every window ----------

  /** The window of this pane changes as the action means; every other keeps its focus and its tree, up to
      sessions if the action takes one away from it. */
  ghost predicate OneWindow(a: Action, p: Id, clears: bool, ws': seq<Window>, ws: seq<Window>) {
    && |ws'| == |ws|
    && forall i :: 0 <= i < |ws| ==>
         && ws'[i].id == ws[i].id
         && (p in LeafIds(ws[i].root) ==> TreeAfter(a, ws[i].root, ws'[i].root))
         && (p !in LeafIds(ws[i].root) && !clears ==> ws'[i] == ws[i])
         && (p !in LeafIds(ws[i].root) ==> ws'[i].focused == ws[i].focused && SameTree(ws'[i].root, ws[i].root))
  }

  /** Every window keeps its place, its focus and its tree, up to sessions. */
  ghost predicate SameTrees(ws': seq<Window>, ws: seq<Window>) {
    && |ws'| == |ws|
    && forall i :: 0 <= i < |ws| ==>
         ws'[i].id == ws[i].id && ws'[i].focused == ws[i].focused && SameTree(ws'[i].root, ws[i].root)
  }

  /** The list of windows. */
  ghost predicate WindowsAfter(st: State, a: Action, ws': seq<Window>)
    requires Shaped(st)
  {
    var ws := st.windows;
    match a
    case AddWindow(w, leaf) => ws' == ws + [Window(w, Leaf(leaf, None), leaf)]
    case CloseWindow(w, f, leaf) =>
      if !HasWindow(ws, w) then ws' == ws
      else if |ws| == 1 then ws' == [Window(f, Leaf(leaf, None), leaf)]
      else exists k :: 0 <= k < |ws| && ws[k].id == w && ws' == ws[..k] + ws[k + 1..]
    case ReorderTo(w, toIndex) =>
      if !HasWindow(ws, w) then ws' == ws
      else
        var to := if toIndex < 0 then 0 else if toIndex >= |ws| then |ws| - 1 else toIndex;
        && |ws'| == |ws| && ws'[to].id == w
        && exists k :: 0 <= k < |ws| && ws'[to] == ws[k] && ws'[..to] + ws'[to + 1..] == ws[..k] + ws[k + 1..]
    case FocusPane(p) => OneWindow(a, p, false, ws', ws)
    case SplitAction(p, _, _, _) => OneWindow(a, p, false, ws', ws)
    case CloseAction(p, _) => OneWindow(a, p, false, ws', ws)
    case DetachAction(p) => OneWindow(a, p, false, ws', ws)
    case SplitWithSession(p, _, _, _, _) =>
      if p in AllLeaves(ws) then OneWindow(a, p, true, ws', ws) else ws' == ws
    case LayoutAction(q, layout) =>
      && |ws'| == |ws|
      && forall i :: 0 <= i < |ws| ==>
           ws'[i].id == ws[i].id && ws'[i].focused == ws[i].focused && Relaid(ws'[i].root, ws[i].root, q, layout)
    case AssignToPane(p, _) => if p in AllLeaves(ws) then OneWindow(a, p, true, ws', ws) else ws' == ws
    case AssignFromSidebar(p, _) =>
      if p in AllLeaves(ws) && !ShowsRunning(ws[ActiveIndex(st)].root, st.sessions) then OneWindow(a, p, true, ws', ws)
      else ws' == ws
    case Dive(s) =>
      if Unbound(AllBindings(ws), s) then OneWindow(a, ws[ActiveIndex(st)].focused, true, ws', ws)
      else exists p :: (p, s) in AllBindings(ws) && OneWindow(a, p, false, ws', ws)
    case OpenInPane(p, _, listed) =>
      var k := OwnerOf(ws, p, 0);
      if k == -1 || OpenTarget(st.(sessions := listed), k, p).None? then ws' == ws
      else
        var target := OpenTarget(st.(sessions := listed), k, p).value;
        if target in AllLeaves(ws) then OneWindow(a, target, true, ws', ws) else ws' == ws
    case RefreshSessions(_) => SameTrees(ws', ws)
    case DeleteSession(_) => SameTrees(ws', ws)
    case SetActiveWindow(_) => ws' == ws
    case ReloadPane(_) => ws' == ws
    case CloseSession(_) => ws' == ws
  }

  /** The reload counters: a reload counts one more for its pane, and a counter goes with its pane. */
  ghost predicate CountersAfter(st: State, a: Action, r: map<Id, nat>) {
    match a
    case ReloadPane(p) => r == st.reloads[p := if p in st.reloads then st.reloads[p] + 1 else 1]
    case CloseAction(p, _) => r == if p in AllLeaves(st.windows) then st.reloads - {p} else st.reloads
    case CloseWindow(w, _, _) =>
      if !HasWindow(st.windows, w) then r == st.reloads
      else exists k :: 0 <= k < |st.windows| && st.windows[k].id == w && r == st.reloads - LeafIds(st.windows[k].root)
    case _ => r == st.reloads
  }

  /** The sessions listed, and which of them run. */
  ghost predicate SessionsAfter(st: State, a: Action, r: map<SessionId, bool>) {
    match a
    case OpenInPane(_, _, listed) => r == listed
    case RefreshSessions(listed) => r == listed
    case CloseSession(s) =>
      r.Keys == st.sessions.Keys && forall x :: x in r ==> r[x] == (x != s && st.sessions[x])
    case DeleteSession(s) =>
      r.Keys == st.sessions.Keys - {s} && forall x :: x in r ==> r[x] == st.sessions[x]
    case _ => r == st.sessions
  }

  // ---------- one window replaced ----------

  lemma UpdateOthers(a: Action, ws: seq<Window>, k: nat, c: Change, p: Id, clears: bool, mid: seq<Window>)
    requires Distinct(ws) && Distinct(mid) && k < |ws| && p in LeafIds(ws[k].root) && SameTrees(mid, ws)
    requires !clears ==> mid == ws
    requires TreeAfter(a, ws[k].root, Changed(c, mid[k]).root)
    ensures OneWindow(a, p, clears, UpdateWindow(mid, ws[k].id, c), ws)
  {
    hide Distinct, LeafIds, TreeAfter, Changed, UpdateWindow, SameTree;
    TreeOf(mid, k);
    UpdateIsReplace(mid, k, c);
    ChangedId(c, mid[k]);
    forall i | 0 <= i < |ws| && p in LeafIds(ws[i].root) ensures i == k { OnlyHome(ws, k, i, p); }
  }

  lemma OnlyHome(ws: seq<Window>, k: nat, i: nat, p: Id)
    requires Distinct(ws) && k < |ws| && i < |ws| && p in LeafIds(ws[i].root) && p in LeafIds(ws[k].root)
    ensures i == k
  {
    hide Distinct;
    LeafElsewhere(ws, k, i, p);
  }

  lemma NotShown(a: Action, ws: seq<Window>, p: Id, clears: bool)
    requires p !in AllLeaves(ws)
    ensures OneWindow(a, p, clears, ws, ws)
  {
    hide LeafIds, SameTree, TreeAfter;
    forall i | 0 <= i < |ws| ensures SameTree(ws[i].root, ws[i].root) && p !in LeafIds(ws[i].root) {
      SameItself(ws[i].root);
    }
  }

  lemma SelfTrees(ws: seq<Window>)
    ensures SameTrees(ws, ws)
  {
    hide SameTree;
    forall i | 0 <= i < |ws| ensures SameTree(ws[i].root, ws[i].root) { SameItself(ws[i].root); }
  }

  lemma ClearTrees(ws: seq<Window>, s: SessionId)
    ensures SameTrees(ClearEverywhere(ws, s), ws)
  {
    hide SameTree, ClearSession;
    forall i | 0 <= i < |ws| ensures SameTree(ClearSession(ws[i].root, s), ws[i].root) {
      ClearSameTree(ws[i].root, s);
    }
  }

  lemma {:induction false} SameTrans(l: Node, m: Node, n: Node)
    requires SameTree(l, m) && SameTree(m, n)
    ensures SameTree(l, n)
  {
    if n.Split? {
      forall i | 0 <= i < |n.children| ensures SameTree(l.children[i], n.children[i]) {
        SameTrans(l.children[i], m.children[i], n.children[i]);
      }
    }
  }

  // ---------- actions on one pane ----------

  lemma PaneActionTrees(st: State, a: Action)
    requires Sound(st) && Shaped(st) && Fresh(st, a)
    requires a.FocusPane? || a.SplitAction? || a.CloseAction? || a.DetachAction?
    ensures WindowsAfter(st, a, Step(st, a).windows)
    ensures CountersAfter(st, a, Step(st, a).reloads)
  {
    hide Distinct, LeafIds, Ids, AllIds, AllLeaves, AllBindings, OneHome, UpdateWindow, OneWindow, TreeAfter, SplitPane,
      ClosePane, DetachPane, Good, Changed, SameTrees, Bushy;
    OwnerExact(st.windows, a.pane);
    var ws := st.windows;
    var k := OwnerOf(ws, a.pane, 0);
    if k == -1 {
      NotShown(a, ws, a.pane, false);
    } else {
      TreeOf(ws, k);
      WindowIds(ws, k);
      SelfTrees(ws);
      TreeOfPane(a, ws[k]);
      UpdateOthers(a, ws, k, PaneChange(a, ws[k].root), a.pane, false, ws);
    }
  }

  function PaneChange(a: Action, n: Node): Change
    requires Bushy(n)
    requires a.FocusPane? || a.SplitAction? || a.CloseAction? || a.DetachAction?
  {
    if a.FocusPane? then Refocus(a.pane)
    else if a.SplitAction? then Reroot(SplitPane(n, a.pane, a.dir, a.leafId, a.splitId), a.leafId)
    else if a.CloseAction? then Reroot(ClosePane(n, a.pane, a.freshLeaf).0, ClosePane(n, a.pane, a.freshLeaf).1)
    else Detach(a.pane)
  }

  lemma TreeOfPane(a: Action, w: Window)
    requires a.FocusPane? || a.SplitAction? || a.CloseAction? || a.DetachAction?
    requires Good(w.root) && a.pane in LeafIds(w.root)
    requires a.SplitAction? ==> a.leafId !in Ids(w.root) && a.splitId !in Ids(w.root) && a.leafId != a.splitId
    ensures TreeAfter(a, w.root, Changed(PaneChange(a, w.root), w).root)
  {
    hide Ids, LeafIds, AddBeside, SplitShown, SameTree, MapNode, FindParent, ClosePane, PaneSplitShape.Shortened;
    match a
    case FocusPane(_) => SameItself(w.root);
    case SplitAction(p, dir, leafId, splitId) => ShowsSplit(w.root, p, dir, Leaf(leafId, EMPTY), splitId, false);
    case CloseAction(p, freshLeaf) => ClosedTree(w.root, p, freshLeaf);
    case DetachAction(p) => BindSameTree(w.root, p, EMPTY);
  }

  lemma ClosedTree(n: Node, p: Id, freshLeaf: Id)
    requires Good(n) && p in LeafIds(n)
    ensures TreeAfter(CloseAction(p, freshLeaf), n, ClosePane(n, p, freshLeaf).0)
  {
    hide Ids, LeafIds, MapNode, FindParent, RemoveLeaf, PaneSplitShape.Shortened;
    if n.Leaf? {
      OnlyLeaf(n, p);
    } else {
      LeafHasHolder(n, p);
      LeafInIds(n, p);
      PaneSplitShape.RemoveAtParent(n, p);
    }
  }

  // ---------- actions that move a session ----------

  predicate Assigns(a: Action) { a.AssignToPane? || a.AssignFromSidebar? || a.Dive? || a.OpenInPane? }

  lemma AssignedTree(n: Node, p: Id, s: SessionId)
    ensures SameTree(AssignSession(ClearSession(n, s), p, s), n)
  {
    hide MapNode, ClearSession, SameTree;
    var c := ClearSession(n, s);
    ClearSameTree(n, s);
    ClearSameTree(c, s);
    BindSameTree(ClearSession(c, s), p, Some(s));
    SameTrans(ClearSession(c, s), c, n);
    SameTrans(AssignSession(c, p, s), ClearSession(c, s), n);
  }

  lemma AssignedTrees(a: Action, st: State, p: Id, s: SessionId)
    requires Sound(st) && Assigns(a)
    ensures var st' := Assigned(st, p, s);
            if p in AllLeaves(st.windows) then OneWindow(a, p, true, st'.windows, st.windows)
            else st'.windows == st.windows
  {
    hide Distinct, LeafIds, Ids, AllLeaves, AllBindings, OneHome, UpdateWindow, OneWindow, SameTrees, ClearEverywhere,
      AssignSession, SameTree;
    OwnerExact(st.windows, p);
    var k := OwnerOf(st.windows, p, 0);
    if k != -1 {
      ClearedWindow(st, s, k);
      var mid := ClearEverywhere(st.windows, s);
      AssignedTree(st.windows[k].root, p, s);
      UpdateOthers(a, st.windows, k, Assign(p, s), p, true, mid);
    }
  }

  lemma ClearedWindow(st: State, s: SessionId, k: nat)
    requires Sound(st) && k < |st.windows|
    ensures var mid := ClearEverywhere(st.windows, s);
            && Distinct(mid) && SameTrees(mid, st.windows)
            && mid[k] == st.windows[k].(root := ClearSession(st.windows[k].root, s))
            && IndexOfWindow(mid, st.windows[k].id, 0) == k
  {
    hide Distinct, LeafIds, Ids, AllLeaves, AllBindings, OneHome, SameTree, SameFrame, ClearSession;
    ClearBecomes(st, s);
    ClearTrees(st.windows, s);
    IndexKept(ClearEverywhere(st.windows, s), st.windows, k);
  }

  lemma DroppedTree(n: Node, a: Action)
    requires a.SplitWithSession? && Good(n) && a.pane in LeafIds(n)
    requires a.leafId !in Ids(n) && a.splitId !in Ids(n) && a.leafId != a.splitId
    ensures var c := ClearSession(n, a.session);
            TreeAfter(a, n, SplitPaneWithSession(
              c, a.pane, EdgeDirection(a.edge), a.session, EdgeBefore(a.edge), a.leafId, a.splitId))
  {
    hide Ids, LeafIds, AddBeside, SplitShown, ClearSession, Bindings;
    var c := ClearSession(n, a.session);
    ClearKeepsShape(n, a.session);
    ClearBindings(n, a.session);
    ClearTwice(c, a.session) by { NoneOf(Bindings(n), a.session); }
    ShowsSplit(c, a.pane, EdgeDirection(a.edge), Leaf(a.leafId, Some(a.session)), a.splitId, EdgeBefore(a.edge));
  }

  lemma NoneOf(bs: set<(Id, SessionId)>, s: SessionId)
    ensures Unbound(NotOf(bs, s), s)
  {
  }

  lemma SplitOffTrees(st: State, a: Action)
    requires Sound(st) && a.SplitWithSession? && Fresh(st, a)
    ensures var st' := SplitOff(st, a.pane, a.edge, a.session, a.leafId, a.splitId);
            if a.pane in AllLeaves(st.windows) then OneWindow(a, a.pane, true, st'.windows, st.windows)
            else st'.windows == st.windows
  {
    hide Distinct, LeafIds, Ids, AllIds, AllLeaves, AllBindings, OneHome, UpdateWindow, OneWindow, SameTrees,
      ClearEverywhere, SplitPaneWithSession, TreeAfter, EdgeDirection, EdgeBefore, Good;
    var ws := st.windows;
    OwnerExact(ws, a.pane);
    var k := OwnerOf(ws, a.pane, 0);
    if k != -1 {
      ClearedWindow(st, a.session, k);
      TreeOf(ws, k);
      WindowIds(ws, k);
      DroppedTree(ws[k].root, a);
      var mid := ClearEverywhere(ws, a.session);
      var root := SplitPaneWithSession(
        mid[k].root, a.pane, EdgeDirection(a.edge), a.session, EdgeBefore(a.edge), a.leafId, a.splitId);
      UpdateOthers(a, ws, k, Reroot(root, a.leafId), a.pane, true, mid);
    }
  }

  lemma DiveTrees(st: State, s: SessionId)
    requires Sound(st) && Shaped(st)
    ensures WindowsAfter(st, Dive(s), Step(st, Dive(s)).windows)
    ensures Step(st, Dive(s)).reloads == st.reloads && Step(st, Dive(s)).sessions == st.sessions
  {
    hide Distinct, LeafIds, Ids, AllLeaves, AllBindings, OneHome, UpdateWindow, OneWindow, SameTrees, Assigned,
      Bindings;
    var hit, ws := WindowOfSession(st.windows, s, 0), st.windows;
    if hit.Some? {
      var k, p := hit.value.0, hit.value.1;
      BindingOwner(ws, k, (p, s));
      SelfTrees(ws);
      SameItself(ws[k].root);
      UpdateOthers(Dive(s), ws, k, Refocus(p), p, false, ws);
    } else {
      ShownNowhere(ws, s);
      FocusedIsLeaf(st);
      AssignedTrees(Dive(s), st, ws[ActiveIndex(st)].focused, s);
      AssignedKeeps(st, ws[ActiveIndex(st)].focused, s);
    }
  }

  lemma OpenTrees(st: State, a: Action)
    requires Sound(st) && Shaped(st) && a.OpenInPane?
    ensures WindowsAfter(st, a, Step(st, a).windows)
    ensures Step(st, a).reloads == st.reloads && Step(st, a).sessions == a.listed
  {
    hide Distinct, LeafIds, AllLeaves, AllBindings, OneHome, OneWindow, Assigned, OpenTarget, Bushy;
    var st1 := st.(sessions := a.listed);
    var k := OwnerOf(st.windows, a.pane, 0);
    if k != -1 && OpenTarget(st1, k, a.pane).Some? {
      AssignedTrees(a, st1, OpenTarget(st1, k, a.pane).value, a.session);
      AssignedKeeps(st1, OpenTarget(st1, k, a.pane).value, a.session);
    }
  }

  // ---------- actions on windows ----------

  lemma CloseWindowTrees(st: State, a: Action)
    requires Sound(st) && Shaped(st) && a.CloseWindow?
    ensures WindowsAfter(st, a, Step(st, a).windows) && CountersAfter(st, a, Step(st, a).reloads)
  {
    hide Distinct, LeafIds, AllLeaves, AllBindings, OneHome, Bushy, HasWindow;
    ActiveNamed(st.windows, a.windowId);
    var k := IndexOfWindow(st.windows, a.windowId, 0);
    if k != -1 { assert st.windows[k].id == a.windowId; }
  }

  lemma ReorderTrees(st: State, a: Action)
    requires Sound(st) && Shaped(st) && a.ReorderTo?
    ensures WindowsAfter(st, a, Step(st, a).windows)
  {
    hide Distinct, LeafIds, AllLeaves, AllBindings, OneHome, Bushy, HasWindow, ReorderWindow;
    ActiveNamed(st.windows, a.windowId);
    if HasWindow(st.windows, a.windowId) {
      ReorderMoves(st.windows, a.windowId, a.toIndex);
    } else {
      NothingMoves(st.windows, a.windowId, a.toIndex);
    }
  }

  lemma NothingMoves(ws: seq<Window>, id: WindowId, toIndex: int)
    requires IndexOfWindow(ws, id, 0) == -1
    ensures ReorderWindow(ws, id, toIndex) == ws
  {
  }

  // ---------- actions on every window ----------

  lemma {:induction false} RetainSameTree(n: Node, known: set<SessionId>)
    ensures SameTree(RetainKnown(n, known), n)
  {
    if n.Split? {
      forall i | 0 <= i < |n.children| ensures SameTree(RetainKnown(n.children[i], known), n.children[i]) {
        RetainSameTree(n.children[i], known);
      }
    }
  }

  lemma RetainTrees(ws: seq<Window>, known: set<SessionId>)
    ensures SameTrees(RetainEverywhere(ws, known), ws)
  {
    hide SameTree, RetainKnown;
    forall i | 0 <= i < |ws| ensures SameTree(RetainKnown(ws[i].root, known), ws[i].root) {
      RetainSameTree(ws[i].root, known);
    }
  }

  lemma LayoutTrees(st: State, a: Action)
    requires Sound(st) && Shaped(st) && a.LayoutAction?
    ensures WindowsAfter(st, a, Step(st, a).windows)
  {
    hide SetSplitLayout, Relaid, Ids, LeafIds, AllBindings, OneHome, Bushy;
    forall i | 0 <= i < |st.windows|
      ensures Relaid(SetSplitLayout(st.windows[i].root, a.splitId, a.layout), st.windows[i].root, a.splitId, a.layout)
    {
      LayoutRecorded(st.windows[i].root, a.splitId, a.layout);
    }
  }

  // ---------- every action ----------

  /** Every action: each window's tree and place, the counters, and the list of sessions. */
  ghost predicate Arranged(st: State, a: Action, st': State)
    requires Shaped(st)
  {
    && WindowsAfter(st, a, st'.windows)
    && CountersAfter(st, a, st'.reloads)
    && SessionsAfter(st, a, st'.sessions)
  }

  lemma StepTrees(st: State, a: Action)
    requires Sound(st) && Shaped(st) && Fresh(st, a)
    ensures Arranged(st, a, Step(st, a))
  {
    hide Sound, Shaped, Fresh, WindowsAfter, CountersAfter, SessionsAfter, Step;
    StepWindows(st, a);
    StepCounters(st, a);
    StepSessions(st, a);
  }

  lemma StepWindows(st: State, a: Action)
    requires Sound(st) && Shaped(st) && Fresh(st, a)
    ensures WindowsAfter(st, a, Step(st, a).windows)
  {
    hide Distinct, LeafIds, AllLeaves, AllBindings, OneHome, OneWindow, SameTrees, Bushy, ShowsRunning, ClearEverywhere,
      RetainEverywhere, UpdateWindow, ReorderWindow, RemoveWindow, OpenTarget, SplitOff, Assigned, Relaid,
      CountersAfter, SessionsAfter;
    match a
    case AddWindow(_, _) =>
    case CloseWindow(_, _, _) => CloseWindowTrees(st, a);
    case ReorderTo(_, _) => ReorderTrees(st, a);
    case SetActiveWindow(_) =>
    case FocusPane(_) => PaneActionTrees(st, a);
    case SplitAction(_, _, _, _) => PaneActionTrees(st, a);
    case CloseAction(_, _) => PaneActionTrees(st, a);
    case DetachAction(_) => PaneActionTrees(st, a);
    case ReloadPane(_) =>
    case LayoutAction(_, _) => LayoutTrees(st, a);
    case AssignToPane(p, s) => AssignedTrees(a, st, p, s);
    case AssignFromSidebar(p, s) => AssignedTrees(a, st, p, s);
    case Dive(s) => DiveTrees(st, s);
    case SplitWithSession(_, _, _, _, _) => SplitOffTrees(st, a);
    case OpenInPane(_, _, _) => OpenTrees(st, a);
    case RefreshSessions(listed) => RetainTrees(st.windows, listed.Keys);
    case CloseSession(_) =>
    case DeleteSession(s) => ClearTrees(st.windows, s);
  }

  lemma AssignedKeeps(st: State, p: Id, s: SessionId)
    ensures Assigned(st, p, s).reloads == st.reloads && Assigned(st, p, s).sessions == st.sessions
  {
  }

  lemma SplitOffKeeps(st: State, p: Id, e: Edge, s: SessionId, leafId: Id, splitId: Id)
    ensures var st' := SplitOff(st, p, e, s, leafId, splitId); st'.reloads == st.reloads && st'.sessions == st.sessions
  {
  }

  lemma StepCounters(st: State, a: Action)
    requires Sound(st) && Shaped(st) && Fresh(st, a)
    ensures CountersAfter(st, a, Step(st, a).reloads)
  {
    hide Distinct, LeafIds, AllLeaves, AllBindings, OneHome, Bushy, ShowsRunning, ClearEverywhere, RetainEverywhere,
      UpdateWindow, ReorderWindow, OpenTarget, SplitOff, Assigned, LayoutEverywhere, WindowsAfter;
    match a
    case CloseWindow(_, _, _) => CloseWindowTrees(st, a);
    case CloseAction(_, _) => PaneActionTrees(st, a);
    case AssignToPane(p, s) => AssignedKeeps(st, p, s);
    case AssignFromSidebar(p, s) => AssignedKeeps(st, p, s);
    case Dive(s) => DiveTrees(st, s);
    case SplitWithSession(p, e, s, leafId, splitId) => SplitOffKeeps(st, p, e, s, leafId, splitId);
    case OpenInPane(_, _, _) => OpenTrees(st, a);
    case _ =>
  }

  lemma StepSessions(st: State, a: Action)
    requires Sound(st) && Shaped(st)
    ensures SessionsAfter(st, a, Step(st, a).sessions)
  {
    hide Distinct, LeafIds, AllLeaves, AllBindings, OneHome, Bushy, ShowsRunning, ClearEverywhere, RetainEverywhere,
      UpdateWindow, ReorderWindow, OpenTarget, SplitOff, Assigned, LayoutEverywhere, WindowsAfter;
    match a
    case AssignToPane(p, s) => AssignedKeeps(st, p, s);
    case AssignFromSidebar(p, s) => AssignedKeeps(st, p, s);
    case Dive(s) => DiveTrees(st, s);
    case SplitWithSession(p, e, s, leafId, splitId) => SplitOffKeeps(st, p, e, s, leafId, splitId);
    case OpenInPane(_, _, _) => OpenTrees(st, a);
    case _ =>
  }

  // ---------- where a new shell goes ----------

  ghost predicate BoundIn(bs: set<(Id, SessionId)>, x: Id) { exists b :: b in bs && b.0 == x }

  ghost predicate RunsIn(bs: set<(Id, SessionId)>, sessions: map<SessionId, bool>) {
    exists b :: b in bs && b.1 in sessions && sessions[b.1]
  }

  /** The first of these panes without a session. */
  ghost function FirstFree(xs: seq<Id>, bs: set<(Id, SessionId)>): Option<Id> {
    if xs == [] then None else if BoundIn(bs, xs[0]) then FirstFree(xs[1..], bs) else Some(xs[0])
  }

  /** A tree shows a running session if one of its bindings is to a session that is listed as running. */
  lemma {:induction false} RunningIff(n: Node, sessions: map<SessionId, bool>)
    ensures ShowsRunning(n, sessions) <==> RunsIn(Bindings(n), sessions)
  {
    if n.Leaf? {
      assert n.session.Some? ==> (n.id, n.session.value) in Bindings(n);
    } else {
      forall i | 0 <= i < |n.children|
        ensures ShowsRunning(n.children[i], sessions) <==> RunsIn(Bindings(n.children[i]), sessions)
      {
        RunningIff(n.children[i], sessions);
      }
      if b :| b in Bindings(n) && b.1 in sessions && sessions[b.1] {
        var i :| 0 <= i < |n.children| && b in Bindings(n.children[i]);
        assert RunsIn(Bindings(n.children[i]), sessions);
      }
    }
  }

  lemma {:induction false} FreeConcat(xs: seq<Id>, ys: seq<Id>, bs: set<(Id, SessionId)>)
    ensures FirstFree(xs + ys, bs) == if FirstFree(xs, bs).Some? then FirstFree(xs, bs) else FirstFree(ys, bs)
  {
    hide BoundIn;
    if xs == [] {
      assert xs + ys == ys;
    } else {
      assert (xs + ys)[1..] == xs[1..] + ys;
      FreeConcat(xs[1..], ys, bs);
    }
  }

  lemma {:induction false} FreeAlike(xs: seq<Id>, bs: set<(Id, SessionId)>, cs: set<(Id, SessionId)>)
    requires forall x :: x in xs ==> (BoundIn(bs, x) <==> BoundIn(cs, x))
    ensures FirstFree(xs, bs) == FirstFree(xs, cs)
  {
    hide BoundIn;
    if xs != [] { FreeAlike(xs[1..], bs, cs); }
  }

  lemma BoundBelow(n: Node, k: nat, x: Id)
    requires Unique(n) && n.Split? && k < |n.children| && x in OrderedLeaves(n.children[k])
    ensures BoundIn(Bindings(n), x) <==> BoundIn(Bindings(n.children[k]), x)
  {
    hide OrderedLeaves;
    OrderedMembers(n.children[k], x);
    if b :| b in Bindings(n) && b.0 == x { BindingWhere(n, k, b); }
    if b :| b in Bindings(n.children[k]) && b.0 == x { assert b in Bindings(n); }
  }

  /** The pane found is the first without a session in the visual order. */
  lemma {:induction false} FirstEmptyIs(n: Node)
    requires Unique(n)
    ensures FirstEmpty(n) == FirstFree(OrderedLeaves(n), Bindings(n))
    decreases n, 0
  {
    if n.Leaf? {
      LeafFree(n);
    } else {
      ScanEmptyIs(n, 0);
      assert n.children[0..] == n.children;
    }
  }

  lemma LeafFree(n: Node)
    requires n.Leaf?
    ensures FirstEmpty(n) == FirstFree(OrderedLeaves(n), Bindings(n))
  {
    assert n.session.Some? ==> (n.id, n.session.value) in Bindings(n);
    assert OrderedLeaves(n)[1..] == [];
    assert FirstFree([], Bindings(n)) == None;
  }

  lemma {:induction false} ScanEmptyIs(n: Node, i: nat)
    requires Unique(n) && n.Split? && i <= |n.children|
    ensures ScanForEmpty(n, i) == FirstFree(OrderedLeavesOf(n.children[i..]), Bindings(n))
    decreases n, 0, |n.children| - i
  {
    hide BoundIn, Bindings, OrderedLeaves, Ids;
    if i < |n.children| {
      var c, rest := n.children[i], n.children[i..];
      FirstEmptyIs(c);
      ScanEmptyIs(n, i + 1);
      assert rest[0] == c && rest[1..] == n.children[i + 1..];
      forall x | x in OrderedLeaves(c) ensures BoundIn(Bindings(n), x) <==> BoundIn(Bindings(c), x) {
        BoundBelow(n, i, x);
      }
      FreeAlike(OrderedLeaves(c), Bindings(n), Bindings(c));
      FreeConcat(OrderedLeaves(c), OrderedLeavesOf(rest[1..]), Bindings(n));
    }
  }

  /** A new shell goes to the pane, unless the session it shows runs; then to the first pane of its window, in the
      visual order, that shows nothing. */
  lemma OpenTargetIs(st: State, k: nat, p: Id)
    requires Sound(st) && k < |st.windows| && p in LeafIds(st.windows[k].root)
    ensures var root := st.windows[k].root;
            var runs := exists b :: b in Bindings(root) && b.0 == p && b.1 in st.sessions && st.sessions[b.1];
            OpenTarget(st, k, p) == if runs then FirstFree(OrderedLeaves(root), Bindings(root)) else Some(p)
  {
    hide LeafIds, Ids, AllBindings, OneHome, FirstEmpty, FirstFree, FindLeaf, ShowsRunning, OrderedLeaves;
    TreeOf(st.windows, k);
    var root := st.windows[k].root;
    FindLeafExact(root, p);
    FirstEmptyIs(root);
    RunningIff(FindLeaf(root, p).value, st.sessions);
    FoundIs(root, p);
  }

  lemma FoundIs(n: Node, p: Id)
    ensures FindLeaf(n, p).Some? ==> FindLeaf(n, p).value.id == p
  {
  }
}
