/** What the user sees move: after every action, which window is active and which pane each window focuses. */
module WorkspaceView {
  import opened PaneTree
  import opened Workspace
  import opened WorkspaceInvariant
  import opened WorkspaceRuns
  import WorkspaceTrees

  /** Window `id` has its focus on pane `p`. */
  ghost predicate Focuses(ws: seq<Window>, id: WindowId, p: Id) {
    exists i :: 0 <= i < |ws| && ws[i].id == id && ws[i].focused == p
  }

  /** Window `id` holds pane `p`. */
  ghost predicate Owns(ws: seq<Window>, id: WindowId, p: Id) {
    exists i :: 0 <= i < |ws| && ws[i].id == id && p in LeafIds(ws[i].root)
  }

  /** Every window but these keeps its focus, and none but these comes or goes. */
  ghost predicate KeepsFocus(ws': seq<Window>, ws: seq<Window>, except: set<WindowId>) {
    forall id, p :: id !in except ==> (Focuses(ws', id, p) <==> Focuses(ws, id, p))
  }

  /** Nothing moves. */
  ghost predicate Still(st: State, st': State) {
    st'.active == st.active && KeepsFocus(st'.windows, st.windows, {})
  }

  /** The window of pane `p` comes to the front with its focus on `f`, and no other window's focus moves; an
      unknown pane changes nothing. */
  ghost predicate Raises(st: State, p: Id, f: Id, st': State) {
    if p in AllLeaves(st.windows)
    then && Owns(st.windows, st'.active, p)
         && Focuses(st'.windows, st'.active, f)
         && KeepsFocus(st'.windows, st.windows, {st'.active})
    else Still(st, st')
  }

  /** Who is next when the active window closes: the left neighbour, else the new first one. */
  ghost predicate NextActive(st: State, w: WindowId, spare: WindowId, st': State) {
    var k := IndexOfWindow(st.windows, w, 0);
    if k == -1 || (|st.windows| > 1 && st.active != w) then st'.active == st.active
    else if |st.windows| == 1 then st'.active == spare
    else st'.active == st.windows[if k > 0 then k - 1 else 1].id
  }

  ghost predicate Seen(st: State, a: Action, st': State)
    requires Shaped(st)
  {
    match a
    case AddWindow(w, leaf) =>
      st'.active == w && Focuses(st'.windows, w, leaf) && KeepsFocus(st'.windows, st.windows, {w})
    case CloseWindow(w, f, _) => NextActive(st, w, f, st') && KeepsFocus(st'.windows, st.windows, {w, f})
    case SetActiveWindow(w) =>
      && st'.active == (if HasWindow(st.windows, w) then w else st.active)
      && KeepsFocus(st'.windows, st.windows, {})
    case FocusPane(p) => Raises(st, p, p, st')
    case SplitAction(p, _, leaf, _) => Raises(st, p, leaf, st')
    case CloseAction(p, freshLeaf) =>
      var k := OwnerOf(st.windows, p, 0);
      if k == -1 then Still(st, st') else Raises(st, p, ClosePane(st.windows[k].root, p, freshLeaf).1, st')
    case DetachAction(p) =>
      && st'.active == st.active
      && (p in AllLeaves(st.windows) ==>
            exists w :: Owns(st.windows, w, p) && Focuses(st'.windows, w, p)
              && KeepsFocus(st'.windows, st.windows, {w}))
      && (p !in AllLeaves(st.windows) ==> Still(st, st'))
    case AssignToPane(p, _) => Raises(st, p, p, st')
    case AssignFromSidebar(p, _) =>
      if ShowsRunning(st.windows[ActiveIndex(st)].root, st.sessions) then Still(st, st') else Raises(st, p, p, st')
    case Dive(s) =>
      if Unbound(AllBindings(st.windows), s) then
        var f := st.windows[ActiveIndex(st)].focused;
        Raises(st, f, f, st')
      else exists f :: (f, s) in AllBindings(st.windows) && Raises(st, f, f, st')
    case SplitWithSession(p, _, _, leaf, _) => Raises(st, p, leaf, st')
    case OpenInPane(p, _, listed) =>
      var k := OwnerOf(st.windows, p, 0);
      if k == -1 || OpenTarget(st.(sessions := listed), k, p).None? then Still(st, st')
      else
        var f := OpenTarget(st.(sessions := listed), k, p).value;
        Raises(st, f, f, st')
    case _ => Still(st, st')
  }

  // ---------- focus under the window operations ----------

  lemma FocusReplaced(ws: seq<Window>, k: nat, w: Window)
    requires k < |ws| && w.id == ws[k].id && forall i, j :: 0 <= i < j < |ws| ==> ws[i].id != ws[j].id
    ensures Focuses(ws[k := w], w.id, w.focused) && KeepsFocus(ws[k := w], ws, {w.id})
  {
    var ws' := ws[k := w];
    assert ws'[k].id == w.id && ws'[k].focused == w.focused;
    forall id, p | id != w.id ensures Focuses(ws', id, p) <==> Focuses(ws, id, p) {
      if i :| 0 <= i < |ws| && ws[i].id == id && ws[i].focused == p { assert ws'[i] == ws[i]; }
      if i :| 0 <= i < |ws'| && ws'[i].id == id && ws'[i].focused == p { assert ws'[i] == ws[i]; }
    }
  }

  lemma FocusFramed(ws': seq<Window>, ws: seq<Window>)
    requires SameFrame(ws', ws)
    ensures KeepsFocus(ws', ws, {})
  {
    hide Good, Ids, LeafIds;
    forall id, p ensures Focuses(ws', id, p) <==> Focuses(ws, id, p) {
      if i :| 0 <= i < |ws| && ws[i].id == id && ws[i].focused == p { assert ws'[i].id == id && ws'[i].focused == p; }
    }
  }

  lemma FocusMembers(ws': seq<Window>, ws: seq<Window>)
    requires forall w :: w in ws' ==> w in ws
    ensures forall id, p :: Focuses(ws', id, p) ==> Focuses(ws, id, p)
  {
    forall id, p | Focuses(ws', id, p) ensures Focuses(ws, id, p) {
      var i :| 0 <= i < |ws'| && ws'[i].id == id && ws'[i].focused == p;
      assert ws'[i] in ws;
      var j :| 0 <= j < |ws| && ws[j] == ws'[i];
    }
  }

  // ---------- pane actions ----------

  /** A window updated after the workspace was edited without moving any focus. */
  lemma UpdateRaises(st: State, k: nat, p: Id, c: Change, mid: seq<Window>, st': State)
    requires Sound(st) && k < |st.windows| && p in LeafIds(st.windows[k].root)
    requires Distinct(mid) && SameFrame(mid, st.windows)
    requires st'.windows == UpdateWindow(mid, st.windows[k].id, c) && st'.active == st.windows[k].id
    ensures Raises(st, p, Changed(c, mid[k]).focused, st')
  {
    hide Distinct, LeafIds, Ids, Good, AllBindings, OneHome, Changed, KeepsFocus, UpdateWindow, SameFrame;
    UpdateMoves(st.windows, k, c, mid);
    LeafShown(st.windows, k, p);
  }

  lemma LeafShown(ws: seq<Window>, k: nat, p: Id)
    requires k < |ws| && p in LeafIds(ws[k].root)
    ensures p in AllLeaves(ws) && Owns(ws, ws[k].id, p)
  {
  }

  lemma UpdateMoves(ws: seq<Window>, k: nat, c: Change, mid: seq<Window>)
    requires k < |ws| && Distinct(mid) && SameFrame(mid, ws)
    ensures |mid| == |ws| && mid[k].id == ws[k].id
    ensures var ws' := UpdateWindow(mid, ws[k].id, c);
            && Focuses(ws', ws[k].id, Changed(c, mid[k]).focused)
            && KeepsFocus(ws', ws, {ws[k].id})
  {
    hide Distinct, Changed, UpdateWindow, Focuses, SameFrame;
    FrameWindow(mid, ws, k);
    TreeOf(mid, k);
    UpdateIsReplace(mid, k, c);
    ChangedId(c, mid[k]);
    FocusReplaced(mid, k, Changed(c, mid[k]));
    FocusFramed(mid, ws);
  }

  lemma SelfFrame(ws: seq<Window>)
    requires Distinct(ws)
    ensures SameFrame(ws, ws)
  {
  }

  lemma StillItself(st: State, st': State)
    requires st'.active == st.active && st'.windows == st.windows
    ensures Still(st, st')
  {
  }

  lemma AssignedRaises(st: State, p: Id, s: SessionId)
    requires Sound(st)
    ensures Raises(st, p, p, Assigned(st, p, s))
  {
    hide Distinct, LeafIds, AllLeaves, AllBindings, OneHome, ClearEverywhere, UpdateWindow, SameFrame, Focuses, Owns,
      KeepsFocus;
    OwnerExact(st.windows, p);
    var k := OwnerOf(st.windows, p, 0);
    if k == -1 {
      StillItself(st, st);
    } else {
      ClearBecomes(st, s);
      FrameWindow(ClearEverywhere(st.windows, s), st.windows, k);
      UpdateRaises(st, k, p, Assign(p, s), ClearEverywhere(st.windows, s), Assigned(st, p, s));
    }
  }

  lemma PaneActionSeen(st: State, a: Action)
    requires Sound(st) && Shaped(st)
    requires a.FocusPane? || a.SplitAction? || a.CloseAction? || a.DetachAction?
    ensures Seen(st, a, Step(st, a))
  {
    hide Distinct, LeafIds, AllLeaves, AllBindings, OneHome, UpdateWindow, SameFrame, Focuses, Owns, KeepsFocus,
      SplitPane, ClosePane;
    OwnerExact(st.windows, a.pane);
    SelfFrame(st.windows);
    var k, st' := OwnerOf(st.windows, a.pane, 0), Step(st, a);
    if k == -1 {
      StillItself(st, st');
    } else {
      match a
      case FocusPane(p) => UpdateRaises(st, k, p, Refocus(p), st.windows, st');
      case SplitAction(p, dir, leafId, splitId) =>
        var root := SplitPane(st.windows[k].root, p, dir, leafId, splitId);
        UpdateRaises(st, k, p, Reroot(root, leafId), st.windows, st');
      case CloseAction(p, freshLeaf) =>
        var (root, focus) := ClosePane(st.windows[k].root, p, freshLeaf);
        UpdateRaises(st, k, p, Reroot(root, focus), st.windows, st');
      case DetachAction(p) =>
        UpdateMoves(st.windows, k, Detach(p), st.windows);
        LeafShown(st.windows, k, p);
    }
  }

  lemma SplitOffSeen(st: State, a: Action)
    requires Sound(st) && Shaped(st) && a.SplitWithSession?
    ensures Seen(st, a, Step(st, a))
  {
    hide Distinct, LeafIds, AllLeaves, AllBindings, OneHome, UpdateWindow, SameFrame, Focuses, Owns, KeepsFocus,
      ClearEverywhere,
      SplitPaneWithSession;
    OwnerExact(st.windows, a.pane);
    var k, st' := OwnerOf(st.windows, a.pane, 0), Step(st, a);
    if k == -1 {
      StillItself(st, st');
    } else {
      var mid := ClearEverywhere(st.windows, a.session);
      ClearBecomes(st, a.session);
      FrameWindow(mid, st.windows, k);
      IndexKept(mid, st.windows, k);
      var root := SplitPaneWithSession(
        mid[k].root, a.pane, EdgeDirection(a.edge), a.session, EdgeBefore(a.edge), a.leafId, a.splitId);
      UpdateRaises(st, k, a.pane, Reroot(root, a.leafId), mid, st');
    }
  }

  lemma DiveSeen(st: State, s: SessionId)
    requires Sound(st) && Shaped(st)
    ensures Seen(st, Dive(s), Step(st, Dive(s)))
  {
    hide Distinct, LeafIds, AllLeaves, AllBindings, OneHome, UpdateWindow, SameFrame, Focuses, Owns, KeepsFocus,
      Bindings, ClearEverywhere;
    var hit, st' := WindowOfSession(st.windows, s, 0), Step(st, Dive(s));
    if hit.Some? {
      var k, f := hit.value.0, hit.value.1;
      BindingOwner(st.windows, k, (f, s));
      SelfFrame(st.windows);
      UpdateRaises(st, k, f, Refocus(f), st.windows, st');
    } else {
      ShownNowhere(st.windows, s);
      AssignedRaises(st, st.windows[ActiveIndex(st)].focused, s);
    }
  }

  lemma OpenSeen(st: State, a: Action)
    requires Sound(st) && Shaped(st) && a.OpenInPane?
    ensures Seen(st, a, Step(st, a))
  {
    hide Distinct, LeafIds, AllLeaves, AllBindings, OneHome, UpdateWindow, Focuses, Owns, KeepsFocus,
      ClearEverywhere, OpenTarget;
    var st1, st' := st.(sessions := a.listed), Step(st, a);
    var k := OwnerOf(st.windows, a.pane, 0);
    if k == -1 || OpenTarget(st1, k, a.pane).None? {
      StillItself(st, st');
    } else {
      AssignedRaises(st1, OpenTarget(st1, k, a.pane).value, a.session);
    }
  }

  // ---------- window actions ----------

  lemma AddSeen(st: State, w: WindowId, leaf: Id)
    requires |st.windows| > 0
    ensures var ws := st.windows + [FreshWindow(w, leaf)]; Focuses(ws, w, leaf) && KeepsFocus(ws, st.windows, {w})
  {
    var ws := st.windows + [FreshWindow(w, leaf)];
    assert ws[|st.windows|] == FreshWindow(w, leaf);
    forall id, p | id != w ensures Focuses(ws, id, p) <==> Focuses(st.windows, id, p) {
      if i :| 0 <= i < |st.windows| && st.windows[i].id == id && st.windows[i].focused == p {
        assert ws[i] == st.windows[i];
      }
      if i :| 0 <= i < |ws| && ws[i].id == id && ws[i].focused == p { assert ws[i] == st.windows[i]; }
    }
  }

  lemma DropFocus(ws: seq<Window>, k: nat)
    requires k < |ws|
    ensures KeepsFocus(Drop(ws, k), ws, {ws[k].id})
  {
    var rest := Drop(ws, k);
    forall id, p | id != ws[k].id ensures Focuses(rest, id, p) <==> Focuses(ws, id, p) {
      if i :| 0 <= i < |ws| && ws[i].id == id && ws[i].focused == p {
        assert rest[if i < k then i else i - 1] == ws[i];
      }
      if i :| 0 <= i < |rest| && rest[i].id == id && rest[i].focused == p {
        assert ws[if i < k then i else i + 1] == rest[i];
      }
    }
  }

  lemma OnlyFocus(ws: seq<Window>, w: Window)
    requires |ws| == 1
    ensures KeepsFocus([w], ws, {ws[0].id, w.id})
  {
    var one := [w];
    forall id, p | id != ws[0].id && id != w.id ensures Focuses(one, id, p) <==> Focuses(ws, id, p) {}
  }

  lemma CloseWindowSeen(st: State, a: Action)
    requires Sound(st) && Shaped(st) && a.CloseWindow?
    ensures Seen(st, a, Step(st, a))
  {
    hide Distinct, LeafIds, AllLeaves, AllBindings, OneHome, Focuses, Bushy;
    var k := IndexOfWindow(st.windows, a.windowId, 0);
    if k != -1 {
      if |st.windows| == 1 {
        OnlyFocus(st.windows, FreshWindow(a.freshId, a.freshLeaf));
      } else {
        DropFocus(st.windows, k);
      }
    }
  }

  lemma ReorderSeen(st: State, w: WindowId, toIndex: int)
    requires Sound(st)
    ensures KeepsFocus(ReorderWindow(st.windows, w, toIndex), st.windows, {})
  {
    hide Focuses;
    var ws := st.windows;
    var from, to := IndexOfWindow(ws, w, 0), Clamped(toIndex, |ws|);
    if from != -1 && from != to {
      SameWindows(ws, from, to);
      FocusMembers(ReorderWindow(ws, w, toIndex), ws);
      FocusMembers(ws, ReorderWindow(ws, w, toIndex));
    }
  }

  lemma FrameSeen(st: State, a: Action)
    requires Sound(st) && Shaped(st) && (a.LayoutAction? || a.RefreshSessions? || a.DeleteSession?)
    ensures Seen(st, a, Step(st, a))
  {
    hide Distinct, SameFrame, Focuses, ClearEverywhere, RetainEverywhere, LayoutEverywhere, AllBindings, Bushy;
    match a
    case LayoutAction(splitId, layout) =>
      LayoutFrame(st.windows, splitId, layout);
      FocusFramed(LayoutEverywhere(st.windows, splitId, layout), st.windows);
    case RefreshSessions(listed) =>
      RetainFrame(st.windows, listed.Keys);
      FocusFramed(RetainEverywhere(st.windows, listed.Keys), st.windows);
    case DeleteSession(s) =>
      ClearFrame(st.windows, s);
      FocusFramed(ClearEverywhere(st.windows, s), st.windows);
  }

  /** Every action moves focus and the active window exactly as it is meant to. */
  lemma StepSeen(st: State, a: Action)
    requires Sound(st) && Shaped(st)
    ensures Seen(st, a, Step(st, a))
  {
    hide Distinct, AllLeaves, AllBindings, OneHome, HasWindow, UpdateWindow, ClearEverywhere, Focuses, Raises, Bushy,
      NextActive;
    match a
    case AddWindow(w, leaf) => AddSeen(st, w, leaf);
    case CloseWindow(_, _, _) => CloseWindowSeen(st, a);
    case SetActiveWindow(w) => ActiveNamed(st.windows, w);
    case ReorderTo(w, toIndex) => ReorderSeen(st, w, toIndex);
    case FocusPane(_) => PaneActionSeen(st, a);
    case SplitAction(_, _, _, _) => PaneActionSeen(st, a);
    case CloseAction(_, _) => PaneActionSeen(st, a);
    case DetachAction(_) => PaneActionSeen(st, a);
    case AssignToPane(p, s) => AssignedRaises(st, p, s);
    case AssignFromSidebar(p, s) => AssignedRaises(st, p, s);
    case Dive(s) => DiveSeen(st, s);
    case SplitWithSession(_, _, _, _, _) => SplitOffSeen(st, a);
    case OpenInPane(_, _, _) => OpenSeen(st, a);
    case ReloadPane(_) =>
    case CloseSession(_) =>
    case _ => FrameSeen(st, a);
  }

  /** The whole effect of an action: the new state, within the invariant; the panes there now are and the
      sessions they show; the active window and the focus of every window; the tree of every window, their order,
      the reload counters and the sessions listed. */
  ghost predicate Did(st: State, a: Action, st': State)
    requires Shaped(st)
  {
    && st' == Step(st, a)
    && Becomes(st', LeavesAfter(st, a), BindingsAfter(st, a))
    && Seen(st, a, st')
    && WorkspaceTrees.Arranged(st, a, st')
  }

  lemma StepDid(st: State, a: Action)
    requires Sound(st) && Fresh(st, a)
    ensures Shaped(st) && Did(st, a, Step(st, a)) && Sound(Step(st, a))
  {
    hide Distinct, Seen, LeavesAfter, BindingsAfter, Step, WorkspaceTrees.Arranged;
    StepMeaning(st, a);
    StepSeen(st, a);
    WorkspaceTrees.StepTrees(st, a);
  }

  lemma DidStep(st: State, a: Action, st': State)
    requires Shaped(st) && Did(st, a, st')
    ensures st' == Step(st, a)
  {
  }
}
