/** The mutable store (web/src/store/index.ts): each action replaces fields of the store. A caller sees its
    whole effect: which panes there are and what they show, which window is active and what each focuses. */
module WorkspaceStore {
  import opened Basics
  import opened PaneTree
  import opened PaneSplitClose
  import opened Workspace
  import opened WorkspaceRuns
  import opened WorkspaceView

  // ---------- reconciling with the server, session by session ----------

  /** Every session bound in the tree, left to right. */
  function SessionIds(n: Node): seq<SessionId>
    decreases n
  {
    if n.Leaf? then if n.session.Some? then [n.session.value] else [] else SessionIdsOf(n.children)
  }

  function SessionIdsOf(cs: seq<Node>): seq<SessionId>
    decreases cs
  {
    if cs == [] then [] else SessionIds(cs[0]) + SessionIdsOf(cs[1..])
  }

  /** Unbind a set of sessions. */
  ghost function ClearSet(n: Node, gone: set<SessionId>): Node {
    if n.Leaf? then if n.session.Some? && n.session.value in gone then n.(session := EMPTY) else n
    else n.(children := seq(|n.children|, i requires 0 <= i < |n.children| => ClearSet(n.children[i], gone)))
  }

  ghost function ClearSetEverywhere(ws: seq<Window>, gone: set<SessionId>): seq<Window> {
    seq(|ws|, i requires 0 <= i < |ws| => ws[i].(root := ClearSet(ws[i].root, gone)))
  }

  lemma {:induction false} ClearNone(n: Node)
    ensures ClearSet(n, {}) == n
  {
    if n.Split? {
      forall i | 0 <= i < |n.children| ensures ClearSet(n.children[i], {}) == n.children[i] {
        ClearNone(n.children[i]);
      }
      assert ClearSet(n, {}).children == n.children;
    }
  }

  lemma {:induction false} ClearOneMore(n: Node, gone: set<SessionId>, s: SessionId)
    ensures ClearSession(ClearSet(n, gone), s) == ClearSet(n, gone + {s})
  {
    if n.Split? {
      var a, b := ClearSession(ClearSet(n, gone), s), ClearSet(n, gone + {s});
      forall i | 0 <= i < |n.children| ensures a.children[i] == b.children[i] { ClearOneMore(n.children[i], gone, s); }
      assert a.children == b.children;
    }
  }

  lemma ClearOneMoreEverywhere(ws: seq<Window>, gone: set<SessionId>, s: SessionId)
    ensures ClearEverywhere(ClearSetEverywhere(ws, gone), s) == ClearSetEverywhere(ws, gone + {s})
  {
    forall i | 0 <= i < |ws| ensures ClearSession(ClearSet(ws[i].root, gone), s) == ClearSet(ws[i].root, gone + {s}) {
      ClearOneMore(ws[i].root, gone, s);
    }
  }

  /** The sessions of a tree that the server no longer knows. */
  ghost function Unknown(ids: seq<SessionId>, known: set<SessionId>): set<SessionId> {
    set s | s in ids && s !in known
  }

  /** Clearing unknown sessions, all of this tree's among them, keeps exactly the known ones. */
  lemma {:induction false} ClearIsRetain(n: Node, gone: set<SessionId>, known: set<SessionId>)
    requires gone !! known && Unknown(SessionIds(n), known) <= gone
    ensures ClearSet(n, gone) == RetainKnown(n, known)
    decreases n
  {
    if n.Leaf? {
      assert n.session.Some? ==> n.session.value in SessionIds(n);
    } else {
      var a, b := ClearSet(n, gone), RetainKnown(n, known);
      forall i | 0 <= i < |n.children| ensures a.children[i] == b.children[i] {
        SessionOfChild(n.children, i);
        forall s | s in Unknown(SessionIds(n.children[i]), known) ensures s in gone { assert s in SessionIds(n); }
        ClearIsRetain(n.children[i], gone, known);
      }
      assert a.children == b.children;
    }
  }

  lemma {:induction false} SessionOfChild(cs: seq<Node>, i: nat)
    requires i < |cs|
    ensures forall s :: s in SessionIds(cs[i]) ==> s in SessionIdsOf(cs)
  {
    if i > 0 { SessionOfChild(cs[1..], i - 1); }
  }

  lemma ClearIsRetainEverywhere(ws: seq<Window>, gone: set<SessionId>, known: set<SessionId>)
    requires gone !! known && forall i :: 0 <= i < |ws| ==> Unknown(SessionIds(ws[i].root), known) <= gone
    ensures ClearSetEverywhere(ws, gone) == RetainEverywhere(ws, known)
  {
    forall i | 0 <= i < |ws| ensures ClearSet(ws[i].root, gone) == RetainKnown(ws[i].root, known) {
      ClearIsRetain(ws[i].root, gone, known);
    }
  }

  /** The loop over every window and every session bound in it keeps exactly the bindings to known
      sessions. */
  method Reconcile(ws: seq<Window>, known: set<SessionId>) returns (r: seq<Window>)
    ensures r == RetainEverywhere(ws, known)
  {
    r := ws;
    ghost var gone: set<SessionId> := {};
    forall i | 0 <= i < |ws| ensures ClearSet(ws[i].root, {}) == ws[i].root { ClearNone(ws[i].root); }
    for k := 0 to |ws|
      invariant gone !! known && r == ClearSetEverywhere(ws, gone)
      invariant forall i :: 0 <= i < k ==> Unknown(SessionIds(ws[i].root), known) <= gone
    {
      var ids := SessionIds(ws[k].root);
      for j := 0 to |ids|
        invariant gone !! known && r == ClearSetEverywhere(ws, gone)
        invariant forall i :: 0 <= i < k ==> Unknown(SessionIds(ws[i].root), known) <= gone
        invariant Unknown(ids[..j], known) <= gone
      {
        if ids[j] !in known {
          r := ClearEverywhere(r, ids[j]);
          ClearOneMoreEverywhere(ws, gone, ids[j]);
          gone := gone + {ids[j]};
        }
        assert ids[..j + 1] == ids[..j] + [ids[j]];
      }
      assert ids[..|ids|] == ids;
    }
    ClearIsRetainEverywhere(ws, gone, known);
  }

  /** Dropping the counters of a list of panes, one by one. */
  method DropCounters(m: map<Id, nat>, panes: seq<Id>) returns (r: map<Id, nat>)
    ensures r == m - set p | p in panes
  {
    r := m;
    for i := 0 to |panes|
      invariant r == m - set p | p in panes[..i]
    {
      r := r - {panes[i]};
      assert panes[..i + 1] == panes[..i] + [panes[i]];
    }
    assert panes[..|panes|] == panes;
  }

  lemma PanesOf(n: Node)
    ensures (set p | p in OrderedLeaves(n)) == LeafIds(n)
  {
    hide OrderedLeaves, LeafIds;
    forall p ensures p in OrderedLeaves(n) <==> p in LeafIds(n) { OrderedMembers(n, p); }
  }

  // ---------- the store ----------

  class Store {
    var windows: seq<Window>
    var activeWindowId: WindowId
    var paneReloads: map<Id, nat>
    var sessions: map<SessionId, bool>

    ghost function Now(): State
      reads this
    {
      State(windows, activeWindowId, paneReloads, sessions)
    }

    method NewWindow(freshId: WindowId, freshLeaf: Id)
      requires Sound(Now()) && Fresh(Now(), AddWindow(freshId, freshLeaf))
      modifies this
      ensures Sound(Now()) && Did(old(Now()), AddWindow(freshId, freshLeaf), Now())
    {
      hide Sound, Distinct, Did, ShowsRunning;
      StepDid(Now(), AddWindow(freshId, freshLeaf));
      windows := windows + [FreshWindow(freshId, freshLeaf)];
      activeWindowId := freshId;
    }

    method RemoveOne(windowId: WindowId, freshId: WindowId, freshLeaf: Id)
      requires Sound(Now()) && Fresh(Now(), CloseWindow(windowId, freshId, freshLeaf))
      modifies this
      ensures Sound(Now()) && Did(old(Now()), CloseWindow(windowId, freshId, freshLeaf), Now())
    {
      hide Sound, Distinct, Did, ShowsRunning;
      StepDid(Now(), CloseWindow(windowId, freshId, freshLeaf));
      var k := IndexOfWindow(windows, windowId, 0);
      if k == -1 { return; }
      var (next, nextActive) := RemoveWindow(windows, windowId, activeWindowId, freshId, freshLeaf);
      PanesOf(windows[k].root);
      paneReloads := DropCounters(paneReloads, OrderedLeaves(windows[k].root));
      windows := next;
      activeWindowId := nextActive;
    }

    method SetActive(windowId: WindowId)
      requires Sound(Now())
      modifies this`activeWindowId
      ensures Sound(Now()) && Did(old(Now()), SetActiveWindow(windowId), Now())
    {
      hide Sound, Distinct, Did, ShowsRunning;
      StepDid(Now(), SetActiveWindow(windowId));
      if IndexOfWindow(windows, windowId, 0) == -1 { return; }
      activeWindowId := windowId;
    }

    /** Splice the window out of a copy of the list and back in at its new index. */
    method Reorder(windowId: WindowId, toIndex: int)
      requires Sound(Now())
      modifies this`windows
      ensures Sound(Now()) && Did(old(Now()), ReorderTo(windowId, toIndex), Now())
    {
      hide Sound, Distinct, Did, ShowsRunning;
      StepDid(Now(), ReorderTo(windowId, toIndex));
      var from := IndexOfWindow(windows, windowId, 0);
      if from == -1 { return; }
      var to := Clamped(toIndex, |windows|);
      if from == to { return; }
      var moved := windows[from];
      var next := windows[..from] + windows[from + 1..];
      windows := next[..to] + [moved] + next[to..];
    }

    method Focus(pane: Id)
      requires Sound(Now())
      modifies this`windows, this`activeWindowId
      ensures Sound(Now()) && Did(old(Now()), FocusPane(pane), Now())
    {
      hide Sound, Distinct, Did, ShowsRunning;
      StepDid(Now(), FocusPane(pane));
      var k := OwnerOf(windows, pane, 0);
      if k == -1 { return; }
      var owner := windows[k].id;
      windows := UpdateWindow(windows, owner, Refocus(pane));
      activeWindowId := owner;
    }

    method Split(pane: Id, dir: Direction, leafId: Id, splitId: Id)
      requires Sound(Now()) && Fresh(Now(), SplitAction(pane, dir, leafId, splitId))
      modifies this`windows, this`activeWindowId
      ensures Sound(Now()) && Did(old(Now()), SplitAction(pane, dir, leafId, splitId), Now())
    {
      hide Sound, Distinct, Did, ShowsRunning;
      StepDid(Now(), SplitAction(pane, dir, leafId, splitId));
      var k := OwnerOf(windows, pane, 0);
      if k == -1 { return; }
      var owner := windows[k];
      windows := UpdateWindow(windows, owner.id, Reroot(SplitPane(owner.root, pane, dir, leafId, splitId), leafId));
      activeWindowId := owner.id;
    }

    method Close(pane: Id, freshLeaf: Id)
      requires Sound(Now()) && Fresh(Now(), CloseAction(pane, freshLeaf))
      modifies this`windows, this`activeWindowId, this`paneReloads
      ensures Sound(Now()) && Did(old(Now()), CloseAction(pane, freshLeaf), Now())
    {
      hide Sound, Distinct, Did, ShowsRunning;
      StepDid(Now(), CloseAction(pane, freshLeaf));
      var k := OwnerOf(windows, pane, 0);
      if k == -1 { return; }
      var owner := windows[k];
      var (root, focus) := ClosePane(owner.root, pane, freshLeaf);
      paneReloads := paneReloads - {pane};
      windows := UpdateWindow(windows, owner.id, Reroot(root, focus));
      activeWindowId := owner.id;
    }

    method DetachOne(pane: Id)
      requires Sound(Now())
      modifies this`windows
      ensures Sound(Now()) && Did(old(Now()), DetachAction(pane), Now())
    {
      hide Sound, Distinct, Did, ShowsRunning;
      StepDid(Now(), DetachAction(pane));
      var k := OwnerOf(windows, pane, 0);
      if k == -1 { return; }
      windows := UpdateWindow(windows, windows[k].id, Detach(pane));
    }

    method Reload(pane: Id)
      requires Sound(Now())
      modifies this`paneReloads
      ensures Sound(Now()) && Did(old(Now()), ReloadPane(pane), Now())
    {
      hide Sound, Distinct, Did, ShowsRunning;
      StepDid(Now(), ReloadPane(pane));
      paneReloads := paneReloads[pane := (if pane in paneReloads then paneReloads[pane] else 0) + 1];
    }

    method SetLayoutOf(splitId: Id, layout: map<Id, real>)
      requires Sound(Now())
      modifies this`windows
      ensures Sound(Now()) && Did(old(Now()), LayoutAction(splitId, layout), Now())
    {
      hide Sound, Distinct, Did, ShowsRunning;
      StepDid(Now(), LayoutAction(splitId, layout));
      windows := LayoutEverywhere(windows, splitId, layout);
    }

    method AssignTo(pane: Id, s: SessionId)
      requires Sound(Now())
      modifies this`windows, this`activeWindowId
      ensures Sound(Now()) && Did(old(Now()), AssignToPane(pane, s), Now())
    {
      hide Sound, Distinct, Did, ShowsRunning;
      StepDid(Now(), AssignToPane(pane, s));
      var k := OwnerOf(windows, pane, 0);
      if k == -1 { return; }
      var owner := windows[k].id;
      windows := UpdateWindow(ClearEverywhere(windows, s), owner, Assign(pane, s));
      activeWindowId := owner;
    }

    method ActiveWindow() returns (w: Window)
      requires Sound(Now())
      ensures w == windows[ActiveIndex(Now())] && w.id == activeWindowId
    {
      FocusedIsLeaf(Now());
      var k := IndexOfWindow(windows, activeWindowId, 0);
      w := windows[if k == -1 then 0 else k];
    }

    method AssignSidebar(pane: Id, s: SessionId)
      requires Sound(Now())
      modifies this`windows, this`activeWindowId
      ensures Sound(Now()) && Did(old(Now()), AssignFromSidebar(pane, s), Now())
    {
      hide Sound, Distinct, Did, ShowsRunning;
      StepDid(Now(), AssignFromSidebar(pane, s));
      var active := ActiveWindow();
      if ShowsRunning(active.root, sessions) { return; }
      ghost var before := Now();
      AssignTo(pane, s);
      DidStep(before, AssignToPane(pane, s), Now());
    }

    method DiveTo(s: SessionId)
      requires Sound(Now())
      modifies this`windows, this`activeWindowId
      ensures Sound(Now()) && Did(old(Now()), Dive(s), Now())
    {
      hide Sound, Distinct, Did, ShowsRunning;
      StepDid(Now(), Dive(s));
      var hit := WindowOfSession(windows, s, 0);
      if hit.Some? {
        var id := windows[hit.value.0].id;
        windows := UpdateWindow(windows, id, Refocus(hit.value.1));
        activeWindowId := id;
        return;
      }
      var active := ActiveWindow();
      ghost var before := Now();
      AssignTo(active.focused, s);
      DidStep(before, AssignToPane(active.focused, s), Now());
    }

    method SplitBySession(pane: Id, edge: Edge, s: SessionId, leafId: Id, splitId: Id)
      requires Sound(Now()) && Fresh(Now(), SplitWithSession(pane, edge, s, leafId, splitId))
      modifies this`windows, this`activeWindowId
      ensures Sound(Now()) && Did(old(Now()), SplitWithSession(pane, edge, s, leafId, splitId), Now())
    {
      hide Sound, Distinct, Did, ShowsRunning;
      StepDid(Now(), SplitWithSession(pane, edge, s, leafId, splitId));
      var k := OwnerOf(windows, pane, 0);
      if k == -1 { return; }
      var owner := windows[k].id;
      var cleared := ClearEverywhere(windows, s);
      var target := IndexOfWindow(cleared, owner, 0);
      if target == -1 { return; }
      var root := SplitPaneWithSession(
        cleared[target].root, pane, EdgeDirection(edge), s, EdgeBefore(edge), leafId, splitId);
      windows := UpdateWindow(cleared, owner, Reroot(root, leafId));
      activeWindowId := owner;
    }

    method OpenIn(pane: Id, s: SessionId, listed: map<SessionId, bool>)
      requires Sound(Now())
      modifies this`windows, this`activeWindowId, this`sessions
      ensures Sound(Now()) && Did(old(Now()), OpenInPane(pane, s, listed), Now())
    {
      hide Distinct, AllBindings, Did, ShowsRunning;
      StepDid(Now(), OpenInPane(pane, s, listed));
      var k := OwnerOf(windows, pane, 0);
      sessions := listed;
      if k == -1 { return; }
      var leaf := FindLeaf(windows[k].root, pane);
      var live := leaf.Some? && ShowsRunning(leaf.value, listed);
      var target := if live then FirstEmpty(windows[k].root) else Some(pane);
      if target.None? { return; }
      ghost var before := Now();
      AssignTo(target.value, s);
      DidStep(before, AssignToPane(target.value, s), Now());
    }

    method Refresh(listed: map<SessionId, bool>)
      requires Sound(Now())
      modifies this`windows, this`sessions
      ensures Sound(Now()) && Did(old(Now()), RefreshSessions(listed), Now())
    {
      hide Sound, Distinct, Did, ShowsRunning;
      StepDid(Now(), RefreshSessions(listed));
      windows := Reconcile(windows, listed.Keys);
      sessions := listed;
    }

    /** A closed session is shown as ended until the next refresh. */
    method EndSession(s: SessionId)
      requires Sound(Now())
      modifies this`sessions
      ensures Sound(Now()) && Did(old(Now()), CloseSession(s), Now())
    {
      hide Sound, Distinct, Did, ShowsRunning;
      StepDid(Now(), CloseSession(s));
      if s in sessions { sessions := sessions[s := false]; }
    }

    method Delete(s: SessionId)
      requires Sound(Now())
      modifies this`windows, this`sessions
      ensures Sound(Now()) && Did(old(Now()), DeleteSession(s), Now())
    {
      hide Sound, Distinct, Did, ShowsRunning;
      StepDid(Now(), DeleteSession(s));
      sessions := sessions - {s};
      windows := ClearEverywhere(windows, s);
    }
  }
}
