/** The multi-window workspace: window lists (web/src/features/terminal/windowList.ts) and the store's
    actions on them (web/src/store/index.ts), as functions from state to state. Ids the source draws at
    random are parameters of the actions. */
module Workspace {
  import opened Basics
  import opened PaneTree

  type WindowId = int

  datatype Window = Window(id: WindowId, root: Node, focused: Id)

  /** `sessions` says of every session the server listed whether it is running. */
  datatype State = State(windows: seq<Window>, active: WindowId, reloads: map<Id, nat>, sessions: map<SessionId, bool>)

  // ---------- lookup ----------

  /** The first window at or after `i` with this id, or -1. */
  function IndexOfWindow(ws: seq<Window>, id: WindowId, i: nat): (r: int)
    requires i <= |ws|
    ensures r == -1 || i <= r < |ws|
    ensures r != -1 ==> ws[r].id == id && forall j :: i <= j < r ==> ws[j].id != id
    ensures r == -1 ==> forall j :: i <= j < |ws| ==> ws[j].id != id
    decreases |ws| - i
  {
    if i == |ws| then -1 else if ws[i].id == id then i else IndexOfWindow(ws, id, i + 1)
  }

  /** The first window at or after `i` that owns this leaf, or -1. */
  function OwnerOf(ws: seq<Window>, pane: Id, i: nat): (r: int)
    requires i <= |ws|
    ensures r == -1 || i <= r < |ws|
    ensures r != -1 ==> FindLeaf(ws[r].root, pane).Some?
    ensures r == -1 ==> forall j :: i <= j < |ws| ==> FindLeaf(ws[j].root, pane).None?
    decreases |ws| - i
  {
    if i == |ws| then -1
    else if FindLeaf(ws[i].root, pane).Some? then i
    else OwnerOf(ws, pane, i + 1)
  }

  /** The first leaf bound to this session. */
  function LeafOfSession(n: Node, s: SessionId): (r: Option<Id>)
    ensures r.Some? ==> (r.value, s) in Bindings(n)
    ensures r.None? ==> forall b :: b in Bindings(n) ==> b.1 != s
    decreases n, 0
  {
    if n.Leaf? then if n.session == Some(s) then Some(n.id) else None
    else ScanForSession(n, s, 0)
  }

  function ScanForSession(n: Node, s: SessionId, i: nat): (r: Option<Id>)
    requires n.Split? && i <= |n.children|
    ensures r.Some? ==> (r.value, s) in Bindings(n)
    ensures r.None? ==> forall j, b :: i <= j < |n.children| && b in Bindings(n.children[j]) ==> b.1 != s
    decreases n, 0, |n.children| - i
  {
    if i == |n.children| then None
    else
      var found := LeafOfSession(n.children[i], s);
      if found.Some? then found else ScanForSession(n, s, i + 1)
  }

  /** The first window at or after `i` that shows this session, and its leaf. */
  function WindowOfSession(ws: seq<Window>, s: SessionId, i: nat): (r: Option<(int, Id)>)
    requires i <= |ws|
    ensures r.Some? ==> i <= r.value.0 < |ws| && (r.value.1, s) in Bindings(ws[r.value.0].root)
    ensures r.None? ==> forall j, b :: i <= j < |ws| && b in Bindings(ws[j].root) ==> b.1 != s
    decreases |ws| - i
  {
    if i == |ws| then None
    else
      var leaf := LeafOfSession(ws[i].root, s);
      if leaf.Some? then Some((i, leaf.value)) else WindowOfSession(ws, s, i + 1)
  }

  /** The first leaf without a session, left to right. */
  function FirstEmpty(n: Node): (r: Option<Id>)
    decreases n, 0
  {
    if n.Leaf? then if n.session.None? then Some(n.id) else None else ScanForEmpty(n, 0)
  }

  function ScanForEmpty(n: Node, i: nat): (r: Option<Id>)
    requires n.Split? && i <= |n.children|
    decreases n, 0, |n.children| - i
  {
    if i == |n.children| then None
    else
      var found := FirstEmpty(n.children[i]);
      if found.Some? then found else ScanForEmpty(n, i + 1)
  }

  predicate ShowsRunning(n: Node, sessions: map<SessionId, bool>) {
    match n
    case Leaf(_, s) => s.Some? && s.value in sessions && sessions[s.value]
    case Split(_, _, cs, _) => exists i :: 0 <= i < |cs| && ShowsRunning(cs[i], sessions)
  }

  // ---------- windows ----------

  /** The callbacks that pane actions apply to a window. */
  datatype Change =
    | Refocus(pane: Id)
    | Reroot(root: Node, focused: Id)
    | Detach(pane: Id)
    | Assign(pane: Id, session: SessionId)

  function Changed(c: Change, w: Window): Window {
    match c
    case Refocus(pane) => w.(focused := pane)
    case Reroot(root, focused) => w.(root := root, focused := focused)
    case Detach(pane) => w.(root := DetachPane(w.root, pane), focused := pane)
    case Assign(pane, s) => w.(root := AssignSession(w.root, pane, s), focused := pane)
  }

  function UpdateWindow(ws: seq<Window>, id: WindowId, c: Change): seq<Window> {
    seq(|ws|, i requires 0 <= i < |ws| => if ws[i].id == id then Changed(c, ws[i]) else ws[i])
  }

  function ClearEverywhere(ws: seq<Window>, s: SessionId): seq<Window> {
    seq(|ws|, i requires 0 <= i < |ws| => ws[i].(root := ClearSession(ws[i].root, s)))
  }

  /** Unbind every session that is not listed. */
  function RetainKnown(n: Node, known: set<SessionId>): Node {
    if n.Leaf? then if n.session.Some? && n.session.value !in known then n.(session := EMPTY) else n
    else n.(children := seq(|n.children|, i requires 0 <= i < |n.children| => RetainKnown(n.children[i], known)))
  }

  function RetainEverywhere(ws: seq<Window>, known: set<SessionId>): seq<Window> {
    seq(|ws|, i requires 0 <= i < |ws| => ws[i].(root := RetainKnown(ws[i].root, known)))
  }

  function LayoutEverywhere(ws: seq<Window>, split: Id, layout: map<Id, real>): seq<Window> {
    seq(|ws|, i requires 0 <= i < |ws| => ws[i].(root := SetSplitLayout(ws[i].root, split, layout)))
  }

  function FreshWindow(id: WindowId, leafId: Id): Window { Window(id, Leaf(leafId, EMPTY), leafId) }

  function Drop(ws: seq<Window>, k: int): seq<Window>
    requires 0 <= k < |ws|
  {
    ws[..k] + ws[k + 1..]
  }

  /** Closing the last window leaves a fresh one; closing the active one activates its left neighbour. */
  function RemoveWindow(
    ws: seq<Window>, id: WindowId, active: WindowId, freshId: WindowId, freshLeaf: Id): (seq<Window>, WindowId)
  {
    var k := IndexOfWindow(ws, id, 0);
    if k == -1 then (ws, active)
    else if |ws| == 1 then ([FreshWindow(freshId, freshLeaf)], freshId)
    else
      var rest := Drop(ws, k);
      (rest, if id != active then active else rest[if k > 0 then k - 1 else 0].id)
  }

  function Clamped(to: int, n: nat): int {
    if n - 1 < to then (if n == 0 then 0 else n - 1) else if to < 0 then 0 else to
  }

  /** Move a window to another index. */
  function ReorderWindow(ws: seq<Window>, id: WindowId, toIndex: int): seq<Window> {
    var from := IndexOfWindow(ws, id, 0);
    var to := Clamped(toIndex, |ws|);
    if from == -1 || from == to then ws
    else var rest := Drop(ws, from); rest[..to] + [ws[from]] + rest[to..]
  }

  // ---------- actions ----------

  datatype Edge = Left | Right | Top | Bottom

  function EdgeDirection(e: Edge): Direction { if e.Left? || e.Right? then Horizontal else Vertical }

  function EdgeBefore(e: Edge): bool { e.Left? || e.Top? }

  datatype Action =
    | AddWindow(freshId: WindowId, freshLeaf: Id)
    | CloseWindow(windowId: WindowId, freshId: WindowId, freshLeaf: Id)
    | SetActiveWindow(windowId: WindowId)
    | ReorderTo(windowId: WindowId, toIndex: int)
    | FocusPane(pane: Id)
    | SplitAction(pane: Id, dir: Direction, leafId: Id, splitId: Id)
    | CloseAction(pane: Id, freshLeaf: Id)
    | DetachAction(pane: Id)
    | ReloadPane(pane: Id)
    | LayoutAction(splitId: Id, layout: map<Id, real>)
    | AssignToPane(pane: Id, session: SessionId)
    | AssignFromSidebar(pane: Id, session: SessionId)
    | Dive(session: SessionId)
    | SplitWithSession(pane: Id, edge: Edge, session: SessionId, leafId: Id, splitId: Id)
    | OpenInPane(pane: Id, session: SessionId, listed: map<SessionId, bool>)
    | RefreshSessions(listed: map<SessionId, bool>)
    | CloseSession(session: SessionId)
    | DeleteSession(session: SessionId)

  function ActiveIndex(st: State): (k: nat)
    requires |st.windows| > 0
    ensures k < |st.windows|
  {
    var k := IndexOfWindow(st.windows, st.active, 0);
    if k == -1 then 0 else k
  }

  function Assigned(st: State, pane: Id, s: SessionId): State {
    var k := OwnerOf(st.windows, pane, 0);
    if k == -1 then st
    else
      var id := st.windows[k].id;
      st.(windows := UpdateWindow(ClearEverywhere(st.windows, s), id, Assign(pane, s)), active := id)
  }

  function SplitOff(st: State, pane: Id, e: Edge, s: SessionId, leafId: Id, splitId: Id): State {
    var k := OwnerOf(st.windows, pane, 0);
    if k == -1 then st
    else
      var id := st.windows[k].id;
      var cleared := ClearEverywhere(st.windows, s);
      var target := IndexOfWindow(cleared, id, 0);
      if target == -1 then st
      else
        var root := SplitPaneWithSession(
          cleared[target].root, pane, EdgeDirection(e), s, EdgeBefore(e), leafId, splitId);
        st.(windows := UpdateWindow(cleared, id, Reroot(root, leafId)), active := id)
  }

  /** Where a new shell goes: the pane, unless that shows a running session; then the first empty pane of
      its window, if there is one. */
  function OpenTarget(st: State, k: nat, pane: Id): Option<Id>
    requires k < |st.windows|
  {
    var leaf := FindLeaf(st.windows[k].root, pane);
    if leaf.Some? && ShowsRunning(leaf.value, st.sessions) then FirstEmpty(st.windows[k].root) else Some(pane)
  }

  function Opened(st: State, pane: Id, s: SessionId): State {
    var k := OwnerOf(st.windows, pane, 0);
    if k == -1 then st
    else
      var target := OpenTarget(st, k, pane);
      if target.None? then st else Assigned(st, target.value, s)
  }

  ghost function Step(st: State, a: Action): State
    requires |st.windows| > 0 && forall i :: 0 <= i < |st.windows| ==> Bushy(st.windows[i].root)
  {
    var ws := st.windows;
    match a
    case AddWindow(freshId, freshLeaf) =>
      st.(windows := ws + [FreshWindow(freshId, freshLeaf)], active := freshId)
    case CloseWindow(windowId, freshId, freshLeaf) =>
      var k := IndexOfWindow(ws, windowId, 0);
      if k == -1 then st
      else
        var (rest, next) := RemoveWindow(ws, windowId, st.active, freshId, freshLeaf);
        st.(windows := rest, active := next, reloads := st.reloads - LeafIds(ws[k].root))
    case SetActiveWindow(windowId) => if IndexOfWindow(ws, windowId, 0) == -1 then st else st.(active := windowId)
    case ReorderTo(windowId, toIndex) => st.(windows := ReorderWindow(ws, windowId, toIndex))
    case FocusPane(pane) =>
      var k := OwnerOf(ws, pane, 0);
      if k == -1 then st
      else st.(windows := UpdateWindow(ws, ws[k].id, Refocus(pane)), active := ws[k].id)
    case SplitAction(pane, dir, leafId, splitId) =>
      var k := OwnerOf(ws, pane, 0);
      if k == -1 then st
      else
        var root := SplitPane(ws[k].root, pane, dir, leafId, splitId);
        st.(windows := UpdateWindow(ws, ws[k].id, Reroot(root, leafId)), active := ws[k].id)
    case CloseAction(pane, freshLeaf) =>
      var k := OwnerOf(ws, pane, 0);
      if k == -1 then st
      else
        var (root, focus) := ClosePane(ws[k].root, pane, freshLeaf);
        st.(windows := UpdateWindow(ws, ws[k].id, Reroot(root, focus)), active := ws[k].id,
            reloads := st.reloads - {pane})
    case DetachAction(pane) =>
      var k := OwnerOf(ws, pane, 0);
      if k == -1 then st else st.(windows := UpdateWindow(ws, ws[k].id, Detach(pane)))
    case ReloadPane(pane) =>
      st.(reloads := st.reloads[pane := (if pane in st.reloads then st.reloads[pane] else 0) + 1])
    case LayoutAction(splitId, layout) => st.(windows := LayoutEverywhere(ws, splitId, layout))
    case AssignToPane(pane, s) => Assigned(st, pane, s)
    case AssignFromSidebar(pane, s) =>
      if ShowsRunning(ws[ActiveIndex(st)].root, st.sessions) then st else Assigned(st, pane, s)
    case Dive(s) =>
      var hit := WindowOfSession(ws, s, 0);
      if hit.Some? then
        var id := ws[hit.value.0].id;
        st.(windows := UpdateWindow(ws, id, Refocus(hit.value.1)), active := id)
      else Assigned(st, ws[ActiveIndex(st)].focused, s)
    case SplitWithSession(pane, e, s, leafId, splitId) => SplitOff(st, pane, e, s, leafId, splitId)
    case OpenInPane(pane, s, listed) => Opened(st.(sessions := listed), pane, s)
    case RefreshSessions(listed) => st.(windows := RetainEverywhere(ws, listed.Keys), sessions := listed)
    case CloseSession(s) => if s in st.sessions then st.(sessions := st.sessions[s := false]) else st
    case DeleteSession(s) => st.(windows := ClearEverywhere(ws, s), sessions := st.sessions - {s})
  }

  // ---------- the invariant ----------

  ghost function AllIds(ws: seq<Window>): set<Id> { set i, x | 0 <= i < |ws| && x in Ids(ws[i].root) :: x }

  ghost function AllLeaves(ws: seq<Window>): set<Id> { set i, x | 0 <= i < |ws| && x in LeafIds(ws[i].root) :: x }

  /** Which pane of the workspace shows which session. */
  ghost function AllBindings(ws: seq<Window>): set<(Id, SessionId)> {
    set i, b | 0 <= i < |ws| && b in Bindings(ws[i].root) :: b
  }

  /** A session is bound to at most one leaf of the whole workspace. */
  ghost predicate OneHome(bs: set<(Id, SessionId)>) { forall b, c :: b in bs && c in bs && b.1 == c.1 ==> b == c }

  /** Good trees with live focus, and ids that are nowhere repeated. */
  ghost predicate Distinct(ws: seq<Window>) {
    && (forall i :: 0 <= i < |ws| ==> Good(ws[i].root) && ws[i].focused in LeafIds(ws[i].root))
    && (forall i, j :: 0 <= i < j < |ws| ==> ws[i].id != ws[j].id)
    && (forall i, j :: 0 <= i < j < |ws| ==> Ids(ws[i].root) !! Ids(ws[j].root))
  }

  ghost predicate HasWindow(ws: seq<Window>, id: WindowId) { exists i :: 0 <= i < |ws| && ws[i].id == id }

  ghost predicate Sound(st: State) {
    && |st.windows| > 0
    && Distinct(st.windows)
    && HasWindow(st.windows, st.active)
    && OneHome(AllBindings(st.windows))
  }

  /** Ids drawn by an action occur nowhere in the workspace. */
  ghost predicate Fresh(st: State, a: Action) {
    var ids := AllIds(st.windows);
    match a
    case AddWindow(w, leaf) => !HasWindow(st.windows, w) && leaf !in ids
    case CloseWindow(_, _, leaf) => leaf !in ids
    case SplitAction(_, _, leaf, split) => leaf !in ids && split !in ids && leaf != split
    case CloseAction(_, leaf) => leaf !in ids
    case SplitWithSession(_, _, _, leaf, split) => leaf !in ids && split !in ids && leaf != split
    case _ => true
  }
}
