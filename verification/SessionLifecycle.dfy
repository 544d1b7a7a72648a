/** The life of sessions across connects, drops and restarts: the steps of handleControl
    (internal/hub/adapter/primary/wsagent/inbound.go) over the connection registry, the machine records and
    the session records. Everything turns on one comparison of instance ids. */
module SessionLifecycle {
  import opened SessionStore

  type InstanceId = string
  type ConnId = int

  /** `made` are the connections made so far: a connection is an object, so no two are the same. */
  datatype Hub = Hub(
    sessions: Records, machines: map<MachineId, InstanceId>, conns: map<MachineId, ConnId>, made: set<ConnId>)

  datatype Event =
    | Hello(m: MachineId, instance: InstanceId, conn: ConnId, reopened: set<SessionId>, ts: int)
    | Teardown(m: MachineId, conn: ConnId, ts: int)
    | Open(m: MachineId, id: SessionId, ts: int)
    | Exit(id: SessionId, code: int, ts: int)
    | Delete(id: SessionId, force: bool)
    | SetAuto(id: SessionId, auto: bool)

  /** The instance a machine last registered with; "" when it never did. */
  function Known(h: Hub, m: MachineId): InstanceId { if m in h.machines then h.machines[m] else "" }

  /** A restart: both ids are known and they differ. */
  predicate Restarts(known: InstanceId, instance: InstanceId) { known != "" && instance != "" && known != instance }

  function AfterHello(h: Hub, m: MachineId, instance: InstanceId, reopened: set<SessionId>, ts: int): Records {
    if Restarts(Known(h, m), instance) then Reconciled(h.sessions, m, reopened, ts) else Restored(h.sessions, m)
  }

  /** Is this the machine's live connection? */
  predicate Holds(h: Hub, m: MachineId, c: ConnId) { m in h.conns && h.conns[m] == c }

  /** One step: a handshake with its reconciliation, a teardown with its status update, or an action on one
      session. */
  function Step(h: Hub, e: Event): Hub {
    match e
    case Hello(m, instance, conn, reopened, ts) =>
      Hub(AfterHello(h, m, instance, reopened, ts), h.machines[m := instance], h.conns[m := conn], h.made + {conn})
    case Teardown(m, conn, ts) =>
      if Holds(h, m, conn) then h.(conns := h.conns - {m}, sessions := Dropped(h.sessions, m, ts)) else h
    case Open(m, id, ts) => if m in h.conns then h.(sessions := h.sessions[id := NewSession(m, ts)]) else h
    case Exit(id, code, ts) =>
      if id in h.sessions then h.(sessions := h.sessions[id := AsExited(h.sessions[id], code, ts)]) else h
    case Delete(id, force) =>
      if id in h.sessions && (force || !Live(h.sessions[id])) then h.(sessions := h.sessions - {id}) else h
    case SetAuto(id, auto) =>
      if id in h.sessions then h.(sessions := h.sessions[id := h.sessions[id].(autoRelaunch := auto)]) else h
  }

  /** New connections and new session ids are new. */
  predicate Allowed(h: Hub, e: Event) {
    && (e.Hello? ==> e.conn !in h.made)
    && (e.Open? ==> e.id !in h.sessions)
  }

  function RunAll(h: Hub, es: seq<Event>): Hub
    decreases |es|
  {
    if es == [] then h else RunAll(Step(h, es[0]), es[1..])
  }

  predicate AllAllowed(h: Hub, es: seq<Event>)
    decreases |es|
  {
    es == [] || (Allowed(h, es[0]) && AllAllowed(Step(h, es[0]), es[1..]))
  }

  // ---------- status follows the connection ----------

  /** A running session's machine is connected, a disconnected session's machine is not. */
  ghost predicate Consistent(h: Hub) {
    && (forall id :: id in h.sessions && h.sessions[id].status.Running? ==> h.sessions[id].machine in h.conns)
    && (forall id :: id in h.sessions && h.sessions[id].status.Disconnected? ==> h.sessions[id].machine !in h.conns)
    && h.conns.Values <= h.made
  }

  lemma StepConsistent(h: Hub, e: Event)
    requires Consistent(h)
    ensures Consistent(Step(h, e))
  {
  }

  /** In every run: a live session is running exactly while its machine is connected. */
  lemma {:induction false} AlwaysConsistent(h: Hub, es: seq<Event>)
    requires Consistent(h)
    ensures Consistent(RunAll(h, es))
    ensures forall id :: id in RunAll(h, es).sessions && Live(RunAll(h, es).sessions[id]) ==>
              (RunAll(h, es).sessions[id].status.Running? <==>
                RunAll(h, es).sessions[id].machine in RunAll(h, es).conns)
    decreases |es|
  {
    if es != [] {
      StepConsistent(h, es[0]);
      AlwaysConsistent(Step(h, es[0]), es[1..]);
    }
  }

  /** A handshake leaves none of the machine's sessions disconnected, touches no session of another machine
      and no ended session, and loses a session exactly when it is a restart and the session was live and
      was not reopened. */
  lemma HelloExact(h: Hub, e: Event, id: SessionId)
    requires e.Hello? && id in h.sessions
    ensures var s, s' := h.sessions[id], Step(h, e).sessions[id];
            && (s.machine == e.m ==> !s'.status.Disconnected?)
            && (s.machine != e.m || !Live(s) ==> s' == s)
            && (s.machine == e.m && Live(s) ==>
                  var lost := Restarts(Known(h, e.m), e.instance) && !(s.autoRelaunch && id in e.reopened);
                  s' == if lost then AsLost(s, e.ts) else AsRunning(s))
  {
  }

  // ---------- one instance ----------

  /** Every handshake of the machine in this run carries this instance id. */
  predicate OneInstance(es: seq<Event>, m: MachineId, instance: InstanceId) {
    forall i :: 0 <= i < |es| && es[i].Hello? && es[i].m == m ==> es[i].instance == instance
  }

  predicate LostOf(h: Hub, m: MachineId, id: SessionId) {
    id in h.sessions && h.sessions[id].machine == m && h.sessions[id].status.Lost?
  }

  /** While a machine keeps one instance id, however often it reconnects, none of its sessions becomes
      lost. */
  lemma {:induction false} NeverLost(h: Hub, es: seq<Event>, m: MachineId, instance: InstanceId, id: SessionId)
    requires instance != "" && Known(h, m) in {"", instance} && OneInstance(es, m, instance)
    requires LostOf(RunAll(h, es), m, id)
    ensures LostOf(h, m, id)
    decreases |es|
  {
    if es != [] {
      var e, next := es[0], Step(h, es[0]);
      assert e.Hello? && e.m == m ==> e.instance == instance;
      assert OneInstance(es[1..], m, instance) by {
        forall i | 0 <= i < |es[1..]| && es[1..][i].Hello? && es[1..][i].m == m
          ensures es[1..][i].instance == instance
        {
          assert es[1..][i] == es[i + 1];
        }
      }
      NeverLost(next, es[1..], m, instance, id);
      StepLoses(h, e, m, id);
    }
  }

  /** Only a restart loses sessions. */
  lemma StepLoses(h: Hub, e: Event, m: MachineId, id: SessionId)
    ensures LostOf(Step(h, e), m, id) && !LostOf(h, m, id) ==>
              e.Hello? && e.m == m && Restarts(Known(h, m), e.instance)
  {
  }

  /** The same up to the time of last activity. */
  predicate SameButTime(a: Records, b: Records) {
    a.Keys == b.Keys && forall id :: id in a ==> a[id].(lastActive := 0) == b[id].(lastActive := 0)
  }

  /** A blip undoes itself: after a drop and a handshake of the same instance every session is as it was,
      but for the time stamp of the drop. */
  lemma BlipRoundTrip(h: Hub, m: MachineId, c: ConnId, c': ConnId, ts: int, ts': int, reopened: set<SessionId>)
    requires Consistent(h) && Holds(h, m, c) && m in h.machines
    ensures var back := Step(Step(h, Teardown(m, c, ts)), Hello(m, h.machines[m], c', reopened, ts'));
            SameButTime(back.sessions, h.sessions) && back.machines == h.machines
  {
  }

  // ---------- replaced connections ----------

  /** A connection that is not its machine's live one never becomes so again. */
  lemma {:induction false} NeverBack(h: Hub, es: seq<Event>, m: MachineId, c: ConnId)
    requires c in h.made && !Holds(h, m, c) && AllAllowed(h, es)
    ensures c in RunAll(h, es).made && !Holds(RunAll(h, es), m, c)
    decreases |es|
  {
    if es != [] { NeverBack(Step(h, es[0]), es[1..], m, c); }
  }

  /** The late teardown of a connection that was replaced, at any later time, changes nothing. */
  lemma ReplacedTeardown(h: Hub, m: MachineId, c: ConnId, hello: Event, es: seq<Event>, ts: int)
    requires Holds(h, m, c) && c in h.made && hello.Hello? && hello.m == m
    requires AllAllowed(h, [hello] + es)
    ensures var later := RunAll(h, [hello] + es); Step(later, Teardown(m, c, ts)) == later
  {
    var all := [hello] + es;
    assert all[0] == hello && all[1..] == es;
    NeverBack(Step(h, hello), es, m, c);
  }

  // ---------- counting restarts ----------

  /** The instance ids of a machine's handshakes, in order. */
  function InstancesOf(es: seq<Event>, m: MachineId): seq<InstanceId> {
    if es == [] then []
    else (if es[0].Hello? && es[0].m == m then [es[0].instance] else []) + InstancesOf(es[1..], m)
  }

  /** How often the machine is found restarted in a run. */
  function RestartCount(h: Hub, es: seq<Event>, m: MachineId): nat
    decreases |es|
  {
    if es == [] then 0
    else
      (if es[0].Hello? && es[0].m == m && Restarts(Known(h, m), es[0].instance) then 1 else 0)
      + RestartCount(Step(h, es[0]), es[1..], m)
  }

  /** Places where a known id is followed at once by another. */
  function Switches(ids: seq<InstanceId>): nat {
    if |ids| < 2 then 0 else (if Restarts(ids[0], ids[1]) then 1 else 0) + Switches(ids[1..])
  }

  lemma {:induction false} RestartsAreSwitches(h: Hub, es: seq<Event>, m: MachineId)
    ensures RestartCount(h, es, m) == Switches([Known(h, m)] + InstancesOf(es, m))
    decreases |es|
  {
    hide Switches, Step, Known, Restarts;
    if es != [] {
      var e, next := es[0], Step(h, es[0]);
      RestartsAreSwitches(next, es[1..], m);
      KnownAfter(h, e, m);
      var rest := InstancesOf(es[1..], m);
      if e.Hello? && e.m == m {
        assert InstancesOf(es, m) == [e.instance] + rest;
        SwitchesCons(Known(h, m), [e.instance] + rest);
      } else {
        assert InstancesOf(es, m) == rest;
      }
    } else {
      SwitchesCons(Known(h, m), []);
      NoSwitch();
    }
  }

  lemma NoSwitch()
    ensures Switches([]) == 0
  {
  }

  lemma KnownAfter(h: Hub, e: Event, m: MachineId)
    ensures Known(Step(h, e), m) == if e.Hello? && e.m == m then e.instance else Known(h, m)
  {
  }

  function NonEmpty(ids: seq<InstanceId>): seq<InstanceId> {
    if ids == [] then [] else (if ids[0] != "" then [ids[0]] else []) + NonEmpty(ids[1..])
  }

  /** Two different ids with nothing but empty ones between them stand side by side. */
  ghost predicate GapFree(ids: seq<InstanceId>) {
    forall i, j :: 0 <= i < j < |ids| && Between(ids, i, j) ==> j == i + 1
  }

  ghost predicate Between(ids: seq<InstanceId>, i: nat, j: nat)
    requires i < j < |ids|
  {
    ids[i] != "" && ids[j] != "" && ids[i] != ids[j] && forall k :: i < k < j ==> ids[k] == ""
  }

  /** The first known id, and where it stands. */
  lemma {:induction false} FirstKnown(ids: seq<InstanceId>) returns (j: nat)
    requires NonEmpty(ids) != []
    ensures j < |ids| && ids[j] == NonEmpty(ids)[0] && ids[j] != "" && forall k :: 0 <= k < j ==> ids[k] == ""
  {
    if ids[0] != "" {
      j := 0;
    } else {
      var i := FirstKnown(ids[1..]);
      j := i + 1;
      forall k | 0 <= k < j ensures ids[k] == "" { if k > 0 { assert ids[1..][k - 1] == ids[k]; } }
    }
  }

  lemma {:induction false} NoneKnown(ids: seq<InstanceId>)
    requires NonEmpty(ids) == []
    ensures forall k :: 0 <= k < |ids| ==> ids[k] == ""
  {
    if ids != [] {
      NoneKnown(ids[1..]);
      forall k | 0 <= k < |ids| ensures ids[k] == "" { if k > 0 { assert ids[1..][k - 1] == ids[k]; } }
    }
  }

  /** The head of the list opens a gap. */
  ghost predicate HeadGap(ids: seq<InstanceId>) {
    exists j :: 1 < j < |ids| && Between(ids, 0, j)
  }

  lemma GapStep(ids: seq<InstanceId>)
    requires ids != []
    ensures GapFree(ids) <==> GapFree(ids[1..]) && !HeadGap(ids)
  {
    var t := ids[1..];
    forall i, j | 0 <= i < j < |t| ensures Between(t, i, j) <==> Between(ids, i + 1, j + 1) {
      BetweenShift(ids, i, j);
    }
    if GapFree(ids) {
      forall i, j | 0 <= i < j < |t| && Between(t, i, j) ensures j == i + 1 { assert Between(ids, i + 1, j + 1); }
    }
    if GapFree(t) && !HeadGap(ids) {
      forall i, j | 0 <= i < j < |ids| && Between(ids, i, j) ensures j == i + 1 {
        if i > 0 { assert Between(t, i - 1, j - 1); }
      }
    }
  }

  lemma BetweenShift(ids: seq<InstanceId>, i: nat, j: nat)
    requires ids != [] && i < j < |ids| - 1
    ensures Between(ids[1..], i, j) <==> Between(ids, i + 1, j + 1)
  {
    var t := ids[1..];
    if Between(t, i, j) {
      forall k | i + 1 < k < j + 1 ensures ids[k] == "" { assert t[k - 1] == ids[k]; }
    }
    if Between(ids, i + 1, j + 1) {
      forall k | i < k < j ensures t[k] == "" { assert t[k] == ids[k + 1]; }
    }
  }

  /** What the head contributes to the switches of the known ids. */
  lemma HeadSwitch(ids: seq<InstanceId>)
    requires |ids| > 1
    ensures var t := NonEmpty(ids[1..]);
            Switches(NonEmpty(ids)) == Switches(t) + if t != [] && Restarts(ids[0], t[0]) then 1 else 0
  {
    hide Switches, Restarts;
    var t := NonEmpty(ids[1..]);
    SwitchesCons(ids[0], t);
    assert [] + t == t;
    if ids[0] == "" { NoRestart(ids[0], if t == [] then "" else t[0]); }
  }

  lemma SwitchesCons(a: InstanceId, t: seq<InstanceId>)
    ensures Switches([a] + t) == Switches(t) + if t != [] && Restarts(a, t[0]) then 1 else 0
  {
    hide Restarts;
    assert ([a] + t)[1..] == t;
  }

  lemma NoRestart(a: InstanceId, b: InstanceId)
    requires a == ""
    ensures !Restarts(a, b)
  {
  }

  lemma HeadGapIff(ids: seq<InstanceId>)
    requires |ids| > 1
    ensures var t := NonEmpty(ids[1..]);
            HeadGap(ids) <==> t != [] && Restarts(ids[0], t[0]) && !Restarts(ids[0], ids[1])
    ensures var t := NonEmpty(ids[1..]); Restarts(ids[0], ids[1]) ==> t != [] && t[0] == ids[1]
  {
    var t := NonEmpty(ids[1..]);
    if t == [] {
      NoneKnown(ids[1..]);
      forall j | 0 < j < |ids| ensures ids[j] == "" { assert ids[1..][j - 1] == ids[j]; }
    } else {
      var f := FirstKnown(ids[1..]);
      forall k | 0 < k < f + 1 ensures ids[k] == "" { assert ids[1..][k - 1] == ids[k]; }
      assert ids[f + 1] == t[0];
      if Restarts(ids[0], t[0]) && f > 0 { assert Between(ids, 0, f + 1); }
      if j :| 1 < j < |ids| && Between(ids, 0, j) {
        assert ids[f + 1] != "";
        assert f + 1 == j;
      }
    }
  }

  /** No more restarts are found than the known ids change, and exactly as many when no empty id stands
      between two different ones. */
  lemma {:induction false} SwitchesExact(ids: seq<InstanceId>)
    ensures Switches(ids) <= Switches(NonEmpty(ids))
    ensures Switches(ids) == Switches(NonEmpty(ids)) <==> GapFree(ids)
  {
    if |ids| > 1 {
      SwitchesExact(ids[1..]);
      GapStep(ids);
      HeadSwitch(ids);
      HeadGapIff(ids);
    }
  }

  /** How often an id differs from the one before it. */
  function Changes(ids: seq<InstanceId>): nat {
    if |ids| < 2 then 0 else (if ids[0] != ids[1] then 1 else 0) + Changes(ids[1..])
  }

  lemma {:induction false} SwitchesAreChanges(ids: seq<InstanceId>)
    requires forall i :: 0 <= i < |ids| ==> ids[i] != ""
    ensures Switches(ids) == Changes(ids)
  {
    if |ids| >= 2 { SwitchesAreChanges(ids[1..]); }
  }

  lemma {:induction false} NonEmptyOnly(ids: seq<InstanceId>)
    ensures forall i :: 0 <= i < |NonEmpty(ids)| ==> NonEmpty(ids)[i] != ""
  {
    if ids != [] { NonEmptyOnly(ids[1..]); }
  }

  /** A restart is found exactly once per change of the machine's non-empty instance ids, if and only if no
      handshake with an empty id stood between two different ones. */
  lemma RestartOncePerChange(h: Hub, es: seq<Event>, m: MachineId)
    ensures var ids := [Known(h, m)] + InstancesOf(es, m);
            && RestartCount(h, es, m) <= Changes(NonEmpty(ids))
            && (RestartCount(h, es, m) == Changes(NonEmpty(ids)) <==> GapFree(ids))
  {
    var ids := [Known(h, m)] + InstancesOf(es, m);
    RestartsAreSwitches(h, es, m);
    SwitchesExact(ids);
    NonEmptyOnly(ids);
    SwitchesAreChanges(NonEmpty(ids));
  }

  /** A restart hidden by an empty id: an agent that comes back as "a", then without an id, then as "b" has
      changed once, and no restart is found. */
  lemma HiddenRestart(h: Hub, m: MachineId, c: ConnId, ts: int)
    requires Known(h, m) == ""
    ensures var es := [Hello(m, "a", c, {}, ts), Hello(m, "", c + 1, {}, ts), Hello(m, "b", c + 2, {}, ts)];
            RestartCount(h, es, m) == 0 && NonEmpty(InstancesOf(es, m)) == ["a", "b"]
  {
    hide Step, Known;
    var e1, e2, e3 := Hello(m, "a", c, {}, ts), Hello(m, "", c + 1, {}, ts), Hello(m, "b", c + 2, {}, ts);
    KnownAfter(h, e1, m);
    var h1 := Step(h, e1);
    KnownAfter(h1, e2, m);
    var h2 := Step(h1, e2);
    assert [e1, e2, e3][1..] == [e2, e3] && [e2, e3][1..] == [e3] && [e3][1..] == [];
    assert RestartCount(Step(h2, e3), [], m) == 0;
    assert RestartCount(h2, [e3], m) == 0;
    assert RestartCount(h1, [e2, e3], m) == 0;
    assert InstancesOf([], m) == [];
    assert InstancesOf([e3], m) == ["b"];
    assert InstancesOf([e2, e3], m) == ["", "b"];
    assert InstancesOf([e1, e2, e3], m) == ["a", "", "b"];
    assert NonEmpty([]) == [] && NonEmpty(["b"]) == ["b"] && NonEmpty(["", "b"]) == ["b"];
  }

  // ---------- the hub ----------

  /** The registry of connections, the machine records and the session records, updated in place. */
  class ControlPlane {
    const store: Store
    var machines: map<MachineId, InstanceId>
    var conns: map<MachineId, ConnId>
    ghost var made: set<ConnId>

    constructor ()
      ensures fresh(store) && Now() == Hub(map[], map[], map[], {})
    {
      store := new Store();
      machines := map[];
      conns := map[];
      made := {};
    }

    ghost function Now(): Hub
      reads this, store
    {
      Hub(store.data, machines, conns, made)
    }

    method AddConn(m: MachineId, c: ConnId)
      modifies this`conns
      ensures conns == old(conns)[m := c]
    {
      conns := conns[m := c];
    }

    /** Remove the connection only if it is still the live one. */
    method RemoveIf(m: MachineId, c: ConnId) returns (removed: bool)
      modifies this`conns
      ensures removed <==> m in old(conns) && old(conns)[m] == c
      ensures conns == if removed then old(conns) - {m} else old(conns)
    {
      if m in conns && conns[m] == c {
        conns := conns - {m};
        return true;
      }
      return false;
    }

    /** Record the instance and report whether the agent was restarted. */
    method Register(m: MachineId, instance: InstanceId) returns (restarted: bool)
      modifies this`machines
      ensures machines == old(machines)[m := instance]
      ensures restarted <==>
                m in old(machines) && old(machines)[m] != "" && instance != "" && old(machines)[m] != instance
    {
      restarted := false;
      if m in machines && instance != "" && machines[m] != "" && machines[m] != instance {
        restarted := true;
      }
      machines := machines[m := instance];
    }

    /** The handshake, its reconciliation taken to its end. */
    method HandleHello(m: MachineId, instance: InstanceId, c: ConnId, reopened: set<SessionId>, ts: int)
      modifies this, store
      ensures Now() == Step(old(Now()), Hello(m, instance, c, reopened, ts))
    {
      AddConn(m, c);
      made := made + {c};
      var restarted := Register(m, instance);
      if restarted {
        store.ReconcileMachineRestart(m, reopened, true, ts);
      } else {
        store.MarkDisconnectedRunning(m);
      }
    }

    method HandleClosed(m: MachineId, c: ConnId, ts: int)
      modifies this`conns, store
      ensures Now() == Step(old(Now()), Teardown(m, c, ts))
    {
      var removed := RemoveIf(m, c);
      if !removed { return; }
      store.MarkRunningDisconnected(m, ts);
    }

    /** Nothing is recorded when the agent cannot be reached. */
    method OpenSession(m: MachineId, id: SessionId, ts: int)
      modifies store
      ensures Now() == Step(old(Now()), Open(m, id, ts))
    {
      if m !in conns { return; }
      store.Create(id, NewSession(m, ts));
    }

    /** A report for a session that is gone is ignored. */
    method MarkExited(id: SessionId, code: int, ts: int)
      modifies store
      ensures Now() == Step(old(Now()), Exit(id, code, ts))
    {
      var _ := store.SetExited(id, code, ts);
    }
  }
}
