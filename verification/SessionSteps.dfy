/** The life of sessions call by call. A teardown removes the connection and then marks the sessions; a
    handshake adds the connection and then restores the sessions or, off the handshake's thread, relaunches
    them one by one and sweeps the rest; an open asks the agent and then writes the record. Other calls may come
    between any two. */
module SessionSteps {
  import opened SessionStore
  import opened SessionLifecycle

  /** What is under way: `leaving` teardowns whose marking is still to come, `restoring` and `reconciling`
      handshakes whose sessions are still to be brought up to date, once per call; the sessions a
      reconciliation has fetched to relaunch; and the opens the agent has accepted. */
  datatype Fine = Fine(
    h: Hub, leaving: multiset<MachineId>, restoring: multiset<MachineId>, reconciling: multiset<MachineId>,
    revivals: set<(MachineId, SessionId)>, opening: map<SessionId, MachineId>)

  datatype Call =
    | Connect(m: MachineId, instance: InstanceId, conn: ConnId)
    | Restore(m: MachineId)
    | Fetch(m: MachineId)
    | Relaunch(m: MachineId, id: SessionId, accepted: bool, ts: int)
    | Sweep(m: MachineId, ts: int)
    | Remove(m: MachineId, conn: ConnId)
    | Mark(m: MachineId, ts: int)
    | Accept(m: MachineId, id: SessionId)
    | Write(id: SessionId, ts: int)
    | Other(e: Event)

  ghost predicate Enabled(s: Fine, a: Call) {
    match a
    case Connect(_, _, conn) => conn !in s.h.made
    case Restore(m) => m in s.restoring
    case Fetch(m) => m in s.reconciling
    case Relaunch(m, id, _, _) => (m, id) in s.revivals
    case Sweep(m, _) => m in s.reconciling && forall r :: r in s.revivals ==> r.0 != m
    case Remove(_, _) => true
    case Mark(m, _) => m in s.leaving
    case Accept(m, id) => m in s.h.conns && id !in s.h.sessions && id !in s.opening
    case Write(id, _) => id in s.opening
    case Other(e) => e.Exit? || e.Delete? || e.SetAuto?
  }

  function WithSession(s: Fine, id: SessionId, r: Session): Fine {
    s.(h := s.h.(sessions := s.h.sessions[id := r]))
  }

  function WithSessions(s: Fine, data: Records): Fine { s.(h := s.h.(sessions := data)) }

  ghost function Do(s: Fine, a: Call): Fine
    requires Enabled(s, a)
  {
    match a
    case Connect(m, instance, conn) =>
      var t := s.(h := Hub(s.h.sessions, s.h.machines[m := instance], s.h.conns[m := conn], s.h.made + {conn}));
      if Restarts(Known(s.h, m), instance) then t.(reconciling := t.reconciling + multiset{m})
      else t.(restoring := t.restoring + multiset{m})
    case Restore(m) => WithSessions(s, Restored(s.h.sessions, m)).(restoring := s.restoring - multiset{m})
    case Fetch(m) =>
      s.(revivals := s.revivals + set id | id in s.h.sessions && Revivable(s.h.sessions, m, id) :: (m, id))
    case Relaunch(m, id, accepted, ts) =>
      var t := s.(revivals := s.revivals - {(m, id)});
      if id !in s.h.sessions then t
      else WithSession(t, id, if accepted then AsRunning(s.h.sessions[id]) else AsLost(s.h.sessions[id], ts))
    case Sweep(m, ts) => WithSessions(s, Swept(s.h.sessions, m, ts)).(reconciling := s.reconciling - multiset{m})
    case Remove(m, conn) =>
      if Holds(s.h, m, conn) then s.(h := s.h.(conns := s.h.conns - {m}), leaving := s.leaving + multiset{m}) else s
    case Mark(m, ts) => WithSessions(s, Dropped(s.h.sessions, m, ts)).(leaving := s.leaving - multiset{m})
    case Accept(m, id) => s.(opening := s.opening[id := m])
    case Write(id, ts) => WithSession(s, id, NewSession(s.opening[id], ts)).(opening := s.opening - {id})
    case Other(e) => s.(h := Step(s.h, e))
  }

  // ---------- status and connection ----------

  /** The machine may show running sessions: it is connected, or its teardown is not finished. */
  predicate Upward(s: Fine, m: MachineId) { m in s.h.conns || m in s.leaving }

  /** The machine may show disconnected sessions: it is away, or its handshake is not finished. */
  predicate Downward(s: Fine, m: MachineId) { m !in s.h.conns || m in s.restoring || m in s.reconciling }

  predicate RecordOk(s: Fine, r: Session) {
    (r.status.Running? ==> Upward(s, r.machine)) && (r.status.Disconnected? ==> Downward(s, r.machine))
  }

  /** Status follows the connection, up to what is under way. */
  ghost predicate Settled(s: Fine) { forall id :: id in s.h.sessions ==> RecordOk(s, s.h.sessions[id]) }

  ghost predicate NoneIs(s: Fine, m: MachineId, st: Status) {
    forall id :: id in s.h.sessions && s.h.sessions[id].machine == m ==> s.h.sessions[id].status != st
  }

  /** The call comes in time. Marking: the machine is still away, or its next handshake is not finished, or
      nothing of it runs. Restoring, relaunching and writing a record: the machine is still there, or its
      teardown will still mark what is made to run. Sweeping: nothing is left disconnected that the machine's
      presence would belie. */
  ghost predicate InTime(s: Fine, a: Call)
    requires Enabled(s, a)
  {
    match a
    case Mark(m, _) => Downward(s, m) || NoneIs(s, m, Running)
    case Restore(m) => Upward(s, m) || NoneIs(s, m, Disconnected)
    case Relaunch(_, id, accepted, _) => accepted && id in s.h.sessions ==> Upward(s, s.h.sessions[id].machine)
    case Write(id, _) => Upward(s, s.opening[id])
    case Sweep(m, _) =>
      || m !in s.h.conns || m in s.restoring || s.reconciling[m] > 1
      || forall id :: Revivable(s.h.sessions, m, id) ==> s.h.sessions[id].status != Disconnected
    case _ => true
  }

  lemma MarkIff(s: Fine, m: MachineId, ts: int)
    requires Settled(s) && Enabled(s, Mark(m, ts))
    ensures Settled(Do(s, Mark(m, ts))) <==> InTime(s, Mark(m, ts))
  {
    var n := Do(s, Mark(m, ts));
    forall id | id in s.h.sessions
      ensures RecordOk(n, n.h.sessions[id]) <==>
              (s.h.sessions[id].machine == m && s.h.sessions[id].status.Running? ==> Downward(s, m))
    {
      assert RecordOk(s, s.h.sessions[id]);
    }
  }

  lemma RestoreIff(s: Fine, m: MachineId)
    requires Settled(s) && Enabled(s, Restore(m))
    ensures Settled(Do(s, Restore(m))) <==> InTime(s, Restore(m))
  {
    var n := Do(s, Restore(m));
    forall id | id in s.h.sessions
      ensures RecordOk(n, n.h.sessions[id]) <==>
              (s.h.sessions[id].machine == m && s.h.sessions[id].status.Disconnected? ==> Upward(s, m))
    {
      assert RecordOk(s, s.h.sessions[id]);
    }
  }

  lemma SweepIff(s: Fine, m: MachineId, ts: int)
    requires Settled(s) && Enabled(s, Sweep(m, ts))
    ensures Settled(Do(s, Sweep(m, ts))) <==> InTime(s, Sweep(m, ts))
  {
    var n := Do(s, Sweep(m, ts));
    forall id | id in s.h.sessions
      ensures RecordOk(n, n.h.sessions[id]) <==>
              (Revivable(s.h.sessions, m, id) && s.h.sessions[id].status.Disconnected? ==> Downward(n, m))
    {
      assert RecordOk(s, s.h.sessions[id]);
    }
  }

  /** One record changed, nothing else: it has to fit. */
  lemma OneRecordIff(s: Fine, t: Fine, id: SessionId, r: Session)
    requires Settled(s) && t.h.sessions == s.h.sessions[id := r]
    requires t.h.conns == s.h.conns && t.leaving == s.leaving
    requires t.restoring == s.restoring && t.reconciling == s.reconciling
    ensures Settled(t) <==> RecordOk(s, r)
  {
    assert id in t.h.sessions && t.h.sessions[id] == r;
    assert RecordOk(t, r) <==> RecordOk(s, r);
    forall x | x in t.h.sessions && x != id ensures RecordOk(t, t.h.sessions[x]) {
      assert RecordOk(s, s.h.sessions[x]);
    }
  }

  lemma ConnectKeeps(s: Fine, m: MachineId, instance: InstanceId, conn: ConnId)
    requires Settled(s) && Enabled(s, Connect(m, instance, conn))
    ensures Settled(Do(s, Connect(m, instance, conn)))
  {
    var n := Do(s, Connect(m, instance, conn));
    forall id | id in n.h.sessions ensures RecordOk(n, n.h.sessions[id]) { assert RecordOk(s, s.h.sessions[id]); }
  }

  lemma RemoveKeeps(s: Fine, m: MachineId, conn: ConnId)
    requires Settled(s)
    ensures Settled(Do(s, Remove(m, conn)))
  {
    var n := Do(s, Remove(m, conn));
    forall id | id in n.h.sessions ensures RecordOk(n, n.h.sessions[id]) { assert RecordOk(s, s.h.sessions[id]); }
  }

  lemma OtherKeeps(s: Fine, e: Event)
    requires Settled(s) && Enabled(s, Other(e))
    ensures Settled(Do(s, Other(e)))
  {
    var n := Do(s, Other(e));
    forall id | id in n.h.sessions ensures RecordOk(n, n.h.sessions[id]) { assert RecordOk(s, s.h.sessions[id]); }
  }

  lemma RelaunchIff(s: Fine, a: Call)
    requires Settled(s) && Enabled(s, a) && a.Relaunch?
    ensures Settled(Do(s, a)) <==> InTime(s, a)
  {
    if a.id in s.h.sessions {
      var r := s.h.sessions[a.id];
      OneRecordIff(s, Do(s, a), a.id, if a.accepted then AsRunning(r) else AsLost(r, a.ts));
    } else {
      SameRecords(s, Do(s, a));
    }
  }

  lemma SameRecords(s: Fine, t: Fine)
    requires Settled(s) && t.h == s.h && t.leaving == s.leaving
    requires t.restoring == s.restoring && t.reconciling == s.reconciling
    ensures Settled(t)
  {
    forall id | id in t.h.sessions ensures RecordOk(t, t.h.sessions[id]) { assert RecordOk(s, s.h.sessions[id]); }
  }

  /** Every call keeps status and connection in line if and only if it comes in time; most always do. */
  lemma CallIff(s: Fine, a: Call)
    requires Settled(s) && Enabled(s, a)
    ensures Settled(Do(s, a)) <==> InTime(s, a)
  {
    hide Settled, RecordOk;
    match a
    case Connect(m, instance, conn) => ConnectKeeps(s, m, instance, conn);
    case Restore(m) => RestoreIff(s, m);
    case Fetch(m) => SameRecords(s, Do(s, a));
    case Relaunch(_, _, _, _) => RelaunchIff(s, a);
    case Sweep(m, ts) => SweepIff(s, m, ts);
    case Remove(m, conn) => RemoveKeeps(s, m, conn);
    case Mark(m, ts) => MarkIff(s, m, ts);
    case Accept(_, _) => SameRecords(s, Do(s, a));
    case Write(id, ts) =>
      OneRecordIff(s, Do(s, a), id, NewSession(s.opening[id], ts));
      NewOk(s, s.opening[id], ts);
    case Other(e) => OtherKeeps(s, e);
  }

  lemma NewOk(s: Fine, m: MachineId, ts: int)
    ensures RecordOk(s, NewSession(m, ts)) <==> Upward(s, m)
  {
  }

  // ---------- runs ----------

  ghost predicate Runs(s: Fine, calls: seq<Call>)
    decreases |calls|
  {
    calls == [] || (Enabled(s, calls[0]) && Runs(Do(s, calls[0]), calls[1..]))
  }

  /** In every state of the run. */
  ghost predicate AlwaysSettled(s: Fine, calls: seq<Call>)
    decreases |calls|
  {
    Settled(s) && (calls != [] && Enabled(s, calls[0]) ==> AlwaysSettled(Do(s, calls[0]), calls[1..]))
  }

  ghost predicate AllInTime(s: Fine, calls: seq<Call>)
    decreases |calls|
  {
    calls != [] && Enabled(s, calls[0]) ==> InTime(s, calls[0]) && AllInTime(Do(s, calls[0]), calls[1..])
  }

  /** Whatever the calls of connects, drops, restarts and opens interleave to: status follows the connection
      throughout a run if and only if every call of it comes in time. */
  lemma {:induction false} InterleavedIff(s: Fine, calls: seq<Call>)
    requires Settled(s) && Runs(s, calls)
    ensures AlwaysSettled(s, calls) <==> AllInTime(s, calls)
    decreases |calls|
  {
    hide Settled, InTime, Enabled, Do;
    if calls != [] {
      CallIff(s, calls[0]);
      if Settled(Do(s, calls[0])) { InterleavedIff(Do(s, calls[0]), calls[1..]); }
    }
  }

  /** Nothing under way. */
  function Quiet(h: Hub): Fine { Fine(h, multiset{}, multiset{}, multiset{}, {}, map[]) }

  /** With nothing under way, in line up to what is under way is in line. */
  lemma QuietSettled(h: Hub)
    ensures Settled(Quiet(h)) && h.conns.Values <= h.made <==> Consistent(h)
  {
    if Settled(Quiet(h)) {
      forall id | id in h.sessions ensures RecordOk(Quiet(h), h.sessions[id]) {}
    }
  }

  // ---------- made at once, the calls are the steps of the protocol ----------

  lemma TeardownAtOnce(h: Hub, m: MachineId, c: ConnId, ts: int)
    requires Holds(h, m, c)
    ensures var mid := Do(Quiet(h), Remove(m, c));
            && Enabled(mid, Mark(m, ts)) && InTime(mid, Mark(m, ts))
            && Do(mid, Mark(m, ts)) == Quiet(Step(h, Teardown(m, c, ts)))
  {
    assert multiset{} + multiset{m} - multiset{m} == multiset{};
  }

  lemma OpenAtOnce(h: Hub, m: MachineId, id: SessionId, ts: int)
    requires m in h.conns && id !in h.sessions
    ensures var mid := Do(Quiet(h), Accept(m, id));
            && Enabled(mid, Write(id, ts)) && InTime(mid, Write(id, ts))
            && Do(mid, Write(id, ts)) == Quiet(Step(h, Open(m, id, ts)))
  {
    assert map[id := m] - {id} == map[];
  }

  lemma HelloAtOnce(h: Hub, m: MachineId, instance: InstanceId, c: ConnId, reopened: set<SessionId>, ts: int)
    requires c !in h.made && !Restarts(Known(h, m), instance)
    ensures var mid := Do(Quiet(h), Connect(m, instance, c));
            && Enabled(mid, Restore(m)) && InTime(mid, Restore(m))
            && Do(mid, Restore(m)) == Quiet(Step(h, Hello(m, instance, c, reopened, ts)))
  {
    assert multiset{} + multiset{m} - multiset{m} == multiset{};
  }

  /** These calls lead from one state to the other. */
  ghost predicate Leads(s: Fine, calls: seq<Call>, end: Fine)
    decreases |calls|
  {
    if calls == [] then end == s else Enabled(s, calls[0]) && Leads(Do(s, calls[0]), calls[1..], end)
  }

  lemma {:induction false} LeadsOn(s: Fine, calls: seq<Call>, mid: Fine, a: Call)
    requires Leads(s, calls, mid) && Enabled(mid, a)
    ensures Leads(s, calls + [a], Do(mid, a))
    decreases |calls|
  {
    hide Enabled, Do;
    var all := calls + [a];
    if calls == [] {
      assert all[1..] == [];
    } else {
      assert all[0] == calls[0] && all[1..] == calls[1..] + [a];
      LeadsOn(Do(s, calls[0]), calls[1..], mid, a);
    }
  }

  ghost function RestOf(m: MachineId, ids: seq<SessionId>, k: nat): set<(MachineId, SessionId)> {
    set i | k <= i < |ids| :: (m, ids[i])
  }

  /** A restart, uninterrupted, with the first `k` sessions relaunched. */
  ghost predicate Relaunching(
    h: Hub, m: MachineId, reopened: set<SessionId>, ts: int, ids: seq<SessionId>, k: nat, s: Fine)
    requires k <= |ids|
  {
    && s == Fine(h.(sessions := s.h.sessions), multiset{}, multiset{}, multiset{m}, RestOf(m, ids, k), map[])
    && s.h.sessions.Keys == h.sessions.Keys
    && (forall id :: id in h.sessions ==>
          s.h.sessions[id] == if id in ids[..k] then Reconciled(h.sessions, m, reopened, ts)[id] else h.sessions[id])
  }

  lemma RestShrinks(m: MachineId, ids: seq<SessionId>, k: nat)
    requires k < |ids| && forall i, j :: 0 <= i < j < |ids| ==> ids[i] != ids[j]
    ensures (m, ids[k]) in RestOf(m, ids, k)
    ensures RestOf(m, ids, k) - {(m, ids[k])} == RestOf(m, ids, k + 1)
  {
    forall r ensures r in RestOf(m, ids, k) - {(m, ids[k])} <==> r in RestOf(m, ids, k + 1) {}
  }

  lemma RelaunchStep(
    h: Hub, m: MachineId, reopened: set<SessionId>, ts: int, ids: seq<SessionId>, k: nat, s: Fine)
    requires k < |ids| && Lists(ids, h.sessions, m) && Relaunching(h, m, reopened, ts, ids, k, s)
    ensures var a := Relaunch(m, ids[k], ids[k] in reopened, ts);
            Enabled(s, a) && Relaunching(h, m, reopened, ts, ids, k + 1, Do(s, a))
  {
    hide RestOf;
    RestShrinks(m, ids, k);
    var id := ids[k];
    assert id in ids && Revivable(h.sessions, m, id);
    assert ids[..k + 1] == ids[..k] + [id] && id !in ids[..k];
    assert s.h.sessions[id] == h.sessions[id];
  }

  lemma {:induction false} RelaunchAll(
    h: Hub, m: MachineId, reopened: set<SessionId>, ts: int, ids: seq<SessionId>, k: nat,
    start: Fine, calls: seq<Call>, first: Fine) returns (more: seq<Call>, s: Fine)
    requires k <= |ids| && Lists(ids, h.sessions, m) && Leads(start, calls, first)
    requires Relaunching(h, m, reopened, ts, ids, 0, first)
    ensures Leads(start, more, s) && Relaunching(h, m, reopened, ts, ids, k, s)
  {
    hide Relaunching, Leads, Lists, Enabled, Do;
    if k == 0 {
      more, s := calls, first;
    } else {
      more, s := RelaunchAll(h, m, reopened, ts, ids, k - 1, start, calls, first);
      RelaunchStep(h, m, reopened, ts, ids, k - 1, s);
      var a := Relaunch(m, ids[k - 1], ids[k - 1] in reopened, ts);
      LeadsOn(start, more, s, a);
      more, s := more + [a], Do(s, a);
    }
  }

  lemma SweepStep(h: Hub, m: MachineId, reopened: set<SessionId>, ts: int, ids: seq<SessionId>, s: Fine)
    requires Lists(ids, h.sessions, m) && Relaunching(h, m, reopened, ts, ids, |ids|, s)
    ensures Enabled(s, Sweep(m, ts))
    ensures Do(s, Sweep(m, ts)) == Quiet(h.(sessions := Reconciled(h.sessions, m, reopened, ts)))
  {
    var n := Do(s, Sweep(m, ts));
    assert ids[..|ids|] == ids;
    forall id | id in h.sessions ensures n.h.sessions[id] == Reconciled(h.sessions, m, reopened, ts)[id] {
      assert id in ids <==> Revivable(h.sessions, m, id);
    }
    SessionStore.SameRecords(n.h.sessions, Reconciled(h.sessions, m, reopened, ts));
    assert multiset{m} - multiset{m} == multiset{};
  }

  lemma FetchStep(h: Hub, m: MachineId, reopened: set<SessionId>, ts: int, ids: seq<SessionId>, s: Fine)
    requires Lists(ids, h.sessions, m)
    requires s == Fine(h, multiset{}, multiset{}, multiset{m}, {}, map[])
    ensures Enabled(s, Fetch(m)) && Relaunching(h, m, reopened, ts, ids, 0, Do(s, Fetch(m)))
  {
    var n := Do(s, Fetch(m));
    forall r ensures r in n.revivals <==> r in RestOf(m, ids, 0) {
      if r in n.revivals {
        assert r.0 == m && Revivable(h.sessions, m, r.1) && r.1 in ids;
        var i :| 0 <= i < |ids| && ids[i] == r.1;
        assert r == (m, ids[i]);
      }
      if r in RestOf(m, ids, 0) {
        var i :| 0 <= i < |ids| && r == (m, ids[i]);
        assert ids[i] in ids && Revivable(h.sessions, m, ids[i]);
      }
    }
    assert n.revivals == RestOf(m, ids, 0);
  }

  /** Made at once, in whatever order it takes the sessions, a restart's handshake with its reconciliation is
      the one-step handshake. */
  lemma RestartAtOnce(
    h: Hub, m: MachineId, instance: InstanceId, c: ConnId, reopened: set<SessionId>, ts: int, ids: seq<SessionId>)
    returns (calls: seq<Call>)
    requires c !in h.made && Restarts(Known(h, m), instance) && Lists(ids, h.sessions, m)
    ensures Leads(Quiet(h), calls, Quiet(Step(h, Hello(m, instance, c, reopened, ts))))
  {
    hide Relaunching, Lists;
    var met := Hub(h.sessions, h.machines[m := instance], h.conns[m := c], h.made + {c});
    var s := Do(Quiet(h), Connect(m, instance, c));
    assert s == Fine(met, multiset{}, multiset{}, multiset{m}, {}, map[]);
    assert Leads(Quiet(h), [], Quiet(h));
    LeadsOn(Quiet(h), [], Quiet(h), Connect(m, instance, c));
    FetchStep(met, m, reopened, ts, ids, s);
    LeadsOn(Quiet(h), [] + [Connect(m, instance, c)], s, Fetch(m));
    calls := [] + [Connect(m, instance, c)] + [Fetch(m)];
    s := Do(s, Fetch(m));
    calls, s := RelaunchAll(met, m, reopened, ts, ids, |ids|, Quiet(h), calls, s);
    SweepStep(met, m, reopened, ts, ids, s);
    LeadsOn(Quiet(h), calls, s, Sweep(m, ts));
    calls := calls + [Sweep(m, ts)];
  }

  // ---------- and out of time ----------

  /** A whole handshake of the same instance between the two calls of a teardown leaves every live session of
      the machine disconnected although the machine is connected and nothing is under way. */
  lemma RaceStrands(h: Hub, m: MachineId, c: ConnId, c': ConnId, ts: int)
    requires Consistent(h) && Holds(h, m, c) && m in h.machines && c' !in h.made
    ensures var gone := Do(Quiet(h), Remove(m, c));
            var met := Do(gone, Connect(m, h.machines[m], c'));
            && Enabled(met, Restore(m)) && Enabled(Do(met, Restore(m)), Mark(m, ts))
            && var end := Do(Do(met, Restore(m)), Mark(m, ts));
               && end == Quiet(end.h) && m in end.h.conns
               && (forall id :: id in h.sessions && h.sessions[id].machine == m && Live(h.sessions[id]) ==>
                     id in end.h.sessions && end.h.sessions[id].status.Disconnected?)
  {
    assert multiset{} + multiset{m} - multiset{m} == multiset{};
  }

  /** A whole teardown between the agent's answer and the record of an open leaves a session running that no
      connection can reach. */
  lemma OpenStrands(h: Hub, m: MachineId, c: ConnId, id: SessionId, ts: int)
    requires Consistent(h) && Holds(h, m, c) && id !in h.sessions
    ensures var asked := Do(Quiet(h), Accept(m, id));
            var gone := Do(asked, Remove(m, c));
            && Enabled(gone, Mark(m, ts)) && Enabled(Do(gone, Mark(m, ts)), Write(id, ts))
            && var end := Do(Do(gone, Mark(m, ts)), Write(id, ts));
               && end == Quiet(end.h) && m !in end.h.conns
               && id in end.h.sessions && end.h.sessions[id].machine == m && end.h.sessions[id].status.Running?
  {
    assert multiset{} + multiset{m} - multiset{m} == multiset{};
    assert map[id := m] - {id} == map[];
  }
}
