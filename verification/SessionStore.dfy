/** The hub's session records (internal/hub/adapter/secondary/memory/session_store.go) and the use case
    that reconciles them with a restarted agent (internal/hub/app/sessions/usecase.go). */
module SessionStore {
  import opened Basics

  type SessionId = int
  type MachineId = int

  datatype Status = Running | Disconnected | Exited | Lost

  datatype Session = Session(machine: MachineId, status: Status, autoRelaunch: bool, exitCode: int, lastActive: int)

  type Records = map<SessionId, Session>

  datatype Error = NotFound | SessionRunning | NoError

  function NewSession(machine: MachineId, now: int): Session { Session(machine, Running, false, 0, now) }

  /** The shell may still be alive. */
  predicate Live(s: Session) { s.status.Running? || s.status.Disconnected? }

  // ---------- one record ----------

  function AsLost(s: Session, ts: int): Session { s.(status := Lost, lastActive := ts) }

  function AsDisconnected(s: Session, ts: int): Session { s.(status := Disconnected, lastActive := ts) }

  function AsRunning(s: Session): Session { s.(status := Running) }

  function AsExited(s: Session, code: int, ts: int): Session {
    s.(status := Exited, exitCode := code, lastActive := ts)
  }

  // ---------- bulk updates ----------

  /** A connection dropped: the machine's running sessions become disconnected. */
  function Dropped(data: Records, m: MachineId, ts: int): Records {
    map id | id in data ::
      if data[id].machine == m && data[id].status.Running? then AsDisconnected(data[id], ts) else data[id]
  }

  /** The blip is over: the machine's disconnected sessions run again. */
  function Restored(data: Records, m: MachineId): Records {
    map id | id in data ::
      if data[id].machine == m && data[id].status.Disconnected? then AsRunning(data[id]) else data[id]
  }

  /** The machine's live sessions without auto-relaunch are lost. */
  function Swept(data: Records, m: MachineId, ts: int): Records {
    map id | id in data ::
      if data[id].machine == m && Live(data[id]) && !data[id].autoRelaunch then AsLost(data[id], ts) else data[id]
  }

  /** A restart: a live session runs again when it is auto-relaunched and the agent reopened it, and is
      lost otherwise. */
  function Reconciled(data: Records, m: MachineId, reopened: set<SessionId>, ts: int): Records {
    map id | id in data ::
      if data[id].machine != m || !Live(data[id]) then data[id]
      else if data[id].autoRelaunch && id in reopened then AsRunning(data[id])
      else AsLost(data[id], ts)
  }

  /** What becomes of a session when its machine restarts, field by field: a live one runs again, its time kept,
      when it is auto-relaunched and reopened, and is lost at this time otherwise; without the list of sessions
      those to be relaunched stay as they are. */
  function RestartOutcome(s: Session, m: MachineId, fetched: bool, reopened: bool, ts: int): Session {
    if s.machine != m || s.status == Exited || s.status == Lost then s
    else if !s.autoRelaunch || (fetched && !reopened) then Session(m, Lost, s.autoRelaunch, s.exitCode, ts)
    else if fetched then Session(m, Running, true, s.exitCode, s.lastActive)
    else s
  }

  ghost predicate Revivable(data: Records, m: MachineId, id: SessionId) {
    id in data && data[id].machine == m && Live(data[id]) && data[id].autoRelaunch
  }

  /** Distinct ids: the records a restart reopens, in any order. */
  ghost predicate Lists(ids: seq<SessionId>, data: Records, m: MachineId) {
    && (forall id :: id in ids <==> Revivable(data, m, id))
    && (forall i, j :: 0 <= i < j < |ids| ==> ids[i] != ids[j])
  }

  lemma OutcomesAre(data: Records, m: MachineId, reopened: set<SessionId>, ts: int)
    ensures forall id :: id in data ==>
              && Reconciled(data, m, reopened, ts)[id] == RestartOutcome(data[id], m, true, id in reopened, ts)
              && Swept(data, m, ts)[id] == RestartOutcome(data[id], m, false, id in reopened, ts)
  {
  }

  lemma EqualIfAlike(a: Records, b: Records)
    ensures (a.Keys == b.Keys && forall id :: id in a.Keys ==> a[id] == b[id]) ==> a == b
  {
    if a.Keys == b.Keys && forall id :: id in a.Keys ==> a[id] == b[id] { assert a == b; }
  }

  lemma SameRecords(a: Records, b: Records)
    requires a.Keys == b.Keys && forall id :: id in a ==> a[id] == b[id]
    ensures a == b
  {
    EqualIfAlike(a, b);
  }

  class Store {
    var data: Records

    constructor ()
      ensures data == map[]
    {
      data := map[];
    }

    method Create(id: SessionId, s: Session)
      modifies this
      ensures data == old(data)[id := s]
    {
      data := data[id := s];
    }

    method SetExited(id: SessionId, code: int, ts: int) returns (e: Error)
      modifies this
      ensures e == if id in old(data) then NoError else NotFound
      ensures data == if id in old(data) then old(data)[id := AsExited(old(data)[id], code, ts)] else old(data)
      ensures id in data ==>
                var s := old(data)[id]; data[id] == Session(s.machine, Exited, s.autoRelaunch, code, ts)
    {
      if id !in data { return NotFound; }
      data := data[id := AsExited(data[id], code, ts)];
      return NoError;
    }

    method SetRunning(id: SessionId) returns (e: Error)
      modifies this
      ensures e == if id in old(data) then NoError else NotFound
      ensures data == if id in old(data) then old(data)[id := AsRunning(old(data)[id])] else old(data)
      ensures id in data ==>
                var s := old(data)[id];
                data[id] == Session(s.machine, Running, s.autoRelaunch, s.exitCode, s.lastActive)
    {
      if id !in data { return NotFound; }
      data := data[id := AsRunning(data[id])];
      return NoError;
    }

    method SetLost(id: SessionId, ts: int) returns (e: Error)
      modifies this
      ensures e == if id in old(data) then NoError else NotFound
      ensures data == if id in old(data) then old(data)[id := AsLost(old(data)[id], ts)] else old(data)
      ensures id in data ==>
                var s := old(data)[id]; data[id] == Session(s.machine, Lost, s.autoRelaunch, s.exitCode, ts)
    {
      if id !in data { return NotFound; }
      data := data[id := AsLost(data[id], ts)];
      return NoError;
    }

    /** Only an ended session may be deleted, unless the deletion is forced. */
    method Delete(id: SessionId, force: bool) returns (e: Error)
      modifies this
      ensures e.NotFound? <==> id !in old(data)
      ensures e.SessionRunning? <==> id in old(data) && Live(old(data)[id]) && !force
      ensures data == if e.NoError? then old(data) - {id} else old(data)
    {
      if id !in data { return NotFound; }
      if !force && (data[id].status.Running? || data[id].status.Disconnected?) { return SessionRunning; }
      data := data - {id};
      return NoError;
    }

    method MarkRunningLost(m: MachineId, ts: int)
      modifies this
      ensures data == Swept(old(data), m, ts)
      ensures data.Keys == old(data).Keys
      ensures forall id :: id in old(data) ==>
                var s := old(data)[id];
                data[id] == if s.machine == m && s.status in {Running, Disconnected} && !s.autoRelaunch
                            then Session(m, Lost, false, s.exitCode, ts) else s
    {
      var todo := data.Keys;
      while todo != {}
        invariant todo <= old(data).Keys && data.Keys == old(data).Keys
        invariant forall id :: id in data ==>
                data[id] == if id in todo then old(data)[id] else Swept(old(data), m, ts)[id]
      {
        SomeMember(todo);
        var id :| id in todo;
        var s := data[id];
        if s.machine == m && (s.status.Running? || s.status.Disconnected?) && !s.autoRelaunch {
          data := data[id := AsLost(s, ts)];
        }
        todo := todo - {id};
      }
      SameRecords(data, Swept(old(data), m, ts));
    }

    method MarkRunningDisconnected(m: MachineId, ts: int)
      modifies this
      ensures data == Dropped(old(data), m, ts)
      ensures data.Keys == old(data).Keys
      ensures forall id :: id in old(data) ==>
                var s := old(data)[id];
                data[id] == if s.machine == m && s.status == Running
                            then Session(m, Disconnected, s.autoRelaunch, s.exitCode, ts) else s
    {
      var todo := data.Keys;
      while todo != {}
        invariant todo <= old(data).Keys && data.Keys == old(data).Keys
        invariant forall id :: id in data ==>
                data[id] == if id in todo then old(data)[id] else Dropped(old(data), m, ts)[id]
      {
        SomeMember(todo);
        var id :| id in todo;
        var s := data[id];
        if s.machine == m && s.status.Running? {
          data := data[id := AsDisconnected(s, ts)];
        }
        todo := todo - {id};
      }
      SameRecords(data, Dropped(old(data), m, ts));
    }

    method MarkDisconnectedRunning(m: MachineId)
      modifies this
      ensures data == Restored(old(data), m)
      ensures data.Keys == old(data).Keys
      ensures forall id :: id in old(data) ==>
                var s := old(data)[id];
                data[id] == if s.machine == m && s.status == Disconnected
                            then Session(m, Running, s.autoRelaunch, s.exitCode, s.lastActive) else s
    {
      var todo := data.Keys;
      while todo != {}
        invariant todo <= old(data).Keys && data.Keys == old(data).Keys
        invariant forall id :: id in data ==>
                data[id] == if id in todo then old(data)[id] else Restored(old(data), m)[id]
      {
        SomeMember(todo);
        var id :| id in todo;
        var s := data[id];
        if s.machine == m && s.status.Disconnected? {
          data := data[id := AsRunning(s)];
        }
        todo := todo - {id};
      }
      SameRecords(data, Restored(old(data), m));
    }

    method AutoRelaunchSessions(m: MachineId) returns (ids: seq<SessionId>)
      ensures Lists(ids, data, m)
    {
      ids := [];
      var todo := data.Keys;
      while todo != {}
        invariant todo <= data.Keys
        invariant forall id :: id in ids <==> Revivable(data, m, id) && id !in todo
        invariant forall i, j :: 0 <= i < j < |ids| ==> ids[i] != ids[j]
      {
        SomeMember(todo);
        var id :| id in todo;
        var s := data[id];
        if s.machine == m && (s.status.Running? || s.status.Disconnected?) && s.autoRelaunch {
          ids := ids + [id];
        }
        todo := todo - {id};
      }
    }

    /** Reopen the auto-relaunched sessions one by one, then sweep the rest. `reopened` are the sessions the
        agent accepts; when the list of sessions cannot be fetched, only the sweep happens. */
    method ReconcileMachineRestart(m: MachineId, reopened: set<SessionId>, fetched: bool, ts: int)
      modifies this
      ensures data == if fetched then Reconciled(old(data), m, reopened, ts) else Swept(old(data), m, ts)
      ensures data.Keys == old(data).Keys && forall id :: id in data ==>
                data[id] == RestartOutcome(old(data)[id], m, fetched, id in reopened, ts)
    {
      hide RestartOutcome;
      OutcomesAre(data, m, reopened, ts);
      if !fetched {
        MarkRunningLost(m, ts);
        return;
      }
      var revivals := AutoRelaunchSessions(m);
      for i := 0 to |revivals|
        invariant data.Keys == old(data).Keys
        invariant forall id :: id in data ==>
          data[id] == if id in revivals[..i] then Reconciled(old(data), m, reopened, ts)[id] else old(data)[id]
      {
        var id := revivals[i];
        assert Revivable(old(data), m, id) && id !in revivals[..i];
        if id !in reopened {
          var _ := SetLost(id, ts);
        } else {
          var _ := SetRunning(id);
        }
        assert revivals[..i + 1] == revivals[..i] + [id];
      }
      assert revivals[..|revivals|] == revivals;
      MarkRunningLost(m, ts);
      SameRecords(data, Reconciled(old(data), m, reopened, ts));
    }
  }

  /** When the list cannot be fetched, the sweep leaves no live session behind exactly when none of them is
      to be relaunched: the others keep the status they had. */
  lemma SweepLeavesIff(data: Records, m: MachineId, ts: int)
    ensures (forall id :: id in data && data[id].machine == m ==> !Live(Swept(data, m, ts)[id]))
            <==> (forall id :: !Revivable(data, m, id))
    ensures forall id :: Revivable(data, m, id) ==> Swept(data, m, ts)[id] == data[id]
  {
    forall id | Revivable(data, m, id) ensures Swept(data, m, ts)[id] == data[id] {}
    forall id | id in data && data[id].machine == m ensures Live(Swept(data, m, ts)[id]) <==> Revivable(data, m, id) {}
    if id :| Revivable(data, m, id) {
      assert id in data && data[id].machine == m && Live(Swept(data, m, ts)[id]);
    }
  }
}
