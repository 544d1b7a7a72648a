/** What each step of the session protocol leaves in every record, field by field. */
module SessionMeaning {
  import opened SessionStore
  import opened SessionLifecycle

  /** The handshake carries an instance id, the machine has one on record, and they differ. */
  predicate ComesBackOther(h: Hub, m: MachineId, instance: InstanceId) {
    m in h.machines && h.machines[m] != "" && instance != "" && h.machines[m] != instance
  }

  /** A record after a step that keeps it. */
  function RecordAfter(h: Hub, e: Event, id: SessionId): Session
    requires id in h.sessions
  {
    var s := h.sessions[id];
    match e
    case Hello(m, instance, _, reopened, ts) =>
      if s.machine != m || s.status == Exited || s.status == Lost then s
      else if !ComesBackOther(h, m, instance) || (s.autoRelaunch && id in reopened) then
        Session(m, Running, s.autoRelaunch, s.exitCode, s.lastActive)
      else Session(m, Lost, s.autoRelaunch, s.exitCode, ts)
    case Teardown(m, conn, ts) =>
      if m in h.conns && h.conns[m] == conn && s.machine == m && s.status == Running then
        Session(m, Disconnected, s.autoRelaunch, s.exitCode, ts)
      else s
    case Open(m, added, ts) => if m in h.conns && id == added then Session(m, Running, false, 0, ts) else s
    case Exit(ended, code, ts) => if id == ended then Session(s.machine, Exited, s.autoRelaunch, code, ts) else s
    case Delete(_, _) => s
    case SetAuto(changed, auto) =>
      if id == changed then Session(s.machine, s.status, auto, s.exitCode, s.lastActive) else s
  }

  /** Every record after every step: a session appears only by an open on a connected machine and goes only by a
      delete, forced or of an ended session, and each that stays has the fields said here. */
  lemma StepRecords(h: Hub, e: Event, id: SessionId)
    ensures var n := Step(h, e);
            && (id in n.sessions <==>
                  || (id in h.sessions && !(e.Delete? && e.id == id
                                            && (e.force || h.sessions[id].status in {Exited, Lost})))
                  || (e.Open? && e.id == id && e.m in h.conns))
            && (id in n.sessions && id in h.sessions ==> n.sessions[id] == RecordAfter(h, e, id))
            && (id in n.sessions && id !in h.sessions ==> n.sessions[id] == Session(e.m, Running, false, 0, e.ts))
  {
  }

  /** And the connections, the instances and nothing else: only a handshake records either, and only the teardown
      of the live connection removes one. */
  lemma StepRegistry(h: Hub, e: Event)
    ensures var n := Step(h, e);
            && n.machines == (if e.Hello? then h.machines[e.m := e.instance] else h.machines)
            && n.conns == (if e.Hello? then h.conns[e.m := e.conn]
                           else if e.Teardown? && e.m in h.conns && h.conns[e.m] == e.conn then h.conns - {e.m}
                           else h.conns)
            && n.made == (if e.Hello? then h.made + {e.conn} else h.made)
  {
  }

  /** A session of the machine is lost after a handshake if and only if it was lost before, or the machine comes
      back as another instance and the session was running or disconnected and was not both to be relaunched and
      reopened. */
  lemma LostIff(h: Hub, e: Event, id: SessionId)
    requires e.Hello? && id in h.sessions && h.sessions[id].machine == e.m
    ensures var s := h.sessions[id];
            Step(h, e).sessions[id].status == Lost <==>
            || s.status == Lost
            || (ComesBackOther(h, e.m, e.instance) && s.status in {Running, Disconnected}
                && !(s.autoRelaunch && id in e.reopened))
  {
    StepRecords(h, e, id);
  }
}
