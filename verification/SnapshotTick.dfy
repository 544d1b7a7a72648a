/** The ticks of the system are ticks of the producer. */
module SnapshotTick {
  import M = EmulatorModel
  import opened Revision
  import opened SnapshotProducer

  /** What rendering would return now. */
  ghost function Answers(sessions: map<Id, M.Emu>): map<Id, Shot> {
    map id | id in sessions :: RenderShot(sessions[id].term)
  }

  /** Between the lock and the end of a tick that nothing interrupts: `k` entries of `revs` are done. */
  ghost predicate Midway(s: System, revs: seq<SessionRev>, k: nat, m: System)
    requires k <= |revs|
  {
    && m.tick == Tick(revs[k..], s.sessions.Keys, true) && m.enabled == s.enabled && m.used == s.used
    && s.sent <= m.sent
    && SendAll(s.lastRev, revs[..k], Answers(s.sessions)) == Pass(m.lastRev, m.sent[|s.sent|..])
    && m.sessions.Keys == s.sessions.Keys
    && (forall i :: k <= i < |revs| && revs[i].id in s.sessions ==> m.sessions[revs[i].id] == s.sessions[revs[i].id])
  }

  lemma SendIs(m: System)
    requires m.tick.Tick? && m.tick.locked && m.tick.todo != []
    ensures Enabled(m, TickSend) && Next(m, TickSend) == Send(m, m.tick.todo[0], m.tick.(todo := m.tick.todo[1..]))
  {
    hide M.Run, M.WfEmu, M.Rendered, RenderShot;
  }

  /** What one turn of the send loop changes. */
  lemma SendParts(m: System, sr: SessionRev, rest: Tick)
    ensures var n, a := Send(m, sr, rest), Answer(Answers(m.sessions), sr.id);
            && n.lastRev == Record(m.lastRev, sr, a) && n.sent == m.sent + Emit(m.lastRev, sr, a)
            && n.tick == rest && n.enabled == m.enabled && n.used == m.used
            && n.sessions.Keys == m.sessions.Keys
            && forall id :: id in m.sessions && id != sr.id ==> n.sessions[id] == m.sessions[id]
  {
    hide RenderShot, M.Rendered, Due;
    assert m.sent + [] == m.sent;
  }

  lemma SameAnswer(a: map<Id, M.Emu>, b: map<Id, M.Emu>, id: Id)
    requires (id in a <==> id in b) && (id in a ==> a[id] == b[id])
    ensures Answer(Answers(a), id) == Answer(Answers(b), id)
  {
    hide RenderShot;
  }

  lemma PassSnoc(lastRev: map<Id, nat>, revs: seq<SessionRev>, k: nat, answers: map<Id, Shot>, p: Pass)
    requires k < |revs| && p == SendAll(lastRev, revs[..k], answers)
    ensures var a := Answer(answers, revs[k].id);
            SendAll(lastRev, revs[..k + 1], answers) ==
            Pass(Record(p.lastRev, revs[k], a), p.sent + Emit(p.lastRev, revs[k], a))
  {
    hide Record, Emit;
    assert revs[..k + 1][..k] == revs[..k] && revs[..k + 1][k] == revs[k];
  }

  lemma MidwayStep(s: System, revs: seq<SessionRev>, k: nat, m: System)
    requires k < |revs| && DistinctIds(revs) && Midway(s, revs, k, m)
    ensures Enabled(m, TickSend) && Midway(s, revs, k + 1, Next(m, TickSend))
  {
    hide Send, Record, Emit, Answers, Answer, SendAll, Next, Enabled;
    SendIs(m);
    var sr := revs[k];
    assert revs[k..][0] == sr && revs[k..][1..] == revs[k + 1..];
    SendParts(m, sr, m.tick.(todo := revs[k + 1..]));
    var n := Next(m, TickSend);
    SameAnswer(m.sessions, s.sessions, sr.id);
    PassSnoc(s.lastRev, revs, k, Answers(s.sessions), Pass(m.lastRev, m.sent[|s.sent|..]));
    var extra := Emit(m.lastRev, sr, Answer(Answers(s.sessions), sr.id));
    assert n.sent[|s.sent|..] == m.sent[|s.sent|..] + extra;
    forall i | k + 1 <= i < |revs| && revs[i].id in s.sessions
      ensures n.sessions[revs[i].id] == s.sessions[revs[i].id]
    {
      assert revs[i].id != sr.id;
    }
  }

  lemma PathSnoc(s: System, evs: seq<Event>, m: System, ev: Event)
    requires Path(s, evs, m) && Enabled(m, ev)
    ensures Path(s, evs + [ev], Next(m, ev))
  {
    hide Next, Enabled;
    assert (evs + [ev])[..|evs|] == evs;
  }

  function Sends(k: nat): seq<Event> { if k == 0 then [] else Sends(k - 1) + [TickSend] }

  lemma {:induction false} ManySends(s: System, evs: seq<Event>, start: System, revs: seq<SessionRev>, k: nat)
    returns (m: System)
    requires Path(s, evs, start) && DistinctIds(revs) && k <= |revs| && Midway(s, revs, 0, start)
    ensures Path(s, evs + Sends(k), m) && Midway(s, revs, k, m)
  {
    hide Path, Midway, Enabled, Next;
    if k == 0 {
      assert evs + Sends(0) == evs;
      m := start;
    } else {
      var n := ManySends(s, evs, start, revs, k - 1);
      MidwayStep(s, revs, k - 1, n);
      PathSnoc(s, evs + Sends(k - 1), n, TickSend);
      assert evs + Sends(k) == evs + Sends(k - 1) + [TickSend];
      m := Next(n, TickSend);
    }
  }

  function Reads(k: nat): seq<Event> { if k == 0 then [] else Reads(k - 1) + [TickRead] }

  /** The events of a tick up to its taking the producer's lock, and of a whole tick, that nothing interrupts. */
  function Opens(order: seq<Id>): seq<Event> {
    [TickStart, TickList(order)] + Reads(|order|) + [TickListed] + [TickLock]
  }

  function WholeTick(order: seq<Id>): seq<Event> { Opens(order) + Sends(|order|) + [TickEnd] }

  /** The order in which a tick lists the sessions. */
  predicate Covers(s: System, order: seq<Id>) {
    && Distinct(order)
    && (forall i :: 0 <= i < |order| ==> order[i] in s.sessions)
    && (forall id :: id in s.sessions ==> id in order)
  }

  /** The system reading, with `k` revisions read. */
  function ReadUpTo(s: System, order: seq<Id>, k: nat): System
    requires k <= |order| && forall i :: 0 <= i < |order| ==> order[i] in s.sessions
  {
    s.(tick := Reading(order[k..], Revs(s.sessions, order)[..k], s.sessions.Keys))
  }

  lemma ReadStep(s: System, order: seq<Id>, k: nat)
    requires k < |order| && forall i :: 0 <= i < |order| ==> order[i] in s.sessions
    ensures Enabled(ReadUpTo(s, order, k), TickRead)
    ensures Next(ReadUpTo(s, order, k), TickRead) == ReadUpTo(s, order, k + 1)
  {
    hide M.Run, M.WfEmu, M.Rev;
    var revs := Revs(s.sessions, order);
    assert order[k..][0] == order[k] && order[k..][1..] == order[k + 1..];
    assert revs[..k + 1] == revs[..k] + [revs[k]];
  }

  lemma StartIs(s: System, order: seq<Id>)
    requires s.tick.NoTick? && s.enabled && Covers(s, order)
    ensures Enabled(s, TickStart) && Next(s, TickStart) == s.(tick := Started)
    ensures var r := s.(tick := Started);
            Enabled(r, TickList(order)) && Next(r, TickList(order)) == s.(tick := Reading(order, [], s.sessions.Keys))
  {
    hide M.Run, M.WfEmu;
  }

  lemma ListStep(s: System, order: seq<Id>)
    requires s.tick.NoTick? && s.enabled && Covers(s, order)
    ensures Path(s, [TickStart, TickList(order)], ReadUpTo(s, order, 0))
  {
    hide Path, Next, Enabled, M.Rev;
    StartIs(s, order);
    NoEvents(s);
    PathSnoc(s, [], s, TickStart);
    PathSnoc(s, [] + [TickStart], s.(tick := Started), TickList(order));
    assert [] + [TickStart] + [TickList(order)] == [TickStart, TickList(order)];
    assert order[0..] == order && Revs(s.sessions, order)[..0] == [];
  }

  lemma NoEvents(s: System)
    ensures Path(s, [], s)
  {
  }

  lemma {:induction false} ManyReads(s: System, order: seq<Id>, k: nat)
    requires s.tick.NoTick? && s.enabled && Covers(s, order) && k <= |order|
    ensures Path(s, [TickStart, TickList(order)] + Reads(k), ReadUpTo(s, order, k))
  {
    hide Path, Next, Enabled;
    var evs := [TickStart, TickList(order)];
    if k == 0 {
      ListStep(s, order);
      assert evs + Reads(0) == evs;
    } else {
      ManyReads(s, order, k - 1);
      ReadStep(s, order, k - 1);
      PathSnoc(s, evs + Reads(k - 1), ReadUpTo(s, order, k - 1), TickRead);
      assert evs + Reads(k) == evs + Reads(k - 1) + [TickRead];
    }
  }

  lemma LockStep(s: System, order: seq<Id>)
    requires forall i :: 0 <= i < |order| ==> order[i] in s.sessions
    ensures var r, revs := ReadUpTo(s, order, |order|), Revs(s.sessions, order);
            && Enabled(r, TickListed) && Enabled(Next(r, TickListed), TickLock)
            && Next(Next(r, TickListed), TickLock) == s.(tick := Tick(revs, s.sessions.Keys, true))
  {
    hide M.Run, M.WfEmu, M.Rev;
    assert order[|order|..] == [];
    var revs := Revs(s.sessions, order);
    assert revs[..|order|] == revs;
  }

  lemma Opening(s: System, order: seq<Id>) returns (m: System)
    requires s.tick.NoTick? && s.enabled && Covers(s, order)
    ensures var revs := Revs(s.sessions, order);
            Path(s, Opens(order), m) && DistinctIds(revs) && Midway(s, revs, 0, m)
  {
    hide Path, Next, Enabled, RenderShot, M.Rev;
    ManyReads(s, order, |order|);
    LockStep(s, order);
    var r, revs := ReadUpTo(s, order, |order|), Revs(s.sessions, order);
    var evs := [TickStart, TickList(order)] + Reads(|order|);
    PathSnoc(s, evs, r, TickListed);
    PathSnoc(s, evs + [TickListed], Next(r, TickListed), TickLock);
    m := Next(Next(r, TickListed), TickLock);
    assert revs[0..] == revs && revs[..0] == [] && s.sent[|s.sent|..] == [];
  }

  lemma SameLive(sessions: map<Id, M.Emu>, order: seq<Id>)
    requires forall i :: 0 <= i < |order| ==> order[i] in sessions
    requires forall id :: id in sessions ==> id in order
    ensures Ids(Revs(sessions, order)) == sessions.Keys
  {
    hide M.Rev;
    var revs := Revs(sessions, order);
    forall id ensures id in Ids(revs) <==> id in sessions.Keys {
      if id in sessions {
        var i :| 0 <= i < |order| && order[i] == id;
        assert revs[i].id == id;
      }
    }
  }

  /** A tick of the system that nothing interrupts is a tick of the producer: reading the revisions, taking the
      lock, the turns of the send loop and the pruning send and record exactly what RunOnce does. */
  lemma WholeTickIsRunOnce(s: System, order: seq<Id>) returns (end: System)
    requires s.tick.NoTick? && s.enabled && Covers(s, order)
    ensures Path(s, WholeTick(order), end)
    ensures var revs := Revs(s.sessions, order);
            var p := SendAll(s.lastRev, revs, Answers(s.sessions));
            && end.sent == s.sent + p.sent && end.lastRev == Prune(p.lastRev, Ids(revs))
            && end.tick.NoTick? && end.enabled == s.enabled && end.sessions.Keys == s.sessions.Keys
  {
    hide Path, RenderShot, M.Rev, SendAll, Next, Midway, Enabled, Answers;
    var revs := Revs(s.sessions, order);
    var m := Opening(s, order);
    m := ManySends(s, Opens(order), m, revs, |order|);
    SameLive(s.sessions, order);
    Closing(s, revs, m);
    PathSnoc(s, Opens(order) + Sends(|order|), m, TickEnd);
    end := Next(m, TickEnd);
  }

  lemma EndIs(m: System)
    requires m.tick.Tick? && m.tick.locked && m.tick.todo == []
    ensures Enabled(m, TickEnd) && Next(m, TickEnd) == m.(lastRev := Prune(m.lastRev, m.tick.live), tick := NoTick)
  {
    hide M.Run, M.WfEmu, Prune;
  }

  /** The end of a tick. */
  lemma Closing(s: System, revs: seq<SessionRev>, m: System)
    requires Midway(s, revs, |revs|, m) && Ids(revs) == s.sessions.Keys
    ensures Enabled(m, TickEnd)
    ensures var end, p := Next(m, TickEnd), SendAll(s.lastRev, revs, Answers(s.sessions));
            && end.sent == s.sent + p.sent && end.lastRev == Prune(p.lastRev, Ids(revs))
            && end.tick.NoTick? && end.enabled == s.enabled && end.sessions.Keys == s.sessions.Keys
  {
    hide SendAll, Answers, Prune, Next, Enabled, Ids;
    EndIs(m);
    var p := SendAll(s.lastRev, revs, Answers(s.sessions));
    WholeList(s, revs, m, p);
  }

  lemma WholeList(s: System, revs: seq<SessionRev>, m: System, p: Pass)
    requires Midway(s, revs, |revs|, m) && p == SendAll(s.lastRev, revs, Answers(s.sessions))
    ensures m.tick == Tick([], s.sessions.Keys, true) && m.lastRev == p.lastRev && m.sent == s.sent + p.sent
  {
    hide SendAll, Answers;
    assert revs[|revs|..] == [] && revs[..|revs|] == revs;
    assert s.sent + m.sent[|s.sent|..] == m.sent;
  }
}
