/** The change-gated snapshot producer (internal/agent/app/snapshot/producer.go) over live emulators:
    in every interleaving of output, resizes, ticks and toggles, what was last sent for a session whose
    revision has not moved is exactly its current screen. Sends are taken to succeed and session ids
    are never reused. */
module SnapshotProducer {
  import opened Basics
  import opened Terminal
  import Buffers
  import M = EmulatorModel
  import opened Revision

  type Id = int

  /** One entry of RunningScreenRevs. */
  datatype SessionRev = SessionRev(id: Id, rev: nat)

  datatype Sent = Sent(id: Id, shot: Shot)

  // ---------- one tick, as functions ----------

  /** A session needs a snapshot if it has none since the last enable, or its revision moved. */
  predicate Due(lastRev: map<Id, nat>, sr: SessionRev) {
    sr.id !in lastRev || lastRev[sr.id] != sr.rev
  }

  /** `answer` is what RenderScreen returns: nothing for a session that has gone. */
  function Record(lastRev: map<Id, nat>, sr: SessionRev, answer: Option<Shot>): map<Id, nat> {
    if Due(lastRev, sr) && answer.Some? then lastRev[sr.id := answer.value.rev] else lastRev
  }

  function Emit(lastRev: map<Id, nat>, sr: SessionRev, answer: Option<Shot>): seq<Sent> {
    if Due(lastRev, sr) && answer.Some? then [Sent(sr.id, answer.value)] else []
  }

  function Prune(lastRev: map<Id, nat>, live: set<Id>): map<Id, nat> {
    map id | id in lastRev && id in live :: lastRev[id]
  }

  function Ids(revs: seq<SessionRev>): (r: set<Id>)
    ensures forall i :: 0 <= i < |revs| ==> revs[i].id in r
    ensures forall id :: id in r ==> exists i :: 0 <= i < |revs| && revs[i].id == id
  {
    set i | 0 <= i < |revs| :: revs[i].id
  }

  datatype Pass = Pass(lastRev: map<Id, nat>, sent: seq<Sent>)

  function Answer(answers: map<Id, Shot>, id: Id): Option<Shot> {
    if id in answers then Some(answers[id]) else None
  }

  /** The send loop over the first entries of `revs`. */
  function SendAll(lastRev: map<Id, nat>, revs: seq<SessionRev>, answers: map<Id, Shot>): Pass {
    if revs == [] then Pass(lastRev, [])
    else
      var p := SendAll(lastRev, revs[..|revs| - 1], answers);
      var sr := revs[|revs| - 1];
      var a := Answer(answers, sr.id);
      Pass(Record(p.lastRev, sr, a), p.sent + Emit(p.lastRev, sr, a))
  }

  // ---------- what a tick does ----------

  predicate DistinctIds(revs: seq<SessionRev>) {
    forall i, j :: 0 <= i < j < |revs| ==> revs[i].id != revs[j].id
  }

  /** The session is due by what was recorded before the tick, and its screen could be rendered. */
  predicate Served(lastRev: map<Id, nat>, answers: map<Id, Shot>, sr: SessionRev) {
    Due(lastRev, sr) && sr.id in answers
  }

  ghost function ServedIds(lastRev: map<Id, nat>, revs: seq<SessionRev>, answers: map<Id, Shot>): (r: set<Id>)
    ensures r <= answers.Keys
  {
    set sr | sr in revs && Served(lastRev, answers, sr) :: sr.id
  }

  /** The entries that are served, in their order. */
  function Chosen(lastRev: map<Id, nat>, revs: seq<SessionRev>, answers: map<Id, Shot>): (r: seq<SessionRev>)
    ensures forall i :: 0 <= i < |r| ==> r[i].id in answers
  {
    if revs == [] then []
    else
      var rest, last := Chosen(lastRev, revs[..|revs| - 1], answers), revs[|revs| - 1];
      if Served(lastRev, answers, last) then rest + [last] else rest
  }

  /** The record after a tick: the revision of the snapshot for the sessions served, the old one for the
      others. */
  ghost predicate RecordIs(after: map<Id, nat>, lastRev: map<Id, nat>, served: set<Id>, answers: map<Id, Shot>)
    requires served <= answers.Keys
  {
    && (forall id :: id in after <==> id in lastRev || id in served)
    && (forall id :: id in after ==> after[id] == if id in served then answers[id].rev else lastRev[id])
  }

  lemma ServedSnoc(lastRev: map<Id, nat>, revs: seq<SessionRev>, answers: map<Id, Shot>)
    requires revs != []
    ensures var last := revs[|revs| - 1];
            ServedIds(lastRev, revs, answers) ==
            ServedIds(lastRev, revs[..|revs| - 1], answers) + if Served(lastRev, answers, last) then {last.id} else {}
  {
    hide Served;
    var before, last := revs[..|revs| - 1], revs[|revs| - 1];
    assert revs == before + [last];
    assert forall sr :: sr in revs <==> sr in before || sr == last;
  }

  lemma NotBefore(lastRev: map<Id, nat>, revs: seq<SessionRev>, answers: map<Id, Shot>)
    requires DistinctIds(revs) && revs != []
    ensures revs[|revs| - 1].id !in ServedIds(lastRev, revs[..|revs| - 1], answers)
  {
    hide Served;
  }

  /** What a tick over distinct sessions records. */
  lemma {:induction false} SendAllRecords(lastRev: map<Id, nat>, revs: seq<SessionRev>, answers: map<Id, Shot>)
    requires DistinctIds(revs)
    ensures RecordIs(SendAll(lastRev, revs, answers).lastRev, lastRev, ServedIds(lastRev, revs, answers), answers)
  {
    hide Due, ServedIds;
    if revs == [] {
      NoneServed(lastRev, answers);
    } else {
      SendAllRecords(lastRev, revs[..|revs| - 1], answers);
      ServedSnoc(lastRev, revs, answers);
      NotBefore(lastRev, revs, answers);
      SameDue(SendAll(lastRev, revs[..|revs| - 1], answers).lastRev, lastRev, revs[|revs| - 1]);
    }
  }

  lemma NoneServed(lastRev: map<Id, nat>, answers: map<Id, Shot>)
    ensures ServedIds(lastRev, [], answers) == {}
  {
  }

  /** The snapshots of a list of entries. */
  function Shots(chosen: seq<SessionRev>, answers: map<Id, Shot>): seq<Sent>
    requires forall i :: 0 <= i < |chosen| ==> chosen[i].id in answers
  {
    seq(|chosen|, i requires 0 <= i < |chosen| => Sent(chosen[i].id, answers[chosen[i].id]))
  }

  /** A tick over distinct sessions sends, in order, exactly those that were due when it began and could be
      rendered. */
  lemma {:induction false} SendAllSends(lastRev: map<Id, nat>, revs: seq<SessionRev>, answers: map<Id, Shot>)
    requires DistinctIds(revs)
    ensures SendAll(lastRev, revs, answers).sent == Shots(Chosen(lastRev, revs, answers), answers)
  {
    hide Due, ServedIds, RecordIs;
    if revs != [] {
      var before, last := revs[..|revs| - 1], revs[|revs| - 1];
      SendAllSends(lastRev, before, answers);
      SendAllRecords(lastRev, before, answers);
      NotBefore(lastRev, revs, answers);
      var p := SendAll(lastRev, before, answers);
      SameRecord(p.lastRev, lastRev, ServedIds(lastRev, before, answers), answers, last);
    }
  }

  lemma SameRecord(after: map<Id, nat>, lastRev: map<Id, nat>, served: set<Id>, answers: map<Id, Shot>, sr: SessionRev)
    requires served <= answers.Keys && RecordIs(after, lastRev, served, answers) && sr.id !in served
    ensures Due(after, sr) == Due(lastRev, sr)
  {
    SameDue(after, lastRev, sr);
  }

  lemma {:induction false} ChosenMembers(lastRev: map<Id, nat>, revs: seq<SessionRev>, answers: map<Id, Shot>)
    ensures forall sr :: sr in Chosen(lastRev, revs, answers) <==> sr in revs && Served(lastRev, answers, sr)
  {
    hide Served;
    if revs != [] {
      var before, last := revs[..|revs| - 1], revs[|revs| - 1];
      assert revs == before + [last];
      ChosenMembers(lastRev, before, answers);
    }
  }

  lemma PruneKeys(lastRev: map<Id, nat>, live: set<Id>)
    ensures forall id :: id in Prune(lastRev, live) ==> id in live
  {
  }

  /** What a tick does with one entry of its list. */
  ghost predicate EntryDone(
    lastRev: map<Id, nat>, answers: map<Id, Shot>, sr: SessionRev, sent: seq<Sent>, after: map<Id, nat>)
  {
    var due := sr.id !in lastRev || lastRev[sr.id] != sr.rev;
    if due && sr.id in answers
    then Sent(sr.id, answers[sr.id]) in sent && sr.id in after && after[sr.id] == answers[sr.id].rev
    else
      && (forall s :: s in sent ==> s.id != sr.id)
      && (sr.id in after <==> sr.id in lastRev)
      && (sr.id in after ==> after[sr.id] == lastRev[sr.id])
  }

  lemma TickEntry(lastRev: map<Id, nat>, revs: seq<SessionRev>, answers: map<Id, Shot>, after: map<Id, nat>, k: nat)
    requires DistinctIds(revs) && k < |revs|
    requires RecordIs(after, lastRev, ServedIds(lastRev, revs, answers), answers)
    ensures EntryDone(lastRev, answers, revs[k], Shots(Chosen(lastRev, revs, answers), answers),
                      Prune(after, Ids(revs)))
  {
    hide Chosen;
    var sr, chosen := revs[k], Chosen(lastRev, revs, answers);
    var sent := Shots(chosen, answers);
    ChosenMembers(lastRev, revs, answers);
    if Served(lastRev, answers, sr) {
      assert sr in chosen;
      var i :| 0 <= i < |chosen| && chosen[i] == sr;
      assert sent[i] == Sent(sr.id, answers[sr.id]);
    } else {
      forall i | 0 <= i < |chosen| ensures chosen[i].id != sr.id {
        assert chosen[i] in revs && Served(lastRev, answers, chosen[i]);
        var j :| 0 <= j < |revs| && revs[j] == chosen[i];
        assert j != k;
      }
    }
  }

  /** Whether a session is due depends on its own record only. */
  lemma SameDue(a: map<Id, nat>, b: map<Id, nat>, sr: SessionRev)
    requires (sr.id in a <==> sr.id in b) && (sr.id in b ==> a[sr.id] == b[sr.id])
    ensures Due(a, sr) == Due(b, sr)
  {
  }

  // ---------- the producer ----------

  class Producer {
    var enabled: bool
    var lastRev: map<Id, nat>

    constructor ()
      ensures !enabled && lastRev == map[]
    {
      enabled, lastRev := false, map[];
    }

    method SetEnabled(on: bool)
      modifies this
      ensures enabled == on && lastRev == if on then map[] else old(lastRev)
    {
      if on {
        lastRev := map[];
      }
      enabled := on;
    }

    /** One tick. The provider's answers are parameters: `revs` from the cheap pass, `answers` from the
        renders done for the sessions that are due. */
    method RunOnce(revs: seq<SessionRev>, answers: map<Id, Shot>) returns (sent: seq<Sent>)
      modifies this`lastRev
      ensures !old(enabled) ==> sent == [] && lastRev == old(lastRev)
      ensures old(enabled) ==>
                var p := SendAll(old(lastRev), revs, answers);
                sent == p.sent && lastRev == Prune(p.lastRev, Ids(revs))
      ensures old(enabled) && DistinctIds(revs) ==>
                && sent == Shots(Chosen(old(lastRev), revs, answers), answers)
                && exists after :: lastRev == Prune(after, Ids(revs)) &&
                     RecordIs(after, old(lastRev), ServedIds(old(lastRev), revs, answers), answers)
      ensures old(enabled) && DistinctIds(revs) ==>
                forall i :: 0 <= i < |revs| ==> EntryDone(old(lastRev), answers, revs[i], sent, lastRev)
      ensures old(enabled) && DistinctIds(revs) ==>
                forall id :: id in lastRev ==> exists i :: 0 <= i < |revs| && revs[i].id == id
    {
      hide SendAll, RecordIs, Chosen, Shots, ServedIds, Prune, EntryDone;
      if DistinctIds(revs) {
        SendAllSends(lastRev, revs, answers);
        SendAllRecords(lastRev, revs, answers);
        ghost var after := SendAll(lastRev, revs, answers).lastRev;
        forall i | 0 <= i < |revs|
          ensures EntryDone(lastRev, answers, revs[i], Shots(Chosen(lastRev, revs, answers), answers),
                            Prune(after, Ids(revs)))
        {
          TickEntry(lastRev, revs, answers, after, i);
        }
        PruneKeys(after, Ids(revs));
      }
      sent := [];
      if !enabled {
        return;
      }
      var live := Ids(revs);
      sent := SendLoop(revs, answers);
      PruneLoop(live);
    }

    method SendLoop(revs: seq<SessionRev>, answers: map<Id, Shot>) returns (sent: seq<Sent>)
      modifies this`lastRev
      ensures SendAll(old(lastRev), revs, answers) == Pass(lastRev, sent)
    {
      sent := [];
      for i := 0 to |revs|
        invariant SendAll(old(lastRev), revs[..i], answers) == Pass(lastRev, sent)
      {
        var sr := revs[i];
        assert revs[..i + 1][..i] == revs[..i];
        if sr.id !in lastRev || lastRev[sr.id] != sr.rev {
          if sr.id in answers {
            sent := sent + [Sent(sr.id, answers[sr.id])];
            lastRev := lastRev[sr.id := answers[sr.id].rev];
          }
        }
      }
      assert revs[..|revs|] == revs;
    }

    method PruneLoop(live: set<Id>)
      modifies this`lastRev
      ensures lastRev == Prune(old(lastRev), live)
    {
      var todo := set id | id in lastRev;
      while todo != {}
        invariant forall id :: id in todo ==> id in old(lastRev)
        invariant lastRev == map id | id in old(lastRev) && (id in todo || id in live) :: old(lastRev)[id]
        decreases |todo|
      {
        SomeMember(todo);
        var id :| id in todo;
        todo := todo - {id};
        if id !in live {
          lastRev := lastRev - {id};
        }
      }
    }
  }

  // ---------- the system ----------

  /** A tick in progress: it has found production enabled; it is reading the revisions one by one, holding the
      list of sessions; or it has read them all, with what is left to send, who was live when they were listed,
      and whether the producer's lock is held yet. */
  datatype Tick =
    | NoTick
    | Started
    | Reading(left: seq<Id>, got: seq<SessionRev>, listed: set<Id>)
    | Tick(todo: seq<SessionRev>, live: set<Id>, locked: bool)

  /** `sent` is what went out since the last enable, `shown` its last entry per session. */
  datatype System = System(
    sessions: map<Id, M.Emu>, used: set<Id>, enabled: bool, lastRev: map<Id, nat>, tick: Tick,
    sent: seq<Sent>, shown: map<Id, Shot>)

  datatype Event =
    | Open(id: Id, cols: int, rows: int)
    | Exit(id: Id)
    | Output(id: Id, bytes: seq<byte>)
    | Resized(id: Id, cols: int, rows: int)
    | OtherRender(id: Id)
    | SetEnabled(on: bool)
    | TickStart
    | TickList(order: seq<Id>)
    | TickRead
    | TickListed
    | TickLock
    | TickSend
    | TickEnd

  predicate Distinct(s: seq<Id>) {
    forall i, j :: 0 <= i < j < |s| ==> s[i] != s[j]
  }

  predicate DimsOk(cols: int, rows: int) { cols <= Buffers.MAX_DIM && rows <= Buffers.MAX_DIM }

  ghost predicate Enabled(s: System, ev: Event) {
    match ev
    case Open(id, cols, rows) => id !in s.used && DimsOk(cols, rows) && !s.tick.Reading?
    case Exit(id) => id in s.sessions && !s.tick.Reading?
    case Output(id, w) => id in s.sessions && M.WfEmu(s.sessions[id]) && M.Run(s.sessions[id], w).Running?
    case Resized(id, cols, rows) => id in s.sessions && M.WfEmu(s.sessions[id]) && DimsOk(cols, rows)
    case OtherRender(id) => id in s.sessions
    case SetEnabled(_) => !(s.tick.Tick? && s.tick.locked)
    case TickStart => s.tick.NoTick? && s.enabled
    case TickList(order) =>
      && s.tick.Started? && Distinct(order)
      && (forall i :: 0 <= i < |order| ==> order[i] in s.sessions)
      && (forall id :: id in s.sessions ==> id in order)
    case TickRead => s.tick.Reading? && s.tick.left != [] && s.tick.left[0] in s.sessions
    case TickListed => s.tick.Reading? && s.tick.left == []
    case TickLock => s.tick.Tick? && !s.tick.locked
    case TickSend => s.tick.Tick? && s.tick.locked && s.tick.todo != []
    case TickEnd => s.tick.Tick? && s.tick.locked && s.tick.todo == []
  }

  function Revs(sessions: map<Id, M.Emu>, order: seq<Id>): (r: seq<SessionRev>)
    requires forall i :: 0 <= i < |order| ==> order[i] in sessions
    ensures |r| == |order|
    ensures forall i :: 0 <= i < |order| ==> r[i] == SessionRev(order[i], M.Rev(sessions[order[i]].term))
  {
    seq(|order|, i requires 0 <= i < |order| => SessionRev(order[i], M.Rev(sessions[order[i]].term)))
  }

  function Next(s: System, ev: Event): System
    requires Enabled(s, ev)
  {
    match ev
    case Open(id, cols, rows) => s.(sessions := s.sessions[id := M.NewEmu(cols, rows)], used := s.used + {id})
    case Exit(id) => s.(sessions := s.sessions - {id})
    case Output(id, w) => s.(sessions := s.sessions[id := M.Run(s.sessions[id], w).e])
    case Resized(id, cols, rows) =>
      var e := s.sessions[id];
      s.(sessions := s.sessions[id := e.(term := M.Resize(e.term, cols, rows))])
    case OtherRender(id) =>
      var e := s.sessions[id];
      s.(sessions := s.sessions[id := e.(term := M.Rendered(e.term))])
    case SetEnabled(on) =>
      if on then s.(enabled := true, lastRev := map[], sent := [], shown := map[]) else s.(enabled := false)
    case TickStart => s.(tick := Started)
    case TickList(order) => s.(tick := Reading(order, [], s.sessions.Keys))
    case TickRead =>
      var id := s.tick.left[0];
      var sr := SessionRev(id, M.Rev(s.sessions[id].term));
      s.(tick := s.tick.(left := s.tick.left[1..], got := s.tick.got + [sr]))
    case TickListed => s.(tick := Tick(s.tick.got, s.tick.listed, false))
    case TickLock => s.(tick := s.tick.(locked := true))
    case TickSend => Send(s, s.tick.todo[0], s.tick.(todo := s.tick.todo[1..]))
    case TickEnd => s.(lastRev := Prune(s.lastRev, s.tick.live), tick := NoTick)
  }

  /** One turn of the send loop: rendering happens now, after the revisions were read. */
  function Send(s: System, sr: SessionRev, rest: Tick): System {
    if !Due(s.lastRev, sr) || sr.id !in s.sessions then s.(tick := rest)
    else
      var e := s.sessions[sr.id];
      var shot := RenderShot(e.term);
      s.(sessions := s.sessions[sr.id := e.(term := M.Rendered(e.term))],
         lastRev := Record(s.lastRev, sr, Some(shot)),
         sent := s.sent + Emit(s.lastRev, sr, Some(shot)),
         shown := s.shown[sr.id := shot],
         tick := rest)
  }

  // ---------- the invariant ----------

  /** The agreement: the last snapshot of a session is never ahead of it, and if the session's revision
      is still the recorded one, that snapshot is its current screen. */
  predicate Agrees(s: System, id: Id)
    requires id in s.sessions
  {
    id in s.lastRev ==>
      && id in s.shown && s.shown[id].rev == s.lastRev[id]
      && UpToDate(s.sessions[id].term, [s.shown[id]])
  }

  ghost predicate SessionsOk(s: System) {
    && (forall id :: id in s.sessions ==> id in s.used && M.WfEmu(s.sessions[id]) && Agrees(s, id))
    && (forall id :: id in s.sessions && id in s.shown ==> id in s.lastRev)
    && (forall id :: id in s.lastRev ==> id in s.used)
    && (forall id :: id in s.shown ==> id in s.used)
  }

  /** Snapshots of one session since the last enable carry strictly increasing revisions. */
  predicate SentOk(s: System) {
    && (forall i :: 0 <= i < |s.sent| ==>
          s.sent[i].id in s.shown && s.sent[i].shot.rev <= s.shown[s.sent[i].id].rev)
    && (forall i, j :: 0 <= i < j < |s.sent| && s.sent[i].id == s.sent[j].id ==>
          s.sent[i].shot.rev < s.sent[j].shot.rev)
    && (forall id :: id in s.shown ==> Sent(id, s.shown[id]) in s.sent)
  }

  predicate TodoOk(s: System, sr: SessionRev)
    requires s.tick.Tick?
  {
    && sr.id in s.tick.live
    && (sr.id in s.sessions ==>
          && sr.rev <= M.Rev(s.sessions[sr.id].term)
          && (sr.id in s.lastRev ==> s.lastRev[sr.id] <= sr.rev))
  }

  /** A tick's list is duplicate-free, and each session it saw has been served or is still to come. */
  ghost predicate TickOk(s: System)
    requires s.tick.Tick?
  {
    && (forall i :: 0 <= i < |s.tick.todo| ==> TodoOk(s, s.tick.todo[i]))
    && (forall i, j :: 0 <= i < j < |s.tick.todo| ==> s.tick.todo[i].id != s.tick.todo[j].id)
    && s.tick.live <= s.used
    && (forall id :: id in s.tick.live && id in s.sessions ==> id in s.lastRev || Pending(s.tick.todo, id))
    && (!s.tick.locked ==> forall id :: id in s.tick.live ==> Pending(s.tick.todo, id))
    && (forall id :: id in s.lastRev && id in s.sessions ==> id in s.tick.live)
  }

  predicate Pending(todo: seq<SessionRev>, id: Id) {
    exists i :: 0 <= i < |todo| && todo[i].id == id
  }

  /** An entry of the list fits the session it was read from. */
  predicate EntryOk(s: System, sr: SessionRev) {
    && sr.id in s.sessions
    && sr.rev <= M.Rev(s.sessions[sr.id].term)
    && (sr.id in s.lastRev ==> s.lastRev[sr.id] <= sr.rev)
  }

  /** While the revisions are read no session comes or goes: each is read already or still to be read. */
  ghost predicate ReadingOk(s: System)
    requires s.tick.Reading?
  {
    && s.tick.listed == s.sessions.Keys && Distinct(s.tick.left)
    && (forall i :: 0 <= i < |s.tick.left| ==> s.tick.left[i] in s.sessions)
    && (forall i :: 0 <= i < |s.tick.got| ==> EntryOk(s, s.tick.got[i]) && s.tick.got[i].id !in s.tick.left)
    && (forall i, j :: 0 <= i < j < |s.tick.got| ==> s.tick.got[i].id != s.tick.got[j].id)
    && (forall id :: id in s.sessions ==> id in s.tick.left || Pending(s.tick.got, id))
  }

  ghost predicate Inv(s: System) {
    SessionsOk(s) && SentOk(s) && (s.tick.Tick? ==> TickOk(s)) && (s.tick.Reading? ==> ReadingOk(s))
  }

  lemma StepKeeps(s: System, ev: Event)
    requires Inv(s) && Enabled(s, ev)
    ensures Inv(Next(s, ev))
  {
    hide Inv, Next, Enabled;
    match ev {
      case Open(id, cols, rows) => OpenKeeps(s, ev);
      case Exit(id) => ExitKeeps(s, ev);
      case Output(id, w) => EmulatorKeeps(s, ev);
      case Resized(id, cols, rows) => EmulatorKeeps(s, ev);
      case OtherRender(id) => EmulatorKeeps(s, ev);
      case SetEnabled(on) => ToggleKeeps(s, ev);
      case TickStart => StartKeeps(s);
      case TickList(order) => ListKeeps(s, ev);
      case TickRead => ReadKeeps(s);
      case TickListed => ListedKeeps(s);
      case TickLock => LockKeeps(s);
      case TickSend => SendKeeps(s);
      case TickEnd => EndKeeps(s);
    }
  }

  /** Output, a resize or another reader's render: one emulator evolves. */
  lemma EmulatorKeeps(s: System, ev: Event)
    requires Inv(s) && Enabled(s, ev) && (ev.Output? || ev.Resized? || ev.OtherRender?)
    ensures Inv(Next(s, ev))
  {
    hide M.Run, M.WfTerm, M.Resize;
    var e := s.sessions[ev.id];
    if ev.Output? {
      RunHonest(e, ev.bytes);
      HonestEvolves(s, ev.id, M.Run(e, ev.bytes).e);
    } else if ev.Resized? {
      ResizeHonest(e, ev.cols, ev.rows);
      HonestEvolves(s, ev.id, e.(term := M.Resize(e.term, ev.cols, ev.rows)));
    } else {
      EvolveKeeps(s, ev.id, e.(term := M.Rendered(e.term)));
    }
  }

  lemma LockKeeps(s: System)
    requires Inv(s) && Enabled(s, TickLock)
    ensures Inv(Next(s, TickLock))
  {
    hide M.Run, M.WfTerm, M.Resize, UpToDate;
  }

  lemma OpenKeeps(s: System, ev: Event)
    requires Inv(s) && Enabled(s, ev) && ev.Open?
    ensures Inv(Next(s, ev))
  {
    hide M.NewTerm, M.WfTerm, UpToDate, M.Run;
  }

  lemma ExitKeeps(s: System, ev: Event)
    requires Inv(s) && Enabled(s, ev) && ev.Exit?
    ensures Inv(Next(s, ev))
  {
    hide M.WfTerm, UpToDate, M.Run;
  }

  /** Output and resizes: honest steps of one emulator. */
  lemma HonestEvolves(s: System, id: Id, e: M.Emu)
    requires Inv(s) && id in s.sessions && M.WfEmu(e) && Honest(s.sessions[id].term, e.term)
    ensures Inv(s.(sessions := s.sessions[id := e]))
  {
    hide M.WfTerm, UpToDate;
    if id in s.lastRev {
      HonestKeepsUpToDate(s.sessions[id].term, e.term, [s.shown[id]]);
    }
    EvolveKeeps(s, id, e);
  }

  lemma EvolveKeeps(s: System, id: Id, e: M.Emu)
    requires Inv(s) && id in s.sessions && M.WfEmu(e) && M.Rev(s.sessions[id].term) <= M.Rev(e.term)
    requires id in s.lastRev ==> UpToDate(e.term, [s.shown[id]])
    ensures Inv(s.(sessions := s.sessions[id := e]))
  {
    hide M.WfTerm, UpToDate, M.Rev;
  }

  lemma ToggleKeeps(s: System, ev: Event)
    requires Inv(s) && Enabled(s, ev) && ev.SetEnabled?
    ensures Inv(Next(s, ev))
  {
    hide M.WfTerm, UpToDate, M.Run;
  }

  lemma StartKeeps(s: System)
    requires Inv(s) && Enabled(s, TickStart)
    ensures Inv(Next(s, TickStart))
  {
    hide M.WfTerm, M.Run, UpToDate, M.Rev;
  }

  lemma ListKeeps(s: System, ev: Event)
    requires Inv(s) && Enabled(s, ev) && ev.TickList?
    ensures Inv(Next(s, ev))
  {
    hide M.WfTerm, M.Run, UpToDate, M.Rev;
  }

  lemma ReadKeeps(s: System)
    requires Inv(s) && Enabled(s, TickRead)
    ensures Inv(Next(s, TickRead))
  {
    hide M.WfTerm, M.Run, UpToDate, M.Rev, SentOk;
    var n, id := Next(s, TickRead), s.tick.left[0];
    assert Agrees(s, id);
    if id in s.lastRev { ShotNotAhead(s.sessions[id].term, s.shown[id]); }
    assert s.tick.left == [id] + n.tick.left;
    forall i | 0 <= i < |n.tick.got| ensures EntryOk(n, n.tick.got[i]) && n.tick.got[i].id !in n.tick.left {
      if i < |s.tick.got| { assert n.tick.got[i] == s.tick.got[i]; }
    }
    forall x | x in n.sessions ensures x in n.tick.left || Pending(n.tick.got, x) {
      ReadOrPending(s.tick.got, n.tick.got, x);
      if x == id { assert n.tick.got[|s.tick.got|].id == x; }
    }
    SentStays(s, n);
  }

  lemma SentStays(s: System, n: System)
    requires SentOk(s) && n.sent == s.sent && n.shown == s.shown
    ensures SentOk(n)
  {
  }

  lemma ReadOrPending(todo: seq<SessionRev>, more: seq<SessionRev>, id: Id)
    requires todo <= more
    ensures Pending(todo, id) ==> Pending(more, id)
  {
    if i :| 0 <= i < |todo| && todo[i].id == id { assert more[i].id == id; }
  }

  lemma ListedKeeps(s: System)
    requires Inv(s) && Enabled(s, TickListed)
    ensures Inv(Next(s, TickListed))
  {
    hide M.WfTerm, M.Run, UpToDate, M.Rev, SentOk;
    var n := Next(s, TickListed);
    forall i | 0 <= i < |n.tick.todo| ensures TodoOk(n, n.tick.todo[i]) {
      assert EntryOk(s, s.tick.got[i]);
    }
    forall id | id in n.tick.live ensures id in n.used {
      assert id in s.sessions;
    }
    forall id | id in n.tick.live ensures Pending(n.tick.todo, id) {
      assert id in s.sessions;
    }
    forall id | id in n.lastRev && id in n.sessions ensures id in n.tick.live {
      assert id in s.sessions.Keys;
    }
    SentStays(s, n);
  }

  lemma ShotNotAhead(t: M.Term, shot: Shot)
    requires UpToDate(t, [shot])
    ensures shot.rev <= M.Rev(t)
  {
    assert [shot][0] == shot;
  }

  /** A turn of the send loop that sends nothing. */
  lemma SkipKeeps(s: System, sr: SessionRev, rest: Tick)
    requires Inv(s) && Enabled(s, TickSend) && sr == s.tick.todo[0] && rest == s.tick.(todo := s.tick.todo[1..])
    requires !Due(s.lastRev, sr) || sr.id !in s.sessions
    ensures Inv(s.(tick := rest))
  {
    hide M.WfTerm, M.Run, UpToDate, M.Rev;
    var n := s.(tick := rest);
    forall id | id in n.tick.live && id in n.sessions && id !in n.lastRev ensures Pending(n.tick.todo, id) {
      StillPending(s.tick.todo, id);
    }
  }

  lemma StillPending(todo: seq<SessionRev>, id: Id)
    requires Pending(todo, id) && todo[0].id != id
    ensures Pending(todo[1..], id)
  {
    var i :| 0 <= i < |todo| && todo[i].id == id;
    assert todo[1..][i - 1].id == id;
  }

  lemma SendKeeps(s: System)
    requires Inv(s) && Enabled(s, TickSend)
    ensures Inv(Next(s, TickSend))
  {
    hide M.WfTerm, M.Run, UpToDate, M.Rev, SessionsOk, SentOk, TickOk;
    var sr, rest := s.tick.todo[0], s.tick.(todo := s.tick.todo[1..]);
    if !Due(s.lastRev, sr) || sr.id !in s.sessions {
      SkipKeeps(s, sr, rest);
    } else {
      SendSessions(s, sr, rest);
      SendLog(s, sr, rest);
      SendTick(s, sr, rest);
    }
  }

  /** The new snapshot is newer than every earlier one of its session. */
  lemma SendNewer(s: System, sr: SessionRev)
    requires Inv(s) && Enabled(s, TickSend) && sr == s.tick.todo[0] && Due(s.lastRev, sr) && sr.id in s.sessions
    ensures sr.id in s.shown ==> s.shown[sr.id].rev < RenderShot(s.sessions[sr.id].term).rev
    ensures sr.id in s.lastRev ==> sr.id in s.shown
  {
    hide M.WfTerm, M.Run, UpToDate, M.Rev;
    assert TodoOk(s, sr);
    assert Agrees(s, sr.id);
    RevPredictsRender(s.sessions[sr.id].term);
  }

  lemma SendSessions(s: System, sr: SessionRev, rest: Tick)
    requires Inv(s) && Enabled(s, TickSend) && sr == s.tick.todo[0] && Due(s.lastRev, sr) && sr.id in s.sessions
    ensures SessionsOk(Send(s, sr, rest))
  {
    hide M.WfTerm, M.Run, M.Rev, UpToDate;
    var n := Send(s, sr, rest);
    Freshest(s.sessions[sr.id].term);
    assert Agrees(n, sr.id);
  }

  lemma Freshest(t: M.Term)
    ensures UpToDate(M.Rendered(t), [RenderShot(t)])
  {
  }

  lemma SendLog(s: System, sr: SessionRev, rest: Tick)
    requires Inv(s) && Enabled(s, TickSend) && sr == s.tick.todo[0] && Due(s.lastRev, sr) && sr.id in s.sessions
    ensures SentOk(Send(s, sr, rest))
  {
    hide M.WfTerm, M.Run, M.Rev, UpToDate, TickOk, SessionsOk;
    SendNewer(s, sr);
    SentSnoc(s, Send(s, sr, rest), sr.id, RenderShot(s.sessions[sr.id].term));
  }

  lemma SentSnoc(s: System, n: System, id: Id, shot: Shot)
    requires SentOk(s) && n.sent == s.sent + [Sent(id, shot)] && n.shown == s.shown[id := shot]
    requires id in s.shown ==> s.shown[id].rev < shot.rev
    ensures SentOk(n)
  {
    forall i, j | 0 <= i < j < |n.sent| && n.sent[i].id == n.sent[j].id
      ensures n.sent[i].shot.rev < n.sent[j].shot.rev
    {
      assert n.sent[i] == s.sent[i];
      if j < |s.sent| { assert n.sent[j] == s.sent[j]; }
    }
    forall k | k in n.shown ensures Sent(k, n.shown[k]) in n.sent {
      if k == id { assert n.sent[|s.sent|] == Sent(id, shot); } else { assert Sent(k, s.shown[k]) in s.sent; }
    }
  }

  lemma SendTick(s: System, sr: SessionRev, rest: Tick)
    requires Inv(s) && Enabled(s, TickSend) && sr == s.tick.todo[0] && Due(s.lastRev, sr) && sr.id in s.sessions
    requires rest == s.tick.(todo := s.tick.todo[1..])
    ensures TickOk(Send(s, sr, rest))
  {
    hide M.WfTerm, M.Run, M.Rev, UpToDate, SentOk;
    var n := Send(s, sr, rest);
    RevPredictsRender(s.sessions[sr.id].term);
    forall id | id in n.tick.live && id in n.sessions && id !in n.lastRev ensures Pending(n.tick.todo, id) {
      StillPending(s.tick.todo, id);
    }
    forall i | 0 <= i < |n.tick.todo| ensures TodoOk(n, n.tick.todo[i]) {
      assert n.tick.todo[i] == s.tick.todo[i + 1];
      assert TodoOk(s, s.tick.todo[i + 1]);
    }
  }

  lemma EndKeeps(s: System)
    requires Inv(s) && Enabled(s, TickEnd)
    ensures Inv(Next(s, TickEnd))
  {
    hide M.WfTerm, UpToDate, M.Run;
  }

  // ---------- runs ----------

  const START := System(map[], {}, false, map[], NoTick, [], map[])

  ghost predicate Path(s: System, evs: seq<Event>, t: System)
    decreases |evs|
  {
    if evs == [] then t == s
    else
      var n := |evs| - 1;
      exists m :: Path(s, evs[..n], m) && Enabled(m, evs[n]) && t == Next(m, evs[n])
  }

  lemma {:induction false} AlwaysInv(evs: seq<Event>, t: System)
    requires Path(START, evs, t)
    ensures Inv(t)
    decreases |evs|
  {
    hide Next, Enabled, SessionsOk, SentOk, TickOk;
    if evs == [] {
      StartOk();
    } else {
      var n := |evs| - 1;
      var m :| Path(START, evs[..n], m) && Enabled(m, evs[n]) && t == Next(m, evs[n]);
      AlwaysInv(evs[..n], m);
      StepKeeps(m, evs[n]);
    }
  }

  lemma StartOk()
    ensures Inv(START)
  {
  }

  /** Agreement, end to end, in every reachable state: when the recorded revision of a live session is
      its current one, the last snapshot sent since the last enable exists and is exactly the screen a
      viewer should see. */
  lemma Agreement(evs: seq<Event>, t: System, id: Id)
    requires Path(START, evs, t) && id in t.sessions && id in t.lastRev
    requires t.lastRev[id] == M.Rev(t.sessions[id].term)
    ensures id in t.shown && Sent(id, t.shown[id]) in t.sent
    ensures t.shown[id].screen == t.sessions[id].term.Visible()
    ensures forall i :: 0 <= i < |t.sent| && t.sent[i].id == id ==> t.sent[i].shot.rev <= t.shown[id].rev
  {
    hide M.WfTerm, M.Run, M.Rev, Path, UpToDate, TickOk, Next;
    AlwaysInv(evs, t);
    assert Agrees(t, id);
    CurrentShot(t.sessions[id].term, t.shown[id]);
  }

  lemma CurrentShot(t: M.Term, shot: Shot)
    requires UpToDate(t, [shot]) && shot.rev == M.Rev(t)
    ensures shot.screen == t.Visible()
  {
    assert [shot][0] == shot;
  }

  /** Coverage: when a tick has worked through its list, every session it saw that is still live has a
      snapshot since the last enable. */
  lemma EveryoneServed(evs: seq<Event>, t: System, id: Id)
    requires Path(START, evs, t) && Enabled(t, TickEnd) && id in t.tick.live && id in t.sessions
    ensures id in t.lastRev && id in t.shown && Sent(id, t.shown[id]) in t.sent
  {
    hide M.WfTerm, M.Run, M.Rev, UpToDate;
    AlwaysInv(evs, t);
    assert Agrees(t, id);
  }

  /** Economy: between two enables, snapshots of one session carry different, increasing revisions, so a
      session whose revision has not moved is never sent again. */
  lemma NeverResent(evs: seq<Event>, t: System, i: nat, j: nat)
    requires Path(START, evs, t) && i < j < |t.sent| && t.sent[i].id == t.sent[j].id
    ensures t.sent[i].shot.rev < t.sent[j].shot.rev
  {
    hide Next, Enabled, SessionsOk, TickOk, Path;
    AlwaysInv(evs, t);
  }
}
