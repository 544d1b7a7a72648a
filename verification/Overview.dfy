/** The overview's enable gate (internal/hub/app/overview/overview.go): viewers come and go under one lock,
    and applyGate turns snapshot production on and off under another. Threads interleave at lock
    boundaries. */
module Overview {

  type Sub = int
  type Tid = int

  // ---------- the viewer count ----------

  datatype Viewers = Viewers(subs: set<Sub>, count: nat)

  /** The count never goes below zero. */
  function Less(count: nat, n: nat): nat { if count < n then 0 else count - n }

  function Joined(v: Viewers, s: Sub): Viewers { Viewers(v.subs + {s}, v.count + 1) }

  function Left(v: Viewers, s: Sub): Viewers { if s in v.subs then Viewers(v.subs - {s}, Less(v.count, 1)) else v }

  /** Subscribers whose send failed are dropped together. */
  function Dropped(v: Viewers, failed: set<Sub>): Viewers { Viewers(v.subs - failed, Less(v.count, |failed|)) }

  predicate Counted(v: Viewers) { v.count == |v.subs| }

  /** The count stays the number of subscribers exactly when nobody joins twice. */
  lemma JoinCountedIff(v: Viewers, s: Sub)
    requires Counted(v)
    ensures Counted(Joined(v, s)) <==> s !in v.subs
  {
    assert s in v.subs ==> v.subs + {s} == v.subs;
  }

  lemma LeaveCounted(v: Viewers, s: Sub)
    requires Counted(v)
    ensures Counted(Left(v, s))
  {
  }

  /** A drop keeps the count right exactly when nobody is dropped that had already left, unless nobody is
      left at all. */
  lemma DropCountedIff(v: Viewers, failed: set<Sub>)
    requires Counted(v)
    ensures Counted(Dropped(v, failed)) <==> failed <= v.subs || v.subs <= failed
  {
    var common := v.subs * failed;
    Parts(v.subs, failed);
    Smaller(failed, common);
    Smaller(v.subs, common);
    assert failed <= v.subs <==> common == failed;
    assert v.subs <= failed <==> common == v.subs;
  }

  lemma Smaller(a: set<Sub>, part: set<Sub>)
    requires part <= a
    ensures |part| <= |a| && (|part| == |a| <==> part == a)
  {
    assert a == part + (a - part);
    if |part| >= |a| { FullPart(a, part); }
  }

  lemma Parts(a: set<Sub>, b: set<Sub>)
    ensures |a - b| + |a * b| == |a|
  {
    assert a == (a - b) + (a * b);
  }

  /** A part as large as the whole is the whole. */
  lemma FullPart(a: set<Sub>, part: set<Sub>)
    requires part <= a && |part| >= |a|
    ensures part == a
  {
    assert a == part + (a - part);
    assert |a - part| == 0;
  }

  // ---------- threads ----------

  /** What a thread does after applyGate: Subscribe goes on to replay the cached snapshots to its
      subscriber. */
  datatype Then = Finish | Replay(sub: Sub)

  /** Where a thread is. In ReceiveSnapshot it holds the copy of the subscribers it made under the lock and
      is sending outside it; in Subscribe it may be replaying. In applyGate it has changed the viewers and
      waits for the control lock; it holds the lock; it has read whether anybody watches; or it is about to
      make the control call. */
  datatype Pc =
    | Idle
    | Copied(subs: set<Sub>)
    | Replaying(sub: Sub)
    | Due(next: Then)
    | Locked(next: Then)
    | Read(want: bool, next: Then)
    | Calling(want: bool, next: Then)

  datatype System = System(
    viewers: Viewers, lastEnabled: bool, holder: int, pcs: map<Tid, Pc>, calls: seq<bool>)

  const FREE := -1

  const INIT := System(Viewers({}, 0), false, FREE, map[], [])

  function PcOf(s: System, t: Tid): Pc { if t in s.pcs then s.pcs[t] else Idle }

  datatype Action =
    | Subscribe(sub: Sub)
    | Unsubscribe(sub: Sub)
    | CopySubs
    | AllSent
    | DropFailed(failed: set<Sub>)
    | Replayed
    | ReplayFailed
    | Lock
    | ReadViewers
    | Decide
    | Call

  /** Only subscribers that were copied can fail a send, and only the new subscriber a replay. */
  predicate Enabled(s: System, t: Tid, a: Action) {
    t >= 0 &&
    match a
    case Subscribe(_) => PcOf(s, t).Idle?
    case Unsubscribe(_) => PcOf(s, t).Idle?
    case CopySubs => PcOf(s, t).Idle?
    case AllSent => PcOf(s, t).Copied?
    case DropFailed(failed) => PcOf(s, t).Copied? && failed != {} && failed <= PcOf(s, t).subs
    case Replayed => PcOf(s, t).Replaying?
    case ReplayFailed => PcOf(s, t).Replaying?
    case Lock => PcOf(s, t).Due? && s.holder == FREE
    case ReadViewers => PcOf(s, t).Locked?
    case Decide => PcOf(s, t).Read?
    case Call => PcOf(s, t).Calling?
  }

  function To(s: System, t: Tid, pc: Pc): System { s.(pcs := s.pcs[t := pc]) }

  /** The end of applyGate. */
  function Leave(s: System, t: Tid, next: Then): System {
    To(s.(holder := FREE), t, if next.Replay? then Replaying(next.sub) else Idle)
  }

  function Step(s: System, t: Tid, a: Action): System
    requires Enabled(s, t, a)
  {
    var pc := PcOf(s, t);
    match a
    case Subscribe(sub) => To(s.(viewers := Joined(s.viewers, sub)), t, Due(Replay(sub)))
    case Unsubscribe(sub) =>
      if sub in s.viewers.subs then To(s.(viewers := Left(s.viewers, sub)), t, Due(Finish)) else s
    case CopySubs => To(s, t, Copied(s.viewers.subs))
    case AllSent => To(s, t, Idle)
    case DropFailed(failed) => To(s.(viewers := Dropped(s.viewers, failed)), t, Due(Finish))
    case Replayed => To(s, t, Idle)
    case ReplayFailed => To(s.(viewers := Dropped(s.viewers, {pc.sub})), t, Due(Finish))
    case Lock => To(s.(holder := t), t, Locked(pc.next))
    case ReadViewers => To(s, t, Read(s.viewers.count > 0, pc.next))
    case Decide =>
      if pc.want != s.lastEnabled then To(s.(lastEnabled := pc.want), t, Calling(pc.want, pc.next))
      else Leave(s, t, pc.next)
    case Call => Leave(s.(calls := s.calls + [pc.want]), t, pc.next)
  }

  // ---------- what holds in every state ----------

  predicate Alternates(calls: seq<bool>) { forall i :: 0 <= i < |calls| ==> calls[i] == (i % 2 == 0) }

  function LastCall(calls: seq<bool>): bool { if calls == [] then false else calls[|calls| - 1] }

  predicate Critical(pc: Pc) { pc.Locked? || pc.Read? || pc.Calling? }

  /** One thread at most is past the control lock, and it is the holder. */
  ghost predicate Exclusive(s: System) {
    && (forall t :: Critical(PcOf(s, t)) ==> t != FREE && s.holder == t)
    && (s.holder != FREE ==> Critical(PcOf(s, s.holder)))
  }

  ghost predicate NoneDue(s: System) { forall t :: !PcOf(s, t).Due? }

  /** The holder works with the current answer unless somebody who changed it is still to come. */
  ghost predicate Current(s: System) {
    NoneDue(s) ==>
      var watched := s.viewers.count > 0;
      if s.holder == FREE then s.lastEnabled == watched
      else match PcOf(s, s.holder)
           case Read(want, _) => want == watched
           case Calling(want, _) => want == watched
           case _ => true
  }

  /** The recorded state is the last call's, or that of the call about to be made. */
  predicate Recorded(s: System) {
    if s.holder != FREE && PcOf(s, s.holder).Calling?
    then PcOf(s, s.holder).want == s.lastEnabled && LastCall(s.calls) != s.lastEnabled
    else LastCall(s.calls) == s.lastEnabled
  }

  ghost predicate Inv(s: System) {
    && Exclusive(s)
    && Current(s)
    && Alternates(s.calls)
    && Recorded(s)
  }

  lemma AlternatesOn(calls: seq<bool>, want: bool)
    requires Alternates(calls) && LastCall(calls) != want
    ensures Alternates(calls + [want]) && LastCall(calls + [want]) == want
  {
    if calls != [] { assert calls[|calls| - 1] == ((|calls| - 1) % 2 == 0); }
  }

  lemma StepExclusive(s: System, t: Tid, a: Action)
    requires Exclusive(s) && Enabled(s, t, a)
    ensures Exclusive(Step(s, t, a))
  {
    var s' := Step(s, t, a);
    assert PcOf(s', t) == if t in s'.pcs then s'.pcs[t] else Idle;
    assert forall u :: u != t ==> PcOf(s', u) == PcOf(s, u);
  }

  lemma StepCurrent(s: System, t: Tid, a: Action)
    requires Exclusive(s) && Current(s) && Recorded(s) && Enabled(s, t, a)
    ensures Current(Step(s, t, a))
  {
    var s' := Step(s, t, a);
    assert forall u :: u != t ==> PcOf(s', u) == PcOf(s, u);
    if NoneDue(s') {
      assert !PcOf(s', t).Due?;
      if !a.Lock? {
        forall u ensures !PcOf(s, u).Due? { assert !PcOf(s', u).Due?; }
      }
    }
  }

  lemma StepInv(s: System, t: Tid, a: Action)
    requires Inv(s) && Enabled(s, t, a)
    ensures Inv(Step(s, t, a))
  {
    StepExclusive(s, t, a);
    StepCurrent(s, t, a);
    if a.Call? { AlternatesOn(s.calls, PcOf(s, t).want); }
    var s' := Step(s, t, a);
    assert forall u :: u != t ==> PcOf(s', u) == PcOf(s, u);
  }

  // ---------- runs ----------

  ghost predicate Runs(s: System, acts: seq<(Tid, Action)>, end: System)
    decreases |acts|
  {
    if acts == [] then end == s
    else Enabled(s, acts[0].0, acts[0].1) && Runs(Step(s, acts[0].0, acts[0].1), acts[1..], end)
  }

  lemma {:induction false} AlwaysInv(s: System, acts: seq<(Tid, Action)>, end: System)
    requires Inv(s) && Runs(s, acts, end)
    ensures Inv(end)
    decreases |acts|
  {
    if acts != [] {
      StepInv(s, acts[0].0, acts[0].1);
      AlwaysInv(Step(s, acts[0].0, acts[0].1), acts[1..], end);
    }
  }

  /** Nobody is between changing the viewers and the end of applyGate. */
  ghost predicate Quiet(s: System) { forall t :: !PcOf(s, t).Due? && !Critical(PcOf(s, t)) }

  ghost predicate NoCallPending(s: System) { forall t :: !PcOf(s, t).Calling? }

  /** Under every interleaving: the control calls alternate, starting with on; when no call is pending the
      last one is the recorded state; and when nobody is between changing the viewers and the end of
      applyGate, snapshots are on exactly when the viewer count is positive. */
  lemma Gate(acts: seq<(Tid, Action)>, end: System)
    requires Runs(INIT, acts, end)
    ensures Alternates(end.calls)
    ensures NoCallPending(end) ==> LastCall(end.calls) == end.lastEnabled
    ensures Quiet(end) ==> end.lastEnabled == (end.viewers.count > 0) == LastCall(end.calls)
  {
    InitInv();
    AlwaysInv(INIT, acts, end);
    if Quiet(end) {
      assert !Critical(PcOf(end, end.holder));
      forall t ensures !PcOf(end, t).Due? { assert !Critical(PcOf(end, t)); }
    }
  }

  lemma InitInv()
    ensures Inv(INIT)
  {
    assert forall t :: PcOf(INIT, t).Idle?;
  }

  // ---------- when the count is the number of subscribers ----------

  function DroppedBy(s: System, t: Tid, a: Action): set<Sub> {
    if a.DropFailed? then a.failed else if a.ReplayFailed? && PcOf(s, t).Replaying? then {PcOf(s, t).sub} else {}
  }

  /** The action neither adds a subscriber twice nor drops one that has already gone while another stays. */
  ghost predicate Fitting(s: System, t: Tid, a: Action) {
    && (a.Subscribe? ==> a.sub !in s.viewers.subs)
    && (DroppedBy(s, t, a) <= s.viewers.subs || s.viewers.subs <= DroppedBy(s, t, a))
  }

  lemma CountedStepIff(s: System, t: Tid, a: Action)
    requires Enabled(s, t, a) && Counted(s.viewers)
    ensures Counted(Step(s, t, a).viewers) <==> Fitting(s, t, a)
  {
    match a
    case Subscribe(sub) => JoinCountedIff(s.viewers, sub);
    case Unsubscribe(sub) => LeaveCounted(s.viewers, sub);
    case DropFailed(failed) => DropCountedIff(s.viewers, failed);
    case ReplayFailed => DropCountedIff(s.viewers, {PcOf(s, t).sub});
    case _ =>
  }

  ghost predicate AlwaysCounted(s: System, acts: seq<(Tid, Action)>)
    decreases |acts|
  {
    && Counted(s.viewers)
    && (acts != [] && Enabled(s, acts[0].0, acts[0].1) ==> AlwaysCounted(Step(s, acts[0].0, acts[0].1), acts[1..]))
  }

  ghost predicate AllFitting(s: System, acts: seq<(Tid, Action)>)
    decreases |acts|
  {
    acts != [] && Enabled(s, acts[0].0, acts[0].1) ==>
      && Fitting(s, acts[0].0, acts[0].1)
      && AllFitting(Step(s, acts[0].0, acts[0].1), acts[1..])
  }

  /** The viewer count is the number of subscribers throughout a run if and only if every action of it is
      fitting. */
  lemma {:induction false} CountedIff(s: System, acts: seq<(Tid, Action)>, end: System)
    requires Counted(s.viewers) && Runs(s, acts, end)
    ensures AlwaysCounted(s, acts) <==> AllFitting(s, acts)
    decreases |acts|
  {
    hide Counted, Fitting, Step, Enabled;
    if acts != [] {
      var t, a := acts[0].0, acts[0].1;
      CountedStepIff(s, t, a);
      if Counted(Step(s, t, a).viewers) { CountedIff(Step(s, t, a), acts[1..], end); }
    }
  }

  // ---------- when the gate follows the subscribers ----------

  /** The count tells whether anybody is subscribed. */
  predicate Telling(v: Viewers) { v.count > 0 <==> v.subs != {} }

  /** Whom the action takes out. */
  function TakenBy(s: System, t: Tid, a: Action): set<Sub> {
    if a.Unsubscribe? && a.sub in s.viewers.subs then {a.sub} else DroppedBy(s, t, a)
  }

  /** If the action takes anybody out, the count is more than what is counted off exactly when somebody
      stays. */
  ghost predicate Sparing(s: System, t: Tid, a: Action) {
    var taken := TakenBy(s, t, a);
    taken != {} ==> (s.viewers.count > |taken| <==> !(s.viewers.subs <= taken))
  }

  lemma TellingStepIff(s: System, t: Tid, a: Action)
    requires Enabled(s, t, a) && Telling(s.viewers)
    ensures Telling(Step(s, t, a).viewers) <==> Sparing(s, t, a)
  {
    var taken := TakenBy(s, t, a);
    assert s.viewers.subs - taken == {} <==> s.viewers.subs <= taken;
    match a
    case Subscribe(sub) => assert sub in s.viewers.subs + {sub};
    case _ =>
  }

  ghost predicate AlwaysTelling(s: System, acts: seq<(Tid, Action)>)
    decreases |acts|
  {
    && Telling(s.viewers)
    && (acts != [] && Enabled(s, acts[0].0, acts[0].1) ==> AlwaysTelling(Step(s, acts[0].0, acts[0].1), acts[1..]))
  }

  ghost predicate AllSparing(s: System, acts: seq<(Tid, Action)>)
    decreases |acts|
  {
    acts != [] && Enabled(s, acts[0].0, acts[0].1) ==>
      && Sparing(s, acts[0].0, acts[0].1)
      && AllSparing(Step(s, acts[0].0, acts[0].1), acts[1..])
  }

  lemma {:induction false} TellingIff(s: System, acts: seq<(Tid, Action)>, end: System)
    requires Telling(s.viewers) && Runs(s, acts, end)
    ensures AlwaysTelling(s, acts) <==> AllSparing(s, acts)
    ensures AlwaysTelling(s, acts) ==> Telling(end.viewers)
    decreases |acts|
  {
    hide Telling, Sparing, Step, Enabled;
    if acts != [] {
      var t, a := acts[0].0, acts[0].1;
      TellingStepIff(s, t, a);
      if Telling(Step(s, t, a).viewers) { TellingIff(Step(s, t, a), acts[1..], end); }
    }
  }

  /** The gate follows the subscribers themselves, at every quiet end of a run, if every action of it spares
      the count; and throughout the run the count tells if and only if every action does. */
  lemma GateServes(acts: seq<(Tid, Action)>, end: System)
    requires Runs(INIT, acts, end)
    ensures AlwaysTelling(INIT, acts) <==> AllSparing(INIT, acts)
    ensures AllSparing(INIT, acts) && Quiet(end) ==> (end.lastEnabled <==> end.viewers.subs != {})
  {
    TellingIff(INIT, acts, end);
    Gate(acts, end);
  }

  // ---------- a watcher that is not served ----------

  lemma {:induction false} OneMore(s: System, acts: seq<(Tid, Action)>, mid: System, t: Tid, a: Action)
    requires Runs(s, acts, mid) && Enabled(mid, t, a)
    ensures Runs(s, acts + [(t, a)], Step(mid, t, a))
    decreases |acts|
  {
    var all := acts + [(t, a)];
    if acts == [] {
      assert all[1..] == [];
    } else {
      assert all[0] == acts[0] && all[1..] == acts[1..] + [(t, a)];
      OneMore(Step(s, acts[0].0, acts[0].1), acts[1..], mid, t, a);
    }
  }

  /** Nobody holds the control lock or is about to, and only threads 0 and 1 have done anything. */
  ghost predicate Resting(s: System) { s.holder == FREE && s.pcs.Keys <= {0, 1} && Quiet(s) }

  /** All threads but `t` rest. */
  ghost predicate OnlyBusy(s: System, t: Tid) {
    s.pcs.Keys <= {0, 1} && forall u :: u != t ==> !PcOf(s, u).Due? && !Critical(PcOf(s, u))
  }

  lemma BusyStep(s: System, t: Tid, a: Action)
    requires Enabled(s, t, a) && OnlyBusy(s, t) && t in {0, 1}
    ensures OnlyBusy(Step(s, t, a), t) && PcOf(Step(s, t, a), 1 - t) == PcOf(s, 1 - t)
  {
    var n := Step(s, t, a);
    forall u | u != t ensures PcOf(n, u) == PcOf(s, u) {}
  }

  /** A thread that has just changed the viewers takes the lock and reads them while the others rest. */
  lemma ReadAlone(s: System, acts: seq<(Tid, Action)>, mid: System, t: Tid)
    returns (more: seq<(Tid, Action)>, end: System)
    requires Runs(s, acts, mid) && t in {0, 1} && PcOf(mid, t).Due? && mid.holder == FREE && OnlyBusy(mid, t)
    ensures Runs(s, more, end) && OnlyBusy(end, t) && PcOf(end, 1 - t) == PcOf(mid, 1 - t)
    ensures PcOf(end, t) == Read(mid.viewers.count > 0, PcOf(mid, t).next)
    ensures end.viewers == mid.viewers && end.lastEnabled == mid.lastEnabled
  {
    hide Runs, OnlyBusy;
    OneMore(s, acts, mid, t, Lock);
    BusyStep(mid, t, Lock);
    var s1 := Step(mid, t, Lock);
    OneMore(s, acts + [(t, Lock)], s1, t, ReadViewers);
    BusyStep(s1, t, ReadViewers);
    more, end := acts + [(t, Lock)] + [(t, ReadViewers)], Step(s1, t, ReadViewers);
  }

  /** It then goes through the rest of applyGate. */
  lemma GateAlone(s: System, acts: seq<(Tid, Action)>, mid: System, t: Tid)
    returns (more: seq<(Tid, Action)>, end: System)
    requires Runs(s, acts, mid) && t in {0, 1} && PcOf(mid, t).Due? && mid.holder == FREE && OnlyBusy(mid, t)
    ensures Runs(s, more, end) && Resting(end)
    ensures end.viewers == mid.viewers && end.lastEnabled == (mid.viewers.count > 0)
    ensures PcOf(end, 1 - t) == PcOf(mid, 1 - t)
    ensures var next := PcOf(mid, t).next; PcOf(end, t) == if next.Replay? then Replaying(next.sub) else Idle
  {
    hide Runs, OnlyBusy, Resting;
    var acts2, s2 := ReadAlone(s, acts, mid, t);
    OneMore(s, acts2, s2, t, Decide);
    BusyStep(s2, t, Decide);
    more, end := acts2 + [(t, Decide)], Step(s2, t, Decide);
    if PcOf(end, t).Calling? {
      OneMore(s, more, end, t, Call);
      BusyStep(end, t, Call);
      more, end := more + [(t, Call)], Step(end, t, Call);
    }
    NobodyBusy(end, t);
  }

  lemma NobodyBusy(s: System, t: Tid)
    requires OnlyBusy(s, t) && s.holder == FREE && !PcOf(s, t).Due? && !Critical(PcOf(s, t))
    ensures Resting(s)
  {
  }

  /** A change of the viewers and the applyGate after it, while the others rest. */
  lemma ChangeAlone(s: System, acts: seq<(Tid, Action)>, mid: System, t: Tid, a: Action)
    returns (more: seq<(Tid, Action)>, end: System)
    requires Runs(s, acts, mid) && t in {0, 1} && Resting(mid) && Enabled(mid, t, a)
    requires PcOf(Step(mid, t, a), t).Due? && Step(mid, t, a).holder == FREE
    ensures Runs(s, more, end) && Resting(end)
    ensures end.viewers == Step(mid, t, a).viewers && end.lastEnabled == (end.viewers.count > 0)
    ensures PcOf(end, 1 - t) == PcOf(mid, 1 - t)
    ensures PcOf(end, t) == if a.Subscribe? then Replaying(a.sub) else Idle
  {
    hide Runs, OnlyBusy;
    OneMore(s, acts, mid, t, a);
    RestingBusy(mid, t);
    BusyStep(mid, t, a);
    more, end := GateAlone(s, acts + [(t, a)], Step(mid, t, a), t);
  }

  lemma RestingBusy(s: System, t: Tid)
    requires Resting(s)
    ensures OnlyBusy(s, t)
  {
  }

  /** A step that changes nothing but where the thread is. */
  lemma MoveOn(s: System, acts: seq<(Tid, Action)>, mid: System, t: Tid, a: Action)
    returns (more: seq<(Tid, Action)>, end: System)
    requires Runs(s, acts, mid) && t in {0, 1} && Resting(mid) && Enabled(mid, t, a) && (a.CopySubs? || a.Replayed?)
    ensures Runs(s, more, end) && Resting(end)
    ensures end.viewers == mid.viewers && end.lastEnabled == mid.lastEnabled && PcOf(end, 1 - t) == PcOf(mid, 1 - t)
    ensures PcOf(end, t) == if a.CopySubs? then Copied(mid.viewers.subs) else Idle
  {
    hide Runs, OnlyBusy;
    OneMore(s, acts, mid, t, a);
    RestingBusy(mid, t);
    BusyStep(mid, t, a);
    more, end := acts + [(t, a)], Step(mid, t, a);
    NobodyBusy(end, t);
  }

  /** Both subscribers have joined and thread 1 is sending them a snapshot. */
  lemma BothCopied(a: Sub, b: Sub) returns (acts: seq<(Tid, Action)>, end: System)
    requires a != b
    ensures Runs(INIT, acts, end) && Resting(end) && PcOf(end, 0).Idle? && PcOf(end, 1) == Copied({a, b})
    ensures end.viewers == Viewers({a, b}, 2)
  {
    hide Runs;
    NoActions();
    acts, end := ChangeAlone(INIT, [], INIT, 0, Subscribe(a));
    acts, end := MoveOn(INIT, acts, end, 0, Replayed);
    acts, end := ChangeAlone(INIT, acts, end, 0, Subscribe(b));
    acts, end := MoveOn(INIT, acts, end, 0, Replayed);
    assert end.viewers.subs == {a, b};
    acts, end := MoveOn(INIT, acts, end, 1, CopySubs);
  }

  lemma NoActions()
    ensures Runs(INIT, [], INIT) && Resting(INIT)
  {
  }

  /** The viewer count is not always the number of subscribers. One thread copies the subscribers to send them
      a snapshot; one of them leaves; the send to it fails and the first thread drops it again. It is counted
      off twice, and the gate goes off although the other one still watches. */
  lemma WatcherUnserved(a: Sub, b: Sub) returns (acts: seq<(Tid, Action)>, end: System)
    requires a != b
    ensures Runs(INIT, acts, end) && Quiet(end)
    ensures end.viewers.subs == {b} && end.viewers.count == 0 && !end.lastEnabled
  {
    hide Runs;
    acts, end := BothCopied(a, b);
    acts, end := ChangeAlone(INIT, acts, end, 0, Unsubscribe(a));
    assert end.viewers == Viewers({b}, 1);
    acts, end := ChangeAlone(INIT, acts, end, 1, DropFailed({a}));
    assert end.viewers.subs == {b};
  }

  // ---------- the use case ----------

  function Members(xs: seq<Sub>): set<Sub> { set s | s in xs }

  class UseCase {
    var subs: set<Sub>
    var viewers: nat
    var lastEnabled: bool
    /** The control calls made. */
    ghost var calls: seq<bool>

    ghost function Now(): Viewers
      reads this
    {
      Viewers(subs, viewers)
    }

    /** Run without interruption, applyGate makes at most one call, and only to change the state. */
    method ApplyGate()
      modifies this`lastEnabled, this`calls
      ensures lastEnabled == (viewers > 0)
      ensures calls == if old(lastEnabled) == lastEnabled then old(calls) else old(calls) + [lastEnabled]
    {
      var want := viewers > 0;
      if want != lastEnabled {
        lastEnabled := want;
        calls := calls + [want];
      }
    }

    method Join(s: Sub)
      modifies this`subs, this`viewers
      ensures Now() == Joined(old(Now()), s)
      ensures subs == old(subs) + {s} && viewers == old(viewers) + 1
    {
      subs := subs + {s};
      viewers := viewers + 1;
    }

    method Leave(s: Sub) returns (had: bool)
      modifies this`subs, this`viewers
      ensures Now() == Left(old(Now()), s) && had == (s in old(subs))
      ensures subs == old(subs) - {s} && viewers == if had && old(viewers) > 0 then old(viewers) - 1 else old(viewers)
    {
      had := s in subs;
      if had {
        subs := subs - {s};
        viewers := if viewers == 0 then 0 else viewers - 1;
      }
    }

    /** The fan-out: `dead` are the subscribers that refuse the send. */
    method FanOut(copy: seq<Sub>, dead: set<Sub>) returns (failed: seq<Sub>)
      requires forall i, j :: 0 <= i < j < |copy| ==> copy[i] != copy[j]
      ensures forall s :: s in failed <==> s in copy && s in dead
      ensures forall i, j :: 0 <= i < j < |failed| ==> failed[i] != failed[j]
    {
      failed := [];
      for k := 0 to |copy|
        invariant forall s :: s in failed <==> s in copy[..k] && s in dead
        invariant forall i, j :: 0 <= i < j < |failed| ==> failed[i] != failed[j]
      {
        if copy[k] in dead { failed := failed + [copy[k]]; }
        assert copy[..k + 1] == copy[..k] + [copy[k]];
      }
      assert copy[..|copy|] == copy;
    }

    /** The drop path: delete one by one, then count off as many as failed. */
    method Drop(failed: seq<Sub>)
      requires forall i, j :: 0 <= i < j < |failed| ==> failed[i] != failed[j]
      modifies this`subs, this`viewers
      ensures Now() == Dropped(old(Now()), Members(failed))
      ensures forall s :: s in subs <==> s in old(subs) && s !in failed
      ensures viewers == if old(viewers) < |failed| then 0 else old(viewers) - |failed|
    {
      for k := 0 to |failed|
        invariant viewers == old(viewers) && subs == old(subs) - Members(failed[..k])
      {
        subs := subs - {failed[k]};
        assert failed[..k + 1] == failed[..k] + [failed[k]];
      }
      assert failed[..|failed|] == failed;
      DistinctCount(failed);
      viewers := if viewers < |failed| then 0 else viewers - |failed|;
    }
  }

  lemma {:induction false} DistinctCount(xs: seq<Sub>)
    requires forall i, j :: 0 <= i < j < |xs| ==> xs[i] != xs[j]
    ensures |Members(xs)| == |xs|
  {
    if xs != [] {
      var n := |xs| - 1;
      DistinctCount(xs[..n]);
      assert xs == xs[..n] + [xs[n]];
      assert Members(xs) == Members(xs[..n]) + {xs[n]};
    }
  }
}
