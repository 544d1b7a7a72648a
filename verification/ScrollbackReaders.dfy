/** Concurrent use of the scrollback buffer: any number of writers, closers and blocking readers,
    interleaved at the places where the lock is taken or released. Closing the replaced channel
    happens after the lock is released, so it is a step of its own. */
module ScrollbackReaders {
  import opened Terminal
  import opened Scrollback

  /** A piece of the log handed to a reader. */
  datatype Slice = Slice(from: int, data: seq<byte>) {
    function End(): int { from + |data| }
  }

  datatype Phase =
    | Ready              // about to take the lock
    | Blocked(ch: nat)   // in the select, holding the channel it read under the lock
    | Ended(eof: bool)   // returned ok == false: end of stream, or cancelled

  /** `from` is the cursor of the reader's first call. */
  datatype Reader = Reader(from: int, cursor: int, phase: Phase, got: seq<Slice>)

  /** `pending` holds the channels that were replaced and are about to be closed, `shut` the closed
      ones. */
  datatype State = State(
    log: seq<byte>, max: nat, closed: bool, wait: nat, pending: set<nat>, shut: set<nat>,
    readers: map<int, Reader>)
  {
    function Start(): nat { |log| - |Tail(log, max)| }
  }

  datatype Event =
    | WriteLocked(p: seq<byte>)
    | CloseLocked
    | ShutChannel(ch: nat)
    | Attach(id: int, from: int)
    | LookLocked(id: int)
    | Wake(id: int)
    | Cancel(id: int)

  predicate Enabled(s: State, ev: Event) {
    match ev
    case WriteLocked(_) => true
    case CloseLocked => true
    case ShutChannel(ch) => ch in s.pending
    case Attach(id, _) => id !in s.readers
    case LookLocked(id) => id in s.readers && s.readers[id].phase == Ready
    case Wake(id) => id in s.readers && s.readers[id].phase.Blocked? && s.readers[id].phase.ch in s.shut
    case Cancel(id) => id in s.readers && s.readers[id].phase.Blocked?
  }

  /** The reader after its locked look. */
  function Looked(s: State, r: Reader): Reader {
    match LookAt(s.log, s.max, s.closed, r.cursor)
    case Data(data, next) => r.(cursor := next, got := r.got + [Slice(next - |data|, data)])
    case Eof(at) => r.(cursor := at, phase := Ended(true))
    case Wait(at) => r.(cursor := at, phase := Blocked(s.wait))
  }

  function Next(s: State, ev: Event): State
    requires Enabled(s, ev)
  {
    match ev
    case WriteLocked(p) => s.(log := s.log + p, pending := s.pending + {s.wait}, wait := s.wait + 1)
    case CloseLocked => s.(closed := true, pending := s.pending + {s.wait}, wait := s.wait + 1)
    case ShutChannel(ch) => s.(pending := s.pending - {ch}, shut := s.shut + {ch})
    case Attach(id, from) => s.(readers := s.readers[id := Reader(from, from, Ready, [])])
    case LookLocked(id) => s.(readers := s.readers[id := Looked(s, s.readers[id])])
    case Wake(id) => s.(readers := s.readers[id := s.readers[id].(phase := Ready)])
    case Cancel(id) => s.(readers := s.readers[id := s.readers[id].(phase := Ended(false))])
  }

  // ---------- what holds in every reachable state ----------

  /** No lost wakeup: a blocked reader whose channel is neither closed nor about to be closed holds
      the current channel, has nothing left to read, and the buffer is not closed. */
  predicate Awake(s: State, r: Reader) {
    r.phase.Blocked? ==>
      || r.phase.ch in s.shut
      || r.phase.ch in s.pending
      || (r.phase.ch == s.wait && r.cursor >= |s.log| && !s.closed)
  }

  /** Slices are pieces of the log, in order and without overlap, and a reader skips only bytes that
      the buffer has evicted. */
  predicate Faithful(s: State, r: Reader) {
    && (forall i :: 0 <= i < |r.got| ==>
          && r.got[i].data != []
          && 0 <= r.got[i].from && r.got[i].End() <= |s.log|
          && r.got[i].data == s.log[r.got[i].from..r.got[i].End()])
    && (forall i :: 0 < i < |r.got| ==>
          && r.got[i - 1].End() <= r.got[i].from
          && (r.got[i - 1].End() < r.got[i].from ==> r.got[i].from <= s.Start()))
    && (r.got != [] ==> r.got[|r.got| - 1].End() <= r.cursor)
    && (r.got != [] && r.got[|r.got| - 1].End() < r.cursor ==> r.cursor <= s.Start())
  }

  /** The first slice starts where the reader asked, or skips only bytes that the buffer has evicted. */
  predicate FirstOk(s: State, r: Reader) {
    var at := if r.got == [] then r.cursor else r.got[0].from;
    r.from <= at && (r.from < at ==> at <= s.Start())
  }

  predicate ReaderOk(s: State, r: Reader) {
    Awake(s, r) && Faithful(s, r) && FirstOk(s, r) && r.cursor <= Max(r.from, |s.log|)
  }

  /** Channels are used once: none is closed twice, and the current one is still open. */
  predicate ChannelsOk(s: State) {
    && s.pending !! s.shut
    && (forall ch :: ch in s.pending ==> ch < s.wait)
    && (forall ch :: ch in s.shut ==> ch < s.wait)
  }

  ghost predicate Inv(s: State) {
    s.max >= 1 && ChannelsOk(s) && forall id :: id in s.readers ==> ReaderOk(s, s.readers[id])
  }

  lemma TailGrows(log: seq<byte>, p: seq<byte>, max: nat)
    ensures |log| - |Tail(log, max)| <= |log + p| - |Tail(log + p, max)|
  {
  }

  /** A longer log changes no byte and evicts more. */
  lemma FaithfulGrows(s: State, n: State, p: seq<byte>, r: Reader)
    requires Faithful(s, r) && n.log == s.log + p && n.max == s.max
    ensures Faithful(n, r)
  {
    hide Tail;
    TailGrows(s.log, p, s.max);
    forall i | 0 <= i < |r.got|
      ensures 0 <= r.got[i].from && r.got[i].End() <= |n.log|
      ensures r.got[i].data == n.log[r.got[i].from..r.got[i].End()]
    {
      SliceGrows(s.log, p, r.got[i].from, r.got[i].End());
    }
  }

  lemma SliceGrows(log: seq<byte>, p: seq<byte>, a: int, b: int)
    requires 0 <= a <= b <= |log|
    ensures (log + p)[a..b] == log[a..b]
  {
  }

  /** What the others do leaves a reader's guarantees standing. */
  lemma OthersKeep(s: State, ev: Event, r: Reader)
    requires Enabled(s, ev) && !(ev.LookLocked? || ev.Wake? || ev.Cancel?) && ReaderOk(s, r) && ChannelsOk(s)
    ensures ReaderOk(Next(s, ev), r)
  {
    hide Faithful, Tail;
    var p := if ev.WriteLocked? then ev.p else [];
    assert s.log + [] == s.log;
    TailGrows(s.log, p, s.max);
    FaithfulGrows(s, Next(s, ev), p, r);
  }

  lemma LookKeeps(s: State, r: Reader)
    requires s.max >= 1 && ReaderOk(s, r) && r.phase == Ready
    ensures ReaderOk(s, Looked(s, r))
  {
    hide LookAt, Tail, Faithful;
    var look := LookAt(s.log, s.max, s.closed, r.cursor);
    if look.Data? {
      DataKeeps(s, r, look.data);
    } else {
      CursorKeeps(s, r, look.at, Looked(s, r).phase);
    }
  }

  /** The cursor may move on to the oldest retained byte. */
  lemma CursorKeeps(s: State, r: Reader, at: int, phase: Phase)
    requires Faithful(s, r) && at == Max(r.cursor, s.Start())
    ensures Faithful(s, r.(cursor := at, phase := phase))
  {
    hide Tail;
  }

  /** The next slice starts at the cursor, or at the oldest retained byte if that is later. */
  lemma DataKeeps(s: State, r: Reader, data: seq<byte>)
    requires Faithful(s, r) && r.phase == Ready && 0 < |data| <= |s.log| && data == s.log[|s.log| - |data|..]
    requires r.cursor < |s.log| && |s.log| - |data| == Max(r.cursor, s.Start())
    ensures Faithful(s, r.(cursor := |s.log|, got := r.got + [Slice(|s.log| - |data|, data)]))
  {
    hide Tail;
    var piece := Slice(|s.log| - |data|, data);
    assert s.log[piece.from..piece.End()] == s.log[piece.from..];
    var q := r.(cursor := |s.log|, got := r.got + [piece]);
    forall i | 0 <= i < |q.got|
      ensures q.got[i].data != [] && 0 <= q.got[i].from && q.got[i].End() <= |s.log|
      ensures q.got[i].data == s.log[q.got[i].from..q.got[i].End()]
    {
      if i < |r.got| { assert q.got[i] == r.got[i]; }
    }
    forall i | 0 < i < |q.got|
      ensures q.got[i - 1].End() <= q.got[i].from
      ensures q.got[i - 1].End() < q.got[i].from ==> q.got[i].from <= s.Start()
    {
      assert q.got[i - 1] == r.got[i - 1];
      if i < |r.got| { assert q.got[i] == r.got[i]; }
    }
  }

  /** Every step keeps the invariant. */
  lemma StepKeeps(s: State, ev: Event)
    requires Inv(s) && Enabled(s, ev)
    ensures Inv(Next(s, ev))
  {
    hide Faithful;
    var n := Next(s, ev);
    forall id | id in n.readers ensures ReaderOk(n, n.readers[id]) {
      if ev.LookLocked? && ev.id == id {
        LookKeeps(s, s.readers[id]);
        SameBuffer(s, n, n.readers[id]);
      } else if ev.Attach? && ev.id == id {
        FreshReader(n, ev.from);
      } else if ev.LookLocked? || ev.Wake? || ev.Cancel? {
        SameBuffer(s, n, s.readers[id]);
        if id == ev.id { SamePhaseless(n, s.readers[id], n.readers[id]); }
      } else {
        OthersKeep(s, ev, s.readers[id]);
      }
    }
  }

  lemma SameBuffer(s: State, n: State, r: Reader)
    requires ReaderOk(s, r) && n == s.(readers := n.readers)
    ensures ReaderOk(n, r)
  {
  }

  lemma FreshReader(n: State, from: int)
    ensures ReaderOk(n, Reader(from, from, Ready, []))
  {
  }

  lemma SamePhaseless(n: State, r: Reader, q: Reader)
    requires Faithful(n, r) && q == r.(phase := q.phase)
    ensures Faithful(n, q)
  {
    hide Tail;
  }

  // ---------- runs ----------

  function Init(max: nat): State { State([], max, false, 0, {}, {}, map[]) }

  ghost predicate Path(s: State, evs: seq<Event>, t: State)
    decreases |evs|
  {
    if evs == [] then t == s
    else
      var n := |evs| - 1;
      exists m :: Path(s, evs[..n], m) && Enabled(m, evs[n]) && t == Next(m, evs[n])
  }

  /** In every interleaving, from an empty buffer of any capacity: no wakeup is lost, no channel is
      closed twice, and every reader has received increasing, non-overlapping slices of the log from the
      cursor it asked from on, with only evicted bytes missing before and between them. */
  lemma {:induction false} AlwaysSafe(max: nat, evs: seq<Event>, t: State)
    requires max >= 1 && Path(Init(max), evs, t)
    ensures Inv(t)
    decreases |evs|
  {
    if evs != [] {
      var n := |evs| - 1;
      var m :| Path(Init(max), evs[..n], m) && Enabled(m, evs[n]) && t == Next(m, evs[n]);
      AlwaysSafe(max, evs[..n], m);
      StepKeeps(m, evs[n]);
    }
  }

  lemma InvAwake(s: State, id: int)
    requires Inv(s) && id in s.readers
    ensures Awake(s, s.readers[id])
  {
    assert ReaderOk(s, s.readers[id]);
  }

  /** The wakeup property in full: a reader that started inside the log and is blocked on a channel
      that is neither closed nor about to be closed holds the current channel, has read exactly to the
      end, and the buffer is open. */
  lemma NoLostWakeup(s: State, id: int)
    requires Inv(s) && id in s.readers && s.readers[id].phase.Blocked?
    requires s.readers[id].phase.ch !in s.shut + s.pending && s.readers[id].from <= |s.log|
    ensures s.readers[id].phase.ch == s.wait && s.readers[id].cursor == |s.log| && !s.closed
  {
    assert ReaderOk(s, s.readers[id]);
  }

  lemma PathSnoc(s: State, evs: seq<Event>, m: State, ev: Event)
    requires Path(s, evs, m) && Enabled(m, ev)
    ensures Path(s, evs + [ev], Next(m, ev))
  {
    assert (evs + [ev])[..|evs|] == evs;
  }

  /** The steps owed to a blocked reader: its channel's closing, its own wakeup and its next look. */
  predicate Owed(ev: Event, id: int, ch: nat) { ev == ShutChannel(ch) || ev == Wake(id) || ev == LookLocked(id) }

  /** A blocked reader that has something to learn is served by steps that are already owed to it, whatever
      else happens or does not: after them it has the new data, or has ended. */
  lemma OwedSteps(s: State, id: int) returns (evs: seq<Event>, u: State)
    requires Inv(s) && id in s.readers && s.readers[id].phase.Blocked?
    requires (s.log != [] && s.readers[id].cursor < |s.log|) || s.closed
    ensures Path(s, evs, u) && |evs| <= 3
    ensures forall i :: 0 <= i < |evs| ==> Owed(evs[i], id, s.readers[id].phase.ch)
    ensures id in u.readers && u.log == s.log
    ensures s.log != [] && s.readers[id].cursor < |s.log| ==>
              |u.readers[id].got| == |s.readers[id].got| + 1 && u.readers[id].cursor == |s.log|
    ensures s.readers[id].cursor >= |s.log| ==> s.closed && u.readers[id].phase == Ended(true)
    ensures Inv(u)
  {
    hide Inv, LookAt, Tail, Path, Looked, Awake;
    evs, u := OwedWake(s, id);
    LookServes(u, u.readers[id]);
    evs, u := OwedStep(s, evs, u, LookLocked(id));
  }

  /** Its channel closed, the reader wakes; nothing else has changed for it. */
  lemma OwedWake(s: State, id: int) returns (evs: seq<Event>, u: State)
    requires Inv(s) && id in s.readers && s.readers[id].phase.Blocked?
    requires (s.log != [] && s.readers[id].cursor < |s.log|) || s.closed
    ensures Path(s, evs, u) && |evs| <= 2 && Inv(u)
    ensures forall i :: 0 <= i < |evs| ==> Owed(evs[i], id, s.readers[id].phase.ch)
    ensures u.log == s.log && u.closed == s.closed && id in u.readers
    ensures u.readers[id] == s.readers[id].(phase := Ready)
  {
    hide Inv, Path, Looked;
    InvAwake(s, id);
    NoSteps(s);
    var ch := s.readers[id].phase.ch;
    if ch in s.shut {
      evs, u := OwedStep(s, [], s, Wake(id));
      assert evs == [Wake(id)];
    } else {
      var shut, m := OwedStep(s, [], s, ShutChannel(ch));
      evs, u := OwedStep(s, shut, m, Wake(id));
      assert evs == [ShutChannel(ch), Wake(id)];
    }
  }

  /** What a look brings a reader. */
  lemma LookServes(s: State, r: Reader)
    requires Inv(s)
    ensures var q := Looked(s, r);
            && (s.log != [] && r.cursor < |s.log| ==> |q.got| == |r.got| + 1 && q.cursor == |s.log|)
            && (r.cursor >= |s.log| && s.closed ==> q.phase == Ended(true))
  {
    hide LookAt, Tail, ReaderOk;
  }

  lemma NoSteps(s: State)
    ensures Path(s, [], s)
  {
  }

  lemma OwedStep(s: State, evs: seq<Event>, m: State, ev: Event) returns (more: seq<Event>, u: State)
    requires Path(s, evs, m) && Inv(m) && Enabled(m, ev)
    ensures more == evs + [ev] && u == Next(m, ev) && Path(s, more, u) && Inv(u)
  {
    PathSnoc(s, evs, m, ev);
    StepKeeps(m, ev);
    more, u := evs + [ev], Next(m, ev);
  }

  /** End of stream is reported only by a closed buffer, and only to a reader that has received everything up
      to its end: its last slice ends there, or it asked for nothing before it. */
  lemma EofOnlyAtEnd(s: State, id: int)
    requires Inv(s) && Enabled(s, LookLocked(id)) && Next(s, LookLocked(id)).readers[id].phase == Ended(true)
    ensures s.closed
    ensures var r := s.readers[id];
            s.log != [] ==> if r.got == [] then r.from >= |s.log| else r.got[|r.got| - 1].End() == |s.log|
  {
    var r := s.readers[id];
    assert ReaderOk(s, r);
    if r.got != [] { assert r.got[|r.got| - 1].End() <= |s.log|; }
  }

  // ---------- a reader that keeps up misses nothing ----------

  function Received(got: seq<Slice>): seq<byte> {
    if got == [] then [] else Received(got[..|got| - 1]) + got[|got| - 1].data
  }

  predicate NoGaps(got: seq<Slice>) {
    forall i :: 0 < i < |got| ==> got[i - 1].End() == got[i].from
  }

  lemma PrefixFaithful(s: State, r: Reader)
    requires Faithful(s, r) && NoGaps(r.got) && |r.got| > 1
    ensures var n := |r.got| - 1;
            && Faithful(s, Reader(r.from, r.got[n].from, Ready, r.got[..n])) && NoGaps(r.got[..n])
            && r.got[n - 1].End() == r.got[n].from
            && 0 <= r.got[n].from <= r.got[n].End() <= |s.log|
            && r.got[n].data == s.log[r.got[n].from..r.got[n].End()]
  {
    hide Tail;
  }

  lemma SingleSlice(s: State, r: Reader)
    requires Faithful(s, r) && |r.got| == 1
    ensures 0 <= r.got[0].from <= r.got[0].End() <= |s.log|
    ensures Received(r.got) == s.log[r.got[0].from..r.got[0].End()]
  {
    assert r.got[..0] == [];
    assert Received([]) == [];
  }

  /** Without gaps, what a reader received is one contiguous piece of the log. */
  lemma {:induction false} ReceivedIsLog(s: State, r: Reader)
    requires Faithful(s, r) && NoGaps(r.got) && r.got != []
    ensures 0 <= r.got[0].from <= r.got[|r.got| - 1].End() <= |s.log|
    ensures Received(r.got) == s.log[r.got[0].from..r.got[|r.got| - 1].End()]
    decreases |r.got|
  {
    hide Faithful, NoGaps;
    var n := |r.got| - 1;
    var last := r.got[n];
    if n == 0 {
      SingleSlice(s, r);
    } else {
      var q := Reader(r.from, last.from, Ready, r.got[..n]);
      PrefixFaithful(s, r);
      ReceivedIsLog(s, q);
      assert s.log[r.got[0].from..last.from] + s.log[last.from..last.End()] == s.log[r.got[0].from..last.End()];
    }
  }

  // ---------- the buffer takes these steps ----------

  /** The buffer as this state sees it. */
  ghost predicate Shows(b: Scrollback, s: State)
    reads b
  {
    b.Valid() && s.log == b.log && s.max == b.max && s.closed == b.closed && s.wait == b.wait
  }

  /** A write appends its bytes and owes the closing of the channel it replaced. */
  method WriteStep(b: Scrollback, p: seq<byte>, ghost s: State) returns (ch: nat)
    requires Shows(b, s)
    modifies b
    ensures Shows(b, Next(s, WriteLocked(p))) && b.log == old(b.log) + p && b.closed == old(b.closed)
    ensures Next(s, WriteLocked(p)).pending == s.pending + {ch} && b.wait != ch
  {
    ch := b.Write(p);
  }

  /** A close closes, once and for all, and owes the same. */
  method CloseStep(b: Scrollback, ghost s: State) returns (ch: nat)
    requires Shows(b, s)
    modifies b
    ensures Shows(b, Next(s, CloseLocked)) && b.closed && b.log == old(b.log)
    ensures Next(s, CloseLocked).pending == s.pending + {ch} && b.wait != ch
  {
    ch := b.Close();
  }

  /** What the locked section answers is what the reader then has: a slice and the place after it, the end of the
      stream, or the channel to wait on. */
  method LookStep(b: Scrollback, cursor: int, ghost s: State, ghost id: int) returns (look: Look)
    requires Shows(b, s) && id in s.readers && s.readers[id].phase == Ready && s.readers[id].cursor == cursor
    ensures var r, n := s.readers[id], Next(s, LookLocked(id));
            && n == s.(readers := n.readers) && n.readers.Keys == s.readers.Keys
            && (forall i :: i in s.readers && i != id ==> n.readers[i] == s.readers[i])
            && var q := n.readers[id];
            match look
            case Data(data, next) => q == r.(cursor := next, got := r.got + [Slice(next - |data|, data)])
            case Eof(at) => q == r.(cursor := at, phase := Ended(true))
            case Wait(at) => q == r.(cursor := at, phase := Blocked(b.wait))
  {
    look := b.ReadLocked(cursor);
  }
}
