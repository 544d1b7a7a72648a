/** The emulator (internal/agent/adapter/secondary/vt/emulator.go) as a value: both screens, the
    saved cursors, the revision counter and the front end, with one step per event. */
module EmulatorModel {
  import opened Terminal
  import opened CsiParser
  import FrontEnd
  import Utf8
  import opened Buffers

  /** The cursor and pen that DECSC saves. */
  datatype CursorState = CursorState(x: int, y: int, pen: Pen) {
    predicate Ok() { 0 <= x && 0 <= y && pen.Ok() }
  }

  datatype PromptState = PromptUnknown | PromptAtPrompt | PromptRunning

  datatype Term = Term(
    cols: int, rows: int, primary: Buffer, alt: Buffer, useAlt: bool, cursorVisible: bool,
    saved: CursorState, savedAlt: CursorState, rev: nat, dirty: bool, prompt: PromptState)
  {
    function Cur(): Buffer { if useAlt then alt else primary }

    function WithCur(b: Buffer): (t: Term)
      ensures t.Cur() == b
    {
      if useAlt then this.(alt := b) else this.(primary := b)
    }

    /** What an observer sees: size, cursor and the active grid. */
    function Visible(): Screen {
      Screen(cols, rows, Cursor(Cur().cx, Cur().cy, cursorVisible), Cur().cells)
    }

    function Saved(): CursorState { if useAlt then savedAlt else saved }
  }

  predicate SizeOk(b: Buffer, cols: int, rows: int) {
    Wf(b) && b.cols == cols && b.rows == rows
  }

  /** The emulator invariant: both screens are well formed and have the emulator's size. */
  predicate WfTerm(t: Term) {
    && SizeOk(t.primary, t.cols, t.rows)
    && SizeOk(t.alt, t.cols, t.rows)
    && t.saved.Ok() && t.savedAlt.Ok()
  }

  datatype Outcome = Ok(t: Term) | Fault(why: FaultKind)

  predicate OutcomeOk(o: Outcome) {
    o.Ok? ==> WfTerm(o.t)
  }

  const ORIGIN := CursorState(0, 0, DEFAULT_PEN)

  function AtLeast1(v: int): int { if v < 1 then 1 else v }

  function NewTerm(cols: int, rows: int): (t: Term)
    requires cols <= MAX_DIM && rows <= MAX_DIM
    ensures WfTerm(t)
  {
    var c, r := AtLeast1(cols), AtLeast1(rows);
    Term(c, r, New(c, r), New(c, r), false, true, ORIGIN, ORIGIN, 0, false, PromptUnknown)
  }

  // ---------- operations ----------

  /** The active screen replaced and the emulator marked dirty. */
  function Touch(t: Term, b: Buffer): (r: Term)
    requires WfTerm(t) && SizeOk(b, t.cols, t.rows)
    ensures WfTerm(r)
  {
    t.WithCur(b).(dirty := true)
  }

  function ExecuteC0(t: Term, b: byte): (r: Term)
    requires WfTerm(t)
    ensures WfTerm(r)
  {
    var s := t.Cur();
    if b == 0x0D then Touch(t, s.(cx := 0))
    else if 0x0A <= b <= 0x0C then Touch(t, LineFeed(s))
    else if b == 0x09 then Touch(t, Tab(s))
    else if b == 0x08 && s.cx > 0 then Touch(t, s.(cx := s.cx - 1))
    else t
  }

  function SaveCursor(t: Term): (r: Term)
    requires WfTerm(t)
    ensures WfTerm(r)
  {
    var s := t.Cur();
    var c := CursorState(s.cx, s.cy, s.pen);
    if t.useAlt then t.(savedAlt := c) else t.(saved := c)
  }

  function RestoreCursor(t: Term): (r: Term)
    requires WfTerm(t)
    ensures WfTerm(r)
  {
    var c := t.Saved();
    Touch(t, Clamp(t.Cur().(cx := c.x, cy := c.y, pen := c.pen)))
  }

  /** RIS. The saved cursors and the choice of screen survive it. */
  function HardReset(t: Term): (r: Term)
    requires WfTerm(t)
    ensures WfTerm(r)
  {
    t.(primary := New(t.cols, t.rows), alt := New(t.cols, t.rows), cursorVisible := true,
       prompt := PromptUnknown, dirty := true)
  }

  function SwitchAlt(t: Term, useAlt: bool): (r: Term)
    requires WfTerm(t)
    ensures WfTerm(r)
  {
    if t.useAlt == useAlt then t else t.(useAlt := useAlt, dirty := true)
  }

  function SetDecMode(t: Term, mode: int, on: bool): (r: Term)
    requires WfTerm(t)
    ensures WfTerm(r)
  {
    if mode == 25 then t.(cursorVisible := on, dirty := true)
    else if mode == 47 || mode == 1047 then SwitchAlt(t, on)
    else if mode == 1049 && on then
      var a := SwitchAlt(SaveCursor(t), true);
      Touch(a, EraseInDisplay(a.Cur(), 2))
    else if mode == 1049 then RestoreCursor(SwitchAlt(t, false))
    else t
  }

  /** The modes of one sequence, set in order. */
  function SetDecModes(t: Term, modes: seq<int>, on: bool): (r: Term)
    requires WfTerm(t)
    ensures WfTerm(r)
  {
    if modes == [] then t
    else SetDecMode(SetDecModes(t, modes[..|modes| - 1], on), modes[|modes| - 1], on)
  }

  lemma NoModes(t: Term, modes: seq<int>, on: bool)
    requires WfTerm(t)
    ensures SetDecModes(t, modes[..0], on) == t
  {
  }

  lemma OneMoreMode(t: Term, modes: seq<int>, i: nat, on: bool)
    requires WfTerm(t) && i < |modes|
    ensures SetDecModes(t, modes[..i + 1], on) == SetDecMode(SetDecModes(t, modes[..i], on), modes[i], on)
  {
    hide SetDecMode;
    assert modes[..i + 1][..i] == modes[..i];
  }

  const LETTER_H := 'h' as int
  const LETTER_L := 'l' as int

  function DispatchCsi(t: Term, final: byte, inter: seq<byte>, params: seq<int>): (o: Outcome)
    requires WfTerm(t)
    ensures OutcomeOk(o)
  {
    if inter == [] then
      if final == 's' as int then Ok(SaveCursor(t))
      else if final == 'u' as int then Ok(RestoreCursor(t))
      else
        match Control(t.Cur(), final, params)
        case Broken(why) => Fault(why)
        case Effect(b, touched) => Ok(t.WithCur(b).(dirty := t.dirty || touched))
    else if inter == [QUESTION] && (final == LETTER_H || final == LETTER_L) then
      Ok(SetDecModes(t, params, final == LETTER_H))
    else Ok(t)
  }

  function DispatchEsc(t: Term, final: byte, inter: seq<byte>): (r: Term)
    requires WfTerm(t)
    ensures WfTerm(r)
  {
    if inter != [] then t
    else if final == '7' as int then SaveCursor(t)
    else if final == '8' as int then RestoreCursor(t)
    else if final == 'M' as int then Touch(t, ReverseIndex(t.Cur()))
    else if final == 'c' as int then HardReset(t)
    else t
  }

  const OSC_133: seq<byte> := [0x31, 0x33, 0x33, 0x3B]

  /** OSC 133 shell-integration marks. */
  function HandleOsc(t: Term, payload: seq<byte>): (r: Term)
    requires WfTerm(t)
    ensures WfTerm(r)
  {
    if !(OSC_133 <= payload) || |payload| == 4 then t
    else if payload[4] in {0x41, 0x42, 0x44} then t.(prompt := PromptAtPrompt)
    else if payload[4] == 0x43 then t.(prompt := PromptRunning)
    else t
  }

  /** One event. */
  function Apply(t: Term, ev: FrontEnd.Event): (o: Outcome)
    requires WfTerm(t) && FrontEnd.EventOk(ev)
    ensures OutcomeOk(o)
  {
    match ev
    case Printed(r) => Ok(Touch(t, PrintRune(t.Cur(), r)))
    case Command(Execute(ch)) => Ok(ExecuteC0(t, ch))
    case Command(Csi(final, inter, params)) => DispatchCsi(t, final, inter, params)
    case Command(Esc(final, inter)) => Ok(DispatchEsc(t, final, inter))
    case Command(Osc(payload)) => Ok(HandleOsc(t, payload))
    case _ => Ok(t)
  }

  /** Resize to the current size is a no-op and stays clean. */
  function Resize(t: Term, cols: int, rows: int): (r: Term)
    requires WfTerm(t) && cols <= MAX_DIM && rows <= MAX_DIM
    ensures WfTerm(r)
  {
    var c, n := AtLeast1(cols), AtLeast1(rows);
    if c == t.cols && n == t.rows then t
    else t.(cols := c, rows := n, primary := ResizeBuffer(t.primary, c, n),
            alt := ResizeBuffer(t.alt, c, n), dirty := true)
  }

  function Rev(t: Term): nat { if t.dirty then t.rev + 1 else t.rev }

  /** Rendering consumes the dirty mark. */
  function Rendered(t: Term): (r: Term)
    ensures WfTerm(t) ==> WfTerm(r)
  {
    t.(rev := Rev(t), dirty := false)
  }

  // ---------- the whole emulator ----------

  datatype Emu = Emu(front: FrontEnd.Front, term: Term)

  predicate WfEmu(e: Emu) { FrontEnd.WfFront(e.front) && WfTerm(e.term) }

  datatype Result = Running(e: Emu) | Stopped(why: FaultKind)

  function NewEmu(cols: int, rows: int): (e: Emu)
    requires cols <= MAX_DIM && rows <= MAX_DIM
    ensures WfEmu(e)
  {
    Emu(FrontEnd.Front(START, []), NewTerm(cols, rows))
  }

  /** One output byte. */
  function StepByte(e: Emu, b: byte): (r: Result)
    requires WfEmu(e)
    ensures r.Running? ==> WfEmu(r.e)
  {
    var turn := FrontEnd.Step(e.front, b);
    match Apply(e.term, turn.ev)
    case Ok(t) => Running(Emu(turn.f, t))
    case Fault(why) => Stopped(why)
  }

  /** A whole output stream, up to the first fault. */
  function Run(e: Emu, w: seq<byte>): (r: Result)
    requires WfEmu(e)
    ensures r.Running? ==> WfEmu(r.e)
  {
    if w == [] then Running(e)
    else
      match Run(e, w[..|w| - 1])
      case Running(m) => StepByte(m, w[|w| - 1])
      case Stopped(why) => Stopped(why)
  }

  /** Write is a fold: writing p then q leaves exactly the state of writing p + q, across parser
      states and partial UTF-8 sequences, and faults at the same place. */
  lemma {:induction false} RunAppend(e: Emu, p: seq<byte>, q: seq<byte>)
    requires WfEmu(e)
    ensures Run(e, p).Stopped? ==> Run(e, p + q) == Run(e, p)
    ensures Run(e, p).Running? ==> Run(e, p + q) == Run(Run(e, p).e, q)
  {
    hide StepByte, WfEmu;
    if q == [] {
      assert p + q == p;
    } else {
      assert (p + q)[..|p + q| - 1] == p + q[..|q| - 1];
      RunAppend(e, p, q[..|q| - 1]);
    }
  }

  /** A list of events, up to the first fault. */
  function ApplyAll(t: Term, evs: seq<FrontEnd.Event>): (o: Outcome)
    requires WfTerm(t) && forall i :: 0 <= i < |evs| ==> FrontEnd.EventOk(evs[i])
    ensures OutcomeOk(o)
  {
    if evs == [] then Ok(t)
    else
      match ApplyAll(t, evs[..|evs| - 1])
      case Ok(m) => Apply(m, evs[|evs| - 1])
      case Fault(why) => Fault(why)
  }

  /** The screens depend on the bytes only through the events they make. */
  lemma {:induction false} RunIsEvents(e: Emu, w: seq<byte>)
    requires WfEmu(e)
    ensures var o := ApplyAll(e.term, FrontEnd.Events(e.front, w));
            Run(e, w) == if o.Ok? then Running(Emu(FrontEnd.After(e.front, w), o.t)) else Stopped(o.why)
  {
    if w != [] {
      var v := w[..|w| - 1];
      RunIsEvents(e, v);
      var evs := FrontEnd.Events(e.front, v);
      var ev := FrontEnd.Step(FrontEnd.After(e.front, v), w[|w| - 1]).ev;
      assert ev != FrontEnd.Silent ==> (evs + [ev])[..|evs|] == evs;
      assert evs + [] == evs;
    }
  }

  /** The partial UTF-8 sequence dropped. */
  function Flushed(e: Emu): (r: Emu)
    ensures WfEmu(e) ==> WfEmu(r)
  {
    e.(front := e.front.(pending := []))
  }

  /** An ASCII byte drops the partial sequence anyway. */
  lemma StepFlushed(e: Emu, b: byte)
    requires WfEmu(e) && b < 0x80
    ensures StepByte(Flushed(e), b) == StepByte(e, b)
  {
  }

  lemma RunSnoc(e: Emu, w: seq<byte>, k: nat, m: Emu)
    requires WfEmu(e) && k < |w| && Run(e, w[..k]) == Running(m)
    ensures Run(e, w[..k + 1]) == StepByte(m, w[k])
  {
    assert w[..k + 1][..k] == w[..k];
  }

  lemma {:induction false} StoppedForGood(e: Emu, p: seq<byte>, k: nat)
    requires WfEmu(e) && k <= |p| && Run(e, p[..k]).Stopped?
    ensures Run(e, p) == Run(e, p[..k])
  {
    RunAppend(e, p[..k], p[k..]);
    assert p[..k] + p[k..] == p;
  }

  lemma RunNothing(e: Emu, p: seq<byte>)
    requires WfEmu(e)
    ensures Run(e, p[..0]) == Running(e)
  {
    assert p[..0] == [];
  }

  /** Running a piece of the stream from where the bytes before it led. */
  lemma RunPiece(e: Emu, p: seq<byte>, i: nat, k: nat, m: Emu, n: Emu)
    requires WfEmu(e) && WfEmu(m) && i + k <= |p|
    requires Run(e, p[..i]) == Running(m) && Run(m, p[i..][..k]) == Running(n)
    ensures WfEmu(n) && Run(e, p[..i + k]) == Running(n)
  {
    hide Run, WfEmu;
    RunAppend(e, p[..i], p[i..][..k]);
    assert p[..i] + p[i..][..k] == p[..i + k];
  }

  function WithPending(e: Emu, buf: seq<byte>): Emu {
    e.(front := e.front.(pending := buf))
  }

  /** What a high byte does: the buffered sequence is kept, dropped, or printed. */
  lemma StepHigh(e: Emu, b: byte)
    requires WfEmu(e) && b >= 0x80
    ensures StepByte(e, b) == Running(Digested(e, e.front.pending + [b]))
  {
    hide Touch, PrintRune, Utf8.DecodeRune;
  }

  /** The emulator once the bytes of `buf` are all the partial sequence. */
  function Digested(e: Emu, buf: seq<byte>): Emu
    requires WfEmu(e) && buf != []
  {
    var d := Utf8.DecodeRune(buf);
    if d == Utf8.Decoded(Utf8.RUNE_ERROR, 1) then
      WithPending(e, if |buf| >= Utf8.RuneLen(buf[0]) then [] else buf)
    else WithPending(e, []).(term := Touch(e.term, PrintRune(e.term.Cur(), d.rune)))
  }
}
