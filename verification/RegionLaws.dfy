/** What a scroll region is for: scrolling never touches a row outside it. */
module RegionLaws {
  import opened Terminal
  import opened CsiParser
  import opened CsiRoundTrip
  import ControlSequences
  import FrontEnd
  import opened Buffers
  import opened EmulatorModel
  import EmulatorSafety

  /** The sequences that write into rows, set another region or change the screen. */
  predicate Writes(final: byte, inter: seq<byte>) {
    || (inter == [] && final in {'J' as int, 'K' as int, 'P' as int, '@' as int, 'X' as int, 'r' as int})
    || (inter == [QUESTION] && final in {LETTER_H, LETTER_L})
  }

  /** What neither prints nor erases: line feeds and the other C0 bytes, reverse index, scrolling, inserted and
      deleted lines, cursor moves, save and restore, colours, and everything that is ignored. */
  predicate Scrolling(ev: FrontEnd.Event) {
    match ev
    case Printed(_) => false
    case Command(Csi(final, inter, _)) => !Writes(final, inter)
    case Command(Esc(final, inter)) => !(final == 'c' as int && inter == [])
    case _ => true
  }

  predicate Outside(b: Buffer, y: int) { 0 <= y < b.rows && !(ScrollRegion(b).top <= y <= ScrollRegion(b).bot) }

  /** The row and the region are as they were. */
  predicate Spared(b: Buffer, r: Buffer, y: int) {
    && r.top == b.top && r.bottom == b.bottom && r.rows == b.rows
    && 0 <= y < |b.cells| && 0 <= y < |r.cells| && r.cells[y] == b.cells[y]
  }

  lemma UpSpares(b: Buffer, top: int, n: int, y: int)
    requires Wf(b) && Outside(b, y) && ScrollRegion(b).top <= top <= ScrollRegion(b).bot
    ensures Spared(b, ScrollUp(b, top, ScrollRegion(b).bot, n), y)
    ensures Spared(b, ScrollDown(b, top, ScrollRegion(b).bot, n), y)
  {
    var bot := ScrollRegion(b).bot;
    if n > 0 {
      ScrolledUpRow(b, top, bot, n, y);
      ScrolledDownRow(b, top, bot, n, y);
    }
  }

  lemma LinesSpare(b: Buffer, n: int, y: int)
    requires Wf(b) && Outside(b, y)
    ensures Spared(b, LineFeed(b), y) && Spared(b, ReverseIndex(b), y)
    ensures Spared(b, ShiftLines(b, n, true), y) && Spared(b, ShiftLines(b, n, false), y)
  {
    hide ScrollUp, ScrollDown;
    var g := ScrollRegion(b);
    UpSpares(b, g.top, 1, y);
    if g.top <= b.cy <= g.bot { UpSpares(b, b.cy, n, y); }
  }

  lemma ControlSpares(b: Buffer, final: byte, params: seq<int>, y: int)
    requires Wf(b) && Outside(b, y) && !Writes(final, [])
    ensures var e := Control(b, final, params); e.Effect? ==> Spared(b, e.b, y)
  {
    hide ScrollUp, ScrollDown, ShiftLines, Sgr.Apply, RowOk;
    LinesSpare(b, Param(params, 0, 1), y);
    UpSpares(b, ScrollRegion(b).top, Param(params, 0, 1), y);
  }

  /** The active screen after a step, with the row and the region spared. */
  predicate TermSpared(t: Term, u: Term, y: int) { u.useAlt == t.useAlt && Spared(t.Cur(), u.Cur(), y) }

  lemma TouchSpares(t: Term, b: Buffer, y: int)
    requires WfTerm(t) && SizeOk(b, t.cols, t.rows) && Spared(t.Cur(), b, y)
    ensures TermSpared(t, Touch(t, b), y)
  {
  }

  lemma C0Spares(t: Term, b: byte, y: int)
    requires WfTerm(t) && Outside(t.Cur(), y)
    ensures TermSpared(t, ExecuteC0(t, b), y)
  {
    hide LineFeed, Tab, RowOk, GridOk, ScrollRegion;
    LinesSpare(t.Cur(), 1, y);
    TabSpares(t.Cur(), y);
  }

  lemma SavedSpares(t: Term, y: int)
    requires WfTerm(t) && Outside(t.Cur(), y)
    ensures TermSpared(t, SaveCursor(t), y) && TermSpared(t, RestoreCursor(t), y)
  {
    hide RowOk, GridOk, ScrollRegion;
    SparedItself(t.Cur(), y);
  }

  lemma EscSpares(t: Term, final: byte, inter: seq<byte>, y: int)
    requires WfTerm(t) && Outside(t.Cur(), y) && !(final == 'c' as int && inter == [])
    ensures TermSpared(t, DispatchEsc(t, final, inter), y)
  {
    hide ReverseIndex, RowOk, GridOk, ScrollRegion, SaveCursor, RestoreCursor, Touch;
    LinesSpare(t.Cur(), 1, y);
    SavedSpares(t, y);
    SparedItself(t.Cur(), y);
    TouchSpares(t, ReverseIndex(t.Cur()), y);
  }

  lemma CsiSpares(t: Term, final: byte, inter: seq<byte>, params: seq<int>, y: int)
    requires WfTerm(t) && Outside(t.Cur(), y) && !Writes(final, inter)
    ensures var o := DispatchCsi(t, final, inter, params); o.Ok? ==> TermSpared(t, o.t, y)
  {
    hide Control, RowOk, GridOk, ScrollRegion, SaveCursor, RestoreCursor;
    SavedSpares(t, y);
    SparedItself(t.Cur(), y);
    if inter == [] { ControlSpares(t.Cur(), final, params, y); }
  }

  lemma ApplySpares(t: Term, ev: FrontEnd.Event, y: int)
    requires WfTerm(t) && FrontEnd.EventOk(ev) && Scrolling(ev) && Outside(t.Cur(), y) && Apply(t, ev).Ok?
    ensures TermSpared(t, Apply(t, ev).t, y)
  {
    hide DispatchCsi, DispatchEsc, ExecuteC0, RowOk, GridOk, ScrollRegion;
    SparedItself(t.Cur(), y);
    match ev
    case Command(Execute(ch)) => C0Spares(t, ch, y);
    case Command(Csi(final, inter, params)) => CsiSpares(t, final, inter, params, y);
    case Command(Esc(final, inter)) => EscSpares(t, final, inter, y);
    case _ =>
  }

  lemma TabSpares(b: Buffer, y: int)
    requires Wf(b) && Outside(b, y)
    ensures Spared(b, Tab(b), y)
  {
  }

  lemma StillOutside(b: Buffer, r: Buffer, y: int)
    requires Outside(b, y) && Spared(b, r, y)
    ensures Outside(r, y)
  {
  }

  lemma {:induction false} EventsSpare(t: Term, evs: seq<FrontEnd.Event>, y: int)
    requires WfTerm(t) && Outside(t.Cur(), y)
    requires forall i :: 0 <= i < |evs| ==> FrontEnd.EventOk(evs[i]) && Scrolling(evs[i])
    ensures var o := ApplyAll(t, evs); o.Ok? ==> TermSpared(t, o.t, y)
  {
    hide Apply, WfTerm, Outside, Scrolling, FrontEnd.EventOk;
    if evs == [] {
      CurWf(t);
      SparedItself(t.Cur(), y);
    } else {
      var n := |evs| - 1;
      EventsSpare(t, evs[..n], y);
      var m := ApplyAll(t, evs[..n]);
      if m.Ok? && Apply(m.t, evs[n]).Ok? {
        StillOutside(t.Cur(), m.t.Cur(), y);
        ApplySpares(m.t, evs[n], y);
      }
    }
  }

  lemma CurWf(t: Term)
    requires WfTerm(t)
    ensures Wf(t.Cur())
  {
  }

  lemma SparedItself(b: Buffer, y: int)
    requires Wf(b) && Outside(b, y)
    ensures Spared(b, b, y)
  {
  }

  /** No byte of the output prints, erases, sets a region or changes the screen. */
  predicate OnlyScrolls(f: FrontEnd.Front, w: seq<byte>) {
    forall i :: 0 <= i < |FrontEnd.Events(f, w)| ==> Scrolling(FrontEnd.Events(f, w)[i])
  }

  /** Output that only scrolls leaves every row outside the region as it is. */
  lemma OutputSpares(e: Emu, w: seq<byte>, y: int)
    requires WfEmu(e) && Outside(e.term.Cur(), y) && OnlyScrolls(e.front, w) && Run(e, w).Running?
    ensures TermSpared(e.term, Run(e, w).e.term, y)
  {
    hide Run, ApplyAll, FrontEnd.Events, WfTerm, Outside, Scrolling;
    RunIsEvents(e, w);
    EventsSpare(e.term, FrontEnd.Events(e.front, w), y);
  }

  const LETTER_R: byte := 0x72

  /** The bytes that set the region from row `top` to row `bot`. */
  function SetRows(top: nat, bot: nat): seq<byte> { ControlSequences.Bytes([top, bot], false, LETTER_R) }

  lemma RowsFit(top: nat, bot: nat)
    requires top <= MAX_DIM && bot <= MAX_DIM
    ensures |Render([top, bot])| <= PARAM_CAP && Wrapped([top, bot]) == [top, bot]
  {
    Digits15(top);
    Digits15(bot);
    assert [top, bot][..1] == [top];
    assert Render([top]) == Decimal(top);
  }

  lemma Digits15(n: nat)
    requires n <= MAX_DIM
    ensures |Decimal(n)| <= 15
  {
    assert EmulatorSafety.Pow10(5) == 100_000;
    assert EmulatorSafety.Pow10(10) == 10_000_000_000;
    assert EmulatorSafety.Pow10(15) == 1_000_000_000_000_000;
    EmulatorSafety.DecimalLength(n, 15);
  }

  lemma RegionSet(t: Term, top: nat, bot: nat)
    requires WfTerm(t) && 1 <= top < bot <= t.rows
    ensures var o := DispatchCsi(t, LETTER_R, [], [top, bot]);
            && o.Ok? && o.t.useAlt == t.useAlt
            && o.t.Cur() == t.Cur().(top := top, bottom := bot, cx := 0, cy := 0)
  {
  }

  /** Once the bytes of DECSTBM have set a region, output of any length that only scrolls and moves the cursor
      leaves every row outside that region as it was. */
  lemma RegionConfines(e: Emu, top: nat, bot: nat, w: seq<byte>, y: int)
    requires WfEmu(e) && 1 <= top < bot <= e.term.rows && 0 <= y < e.term.rows && (y + 1 < top || bot <= y)
    ensures Run(e, SetRows(top, bot)).Running?
    ensures var mid := Run(e, SetRows(top, bot)).e;
            OnlyScrolls(mid.front, w) && Run(mid, w).Running? ==>
              && Run(e, SetRows(top, bot) + w) == Run(mid, w)
              && var u := Run(mid, w).e.term; 0 <= y < |u.Cur().cells| && u.Cur().cells[y] == e.term.Cur().cells[y]
  {
    hide Run, DispatchCsi, OnlyScrolls, Render, Wrapped;
    RowsFit(top, bot);
    ControlSequences.WriteDispatches(e, [top, bot], false, LETTER_R);
    RegionSet(e.term, top, bot);
    var mid := Run(e, SetRows(top, bot)).e;
    if OnlyScrolls(mid.front, w) && Run(mid, w).Running? {
      OutputSpares(mid, w, y);
      RunAppend(e, SetRows(top, bot), w);
    }
  }
}
