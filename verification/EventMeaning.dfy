/** What every byte sequence other than text and control sequences does to the terminal: C0 bytes, escape
    sequences, modes, shell marks, and resizing; from the bytes to the cells, the cursor and the prompt state. */
module EventMeaning {
  import opened Terminal
  import opened Buffers
  import opened EmulatorModel
  import opened ControlMeaning
  import opened CsiParser
  import CsiRoundTrip
  import opened SequenceForms
  import ControlSequences
  import FrontEnd

  // ---------- from bytes to an event ----------

  /** The emulator once its parser is `ps`, with nothing pending. */
  function At(ps: Parser, t: Term): Emu { Emu(FrontEnd.Front(ps, []), t) }

  /** A byte after bytes that only moved the parser. */
  lemma Completes(e: Emu, w: seq<byte>, b: byte)
    requires WfEmu(e) && ControlSequences.Plain(w) && CsiRoundTrip.Sequences(e.front.ps, w) == [] && b < 0x80
    ensures var fed := Feed(CsiRoundTrip.After(e.front.ps, w), b);
            var o := Apply(e.term, FrontEnd.ToEvent(fed.act));
            Run(e, w + [b]) == if o.Ok? then Running(At(fed.p, o.t)) else Stopped(o.why)
  {
    hide Feed, WfTerm, Apply, FrontEnd.Events, FrontEnd.After, Run, CsiRoundTrip.Sequences, CsiRoundTrip.After;
    RunIsEvents(e, w);
    ControlSequences.PlainEvents(e.front, w);
    NoEvents(e.term);
    NothingYet(e.front.ps);
    assert FrontEnd.Events(e.front, w) == [];
    OneMoreByte(e, w, b);
  }

  lemma NoEvents(t: Term)
    requires WfTerm(t)
    ensures ApplyAll(t, []) == Ok(t)
  {
  }

  lemma OneMoreByte(e: Emu, w: seq<byte>, b: byte)
    requires WfEmu(e)
    ensures Run(e, w + [b]) == if Run(e, w).Running? then StepByte(Run(e, w).e, b) else Run(e, w)
  {
    hide StepByte, WfEmu;
    assert (w + [b])[..|w|] == w;
  }

  // ---------- C0 ----------

  /** One row down; a scroll by one row on the region's last row; nothing below the region. */
  ghost predicate FeedsLine(b: Buffer, r: Buffer)
    requires Wf(b)
  {
    && (b.cy < b.bottom - 1 ==> r == b.(cy := b.cy + 1))
    && (b.cy == b.bottom - 1 ==> ScrolledBy(b, r, 1))
    && (b.cy > b.bottom - 1 ==> r == b)
  }

  /** The rows of the region show what was `k` rows below, and nothing else changes. */
  ghost predicate ScrolledBy(b: Buffer, r: Buffer, k: int)
    requires Wf(b)
  {
    && Keeps(b, r) && r == b.(cells := r.cells)
    && forall y, x :: 0 <= y < b.rows && 0 <= x < b.cols ==>
         r.cells[y][x] == if b.top - 1 <= y <= b.bottom - 1 then FromRow(b, b.top - 1, b.bottom - 1, y + k, x)
                          else b.cells[y][x]
  }

  lemma ScrollByOne(b: Buffer)
    requires Wf(b)
    ensures ScrolledBy(b, ScrollUp(b, b.top - 1, b.bottom - 1, 1), 1)
    ensures ScrolledBy(b, ScrollDown(b, b.top - 1, b.bottom - 1, 1), -1)
  {
    hide RowOk, ScrollUp, ScrollDown, FromRow;
    var top, bot := b.top - 1, b.bottom - 1;
    ScrollFrame(b, top, bot, 1);
    var u, d := ScrollUp(b, top, bot, 1), ScrollDown(b, top, bot, 1);
    RowLengths(u);
    RowLengths(d);
    forall y, x | 0 <= y < b.rows && 0 <= x < b.cols
      ensures u.cells[y][x] == ScrolledTo(b, top, bot, 1, y, x, 1)
      ensures d.cells[y][x] == ScrolledTo(b, top, bot, 1, y, x, -1)
    {
      ScrolledCell(b, top, bot, 1, y, x);
    }
  }

  /** Forward to the next column that is a multiple of eight, or else to the last column. */
  ghost predicate Tabbed(b: Buffer, r: Buffer) {
    && r == b.(cx := r.cx)
    && (r.cx == b.cols - 1 || (r.cx % 8 == 0 && b.cx < r.cx < b.cols - 1))
    && (forall s :: b.cx < s < r.cx ==> s % 8 != 0)
  }

  /** The C0 bytes, outside strings: CR returns to the first column, LF, VT and FF feed a line, HT tabs, BS goes
      one column back, and every other one changes nothing. */
  lemma C0Means(e: Emu, c: byte)
    requires WfEmu(e) && e.front.ps.state !in {OscString, DcsEntry, DcsPassthrough}
    requires c < 0x20 && c !in {0x18, 0x1A, 0x1B}
    ensures var r, t := Run(e, [c]), e.term;
            && r.Running? && r.e == At(e.front.ps, r.e.term)
            && var u, b := r.e.term, Active(t);
            && OnlyScreen(t, u)
            && u.dirty == (t.dirty || 9 <= c <= 13 || (c == 8 && b.cx > 0))
            && (c == 13 ==> Active(u) == b.(cx := 0))
            && (10 <= c <= 12 ==> FeedsLine(b, Active(u)))
            && (c == 9 ==> Tabbed(b, Active(u)))
            && (c == 8 ==> Active(u) == b.(cx := if b.cx > 0 then b.cx - 1 else 0))
            && (c < 8 || c > 13 ==> u == t)
  {
    hide Feed, WfTerm, Run, Apply, ExecuteC0, FeedsLine, Tabbed, CsiRoundTrip.Sequences, CsiRoundTrip.After;
    NothingYet(e.front.ps);
    Completes(e, [], c);
    assert [] + [c] == [c];
    Controls(e.front.ps, c);
    Executes(e.term, c);
  }

  lemma Executes(t: Term, c: byte)
    requires WfTerm(t)
    ensures Apply(t, FrontEnd.ToEvent(NoAction)) == Ok(t)
    ensures Apply(t, FrontEnd.ToEvent(Execute(c))) == Ok(ExecuteC0(t, c))
    ensures var u, b := ExecuteC0(t, c), Active(t);
            && OnlyScreen(t, u)
            && u.dirty == (t.dirty || 9 <= c <= 13 || (c == 8 && b.cx > 0))
            && (c == 13 ==> Active(u) == b.(cx := 0))
            && (10 <= c <= 12 ==> FeedsLine(b, Active(u)))
            && (c == 9 ==> Tabbed(b, Active(u)))
            && (c == 8 ==> Active(u) == b.(cx := if b.cx > 0 then b.cx - 1 else 0))
            && (c < 8 || c > 13 ==> u == t)
  {
    hide LineFeed, Tab, FeedsLine, Tabbed, GridOk;
    LineMeans(Active(t));
    TabMeans(Active(t));
  }

  lemma LineMeans(b: Buffer)
    requires Wf(b)
    ensures FeedsLine(b, LineFeed(b))
  {
    hide ScrolledBy, ScrollUp, ScrollDown, GridOk;
    ScrollByOne(b);
  }

  lemma TabMeans(b: Buffer)
    requires Wf(b)
    ensures Tabbed(b, Tab(b))
  {
    hide GridOk;
  }

  // ---------- escape sequences ----------

  /** A new screen: unstyled blanks, the cursor home, the default pen, and the whole screen as scroll region. */
  ghost predicate Blanked(b: Buffer, cols: int, rows: int) {
    && b == Buffer(cols, rows, b.cells, 0, 0, Pen(0, 0, 0), 1, rows)
    && |b.cells| == rows && (forall y :: 0 <= y < rows ==> |b.cells[y]| == cols)
    && forall y, x :: 0 <= y < rows && 0 <= x < cols ==> b.cells[y][x] == UNSTYLED
  }

  /** RIS: both screens new, cursor shown, prompt unknown; saved cursors and the choice of screen stay. */
  ghost predicate ResetTo(t: Term, u: Term) {
    && Blanked(u.primary, t.cols, t.rows) && Blanked(u.alt, t.cols, t.rows)
    && u == t.(primary := u.primary, alt := u.alt, cursorVisible := true, prompt := PromptUnknown, dirty := true)
  }

  /** The cursor one row up, or the region scrolled down from its top row on. */
  ghost predicate FeedsBack(b: Buffer, r: Buffer)
    requires Wf(b)
  {
    && (b.cy > b.top - 1 ==> r == b.(cy := b.cy - 1))
    && (b.cy <= b.top - 1 ==> ScrolledBy(b, r, -1))
  }

  /** DECSC, DECRC, RI and RIS from their bytes, whatever was pending; every other escape sequence but the string
      terminator changes nothing. */
  lemma EscMeans(e: Emu, inter: seq<byte>, final: byte)
    requires WfEmu(e) && Among(inter, 0x20, 0x2F) && 0x30 <= final <= 0x7E
    requires inter == [] ==> final !in {'[' as int, ']' as int, 'P' as int}
    requires final != '\\' as int
    ensures var r, t := Run(e, [0x1B] + inter + [final]), e.term;
            && r.Running? && r.e == At(Parser(Ground, [], e.front.ps.param, e.front.ps.osc), r.e.term)
            && var u := r.e.term;
            if inter == [] && final == '7' as int then u == WithSlot(t)
            else if inter == [] && final == '8' as int then Restores(t, u)
            else if inter == [] && final == 'M' as int then
              OnlyScreen(t, u) && u.dirty && FeedsBack(Active(t), Active(u))
            else if inter == [] && final == 'c' as int then ResetTo(t, u)
            else u == t
  {
    hide Feed, WfTerm, Run, Apply, WithSlot, Restores, OnlyScreen, FeedsBack, ResetTo, CsiRoundTrip.Sequences,
      CsiRoundTrip.After;
    Intermediates(e.front.ps, inter);
    var q := e.front.ps.(state := if inter == [] then Escape else EscapeInter, inter := First(inter, 3));
    Completes(e, [0x1B] + inter, final);
    EscFeeds(q, final);
    EscDoes(e.term, First(inter, 3), final);
  }

  lemma EscFeeds(q: Parser, final: byte)
    requires q.state in {Escape, EscapeInter} && 0x30 <= final <= 0x7E && final != '\\' as int
    requires q.state == Escape ==> final !in {'[' as int, ']' as int, 'P' as int}
    ensures Feed(q, final) == Fed(q.(state := Ground, inter := []), Esc(final, q.inter))
  {
  }

  lemma EscDoes(t: Term, inter: seq<byte>, final: byte)
    requires WfTerm(t)
    ensures var o := Apply(t, FrontEnd.ToEvent(Esc(final, inter)));
            && o.Ok?
            && if inter == [] && final == '7' as int then o.t == WithSlot(t)
               else if inter == [] && final == '8' as int then Restores(t, o.t)
               else if inter == [] && final == 'M' as int then
                 OnlyScreen(t, o.t) && o.t.dirty && FeedsBack(Active(t), Active(o.t))
               else if inter == [] && final == 'c' as int then ResetTo(t, o.t)
               else o.t == t
  {
    hide ReverseIndex, GridOk, FeedsBack, HardReset, ResetTo, SaveCursor, RestoreCursor, WithSlot, Restores;
    BackMeans(Active(t));
    ResetMeans(t);
    SlotDoes(t);
  }

  lemma SlotDoes(t: Term)
    requires WfTerm(t)
    ensures SaveCursor(t) == WithSlot(t) && Restores(t, RestoreCursor(t))
  {
    hide GridOk;
  }

  lemma BackMeans(b: Buffer)
    requires Wf(b)
    ensures FeedsBack(b, ReverseIndex(b))
  {
    hide ScrolledBy, ScrollUp, ScrollDown, GridOk;
    ScrollByOne(b);
  }

  lemma NewMeans(cols: int, rows: int)
    requires 1 <= cols <= MAX_DIM && 1 <= rows <= MAX_DIM
    ensures Blanked(New(cols, rows), cols, rows)
  {
  }

  lemma ResetMeans(t: Term)
    requires WfTerm(t)
    ensures ResetTo(t, HardReset(t))
  {
    hide Blanked, New, GridOk;
    NewMeans(t.cols, t.rows);
  }

  // ---------- modes ----------

  /** The grid of `r` is blank in the style of its pen; nothing else differs from `b`. */
  ghost predicate Cleared(b: Buffer, r: Buffer)
    requires Wf(b)
  {
    && Keeps(b, r) && r == b.(cells := r.cells)
    && forall y, x :: 0 <= y < b.rows && 0 <= x < b.cols ==> r.cells[y][x] == Cell(0x20, b.pen)
  }

  /** DECSET and DECRST of one mode: 25 shows and hides the cursor, 47 and 1047 choose the screen, 1049 also saves
      the cursor and clears the alternate screen, or restores it; other modes do nothing. */
  lemma ModeMeans(t: Term, mode: int, on: bool)
    requires WfTerm(t)
    ensures var o := DispatchCsi(t, (if on then 'h' else 'l') as int, ['?' as int], [mode]);
            && o.Ok?
            && var u := o.t;
            if mode == 25 then u == t.(cursorVisible := on, dirty := true)
            else if mode == 47 || mode == 1047 then u == t.(useAlt := on, dirty := t.dirty || t.useAlt != on)
            else if mode == 1049 && on then
              u == WithSlot(t).(useAlt := true, alt := u.alt, dirty := true) && Cleared(t.alt, u.alt)
            else if mode == 1049 then Restores(t.(useAlt := false), u)
            else u == t
  {
    hide GridOk, SetDecMode, Restores, Cleared, WithSlot, Control;
    OneMode(t, mode, on);
    ModeDoes(t, mode, on);
  }

  lemma OneMode(t: Term, mode: int, on: bool)
    requires WfTerm(t)
    ensures SetDecModes(t, [mode], on) == SetDecMode(t, mode, on)
  {
    NoModes(t, [mode], on);
    OneMoreMode(t, [mode], 0, on);
    assert [mode][..1] == [mode];
  }

  lemma ModeDoes(t: Term, mode: int, on: bool)
    requires WfTerm(t)
    ensures var u := SetDecMode(t, mode, on);
            if mode == 25 then u == t.(cursorVisible := on, dirty := true)
            else if mode == 47 || mode == 1047 then u == t.(useAlt := on, dirty := t.dirty || t.useAlt != on)
            else if mode == 1049 && on then
              u == WithSlot(t).(useAlt := true, alt := u.alt, dirty := true) && Cleared(t.alt, u.alt)
            else if mode == 1049 then Restores(t.(useAlt := false), u)
            else u == t
  {
    hide GridOk, Cleared, EraseInDisplay;
    ClearMeans(t.alt);
  }

  lemma ClearMeans(b: Buffer)
    requires Wf(b)
    ensures Cleared(b, EraseInDisplay(b, 2))
  {
    hide RowOk, EraseInDisplay, CellAfter, Cellwise;
    DisplayCells(b, [2]);
    var r := EraseInDisplay(b, 2);
    DisplayMode(b, r);
  }

  lemma DisplayMode(b: Buffer, r: Buffer)
    requires Wf(b) && Cellwise(b, r, 'J' as int, [2])
    ensures Cleared(b, r)
  {
    hide RowOk;
    RowLengths(b);
    RowLengths(r);
  }

  /** The modes of one sequence, in order. */
  lemma ModesInTurn(t: Term, final: byte, modes: seq<int>, mode: int)
    requires WfTerm(t) && final in {'h' as int, 'l' as int}
    ensures DispatchCsi(t, final, ['?' as int], []) == Ok(t)
    ensures var o := DispatchCsi(t, final, ['?' as int], modes);
            && o.Ok?
            && DispatchCsi(t, final, ['?' as int], modes + [mode]) == DispatchCsi(o.t, final, ['?' as int], [mode])
  {
    hide GridOk, SetDecMode;
    var on := final == 'h' as int;
    OneMode(SetDecModes(t, modes, on), mode, on);
    assert (modes + [mode])[..|modes|] == modes;
  }

  // ---------- shell marks ----------

  /** OSC 133 A, B and D: at the prompt; C: running; anything else leaves the state as it was. */
  function PromptAfter(payload: seq<byte>, was: PromptState): PromptState {
    if |payload| < 5 || payload[..4] != [0x31, 0x33, 0x33, 0x3B] then was
    else if payload[4] == 'A' as int || payload[4] == 'B' as int || payload[4] == 'D' as int then PromptAtPrompt
    else if payload[4] == 'C' as int then PromptRunning
    else was
  }

  /** From the bytes of an OSC string, of any length and with either ending: the prompt state and nothing
      else. */
  lemma MarkMeans(e: Emu, payload: seq<byte>, end: seq<byte>)
    requires WfEmu(e) && Among(payload, 0x20, 0x7F) && (end == [0x07] || end == [0x1B, 0x5C])
    ensures Run(e, [0x1B, 0x5D] + payload + end) ==
            Running(At(Parser(Ground, [], e.front.ps.param, []),
                       e.term.(prompt := PromptAfter(payload, e.term.prompt))))
  {
    hide WfTerm, Run, Apply, PromptAfter, First;
    MarkDoes(e.term, payload);
    if |end| == 2 { EndedByEsc(e, payload); } else { EndedByBel(e, payload); }
  }

  lemma OscSilent(e: Emu, payload: seq<byte>)
    requires Among(payload, 0x20, 0x7F)
    ensures var w := [0x1B, 0x5D] + payload;
            && ControlSequences.Plain(w) && CsiRoundTrip.Sequences(e.front.ps, w) == []
            && CsiRoundTrip.After(e.front.ps, w) == Parser(OscString, [], e.front.ps.param, First(payload, 511))
  {
    hide First, CsiRoundTrip.Sequences, CsiRoundTrip.After;
    OscBody(e.front.ps, payload);
    AllKept(payload);
  }

  lemma EndedByBel(e: Emu, payload: seq<byte>)
    requires WfEmu(e) && Among(payload, 0x20, 0x7F)
    ensures var o := Apply(e.term, FrontEnd.ToEvent(Osc(First(payload, 511))));
            Run(e, [0x1B, 0x5D] + payload + [0x07]) ==
            if o.Ok? then Running(At(Parser(Ground, [], e.front.ps.param, []), o.t)) else Stopped(o.why)
  {
    hide Feed, WfTerm, Run, Apply, First, ControlSequences.Plain, CsiRoundTrip.Sequences, CsiRoundTrip.After;
    OscSilent(e, payload);
    StringEnds(Parser(OscString, [], e.front.ps.param, First(payload, 511)));
    Completes(e, [0x1B, 0x5D] + payload, 0x07);
  }

  lemma EndedByEsc(e: Emu, payload: seq<byte>)
    requires WfEmu(e) && Among(payload, 0x20, 0x7F)
    ensures var o := Apply(e.term, FrontEnd.ToEvent(Osc(First(payload, 511))));
            Run(e, [0x1B, 0x5D] + payload + [0x1B, 0x5C]) ==
            if o.Ok? then Running(At(Parser(Ground, [], e.front.ps.param, []), o.t)) else Stopped(o.why)
  {
    hide Feed, WfTerm, Run, Apply, First, ControlSequences.Plain, CsiRoundTrip.Sequences, CsiRoundTrip.After;
    OscSilent(e, payload);
    var w := [0x1B, 0x5D] + payload;
    StringEnds(Parser(OscString, [], e.front.ps.param, First(payload, 511)));
    Silent(e.front.ps, w, 0x1B);
    PlainToo(w);
    Completes(e, w + [0x1B], 0x5C);
    assert w + [0x1B, 0x5C] == w + [0x1B] + [0x5C];
  }

  lemma PlainToo(w: seq<byte>)
    requires ControlSequences.Plain(w)
    ensures ControlSequences.Plain(w + [0x1B])
  {
  }

  lemma StringEnds(q: Parser)
    requires q.state == OscString
    ensures Feed(q, 0x07) == Fed(Parser(Ground, q.inter, q.param, []), Osc(q.osc))
    ensures Feed(q, 0x1B) == Fed(Parser(Escape, [], q.param, q.osc), NoAction)
    ensures Feed(q.(state := Escape, inter := []), 0x5C) == Fed(Parser(Ground, [], q.param, []), Osc(q.osc))
  {
  }

  lemma {:induction false} AllKept(w: seq<byte>)
    requires Among(w, 0x20, 0x7F)
    ensures Kept(w) == w
  {
    if w != [] {
      AllKept(w[..|w| - 1]);
      assert w[..|w| - 1] + [w[|w| - 1]] == w;
    }
  }

  lemma MarkDoes(t: Term, payload: seq<byte>)
    requires WfTerm(t)
    ensures Apply(t, FrontEnd.ToEvent(Osc(First(payload, 511)))) == Ok(t.(prompt := PromptAfter(payload, t.prompt)))
  {
    hide GridOk;
    var f := First(payload, 511);
    assert |f| >= 4 ==> f[..4] == payload[..4];
    assert t == t.(prompt := t.prompt);
  }

  // ---------- making and resizing ----------

  /** A new terminal: both screens blank, at least one row and one column, nothing to render yet. */
  lemma NewTermMeans(cols: int, rows: int)
    requires cols <= MAX_DIM && rows <= MAX_DIM
    ensures var t := NewTerm(cols, rows);
            && t.cols == (if cols < 1 then 1 else cols) && t.rows == (if rows < 1 then 1 else rows)
            && Blanked(t.primary, t.cols, t.rows) && Blanked(t.alt, t.cols, t.rows)
            && !t.useAlt && t.cursorVisible && t.rev == 0 && !t.dirty && t.prompt == PromptUnknown
            && t.saved == CursorState(0, 0, Pen(0, 0, 0)) == t.savedAlt
  {
    hide New, Blanked, GridOk;
    NewMeans(AtLeast1(cols), AtLeast1(rows));
  }

  /** A screen at a new size: cells both sizes have stay, the others are unstyled blanks; the cursor is brought
      onto the screen, the pen stays, and the scroll region is the whole screen. */
  ghost predicate Refitted(b: Buffer, r: Buffer, cols: int, rows: int)
    requires Wf(b)
  {
    && Wf(r)
    && r == Buffer(cols, rows, r.cells, if b.cx >= cols then cols - 1 else b.cx,
                   if b.cy >= rows then rows - 1 else b.cy, b.pen, 1, rows)
    && forall y, x :: 0 <= y < rows && 0 <= x < cols ==>
         r.cells[y][x] == if y < b.rows && x < b.cols then b.cells[y][x] else UNSTYLED
  }

  /** Resizing refits both screens, the one in view and the other; at the current size it changes nothing. */
  lemma ResizeMeans(t: Term, cols: int, rows: int)
    requires WfTerm(t) && cols <= MAX_DIM && rows <= MAX_DIM
    ensures var u, c, n := Resize(t, cols, rows), if cols < 1 then 1 else cols, if rows < 1 then 1 else rows;
            if c == t.cols && n == t.rows then u == t
            else && Refitted(t.primary, u.primary, c, n) && Refitted(t.alt, u.alt, c, n)
                 && u == t.(cols := c, rows := n, primary := u.primary, alt := u.alt, dirty := true)
  {
    hide Refitted, ResizeBuffer, GridOk;
    var c, n := AtLeast1(cols), AtLeast1(rows);
    Refits(t.primary, c, n);
    Refits(t.alt, c, n);
  }

  lemma Refits(b: Buffer, cols: int, rows: int)
    requires Wf(b) && 1 <= cols <= MAX_DIM && 1 <= rows <= MAX_DIM
    ensures Refitted(b, ResizeBuffer(b, cols, rows), cols, rows)
  {
    hide RowOk, ResizeBuffer;
    RowLengths(b);
    ResizedParts(b, cols, rows);
    RowLengths(ResizeBuffer(b, cols, rows));
  }
}
