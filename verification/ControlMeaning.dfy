/** What each control sequence does to a screen, cell by cell: the meaning of every final byte, in terms of the
    parameters, the old cells, the cursor and the scroll region. */
module ControlMeaning {
  import opened Terminal
  import opened Buffers
  import opened EmulatorModel
  import EmulatorSafety
  import Sgr

  /** The first parameter, nothing standing for zero; and as a count, nothing and zero standing for one. */
  function Mode(params: seq<int>): int { if |params| > 0 then params[0] else 0 }

  function Count(params: seq<int>): int { if |params| > 0 && params[0] != 0 then params[0] else 1 }

  const UNSTYLED := Cell(0x20, Pen(0, 0, 0))

  /** Cells that ED and EL erase. */
  predicate InDisplay(b: Buffer, mode: int, y: int, x: int) {
    || (mode == 0 && (y > b.cy || (y == b.cy && x >= b.cx)))
    || (mode == 1 && (y < b.cy || (y == b.cy && x <= b.cx)))
    || mode == 2 || mode == 3
  }

  predicate InLine(b: Buffer, mode: int, y: int, x: int) {
    y == b.cy && ((mode == 0 && x >= b.cx) || (mode == 1 && x <= b.cx) || mode == 2)
  }

  /** The cell that is `n` rows from this one within rows lo..hi, or an unstyled blank. */
  function FromRow(b: Buffer, lo: int, hi: int, y: int, x: int): Cell
    requires Wf(b) && 0 <= lo && hi < b.rows && 0 <= x < b.cols
  {
    if lo <= y <= hi then b.cells[y][x] else UNSTYLED
  }

  /** The cell in this column of the row, if it is within columns lo..cols-1, or a blank in the pen's style. */
  function FromColumn(b: Buffer, lo: int, y: int, x: int): Cell
    requires Wf(b) && 0 <= lo && 0 <= y < b.rows
  {
    if lo <= x < b.cols then b.cells[y][x] else Cell(0x20, b.pen)
  }

  /** A cell after the sequence with this final byte: ED, EL, IL, DL, SU, SD, DCH, ICH and ECH. */
  function CellAfter(b: Buffer, final: byte, params: seq<int>, y: int, x: int): Cell
    requires Wf(b) && 0 <= y < b.rows && 0 <= x < b.cols
  {
    var mode, n, top, bot := Mode(params), Count(params), b.top - 1, b.bottom - 1;
    var k, was, erased := if n < 1 then 1 else n, b.cells[y][x], Cell(0x20, b.pen);
    if final == 'J' as int then if InDisplay(b, mode, y, x) then erased else was
    else if final == 'K' as int then if InLine(b, mode, y, x) then erased else was
    else if final == 'L' as int then
      if n > 0 && top <= b.cy <= y <= bot then FromRow(b, b.cy, bot, y - n, x) else was
    else if final == 'M' as int then
      if n > 0 && top <= b.cy <= y <= bot then FromRow(b, b.cy, bot, y + n, x) else was
    else if final == 'S' as int then if n > 0 && top <= y <= bot then FromRow(b, top, bot, y + n, x) else was
    else if final == 'T' as int then if n > 0 && top <= y <= bot then FromRow(b, top, bot, y - n, x) else was
    else if final == 'P' as int then if y == b.cy && x >= b.cx then FromColumn(b, b.cx, y, x + k) else was
    else if final == '@' as int then if y == b.cy && x >= b.cx then FromColumn(b, b.cx, y, x - k) else was
    else if final == 'X' as int then if y == b.cy && b.cx <= x < b.cx + n then erased else was
    else was
  }

  predicate Edits(final: byte) {
    final in {'J' as int, 'K' as int, 'L' as int, 'M' as int, 'S' as int, 'T' as int, 'P' as int, '@' as int,
              'X' as int}
  }

  // ---------- one screen ----------

  ghost predicate Cellwise(b: Buffer, r: Buffer, final: byte, params: seq<int>)
    requires Wf(b)
  {
    && Keeps(b, r) && r == b.(cells := r.cells)
    && forall y, x :: 0 <= y < b.rows && 0 <= x < b.cols ==> r.cells[y][x] == CellAfter(b, final, params, y, x)
  }

  lemma RowLengths(b: Buffer)
    requires Wf(b)
    ensures |b.cells| == b.rows && forall y :: 0 <= y < b.rows ==> |b.cells[y]| == b.cols
  {
  }

  lemma DisplayCells(b: Buffer, params: seq<int>)
    requires Wf(b) && !ErasesPastRow(b, Mode(params))
    ensures Cellwise(b, EraseInDisplay(b, Mode(params)), 'J' as int, params)
  {
    hide RowOk;
    var mode := Mode(params);
    var r := EraseInDisplay(b, mode);
    RowLengths(b);
    RowLengths(r);
    forall y, x | 0 <= y < b.rows && 0 <= x < b.cols ensures r.cells[y][x] == CellAfter(b, 'J' as int, params, y, x) {
      if 0 <= mode <= 3 { ErasedRow(b, mode, y); }
    }
  }

  lemma LineCells(b: Buffer, params: seq<int>)
    requires Wf(b) && !ErasesPastRow(b, Mode(params))
    ensures Cellwise(b, EraseInLine(b, Mode(params)), 'K' as int, params)
  {
    hide RowOk;
    RowLengths(b);
    RowLengths(EraseInLine(b, Mode(params)));
  }

  lemma ShiftCells(b: Buffer, params: seq<int>)
    requires Wf(b)
    ensures Cellwise(b, ShiftLines(b, Count(params), true), 'L' as int, params)
    ensures Cellwise(b, ShiftLines(b, Count(params), false), 'M' as int, params)
  {
    hide RowOk, ScrollUp, ScrollDown, Cellwise;
    var n := Count(params);
    var g := ScrollRegion(b);
    if g.top <= b.cy <= g.bot {
      ShiftedInside(b, params);
    } else {
      ShiftedOutside(b, params);
    }
  }

  lemma ShiftedInside(b: Buffer, params: seq<int>)
    requires Wf(b) && b.top - 1 <= b.cy <= b.bottom - 1
    ensures Cellwise(b, ScrollDown(b, b.cy, b.bottom - 1, Count(params)), 'L' as int, params)
    ensures Cellwise(b, ScrollUp(b, b.cy, b.bottom - 1, Count(params)), 'M' as int, params)
  {
    hide RowOk, ScrollUp, ScrollDown, CellAfter;
    var n, bot := Count(params), b.bottom - 1;
    ScrollFrame(b, b.cy, bot, n);
    var d, u := ScrollDown(b, b.cy, bot, n), ScrollUp(b, b.cy, bot, n);
    RowLengths(d);
    RowLengths(u);
    forall y, x | 0 <= y < b.rows && 0 <= x < b.cols
      ensures d.cells[y][x] == CellAfter(b, 'L' as int, params, y, x)
      ensures u.cells[y][x] == CellAfter(b, 'M' as int, params, y, x)
    {
      ScrolledCell(b, b.cy, bot, n, y, x);
      LineAfter(b, params, y, x);
    }
  }

  lemma LineAfter(b: Buffer, params: seq<int>, y: int, x: int)
    requires Wf(b) && b.top - 1 <= b.cy <= b.bottom - 1 && 0 <= y < b.rows && 0 <= x < b.cols
    ensures var n, bot := Count(params), b.bottom - 1;
            && CellAfter(b, 'L' as int, params, y, x) == ScrolledTo(b, b.cy, bot, n, y, x, -n)
            && CellAfter(b, 'M' as int, params, y, x) == ScrolledTo(b, b.cy, bot, n, y, x, n)
  {
    hide RowOk;
  }

  /** A cell after rows top..bot were scrolled, to what is `k` rows below it. */
  function ScrolledTo(b: Buffer, top: int, bot: int, n: int, y: int, x: int, k: int): Cell
    requires Wf(b) && 0 <= top <= bot < b.rows && 0 <= y < b.rows && 0 <= x < b.cols
  {
    if n > 0 && top <= y <= bot then FromRow(b, top, bot, y + k, x) else b.cells[y][x]
  }

  lemma ScrollFrame(b: Buffer, top: int, bot: int, n: int)
    requires Wf(b) && 0 <= top <= bot < b.rows
    ensures var r := ScrollUp(b, top, bot, n); r == b.(cells := r.cells)
    ensures var r := ScrollDown(b, top, bot, n); r == b.(cells := r.cells)
  {
  }

  lemma ScrolledCell(b: Buffer, top: int, bot: int, n: int, y: int, x: int)
    requires Wf(b) && 0 <= top <= bot < b.rows && 0 <= y < b.rows && 0 <= x < b.cols
    ensures var u := ScrollUp(b, top, bot, n).cells;
            |u| == b.rows && |u[y]| == b.cols && u[y][x] == ScrolledTo(b, top, bot, n, y, x, n)
    ensures var d := ScrollDown(b, top, bot, n).cells;
            |d| == b.rows && |d[y]| == b.cols && d[y][x] == ScrolledTo(b, top, bot, n, y, x, -n)
  {
    hide RowOk, ScrollUp, ScrollDown;
    RowLengths(b);
    RowLengths(ScrollUp(b, top, bot, n));
    RowLengths(ScrollDown(b, top, bot, n));
    if n > 0 {
      ScrolledUpRow(b, top, bot, n, y);
      ScrolledDownRow(b, top, bot, n, y);
    } else {
      NoScroll(b, top, bot, n);
    }
  }

  lemma ShiftedOutside(b: Buffer, params: seq<int>)
    requires Wf(b) && !(b.top - 1 <= b.cy <= b.bottom - 1)
    ensures Cellwise(b, b, 'L' as int, params) && Cellwise(b, b, 'M' as int, params)
  {
    hide RowOk;
  }

  lemma RegionCells(b: Buffer, params: seq<int>)
    requires Wf(b)
    ensures Cellwise(b, ScrollUp(b, b.top - 1, b.bottom - 1, Count(params)), 'S' as int, params)
    ensures Cellwise(b, ScrollDown(b, b.top - 1, b.bottom - 1, Count(params)), 'T' as int, params)
  {
    hide RowOk, ScrollUp, ScrollDown, CellAfter;
    var n, top, bot := Count(params), b.top - 1, b.bottom - 1;
    ScrollFrame(b, top, bot, n);
    var u, d := ScrollUp(b, top, bot, n), ScrollDown(b, top, bot, n);
    RowLengths(u);
    RowLengths(d);
    forall y, x | 0 <= y < b.rows && 0 <= x < b.cols
      ensures u.cells[y][x] == CellAfter(b, 'S' as int, params, y, x)
      ensures d.cells[y][x] == CellAfter(b, 'T' as int, params, y, x)
    {
      ScrolledCell(b, top, bot, n, y, x);
      RegionAfter(b, params, y, x);
    }
  }

  lemma RegionAfter(b: Buffer, params: seq<int>, y: int, x: int)
    requires Wf(b) && 0 <= y < b.rows && 0 <= x < b.cols
    ensures var n, top, bot := Count(params), b.top - 1, b.bottom - 1;
            && CellAfter(b, 'S' as int, params, y, x) == ScrolledTo(b, top, bot, n, y, x, n)
            && CellAfter(b, 'T' as int, params, y, x) == ScrolledTo(b, top, bot, n, y, x, -n)
  {
    hide RowOk;
  }

  lemma DeleteCells(b: Buffer, params: seq<int>)
    requires Wf(b)
    ensures Cellwise(b, DeleteChars(b, Count(params)), 'P' as int, params)
  {
    hide RowOk;
    RowLengths(b);
    RowLengths(DeleteChars(b, Count(params)));
  }

  lemma InsertCells(b: Buffer, params: seq<int>)
    requires Wf(b)
    ensures Cellwise(b, InsertChars(b, Count(params)), '@' as int, params)
  {
    hide RowOk;
    RowLengths(b);
    RowLengths(InsertChars(b, Count(params)));
  }

  lemma EraseCells(b: Buffer, params: seq<int>)
    requires Wf(b)
    ensures Cellwise(b, EraseChars(b, Count(params)), 'X' as int, params)
  {
    hide RowOk;
    RowLengths(b);
    RowLengths(EraseChars(b, Count(params)));
  }

  // ---------- the terminal ----------

  /** The active screen, and the other one. */
  function Active(t: Term): Buffer { if t.useAlt then t.alt else t.primary }

  function Inactive(t: Term): Buffer { if t.useAlt then t.primary else t.alt }

  /** Only the active screen and the dirty mark may differ. */
  predicate OnlyScreen(t: Term, u: Term) {
    u == t.(primary := u.primary, alt := u.alt, dirty := u.dirty) && Inactive(u) == Inactive(t)
  }

  /** ED, EL, IL, DL, SU, SD, DCH, ICH and ECH, for every screen and every parameter list: each cell becomes what
      its final byte says, cursor, pen and region stay, and the screen is marked dirty, except by DCH and ICH at
      a pending wrap. Only ED 1 and EL 1 at a pending wrap fault. */
  lemma EditsMean(t: Term, final: byte, params: seq<int>)
    requires WfTerm(t) && Edits(final)
    ensures var o, b := DispatchCsi(t, final, [], params), Active(t);
            && (o.Fault? <==> final in {'J' as int, 'K' as int} && Mode(params) == 1 && b.cx == b.cols)
            && (o.Ok? ==> && OnlyScreen(t, o.t) && Cellwise(b, Active(o.t), final, params)
                          && o.t.dirty == (t.dirty || final !in {'P' as int, '@' as int} || b.cx < b.cols))
  {
    hide EraseInDisplay, EraseInLine, ShiftLines, ScrollUp, ScrollDown, InsertChars, DeleteChars, EraseChars, Cellwise,
      RowOk;
    var b := Active(t);
    ControlEdits(b, final, params);
  }

  lemma ControlEdits(b: Buffer, final: byte, params: seq<int>)
    requires Wf(b) && Edits(final)
    ensures var e := Control(b, final, params);
            && (e.Broken? <==> final in {'J' as int, 'K' as int} && Mode(params) == 1 && b.cx == b.cols)
            && (e.Effect? ==> && Cellwise(b, e.b, final, params)
                              && e.touched == (final !in {'P' as int, '@' as int} || b.cx < b.cols))
  {
    hide EraseInDisplay, EraseInLine, ShiftLines, ScrollUp, ScrollDown, InsertChars, DeleteChars, EraseChars, Cellwise,
      RowOk, GridOk;
    if final in {'J' as int, 'K' as int} {
      if !ErasesPastRow(b, Mode(params)) {
        DisplayCells(b, params);
        LineCells(b, params);
      }
    } else {
      ShiftCells(b, params);
      RegionCells(b, params);
      DeleteCells(b, params);
      InsertCells(b, params);
      EraseCells(b, params);
    }
  }

  // ---------- moves ----------

  function Second(params: seq<int>): int { if |params| > 1 && params[1] != 0 then params[1] else 1 }

  predicate Moves(final: byte) {
    final in {'A' as int, 'B' as int, 'C' as int, 'D' as int, 'E' as int, 'F' as int, 'G' as int, 'H' as int,
              'f' as int, 'd' as int}
  }

  /** A 1-based position brought onto the axis; the least 64-bit number wraps to its far end. */
  function Position(p: int, limit: int): int {
    if p == -TWO63 || p > limit then limit - 1 else if p < 1 then 0 else p - 1
  }

  function RowAfter(b: Buffer, final: byte, params: seq<int>): int {
    var n := Count(params);
    if final in {'A' as int, 'F' as int} then if 0 <= b.cy - n < b.rows then b.cy - n else 0
    else if final in {'B' as int, 'E' as int} then if b.cy + n < b.rows then b.cy + n else b.rows - 1
    else if final in {'H' as int, 'f' as int, 'd' as int} then Position(n, b.rows)
    else b.cy
  }

  function ColumnAfter(b: Buffer, final: byte, params: seq<int>): int {
    var n := Count(params);
    if final == 'C' as int then if b.cx + n < b.cols then b.cx + n else b.cols - 1
    else if final == 'D' as int then if 0 <= b.cx - n <= b.cols then b.cx - n else 0
    else if final in {'E' as int, 'F' as int} then 0
    else if final == 'G' as int then Position(n, b.cols)
    else if final in {'H' as int, 'f' as int} then Position(Second(params), b.cols)
    else b.cx
  }

  /** The cursor moves, for every screen and all 64-bit parameters: where the cursor goes, that nothing else
      changes, and when it would leave the grid. */
  lemma MovesMean(t: Term, final: byte, params: seq<int>)
    requires WfTerm(t) && Moves(final) && EmulatorSafety.InRange(params)
    ensures var o, b := DispatchCsi(t, final, [], params), Active(t);
            && (o.Fault? <==> EmulatorSafety.Escapes(b, final, params))
            && (o.Ok? ==> && OnlyScreen(t, o.t) && o.t.dirty
                          && Active(o.t) == b.(cx := ColumnAfter(b, final, params), cy := RowAfter(b, final, params)))
  {
    hide MoveCursor, RowOk, GridOk, ColumnAfter, RowAfter, EmulatorSafety.Escapes;
    MoveMeans(Active(t), final, params);
  }

  lemma MoveMeans(b: Buffer, final: byte, params: seq<int>)
    requires Wf(b) && Moves(final) && EmulatorSafety.InRange(params)
    ensures var e := MoveCursor(b, final, params);
            && (e.Broken? <==> EmulatorSafety.Escapes(b, final, params))
            && (e.Effect? ==> e.touched
                              && e.b == b.(cx := ColumnAfter(b, final, params), cy := RowAfter(b, final, params)))
  {
    hide MoveCursor, Wf, EmulatorSafety.Escapes, ColumnAfter, RowAfter;
    EmulatorSafety.MoveFaultIff(b, final, params);
    MovesOnly(b, final, params);
    RowMeans(b, final, params);
    ColumnMeans(b, final, params);
  }

  lemma MovesOnly(b: Buffer, final: byte, params: seq<int>)
    requires Wf(b) && Moves(final)
    ensures var e := MoveCursor(b, final, params); e.Effect? ==> e.touched && e.b == b.(cx := e.b.cx, cy := e.b.cy)
  {
    hide Wrap64, GridOk;
  }

  lemma RowMeans(b: Buffer, final: byte, params: seq<int>)
    requires Wf(b) && Moves(final) && EmulatorSafety.InRange(params)
    ensures var e := MoveCursor(b, final, params); e.Effect? ==> e.b.cy == RowAfter(b, final, params)
  {
    hide Wrap64, GridOk;
    var n := Count(params);
    EmulatorSafety.WrapOnce(b.cy - n);
    EmulatorSafety.WrapOnce(b.cy + n);
    EmulatorSafety.WrapOnce(n - 1);
  }

  lemma ColumnMeans(b: Buffer, final: byte, params: seq<int>)
    requires Wf(b) && Moves(final) && EmulatorSafety.InRange(params)
    ensures var e := MoveCursor(b, final, params); e.Effect? ==> e.b.cx == ColumnAfter(b, final, params)
  {
    hide Wrap64, GridOk;
    var n := Count(params);
    EmulatorSafety.WrapOnce(b.cx - n);
    EmulatorSafety.WrapOnce(b.cx + n);
    EmulatorSafety.WrapOnce(n - 1);
    EmulatorSafety.WrapOnce(Second(params) - 1);
  }

  // ---------- pen, region, cursor slot, the rest ----------

  /** SGR changes the pen and nothing else. */
  lemma PenMeans(t: Term, params: seq<int>)
    requires WfTerm(t)
    ensures var o, b := DispatchCsi(t, 'm' as int, [], params), Active(t);
            o.Ok? && OnlyScreen(t, o.t) && o.t.dirty == t.dirty && Active(o.t) == b.(pen := Sgr.Apply(b.pen, params))
  {
    hide RowOk, GridOk;
  }

  /** DECSTBM: both margins brought onto the screen, and the cursor sent home; nothing when the top one is not
      above the bottom one. */
  lemma RegionMeans(t: Term, params: seq<int>)
    requires WfTerm(t)
    ensures var o, b := DispatchCsi(t, 'r' as int, [], params), Active(t);
            var p, q := Count(params), if |params| > 1 && params[1] != 0 then params[1] else b.rows;
            var top, bottom := if p < 1 then 1 else p, if q > b.rows then b.rows else q;
            && o.Ok?
            && (top < bottom ==> && OnlyScreen(t, o.t) && o.t.dirty
                                 && Active(o.t) == b.(top := top, bottom := bottom, cx := 0, cy := 0))
            && (top >= bottom ==> o.t == t)
  {
    hide RowOk, GridOk;
  }

  /** The cursor slot of the active screen. */
  function Slot(t: Term): CursorState { if t.useAlt then t.savedAlt else t.saved }

  /** Position and pen in the slot of the active screen. */
  function WithSlot(t: Term): Term {
    var b := Active(t);
    if t.useAlt then t.(savedAlt := CursorState(b.cx, b.cy, b.pen)) else t.(saved := CursorState(b.cx, b.cy, b.pen))
  }

  /** They come back, brought onto the screen. */
  ghost predicate Restores(t: Term, u: Term) {
    var b, c := Active(t), Slot(t);
    && OnlyScreen(t, u) && u.dirty
    && Active(u) == b.(cx := if c.x >= b.cols then b.cols - 1 else c.x, cy := if c.y >= b.rows then b.rows - 1 else c.y,
                       pen := c.pen)
  }

  lemma SlotMeans(t: Term, params: seq<int>)
    requires WfTerm(t)
    ensures var o := DispatchCsi(t, 's' as int, [], params); o == Ok(WithSlot(t))
    ensures var o := DispatchCsi(t, 'u' as int, [], params); o.Ok? && Restores(t, o.t)
  {
    hide RowOk, GridOk;
  }

  /** Every other sequence without intermediates does nothing, and so does every one with intermediates but for
      the two that set and reset modes. */
  lemma OthersIgnored(t: Term, final: byte, inter: seq<byte>, params: seq<int>)
    requires WfTerm(t)
    requires if inter == [] then !Edits(final) && !Moves(final) &&
                                 final !in {'m' as int, 'r' as int, 's' as int, 'u' as int}
             else inter != ['?' as int] || final !in {'h' as int, 'l' as int}
    ensures DispatchCsi(t, final, inter, params) == Ok(t)
  {
    hide RowOk, GridOk;
  }
}
