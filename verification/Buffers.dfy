/** One screen of the emulator (the `screen` struct of
    internal/agent/adapter/secondary/vt/emulator.go) as a value, and what each operation does to
    it. Every function keeps the invariant `Wf`. */
module Buffers {
  import opened Terminal
  import Sgr

  /** `top` and `bottom` bound the scroll region: 1-based rows, inclusive. */
  datatype Buffer = Buffer(
    cols: int, rows: int, cells: seq<seq<Cell>>, cx: int, cy: int, pen: Pen, top: int, bottom: int)

  /** Go's `make` accepts no longer slice, so no longer row or grid exists. */
  const MAX_DIM := 0x8000_0000_0000

  predicate RowOk(row: seq<Cell>, cols: int) {
    |row| == cols && forall x :: 0 <= x < |row| ==> row[x].Ok()
  }

  predicate GridOk(cells: seq<seq<Cell>>, cols: int, rows: int) {
    |cells| == rows && forall y :: 0 <= y < |cells| ==> RowOk(cells[y], cols)
  }

  /** The screen invariant. The cursor column may equal `cols`: a wrap is then pending. */
  predicate Wf(b: Buffer) {
    && 1 <= b.cols <= MAX_DIM && 1 <= b.rows <= MAX_DIM
    && GridOk(b.cells, b.cols, b.rows)
    && 0 <= b.cx <= b.cols
    && 0 <= b.cy < b.rows
    && 1 <= b.top <= b.bottom <= b.rows
    && b.pen.Ok()
  }

  /** What every operation on a screen owes: the invariant, at an unchanged size. */
  predicate Keeps(b: Buffer, r: Buffer) {
    Wf(r) && r.cols == b.cols && r.rows == b.rows
  }

  // ---------- rows ----------

  function Fill<T>(n: nat, c: T): (r: seq<T>)
    ensures |r| == n && forall i :: 0 <= i < n ==> r[i] == c
  {
    seq(n, _ => c)
  }

  function BlankRow(cols: nat): seq<Cell> { Fill(cols, BLANK) }

  function PenCell(b: Buffer): Cell { Cell(SPACE, b.pen) }

  function PenRow(b: Buffer): seq<Cell>
    requires b.cols >= 0
  {
    Fill(b.cols, PenCell(b))
  }

  /** `row` with columns from..to-1 set to `c`. */
  function Overwrite(row: seq<Cell>, from: nat, to: nat, c: Cell): (r: seq<Cell>)
    requires from <= to <= |row|
    ensures |r| == |row|
    ensures forall x :: 0 <= x < |row| ==> r[x] == if from <= x < to then c else row[x]
  {
    row[..from] + Fill(to - from, c) + row[to..]
  }

  function Min(a: int, b: int): int { if a < b then a else b }

  function SetRow(b: Buffer, row: seq<Cell>): (r: Buffer)
    requires Wf(b) && RowOk(row, b.cols)
    ensures Keeps(b, r)
  {
    b.(cells := b.cells[b.cy := row])
  }

  lemma OverwriteOk(b: Buffer, from: nat, to: nat)
    requires Wf(b) && from <= to <= b.cols
    ensures RowOk(Overwrite(b.cells[b.cy], from, to, PenCell(b)), b.cols)
  {
  }

  // ---------- construction ----------

  function BlankGrid(cols: nat, rows: nat): seq<seq<Cell>> { Fill(rows, BlankRow(cols)) }

  function New(cols: int, rows: int): (r: Buffer)
    requires 1 <= cols <= MAX_DIM && 1 <= rows <= MAX_DIM
    ensures Wf(r)
  {
    Buffer(cols, rows, BlankGrid(cols, rows), 0, 0, DEFAULT_PEN, 1, rows)
  }

  lemma BlankIsNew(cols: int, rows: int)
    requires 1 <= cols <= MAX_DIM && 1 <= rows <= MAX_DIM
    ensures New(cols, rows) == Buffer(cols, rows, BlankGrid(cols, rows), 0, 0, DEFAULT_PEN, 1, rows)
  {
  }

  function ResizeRow(row: seq<Cell>, cols: nat): (r: seq<Cell>)
    ensures |r| == cols
    ensures forall x :: 0 <= x < cols ==> r[x] == if x < |row| then row[x] else BLANK
  {
    if cols <= |row| then row[..cols] else row + Fill(cols - |row|, BLANK)
  }

  /** Content kept where both sizes have a cell, blanks elsewhere; cursor clamped; scroll region
      reset to the full screen. */
  function ResizeBuffer(b: Buffer, cols: int, rows: int): (r: Buffer)
    requires Wf(b) && 1 <= cols <= MAX_DIM && 1 <= rows <= MAX_DIM
    ensures Wf(r)
  {
    var cells := seq(rows, y requires 0 <= y < rows =>
      if y < b.rows then ResizeRow(b.cells[y], cols) else BlankRow(cols));
    Buffer(cols, rows, cells, Min(b.cx, cols - 1), Min(b.cy, rows - 1), b.pen, 1, rows)
  }

  lemma ResizedParts(b: Buffer, cols: int, rows: int)
    requires Wf(b) && 1 <= cols <= MAX_DIM && 1 <= rows <= MAX_DIM
    ensures var r := ResizeBuffer(b, cols, rows);
            && r == Buffer(cols, rows, r.cells, Min(b.cx, cols - 1), Min(b.cy, rows - 1), b.pen, 1, rows)
            && |r.cells| == rows
            && forall y :: 0 <= y < rows ==>
                 r.cells[y] == if y < b.rows then ResizeRow(b.cells[y], cols) else BlankRow(cols)
  {
  }

  // ---------- scrolling ----------

  datatype Region = Region(top: int, bot: int)

  /** The scroll region as 0-based rows, inclusive. */
  function ScrollRegion(b: Buffer): (r: Region)
    ensures Wf(b) ==> 0 <= r.top <= r.bot < b.rows
  {
    Region(if b.top - 1 < 0 then 0 else b.top - 1,
           if b.bottom - 1 >= b.rows then b.rows - 1 else b.bottom - 1)
  }

  /** Rows top..bot move up by `n`; the bottom `n` of them become blank. */
  function ScrollUp(b: Buffer, top: int, bot: int, n: int): (r: Buffer)
    requires Wf(b) && 0 <= top <= bot < b.rows
    ensures Keeps(b, r)
  {
    if n <= 0 then b
    else
      var k := Min(n, bot - top + 1);
      b.(cells := b.cells[..top] + b.cells[top + k..bot + 1] + BlankGrid(b.cols, k) + b.cells[bot + 1..])
  }

  /** Rows top..bot move down by `n`; the top `n` of them become blank. */
  function ScrollDown(b: Buffer, top: int, bot: int, n: int): (r: Buffer)
    requires Wf(b) && 0 <= top <= bot < b.rows
    ensures Keeps(b, r)
  {
    if n <= 0 then b
    else
      var k := Min(n, bot - top + 1);
      b.(cells := b.cells[..top] + BlankGrid(b.cols, k) + b.cells[top..bot + 1 - k] + b.cells[bot + 1..])
  }

  /** Where each row of a scrolled screen comes from. */
  lemma ScrolledUpRow(b: Buffer, top: int, bot: int, n: int, y: int)
    requires Wf(b) && 0 <= top <= bot < b.rows && n > 0 && 0 <= y < b.rows
    ensures var k := Min(n, bot - top + 1);
            ScrollUp(b, top, bot, n).cells[y] ==
            if y < top || bot < y then b.cells[y]
            else if y + k <= bot then b.cells[y + k]
            else BlankRow(b.cols)
  {
  }

  lemma ScrolledDownRow(b: Buffer, top: int, bot: int, n: int, y: int)
    requires Wf(b) && 0 <= top <= bot < b.rows && n > 0 && 0 <= y < b.rows
    ensures var k := Min(n, bot - top + 1);
            ScrollDown(b, top, bot, n).cells[y] ==
            if y < top || bot < y then b.cells[y]
            else if top + k <= y then b.cells[y - k]
            else BlankRow(b.cols)
  {
  }

  lemma NoScroll(b: Buffer, top: int, bot: int, n: int)
    requires Wf(b) && 0 <= top <= bot < b.rows && n <= 0
    ensures ScrollUp(b, top, bot, n) == b && ScrollDown(b, top, bot, n) == b
  {
  }

  /** A grid whose rows come from where the scroll takes them is the scrolled grid. */
  lemma ScrolledUpIs(b: Buffer, top: int, bot: int, n: int, k: int, g: seq<seq<Cell>>)
    requires Wf(b) && 0 <= top <= bot < b.rows && n > 0 && |g| == b.rows && k == Min(n, bot - top + 1)
    requires forall y :: 0 <= y < b.rows && (y < top || bot < y) ==> g[y] == b.cells[y]
    requires forall y :: top <= y <= bot - k ==> g[y] == b.cells[y + k]
    requires forall y :: bot - k < y <= bot ==> g[y] == BlankRow(b.cols)
    ensures ScrollUp(b, top, bot, n) == b.(cells := g)
  {
    hide RowOk, BlankRow;
    var r := ScrollUp(b, top, bot, n);
    forall y | 0 <= y < b.rows ensures r.cells[y] == g[y] {
      ScrolledUpRow(b, top, bot, n, y);
    }
    assert r.cells == g;
  }

  lemma ScrolledDownIs(b: Buffer, top: int, bot: int, n: int, k: int, g: seq<seq<Cell>>)
    requires Wf(b) && 0 <= top <= bot < b.rows && n > 0 && |g| == b.rows && k == Min(n, bot - top + 1)
    requires forall y :: 0 <= y < b.rows && (y < top || bot < y) ==> g[y] == b.cells[y]
    requires forall y :: top + k <= y <= bot ==> g[y] == b.cells[y - k]
    requires forall y :: top <= y < top + k ==> g[y] == BlankRow(b.cols)
    ensures ScrollDown(b, top, bot, n) == b.(cells := g)
  {
    hide RowOk, BlankRow;
    var r := ScrollDown(b, top, bot, n);
    forall y | 0 <= y < b.rows ensures r.cells[y] == g[y] {
      ScrolledDownRow(b, top, bot, n, y);
    }
    assert r.cells == g;
  }

  /** Down one row, scrolling at the bottom of the region; below the region's bottom row the
      cursor stays. */
  function LineFeed(b: Buffer): (r: Buffer)
    requires Wf(b)
    ensures Keeps(b, r)
  {
    var g := ScrollRegion(b);
    if b.cy < g.bot then b.(cy := b.cy + 1)
    else if b.cy == g.bot then ScrollUp(b, g.top, g.bot, 1)
    else b
  }

  function ReverseIndex(b: Buffer): (r: Buffer)
    requires Wf(b)
    ensures Keeps(b, r)
  {
    var g := ScrollRegion(b);
    if b.cy > g.top then b.(cy := b.cy - 1) else ScrollDown(b, g.top, g.bot, 1)
  }

  // ---------- printing and C0 ----------

  /** A rune lands in the cursor's cell; a pending wrap moves to the next line first. */
  function PrintRune(b: Buffer, ch: int): (r: Buffer)
    requires Wf(b) && IsScalar(ch)
    ensures Keeps(b, r)
  {
    var w := if b.cx >= b.cols then LineFeed(b.(cx := 0)) else b;
    var row := w.cells[w.cy][w.cx := Cell(ch, w.pen)];
    SetRow(w, row).(cx := w.cx + 1)
  }

  function Tab(b: Buffer): (r: Buffer)
    requires Wf(b)
    ensures Keeps(b, r)
  {
    b.(cx := Min((b.cx / 8 + 1) * 8, b.cols - 1))
  }

  function Clamp(b: Buffer): (r: Buffer)
    requires b.cols >= 1 && b.rows >= 1
    ensures 0 <= r.cx < b.cols && 0 <= r.cy < b.rows
    ensures r == b.(cx := r.cx, cy := r.cy)
  {
    var x := if b.cx >= b.cols then b.cols - 1 else b.cx;
    var y := if b.cy >= b.rows then b.rows - 1 else b.cy;
    b.(cx := if x < 0 then 0 else x, cy := if y < 0 then 0 else y)
  }

  // ---------- erasing ----------

  /** An erase up to and including the cursor reads column `cols` when a wrap is pending, which
      the source does not guard against. */
  predicate ErasesPastRow(b: Buffer, mode: int) {
    mode == 1 && b.cx >= b.cols
  }

  function EraseInLine(b: Buffer, mode: int): (r: Buffer)
    requires Wf(b) && !ErasesPastRow(b, mode)
    ensures Keeps(b, r)
  {
    var row := b.cells[b.cy];
    if mode == 0 then SetRow(b, Overwrite(row, b.cx, b.cols, PenCell(b)))
    else if mode == 1 then SetRow(b, Overwrite(row, 0, b.cx + 1, PenCell(b)))
    else if mode == 2 then SetRow(b, PenRow(b))
    else b
  }

  function EraseInDisplay(b: Buffer, mode: int): (r: Buffer)
    requires Wf(b) && !ErasesPastRow(b, mode)
    ensures Keeps(b, r)
  {
    var line := EraseInLine(b, mode).cells[b.cy];
    if mode == 0 then
      b.(cells := b.cells[..b.cy] + [line] + Fill(b.rows - b.cy - 1, PenRow(b)))
    else if mode == 1 then
      b.(cells := Fill(b.cy, PenRow(b)) + [line] + b.cells[b.cy + 1..])
    else if mode == 2 || mode == 3 then
      b.(cells := Fill(b.rows, PenRow(b)))
    else b
  }

  /** Which rows an erase of the display clears: those after the cursor's, before it, or all. */
  lemma ErasedRow(b: Buffer, mode: int, y: int)
    requires Wf(b) && !ErasesPastRow(b, mode) && 0 <= mode <= 3 && 0 <= y < b.rows
    ensures EraseInDisplay(b, mode).cells[y] ==
            if mode >= 2 || (mode == 0 && y > b.cy) || (mode == 1 && y < b.cy) then PenRow(b)
            else EraseInLine(b, mode).cells[y]
  {
  }

  /** Erase `n` cells from the cursor, stopping at the end of the row. */
  function EraseChars(b: Buffer, n: int): (r: Buffer)
    requires Wf(b)
    ensures Keeps(b, r)
  {
    var to := if n <= 0 then b.cx else Min(b.cols, b.cx + n);
    SetRow(b, Overwrite(b.cells[b.cy], b.cx, to, PenCell(b)))
  }

  // ---------- inserting and deleting characters ----------

  /** The shift amount: at least one, at most what is left of the row. */
  function ShiftBy(b: Buffer, n: int): int {
    Min(if n < 1 then 1 else n, b.cols - b.cx)
  }

  function InsertChars(b: Buffer, n: int): (r: Buffer)
    requires Wf(b)
    ensures Keeps(b, r)
  {
    if b.cx >= b.cols then b
    else
      var k, row := ShiftBy(b, n), b.cells[b.cy];
      SetRow(b, row[..b.cx] + Fill(k, PenCell(b)) + row[b.cx..b.cols - k])
  }

  function DeleteChars(b: Buffer, n: int): (r: Buffer)
    requires Wf(b)
    ensures Keeps(b, r)
  {
    if b.cx >= b.cols then b
    else
      var k, row := ShiftBy(b, n), b.cells[b.cy];
      SetRow(b, row[..b.cx] + row[b.cx + k..] + Fill(k, PenCell(b)))
  }

  /** `row` after the `n` cells at column `src` were copied to column `dst`. */
  function Shifted(row: seq<Cell>, dst: nat, src: nat, n: nat): (r: seq<Cell>)
    requires dst + n <= |row| && src + n <= |row|
    ensures |r| == |row|
    ensures forall x :: dst <= x < dst + n ==> r[x] == row[x - dst + src]
    ensures forall x :: 0 <= x < dst || dst + n <= x < |row| ==> r[x] == row[x]
  {
    row[..dst] + row[src..src + n] + row[dst + n..]
  }

  lemma ShiftedOk(b: Buffer, dst: nat, src: nat, n: nat)
    requires Wf(b) && dst + n <= b.cols && src + n <= b.cols
    ensures RowOk(b.cells[b.cy], b.cols) && RowOk(Shifted(b.cells[b.cy], dst, src, n), b.cols)
  {
  }

  /** The cursor's row shifted, then some of its columns blanked. */
  function ShiftThenErase(b: Buffer, dst: nat, src: nat, n: nat, from: nat, to: nat): (r: Buffer)
    requires Wf(b) && dst + n <= b.cols && src + n <= b.cols && from <= to <= b.cols
  {
    var m := b.(cells := b.cells[b.cy := Shifted(b.cells[b.cy], dst, src, n)]);
    m.(cells := m.cells[m.cy := Overwrite(m.cells[m.cy], from, to, PenCell(b))])
  }

  /** Inserting is moving the tail right and blanking the gap. */
  lemma InsertBySteps(b: Buffer, n: int)
    requires Wf(b)
    ensures b.cx >= b.cols ==> InsertChars(b, n) == b
    ensures var k := ShiftBy(b, n);
            b.cx < b.cols ==>
              InsertChars(b, n) == ShiftThenErase(b, b.cx + k, b.cx, b.cols - b.cx - k, b.cx, b.cx + k)
  {
    hide Shifted, Overwrite, RowOk;
    RowLength(b);
    if b.cx < b.cols { InsertedRow(b.cells[b.cy], b.cx, ShiftBy(b, n), PenCell(b)); }
  }

  lemma RowLength(b: Buffer)
    requires Wf(b)
    ensures |b.cells[b.cy]| == b.cols
  {
  }

  lemma InsertedRow(row: seq<Cell>, x: nat, k: nat, c: Cell)
    requires x + k <= |row|
    ensures row[..x] + Fill(k, c) + row[x..|row| - k] ==
            Overwrite(Shifted(row, x + k, x, |row| - x - k), x, x + k, c)
  {
  }

  /** Deleting is moving the tail left and blanking the end. */
  lemma DeleteBySteps(b: Buffer, n: int)
    requires Wf(b)
    ensures b.cx >= b.cols ==> DeleteChars(b, n) == b
    ensures var k := ShiftBy(b, n);
            b.cx < b.cols ==>
              DeleteChars(b, n) == ShiftThenErase(b, b.cx, b.cx + k, b.cols - b.cx - k, b.cols - k, b.cols)
  {
    hide Shifted, Overwrite, RowOk;
    RowLength(b);
    if b.cx < b.cols { DeletedRow(b.cells[b.cy], b.cx, ShiftBy(b, n), PenCell(b)); }
  }

  lemma DeletedRow(row: seq<Cell>, x: nat, k: nat, c: Cell)
    requires x + k <= |row|
    ensures row[..x] + row[x + k..] + Fill(k, c) ==
            Overwrite(Shifted(row, x, x + k, |row| - x - k), |row| - k, |row|, c)
  {
  }

  /** The cursor's row shifted, then some of its columns erased: the two steps in turn. */
  lemma StepsCompose(b: Buffer, dst: nat, src: nat, n: nat, from: nat, to: nat, m: Buffer, r: Buffer)
    requires Wf(b) && Wf(m) && dst + n <= b.cols && src + n <= b.cols && from <= to <= b.cols
    requires m == b.(cells := b.cells[b.cy := Shifted(b.cells[b.cy], dst, src, n)])
    requires RowOk(Overwrite(m.cells[m.cy], from, to, PenCell(m)), m.cols)
    requires r == SetRow(m, Overwrite(m.cells[m.cy], from, to, PenCell(m)))
    ensures r == ShiftThenErase(b, dst, src, n, from, to)
  {
    hide Shifted, Overwrite, RowOk;
  }

  // ---------- control sequences that act on one screen ----------

  datatype FaultKind =
    | EraseBeyondRow   // ED 1 or EL 1 with a wrap pending indexes column `cols`: a Go panic
    | CursorOutOfGrid  // an overflowed relative move left the cursor outside the grid

  /** What a control sequence did: the new screen and whether it was marked dirty, or a fault. */
  datatype Effect = Effect(b: Buffer, touched: bool) | Broken(why: FaultKind)

  predicate EffectOk(b: Buffer, e: Effect) {
    e.Effect? ==> Keeps(b, e.b)
  }

  /** Parameter `idx`, with `def` standing in for an omitted or zero one. */
  function Param(params: seq<int>, idx: nat, def: int): int {
    if idx < |params| && params[idx] != 0 then params[idx] else def
  }

  function Param0(params: seq<int>, idx: nat): int {
    if idx < |params| then params[idx] else 0
  }

  function ClampTo(v: int, limit: int): (r: int)
    ensures limit >= 1 ==> 0 <= r < limit
  {
    var w := if v < 0 then 0 else v;
    if w >= limit then limit - 1 else w
  }

  /** A relative move is clamped on the side it moves towards only. */
  function Towards0(v: int): int { if v < 0 then 0 else v }

  function TowardsEnd(v: int, limit: int): int { if v >= limit then limit - 1 else v }

  /** A fault when the cursor would lie outside the grid, else the moved cursor. */
  function Moved(b: Buffer, cx: int, cy: int): (e: Effect)
    ensures Wf(b) ==> EffectOk(b, e)
    ensures if e.Broken? then e.why == CursorOutOfGrid else e.touched
  {
    if 0 <= cx <= b.cols && 0 <= cy < b.rows then Effect(b.(cx := cx, cy := cy), true)
    else Broken(CursorOutOfGrid)
  }

  predicate IsMove(final: int) {
    'A' as int <= final <= 'H' as int || final == 'f' as int || final == 'd' as int
  }

  function MoveCursor(b: Buffer, final: int, params: seq<int>): (e: Effect)
    ensures Wf(b) ==> EffectOk(b, e)
    ensures if e.Broken? then e.why == CursorOutOfGrid else e.touched
  {
    var n := Param(params, 0, 1);
    if final == 'A' as int then Moved(b, b.cx, Towards0(Wrap64(b.cy - n)))
    else if final == 'B' as int then Moved(b, b.cx, TowardsEnd(Wrap64(b.cy + n), b.rows))
    else if final == 'C' as int then Moved(b, TowardsEnd(Wrap64(b.cx + n), b.cols), b.cy)
    else if final == 'D' as int then Moved(b, Towards0(Wrap64(b.cx - n)), b.cy)
    else if final == 'E' as int then Moved(b, 0, TowardsEnd(Wrap64(b.cy + n), b.rows))
    else if final == 'F' as int then Moved(b, 0, Towards0(Wrap64(b.cy - n)))
    else if final == 'G' as int then Moved(b, ClampTo(Wrap64(n - 1), b.cols), b.cy)
    else if final == 'd' as int then Moved(b, b.cx, ClampTo(Wrap64(n - 1), b.rows))
    else Moved(b, ClampTo(Wrap64(Param(params, 1, 1) - 1), b.cols), ClampTo(Wrap64(n - 1), b.rows))
  }

  /** IL and DL: act only with the cursor inside the region, from its row to the region's bottom. */
  function ShiftLines(b: Buffer, n: int, down: bool): (r: Buffer)
    requires Wf(b)
    ensures Keeps(b, r)
  {
    var g := ScrollRegion(b);
    if !(g.top <= b.cy <= g.bot) then b
    else if down then ScrollDown(b, b.cy, g.bot, n)
    else ScrollUp(b, b.cy, g.bot, n)
  }

  function SetRegion(b: Buffer, params: seq<int>): (e: Effect)
    requires Wf(b)
    ensures EffectOk(b, e)
  {
    var t, m := Param(params, 0, 1), Param(params, 1, b.rows);
    var top, bot := if t < 1 then 1 else t, if m > b.rows then b.rows else m;
    if top < bot then Effect(b.(top := top, bottom := bot, cx := 0, cy := 0), true)
    else Effect(b, false)
  }

  /** A control sequence without intermediate bytes, other than the cursor save and restore. */
  function Control(b: Buffer, final: int, params: seq<int>): (e: Effect)
    requires Wf(b)
    ensures EffectOk(b, e)
  {
    var n, g := Param(params, 0, 1), ScrollRegion(b);
    if IsMove(final) then MoveCursor(b, final, params)
    else if final == 'J' as int || final == 'K' as int then
      var mode := Param0(params, 0);
      if ErasesPastRow(b, mode) then Broken(EraseBeyondRow)
      else Effect(if final == 'J' as int then EraseInDisplay(b, mode) else EraseInLine(b, mode), true)
    else if final == 'L' as int then Effect(ShiftLines(b, n, true), true)
    else if final == 'M' as int then Effect(ShiftLines(b, n, false), true)
    else if final == 'P' as int then Effect(DeleteChars(b, n), b.cx < b.cols)
    else if final == '@' as int then Effect(InsertChars(b, n), b.cx < b.cols)
    else if final == 'S' as int then Effect(ScrollUp(b, g.top, g.bot, n), true)
    else if final == 'T' as int then Effect(ScrollDown(b, g.top, g.bot, n), true)
    else if final == 'X' as int then Effect(EraseChars(b, n), true)
    else if final == 'm' as int then Effect(b.(pen := Sgr.Apply(b.pen, params)), false)
    else if final == 'r' as int then SetRegion(b, params)
    else Effect(b, false)
  }
}
