/** One screen as the source keeps it: a list of row slices that scrolling moves and replaces, and
    rows that printing and erasing change in place
    (internal/agent/adapter/secondary/vt/emulator.go). The rows are pairwise distinct objects, so
    an edit of one row never shows in another. */
module ScreenBuffer {
  import opened Basics
  import opened Terminal
  import opened Buffers
  import Sgr

  method FilledRow(cols: nat, c: Cell) returns (row: array<Cell>)
    ensures fresh(row) && row[..] == Fill(cols, c)
  {
    row := new Cell[cols](_ => c);
  }

  /** Go's `copy` within one slice: the two ranges may overlap, so the direction of the loop
      matters. */
  method CopyWithin(row: array<Cell>, dst: nat, src: nat, n: nat)
    requires dst + n <= row.Length && src + n <= row.Length
    modifies row
    ensures row[..] == Shifted(old(row[..]), dst, src, n)
  {
    hide Shifted;
    ghost var was := row[..];
    if dst <= src {
      for i := 0 to n
        invariant forall x :: dst <= x < dst + i ==> row[x] == was[x - dst + src]
        invariant forall x :: 0 <= x < dst || dst + i <= x < row.Length ==> row[x] == was[x]
      {
        row[dst + i] := row[src + i];
      }
    } else {
      for i := n downto 0
        invariant forall x :: dst + i <= x < dst + n ==> row[x] == was[x - dst + src]
        invariant forall x :: 0 <= x < dst + i || dst + n <= x < row.Length ==> row[x] == was[x]
      {
        row[dst + i] := row[src + i];
      }
    }
  }

  class ScreenBuffer {
    var cols: int
    var rows: int
    var cells: seq<array<Cell>>
    var cx: int
    var cy: int
    var pen: Pen
    var scrollTop: int
    var scrollBottom: int

    /** Exactly `rows` rows of `cols` cells, no two of them the same slice. */
    ghost predicate Shape()
      reads this
    {
      && |cells| == rows
      && (forall y :: 0 <= y < |cells| ==> cells[y].Length == cols)
      && (forall y, z :: 0 <= y < z < |cells| ==> cells[y] != cells[z])
    }

    /** The cells of a list of rows. */
    static ghost function Contents(rows: seq<array<Cell>>): (g: seq<seq<Cell>>)
      reads rows
      ensures |g| == |rows| && forall y :: 0 <= y < |rows| ==> g[y] == rows[y][..]
    {
      seq(|rows|, y requires 0 <= y < |rows| reads rows => rows[y][..])
    }

    ghost function View(): Buffer
      reads this, cells
    {
      Buffer(cols, rows, Contents(cells), cx, cy, pen, scrollTop, scrollBottom)
    }

    ghost predicate Valid()
      reads this, cells
    {
      Shape() && Wf(View())
    }

    lemma Sized()
      requires Valid()
      ensures |cells| == rows && 0 <= cy < rows && 0 <= cx <= cols
      ensures View().cx == cx && View().cols == cols && View().rows == rows
    {
    }

    constructor (cols: int, rows: int)
      requires 1 <= cols <= MAX_DIM && 1 <= rows <= MAX_DIM
      ensures Valid() && View() == New(cols, rows)
      ensures forall y :: 0 <= y < |cells| ==> fresh(cells[y])
    {
      this.cols, this.rows := cols, rows;
      var grid := AllocGrid(cols, rows);
      this.cells := grid;
      cx, cy, pen := 0, 0, DEFAULT_PEN;
      scrollTop, scrollBottom := 1, rows;
      new;
      hide RowOk, GridOk, New;
      BlankIsNew(cols, rows);
      assert Contents(cells) == BlankGrid(cols, rows);
    }

    static method AllocGrid(cols: nat, rows: nat) returns (grid: seq<array<Cell>>)
      ensures |grid| == rows
      ensures forall y :: 0 <= y < rows ==> fresh(grid[y]) && grid[y][..] == BlankRow(cols)
      ensures forall y, z :: 0 <= y < z < rows ==> grid[y] != grid[z]
    {
      grid := [];
      for i := 0 to rows
        invariant |grid| == i
        invariant forall y :: 0 <= y < i ==> fresh(grid[y]) && grid[y][..] == BlankRow(cols)
        invariant forall y, z :: 0 <= y < z < i ==> grid[y] != grid[z]
      {
        var row := FilledRow(cols, BLANK);
        grid := grid + [row];
      }
    }

    /** RIS for one screen. */
    method Reset()
      requires Valid()
      modifies this
      ensures Valid() && View() == New(old(cols), old(rows))
      ensures forall y :: 0 <= y < |cells| ==> fresh(cells[y])
    {
      cells := AllocGrid(cols, rows);
      cx, cy, pen := 0, 0, DEFAULT_PEN;
      scrollTop, scrollBottom := 1, rows;
      assert Contents(cells) == BlankGrid(cols, rows);
    }

    method Resize(cols: int, rows: int)
      requires Valid() && 1 <= cols <= MAX_DIM && 1 <= rows <= MAX_DIM
      modifies this
      ensures View() == ResizeBuffer(old(View()), cols, rows) && Valid()
      ensures forall y :: 0 <= y < |cells| ==> fresh(cells[y])
    {
      hide RowOk, GridOk, ResizeBuffer;
      var grid := ResizedGrid(cols, rows);
      ResizedParts(View(), cols, rows);
      this.cols, this.rows := cols, rows;
      cells := grid;
      if cx >= cols { cx := cols - 1; }
      if cy >= rows { cy := rows - 1; }
      scrollTop, scrollBottom := 1, rows;
    }

    /** A new grid holding what fits of the old one. */
    method ResizedGrid(cols: int, rows: int) returns (grid: seq<array<Cell>>)
      requires Valid() && 1 <= cols <= MAX_DIM && 1 <= rows <= MAX_DIM
      ensures |grid| == rows
      ensures forall y :: 0 <= y < rows ==> fresh(grid[y]) && grid[y].Length == cols
      ensures forall y, z :: 0 <= y < z < rows ==> grid[y] != grid[z]
      ensures Contents(grid) == ResizeBuffer(View(), cols, rows).cells
    {
      hide RowOk, ResizeBuffer;
      grid := AllocGrid(cols, rows);
      CopyRows(grid, cells, cols, if rows > this.rows then this.rows else rows);
      ResizedParts(View(), cols, rows);
    }

    /** Copy what fits of the first `n` rows of `src` into the blank rows of `dst`. */
    static method CopyRows(dst: seq<array<Cell>>, src: seq<array<Cell>>, cols: nat, n: nat)
      requires n == Min(|dst|, |src|)
      requires forall y :: 0 <= y < |dst| ==> dst[y] !in src && dst[y][..] == BlankRow(cols)
      requires forall y, z :: 0 <= y < z < |dst| ==> dst[y] != dst[z]
      modifies dst
      ensures forall y :: 0 <= y < |dst| ==>
                dst[y][..] == if y < n then ResizeRow(src[y][..], cols) else BlankRow(cols)
      ensures forall y :: 0 <= y < |src| ==> src[y][..] == old(src[y][..])
    {
      for y := 0 to n
        invariant forall z :: 0 <= z < y ==> dst[z][..] == ResizeRow(src[z][..], cols)
        invariant forall z :: y <= z < |dst| ==> dst[z][..] == BlankRow(cols)
        invariant forall z :: 0 <= z < |src| ==> src[z][..] == old(src[z][..])
      {
        CopyPrefix(dst[y], src[y], Min(dst[y].Length, src[y].Length));
      }
    }

    static method CopyPrefix(dst: array<Cell>, src: array<Cell>, n: nat)
      requires dst != src && n == Min(dst.Length, src.Length)
      requires dst[..] == BlankRow(dst.Length)
      modifies dst
      ensures dst[..] == ResizeRow(src[..], dst.Length)
    {
      for x := 0 to n
        invariant forall z :: 0 <= z < dst.Length ==> dst[z] == if z < x then src[z] else BLANK
      {
        dst[x] := src[x];
      }
    }

    // ---------- scrolling ----------

    /** The rows from..till-1 are replaced by fresh ones filled with `c`. */
    method FillRows(from: int, till: int, c: Cell)
      requires |cells| == rows && cols >= 0 && 0 <= from <= till <= rows
      modifies this`cells
      ensures |cells| == rows
      ensures forall y :: 0 <= y < rows && !(from <= y < till) ==> cells[y] == old(cells)[y]
      ensures forall y :: from <= y < till ==> fresh(cells[y]) && cells[y][..] == Fill(cols, c)
      ensures forall y, z :: from <= y < z < till ==> cells[y] != cells[z]
    {
      for y := from to till
        invariant |cells| == rows
        invariant forall z :: 0 <= z < rows && !(from <= z < y) ==> cells[z] == old(cells)[z]
        invariant forall z :: from <= z < y ==> fresh(cells[z]) && cells[z][..] == Fill(cols, c)
        invariant forall z, w :: from <= z < w < y ==> cells[z] != cells[w]
      {
        var row := FilledRow(cols, c);
        cells := cells[y := row];
      }
    }

    /** Shift the row slices up, then replace the rows left behind. Until they are replaced, some
        slices occur twice. */
    method ShiftUp(top: int, bot: int, n: int)
      requires Shape() && cols >= 0 && 0 <= top && 1 <= n <= bot - top + 1 && bot < rows
      modifies this`cells
      ensures Shape()
      ensures forall y :: 0 <= y < rows && (y < top || bot < y) ==> cells[y] == old(cells)[y]
      ensures forall y :: top <= y <= bot - n ==> cells[y] == old(cells)[y + n]
      ensures forall y :: bot - n < y <= bot ==> fresh(cells[y]) && cells[y][..] == BlankRow(cols)
    {
      cells := cells[..top] + cells[top + n..bot + 1] + cells[bot + 1 - n..];
      FillRows(bot + 1 - n, bot + 1, BLANK);
    }

    /** The downward shift goes bottom-up, so that no slice is overwritten before it is moved. */
    method MoveDown(top: int, bot: int, n: int)
      requires 0 <= top && 1 <= n <= bot - top + 1 && bot < |cells|
      modifies this`cells
      ensures |cells| == |old(cells)|
      ensures forall y :: 0 <= y < top + n || bot < y < |cells| ==> cells[y] == old(cells)[y]
      ensures forall y :: top + n <= y <= bot ==> cells[y] == old(cells)[y - n]
    {
      var y := bot;
      while y >= top + n
        invariant top + n - 1 <= y <= bot
        invariant |cells| == |old(cells)|
        invariant forall z :: 0 <= z <= y || bot < z < |cells| ==> cells[z] == old(cells)[z]
        invariant forall z :: y < z <= bot ==> cells[z] == old(cells)[z - n]
      {
        cells := cells[y := cells[y - n]];
        y := y - 1;
      }
    }

    method ShiftDown(top: int, bot: int, n: int)
      requires Shape() && cols >= 0 && 0 <= top && 1 <= n <= bot - top + 1 && bot < rows
      modifies this`cells
      ensures Shape()
      ensures forall y :: 0 <= y < rows && (y < top || bot < y) ==> cells[y] == old(cells)[y]
      ensures forall y :: top + n <= y <= bot ==> cells[y] == old(cells)[y - n]
      ensures forall y :: top <= y < top + n ==> fresh(cells[y]) && cells[y][..] == BlankRow(cols)
    {
      MoveDown(top, bot, n);
      FillRows(top, top + n, BLANK);
    }

    method ScrollUp(top: int, bot: int, lines: int)
      requires Valid() && 0 <= top <= bot < rows
      modifies this`cells
      ensures Valid() && View() == Buffers.ScrollUp(old(View()), top, bot, lines)
      ensures forall y :: 0 <= y < |cells| ==> cells[y] in old(cells) || fresh(cells[y])
    {
      hide RowOk, Fill, Buffers.ScrollUp;
      ghost var b := View();
      if lines <= 0 {
        NoScroll(b, top, bot, lines);
        return;
      }
      var n := if lines > bot - top + 1 then bot - top + 1 else lines;
      ShiftUp(top, bot, n);
      ScrolledUpIs(b, top, bot, lines, n, Contents(cells));
    }

    method ScrollDown(top: int, bot: int, lines: int)
      requires Valid() && 0 <= top <= bot < rows
      modifies this`cells
      ensures Valid() && View() == Buffers.ScrollDown(old(View()), top, bot, lines)
      ensures forall y :: 0 <= y < |cells| ==> cells[y] in old(cells) || fresh(cells[y])
    {
      hide RowOk, Fill, Buffers.ScrollDown;
      ghost var b := View();
      if lines <= 0 {
        NoScroll(b, top, bot, lines);
        return;
      }
      var n := if lines > bot - top + 1 then bot - top + 1 else lines;
      ShiftDown(top, bot, n);
      ScrolledDownIs(b, top, bot, lines, n, Contents(cells));
    }

    method EffectiveScrollRegion() returns (top: int, bot: int)
      requires Valid()
      ensures Region(top, bot) == ScrollRegion(View())
    {
      top := scrollTop - 1;
      bot := scrollBottom - 1;
      if top < 0 { top := 0; }
      if bot >= rows { bot := rows - 1; }
    }

    method LineFeed()
      requires Valid()
      modifies this`cells, this`cy
      ensures Valid() && View() == Buffers.LineFeed(old(View()))
      ensures forall y :: 0 <= y < |cells| ==> cells[y] in old(cells) || fresh(cells[y])
    {
      var top, bot := EffectiveScrollRegion();
      if cy < bot {
        cy := cy + 1;
      } else if cy == bot {
        ScrollUp(top, bot, 1);
      }
    }

    method ReverseIndex()
      requires Valid()
      modifies this`cells, this`cy
      ensures Valid() && View() == Buffers.ReverseIndex(old(View()))
      ensures forall y :: 0 <= y < |cells| ==> cells[y] in old(cells) || fresh(cells[y])
    {
      var top, bot := EffectiveScrollRegion();
      if cy > top {
        cy := cy - 1;
      } else {
        ScrollDown(top, bot, 1);
      }
    }

    // ---------- edits of the cursor's row, in place ----------

    /** Columns from..to-1 of the cursor's row become blanks in the pen's style. */
    method EraseColumns(from: int, till: int)
      requires Valid() && 0 <= from <= till <= cols
      modifies cells[cy]
      ensures Valid()
      ensures View() == SetRow(old(View()), Overwrite(old(View()).cells[cy], from, till, PenCell(old(View()))))
    {
      hide RowOk;
      var row := cells[cy];
      for x := from to till
        invariant forall z :: 0 <= z < cols ==>
                    row[z] == if from <= z < x then Cell(SPACE, pen) else old(row[z])
      {
        row[x] := Cell(SPACE, pen);
      }
      OverwriteOk(old(View()), from, till);
      ghost var erased := Overwrite(old(row[..]), from, till, Cell(SPACE, pen));
      assert row[..] == erased;
      assert Contents(cells) == old(Contents(cells))[cy := erased];
    }

    method Print(ch: int)
      requires Valid() && IsScalar(ch)
      modifies this`cells, this`cx, this`cy, cells
      ensures Valid() && View() == PrintRune(old(View()), ch)
      ensures forall y :: 0 <= y < |cells| ==> cells[y] in old(cells) || fresh(cells[y])
    {
      hide RowOk, Buffers.LineFeed;
      if cx >= cols {
        cx := 0;
        LineFeed();
      }
      assert cells[cy] in cells;
      Place(ch);
    }

    /** One rune into the cursor's cell. */
    method Place(ch: int)
      requires Valid() && IsScalar(ch) && cx < cols
      modifies this`cx, cells[cy]
      ensures Valid()
      ensures var was := old(View());
              View() == was.(cells := was.cells[cy := was.cells[cy][old(cx) := Cell(ch, pen)]], cx := was.cx + 1)
    {
      ghost var printed := View().cells[cy][cx := Cell(ch, pen)];
      assert RowOk(printed, cols);
      hide RowOk;
      var row := cells[cy];
      row[cx] := Cell(ch, pen);
      cx := cx + 1;
      assert row[..] == printed;
      assert Contents(cells) == old(Contents(cells))[cy := printed];
    }

    method SetColumn(x: int)
      requires Valid() && 0 <= x <= cols
      modifies this`cx
      ensures Valid() && View() == old(View()).(cx := x) && Keeps(old(View()), View()) && cells == old(cells)
    {
      hide RowOk;
      cx := x;
    }

    /** Advance to the next multiple of eight, or the last column. */
    method Tab()
      requires Valid()
      modifies this`cx
      ensures Valid() && View() == Buffers.Tab(old(View())) && cells == old(cells)
    {
      hide RowOk;
      var next := (cx / 8 + 1) * 8;
      if next >= cols { next := cols - 1; }
      cx := next;
    }

    /** A saved position and pen, clamped to the grid. */
    method RestoreTo(x: int, y: int, p: Pen)
      requires Valid() && p.Ok()
      modifies this`cx, this`cy, this`pen
      ensures Valid() && View() == Clamp(old(View()).(cx := x, cy := y, pen := p)) && cells == old(cells)
      ensures Keeps(old(View()), View())
    {
      hide GridOk;
      var x', y' := x, y;
      if x' >= cols { x' := cols - 1; }
      if y' >= rows { y' := rows - 1; }
      if x' < 0 { x' := 0; }
      if y' < 0 { y' := 0; }
      cx, cy, pen := x', y', p;
    }

    // ---------- erasing ----------

    /** The erase up to the cursor runs off the row when a wrap is pending: reported as a panic. */
    method EraseInLine(mode: int) returns (panicked: bool)
      requires Valid()
      modifies cells[cy]
      ensures panicked <==> ErasesPastRow(old(View()), mode)
      ensures !panicked ==> Valid() && View() == Buffers.EraseInLine(old(View()), mode)
    {
      hide RowOk;
      panicked := false;
      if mode == 0 {
        EraseColumns(cx, cols);
      } else if mode == 1 {
        EraseColumns(0, if cx >= cols then cols else cx + 1);
        panicked := cx >= cols;
      } else if mode == 2 {
        EraseColumns(0, cols);
        assert Overwrite(old(View()).cells[cy], 0, cols, PenCell(old(View()))) == PenRow(old(View()));
      }
    }

    method EraseInDisplay(mode: int) returns (panicked: bool)
      requires Valid()
      modifies this`cells, cells
      ensures panicked <==> ErasesPastRow(old(View()), mode)
      ensures !panicked ==> Valid() && View() == Buffers.EraseInDisplay(old(View()), mode)
      ensures !panicked ==> forall y :: 0 <= y < |cells| ==> cells[y] in old(cells) || fresh(cells[y])
    {
      hide RowOk, Buffers.EraseInLine;
      panicked := false;
      if mode == 0 || mode == 1 {
        panicked := EraseInLine(mode);
        if panicked { return; }
        EraseRows(if mode == 0 then cy + 1 else 0, if mode == 0 then rows else cy);
      } else if mode == 2 || mode == 3 {
        EraseRows(0, rows);
      }
      ghost var want := Buffers.EraseInDisplay(old(View()), mode);
      assert want == old(View()).(cells := want.cells) && |want.cells| == rows;
      if 0 <= mode <= 3 {
        forall y | 0 <= y < rows ensures View().cells[y] == want.cells[y] {
          ErasedRow(old(View()), mode, y);
        }
      }
      assert View().cells == want.cells;
    }

    method EraseRows(from: int, till: int)
      requires Valid() && 0 <= from <= till <= rows
      modifies this`cells
      ensures Valid()
      ensures View() == old(View()).(cells := View().cells)
      ensures forall y :: 0 <= y < rows ==>
                View().cells[y] == if from <= y < till then PenRow(old(View())) else old(View()).cells[y]
      ensures forall y :: 0 <= y < |cells| ==> cells[y] in old(cells) || fresh(cells[y])
    {
      assert RowOk(PenRow(View()), cols);
      hide RowOk;
      FillRows(from, till, Cell(SPACE, pen));
      forall y | 0 <= y < rows
        ensures Contents(cells)[y] == if from <= y < till then PenRow(old(View())) else old(View()).cells[y]
      {
      }
    }

    method EraseChars(n: int)
      requires Valid()
      modifies cells[cy]
      ensures Valid() && View() == Buffers.EraseChars(old(View()), n)
    {
      EraseColumns(cx, if n <= 0 then cx else if cx + n < cols then cx + n else cols);
    }

    // ---------- inserting and deleting characters ----------

    /** Move `n` cells of the cursor's row from column `src` to column `dst`. */
    method MoveCells(dst: int, src: int, n: int)
      requires Valid() && 0 <= dst && 0 <= src && 0 <= n && dst + n <= cols && src + n <= cols
      modifies cells[cy]
      ensures Valid()
      ensures var row := old(View()).cells[cy];
              View() == old(View()).(cells := old(View()).cells[cy := Shifted(row, dst, src, n)])
    {
      var row := cells[cy];
      hide RowOk, Shifted;
      ghost var moved := Shifted(row[..], dst, src, n);
      ShiftedOk(View(), dst, src, n);
      CopyWithin(row, dst, src, n);
      assert Contents(cells) == old(Contents(cells))[cy := moved];
    }

    /** Move cells of the cursor's row, then erase some of its columns. */
    method ShiftAndErase(dst: int, src: int, n: int, from: int, till: int)
      requires Valid() && 0 <= dst && 0 <= src && 0 <= n && dst + n <= cols && src + n <= cols
      requires 0 <= from <= till <= cols
      modifies cells[cy]
      ensures View() == ShiftThenErase(old(View()), dst, src, n, from, till) && Valid()
    {
      hide RowOk, GridOk, Overwrite, Shifted, ShiftThenErase;
      ghost var b := View();
      MoveCells(dst, src, n);
      ghost var m := View();
      OverwriteOk(m, from, till);
      EraseColumns(from, till);
      StepsCompose(b, dst, src, n, from, till, m, View());
    }

    method InsertChars(n: int) returns (touched: bool)
      requires Valid()
      modifies cells[cy]
      ensures Valid() && View() == Buffers.InsertChars(old(View()), n)
      ensures touched == (old(cx) < old(cols))
    {
      hide Wf, Buffers.InsertChars, ShiftThenErase;
      Sized();
      InsertBySteps(View(), n);
      var max := cols - cx;
      touched := max > 0;
      var k := if n < 1 then 1 else n;
      k := if k > max then max else k;
      if max > 0 {
        ShiftAndErase(cx + k, cx, max - k, cx, cx + k);
      }
    }

    method DeleteChars(n: int) returns (touched: bool)
      requires Valid()
      modifies cells[cy]
      ensures Valid() && View() == Buffers.DeleteChars(old(View()), n)
      ensures touched == (old(cx) < old(cols))
    {
      hide Wf, Buffers.DeleteChars, ShiftThenErase;
      Sized();
      DeleteBySteps(View(), n);
      var max := cols - cx;
      touched := max > 0;
      var k := if n < 1 then 1 else n;
      k := if k > max then max else k;
      if max > 0 {
        ShiftAndErase(cx, cx + k, max - k, cols - k, cols);
      }
    }

    // ---------- control sequences ----------

    /** Cursor moves with Go's wrapping arithmetic. A cursor left outside the grid is reported. */
    method MoveCursor(final: int, params: seq<int>) returns (escaped: bool)
      requires Valid() && IsMove(final)
      modifies this`cx, this`cy
      ensures var e := Buffers.MoveCursor(old(View()), final, params);
              && escaped == e.Broken?
              && (!escaped ==> Valid() && View() == e.b)
    {
      hide GridOk, Buffers.MoveCursor;
      var x, y := MoveTarget(final, params);
      cx, cy := x, y;
      escaped := !(0 <= cx <= cols && 0 <= cy < rows);
    }

    method MoveTarget(final: int, params: seq<int>) returns (x: int, y: int)
      requires IsMove(final)
      ensures Buffers.MoveCursor(View(), final, params) == Moved(View(), x, y)
    {
      hide Wrap64, Contents;
      var n := Param(params, 0, 1);
      x, y := cx, cy;
      if final == 'A' as int || final == 'F' as int {
        y := Wrap64(y - n);
        if y < 0 { y := 0; }
        if final == 'F' as int { x := 0; }
      } else if final == 'B' as int || final == 'E' as int {
        y := Wrap64(y + n);
        if y >= rows { y := rows - 1; }
        if final == 'E' as int { x := 0; }
      } else if final == 'C' as int {
        x := Wrap64(x + n);
        if x >= cols { x := cols - 1; }
      } else if final == 'D' as int {
        x := Wrap64(x - n);
        if x < 0 { x := 0; }
      } else if final == 'G' as int {
        x := ClampTo(Wrap64(n - 1), cols);
      } else if final == 'd' as int {
        y := ClampTo(Wrap64(n - 1), rows);
      } else {
        y, x := ClampTo(Wrap64(n - 1), rows), ClampTo(Wrap64(Param(params, 1, 1) - 1), cols);
      }
    }

    method ShiftLines(n: int, down: bool)
      requires Valid()
      modifies this`cells
      ensures Valid() && View() == Buffers.ShiftLines(old(View()), n, down)
      ensures forall y :: 0 <= y < |cells| ==> cells[y] in old(cells) || fresh(cells[y])
    {
      hide RowOk;
      var top, bot := EffectiveScrollRegion();
      if top <= cy <= bot {
        if down {
          ScrollDown(cy, bot, n);
        } else {
          ScrollUp(cy, bot, n);
        }
      }
    }

    method SetRegion(params: seq<int>) returns (touched: bool)
      requires Valid()
      modifies this`scrollTop, this`scrollBottom, this`cx, this`cy
      ensures Valid() && Effect(View(), touched) == Buffers.SetRegion(old(View()), params)
    {
      hide RowOk;
      var top := Param(params, 0, 1);
      var bot := Param(params, 1, rows);
      if top < 1 { top := 1; }
      if bot > rows { bot := rows; }
      touched := top < bot;
      if touched {
        scrollTop, scrollBottom := top, bot;
        cx, cy := 0, 0;
      }
    }

    /** The switch over control sequences that act on one screen. */
    method Control(final: int, params: seq<int>) returns (touched: bool, fault: Option<FaultKind>)
      requires Valid()
      modifies this, cells
      ensures match Buffers.Control(old(View()), final, params)
              case Broken(why) => fault == Some(why)
              case Effect(b, t) => fault == None && Valid() && View() == b && touched == t
      ensures fault == None ==> forall y :: 0 <= y < |cells| ==> cells[y] in old(cells) || fresh(cells[y])
    {
      hide RowOk, Buffers.MoveCursor, Buffers.EraseInDisplay, Buffers.EraseInLine, Buffers.ShiftLines,
        Buffers.DeleteChars, Buffers.InsertChars, Buffers.ScrollUp, Buffers.ScrollDown, Buffers.EraseChars,
        Buffers.SetRegion, Sgr.Apply, GridOk;
      touched, fault := true, None;
      assert cells[cy] in cells by { Sized(); }
      if IsMove(final) {
        var escaped := MoveCursor(final, params);
        if escaped { fault := Some(CursorOutOfGrid); }
      } else if final == 'J' as int {
        var panicked := EraseInDisplay(Param0(params, 0));
        if panicked { fault := Some(EraseBeyondRow); }
      } else if final == 'K' as int {
        var panicked := EraseInLine(Param0(params, 0));
        if panicked { fault := Some(EraseBeyondRow); }
      } else if final == 'L' as int {
        ShiftLines(Param(params, 0, 1), true);
      } else if final == 'M' as int {
        ShiftLines(Param(params, 0, 1), false);
      } else if final == 'P' as int {
        touched := DeleteChars(Param(params, 0, 1));
      } else if final == '@' as int {
        touched := InsertChars(Param(params, 0, 1));
      } else if final == 'S' as int {
        var top, bot := EffectiveScrollRegion();
        ScrollUp(top, bot, Param(params, 0, 1));
      } else if final == 'T' as int {
        var top, bot := EffectiveScrollRegion();
        ScrollDown(top, bot, Param(params, 0, 1));
      } else if final == 'X' as int {
        EraseChars(Param(params, 0, 1));
      } else if final == 'm' as int {
        pen := Sgr.ApplyLoop(pen, params);
        touched := false;
      } else if final == 'r' as int {
        touched := SetRegion(params);
      } else {
        touched := false;
      }
    }
  }
}
