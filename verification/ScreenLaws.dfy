/** What the operations of a screen mean, cell by cell, and the operations that undo each other. */
module ScreenLaws {
  import opened Terminal
  import opened Buffers
  import opened EmulatorModel
  import Utf8Stream

  // ---------- printing ----------

  predicate Runes(rs: seq<int>) { forall i :: 0 <= i < |rs| ==> IsScalar(rs[i]) }

  function PrintAll(b: Buffer, rs: seq<int>): (r: Buffer)
    requires Wf(b) && Runes(rs)
    ensures Keeps(b, r)
  {
    if rs == [] then b else PrintRune(PrintAll(b, rs[..|rs| - 1]), rs[|rs| - 1])
  }

  /** The number that the cell in column `x` of line `l` has in a text that begins at the cursor. Lines go on
      below the last row: they are the rows that scroll into view. */
  function Number(b: Buffer, l: int, x: int): int { Span(l - b.cy, b.cols) + x - b.cx }

  function Span(lines: int, cols: int): int { lines * cols }

  /** How far below the cursor's row the cursor is after `n` runes. */
  function Down(b: Buffer, n: nat): int
    requires b.cols >= 1
  {
    if b.cx + n == 0 then 0 else (b.cx + n - 1) / b.cols
  }

  /** How many lines `n` runes scroll out of the region. */
  function Gone(b: Buffer, n: nat): (r: int)
    requires b.cols >= 1
    ensures r >= 0
  {
    var past := b.cy + Down(b, n) - ScrollRegion(b).bot;
    if past < 0 then 0 else past
  }

  /** The text where it covers the line, else `c`. */
  function TextOr(b: Buffer, rs: seq<int>, l: int, x: int, c: Cell): Cell {
    if l >= b.cy && 0 <= Number(b, l, x) < |rs| then Cell(rs[Number(b, l, x)], b.pen) else c
  }

  /** The cell at a place once the text `rs` was printed: rows below the scroll region stay, rows above it take
      the text that fell on them, and a row of the region shows the line that scrolled to it: the text, the row
      that was there, or a blank. */
  function Flown(b: Buffer, rs: seq<int>, y: int, x: int): Cell
    requires Wf(b) && 0 <= y < b.rows && 0 <= x < b.cols
  {
    var g := ScrollRegion(b);
    if y > g.bot then b.cells[y][x]
    else if y < g.top then TextOr(b, rs, y, x, b.cells[y][x])
    else
      var l := y + Gone(b, |rs|);
      TextOr(b, rs, l, x, if l <= g.bot then b.cells[l][x] else BLANK)
  }

  ghost predicate Flows(b: Buffer, r: Buffer, rs: seq<int>)
    requires Wf(b)
  {
    && Keeps(b, r) && r.pen == b.pen && r.top == b.top && r.bottom == b.bottom
    && (forall y, x :: 0 <= y < b.rows && 0 <= x < b.cols ==> r.cells[y][x] == Flown(b, rs, y, x))
    && r.cx == (if b.cx + |rs| == 0 then 0 else (b.cx + |rs| - 1) % b.cols + 1)
    && r.cy == b.cy + Down(b, |rs|) - Gone(b, |rs|)
  }

  /** Where the next rune goes. */
  lemma NextPlace(cols: int, m: int)
    requires cols >= 1 && m >= 1
    ensures if (m - 1) % cols + 1 < cols then m % cols == (m - 1) % cols + 1 && m / cols == (m - 1) / cols
            else m % cols == 0 && m / cols == (m - 1) / cols + 1
  {
    var q, d := (m - 1) / cols, (m - 1) % cols;
    assert m - 1 == q * cols + d;
    if d + 1 < cols {
      DivMod(cols, q, d + 1);
    } else {
      assert m == (q + 1) * cols + 0;
      DivMod(cols, q + 1, 0);
    }
  }

  /** The line and column of the next rune after `m`. */
  function NextLine(b: Buffer, m: nat): int
    requires b.cols >= 1
  {
    b.cy + (b.cx + m) / b.cols
  }

  function NextColumn(b: Buffer, m: nat): (x: int)
    requires b.cols >= 1
    ensures 0 <= x < b.cols
  {
    (b.cx + m) % b.cols
  }

  lemma Place(cols: int, q: int, x: int, t: int)
    requires cols >= 1 && 0 <= x < cols
    ensures Span(q, cols) + x == t <==> q == t / cols && x == t % cols
  {
    DivMod(cols, q, x);
  }

  lemma PlaceNumber(b: Buffer, m: nat, l: int, x: int)
    requires b.cols >= 1 && b.cx >= 0 && 0 <= x < b.cols
    ensures Number(b, l, x) == m <==> l == NextLine(b, m) && x == NextColumn(b, m)
    ensures Number(b, l, x) == Number(b, l, 0) + x
    ensures NextLine(b, m) >= b.cy
  {
    hide Span;
    var t := b.cx + m;
    Place(b.cols, l - b.cy, x, t);
    NotBehind(t, b.cols);
  }

  lemma NotBehind(t: int, cols: int)
    requires t >= 0 && cols >= 1
    ensures t / cols >= 0
  {
  }

  lemma AdvanceBy(cols: int, t: int)
    requires cols >= 1 && t >= 0
    ensures var cx, down := if t == 0 then 0 else (t - 1) % cols + 1, if t == 0 then 0 else (t - 1) / cols;
            && (if cx < cols then t % cols == cx && t / cols == down else t % cols == 0 && t / cols == down + 1)
            && down >= 0
  {
    if t == 0 {
      DivMod(cols, 0, 0);
    } else {
      NextPlace(cols, t);
      NotBehind(t - 1, cols);
    }
  }

  /** The rune `m` goes on in its row, or wraps to the next line. */
  lemma Advance(b: Buffer, m: nat)
    requires b.cols >= 1 && b.cx >= 0
    ensures var cx := if b.cx + m == 0 then 0 else (b.cx + m - 1) % b.cols + 1;
            if cx < b.cols then NextColumn(b, m) == cx && NextLine(b, m) == b.cy + Down(b, m)
            else NextColumn(b, m) == 0 && NextLine(b, m) == b.cy + Down(b, m) + 1
    ensures b.cy + Down(b, m + 1) == NextLine(b, m)
    ensures Down(b, m) >= 0
  {
    AdvanceBy(b.cols, b.cx + m);
  }

  /** One rune more: it covers its own place and no other. */
  lemma OneMoreRune(b: Buffer, rs: seq<int>, ch: int, l: int, x: int, c: Cell)
    requires Wf(b) && 0 <= x < b.cols
    ensures TextOr(b, rs + [ch], l, x, c) ==
            if l == NextLine(b, |rs|) && x == NextColumn(b, |rs|) then Cell(ch, b.pen) else TextOr(b, rs, l, x, c)
  {
    hide Number;
    PlaceNumber(b, |rs|, l, x);
  }

  /** One rune without a scroll: it lands in one cell, in the next row's first column when a wrap is
      pending. */
  lemma PrintPlaces(b: Buffer, ch: int)
    requires Wf(b) && IsScalar(ch) && (b.cx >= b.cols ==> b.cy < ScrollRegion(b).bot)
    ensures var y, x := if b.cx >= b.cols then b.cy + 1 else b.cy, if b.cx >= b.cols then 0 else b.cx;
            PrintRune(b, ch) == b.(cells := b.cells[y := b.cells[y][x := Cell(ch, b.pen)]], cx := x + 1, cy := y)
  {
  }

  /** One rune that wraps at the bottom of the region: the region scrolls and the rune begins its last row. */
  lemma PrintScrolls(b: Buffer, ch: int, y: int, x: int)
    requires Wf(b) && IsScalar(ch) && b.cx >= b.cols && b.cy == ScrollRegion(b).bot
    requires 0 <= y < b.rows && 0 <= x < b.cols
    ensures var n, g := PrintRune(b, ch), ScrollRegion(b);
            && n == b.(cells := n.cells, cx := 1)
            && n.cells[y][x] == (if y < g.top || y > g.bot then b.cells[y][x]
                                 else if y < g.bot then b.cells[y + 1][x]
                                 else if x == 0 then Cell(ch, b.pen) else BLANK)
  {
    var g := ScrollRegion(b);
    ScrolledUpRow(b.(cx := 0), g.top, g.bot, 1, y);
    ScrolledUpRow(b.(cx := 0), g.top, g.bot, 1, g.bot);
  }

  lemma SameRegion(b: Buffer, r: Buffer)
    requires r.top == b.top && r.bottom == b.bottom && r.rows == b.rows
    ensures ScrollRegion(r) == ScrollRegion(b)
  {
  }

  lemma WfSize(b: Buffer)
    requires Wf(b)
    ensures b.cols >= 1 && |b.cells| == b.rows && 0 <= b.cy < b.rows
    ensures forall y :: 0 <= y < b.rows ==> |b.cells[y]| == b.cols
    ensures 0 <= ScrollRegion(b).top <= ScrollRegion(b).bot < b.rows
  {
  }

  /** The next rune stays within the region's bottom. */
  lemma FlownOn(b: Buffer, r: Buffer, rs: seq<int>, ch: int, n: Buffer, y0: int)
    requires Wf(b) && Wf(n) && Wf(r) && n.rows == b.rows == r.rows && n.cols == b.cols == r.cols
    requires forall y, x :: 0 <= y < b.rows && 0 <= x < b.cols ==> r.cells[y][x] == Flown(b, rs, y, x)
    requires Gone(b, |rs| + 1) == Gone(b, |rs|) && 0 <= y0 <= ScrollRegion(b).bot
    requires NextLine(b, |rs|) == y0 + Gone(b, |rs|) && (Gone(b, |rs|) > 0 ==> y0 == ScrollRegion(b).bot)
    requires 0 <= NextColumn(b, |rs|) < b.cols
    requires n.cells == r.cells[y0 := r.cells[y0][NextColumn(b, |rs|) := Cell(ch, b.pen)]]
    ensures forall y, x :: 0 <= y < b.rows && 0 <= x < b.cols ==> n.cells[y][x] == Flown(b, rs + [ch], y, x)
  {
    hide Number, TextOr, Gone, NextLine, NextColumn, RowOk, ScrollRegion;
    WfSize(b);
    WfSize(r);
    WfSize(n);
    forall y, x | 0 <= y < b.rows && 0 <= x < b.cols ensures n.cells[y][x] == Flown(b, rs + [ch], y, x) {
      assert r.cells[y][x] == Flown(b, rs, y, x) && |rs + [ch]| == |rs| + 1;
      var g, l := ScrollRegion(b), y + Gone(b, |rs|);
      OneMoreRune(b, rs, ch, y, x, b.cells[y][x]);
      OneMoreRune(b, rs, ch, l, x, if g.top <= l <= g.bot then b.cells[l][x] else BLANK);
    }
  }

  /** The next rune scrolls the region. */
  lemma FlownScrolled(b: Buffer, r: Buffer, rs: seq<int>, ch: int)
    requires Wf(b) && Flows(b, r, rs) && IsScalar(ch) && b.cy <= ScrollRegion(b).bot
    requires r.cx >= r.cols && r.cy == ScrollRegion(b).bot && Gone(b, |rs| + 1) == Gone(b, |rs|) + 1
    requires NextLine(b, |rs|) == ScrollRegion(b).bot + Gone(b, |rs|) + 1 && NextColumn(b, |rs|) == 0
    ensures var n := PrintRune(r, ch);
            forall y, x :: 0 <= y < b.rows && 0 <= x < b.cols ==> n.cells[y][x] == Flown(b, rs + [ch], y, x)
  {
    hide Number, TextOr, Gone, NextLine, NextColumn, RowOk, ScrollRegion, PrintRune, Down;
    WfSize(b);
    WfSize(r);
    SameRegion(b, r);
    var n, g := PrintRune(r, ch), ScrollRegion(b);
    WfSize(n);
    forall y, x | 0 <= y < b.rows && 0 <= x < b.cols ensures n.cells[y][x] == Flown(b, rs + [ch], y, x) {
      PrintScrolls(r, ch, y, x);
      assert r.cells[y][x] == Flown(b, rs, y, x) && |rs + [ch]| == |rs| + 1;
      if y < g.bot { assert r.cells[y + 1][x] == Flown(b, rs, y + 1, x); }
      var l := y + Gone(b, |rs|) + 1;
      OneMoreRune(b, rs, ch, y, x, b.cells[y][x]);
      OneMoreRune(b, rs, ch, l, x, if g.top <= l <= g.bot then b.cells[l][x] else BLANK);
      NoTextYet(b, rs, l, x);
    }
  }

  /** The line of the next rune, when that begins it, is still empty. */
  lemma NoTextYet(b: Buffer, rs: seq<int>, l: int, x: int)
    requires Wf(b) && 0 <= x < b.cols
    ensures l == NextLine(b, |rs|) && NextColumn(b, |rs|) == 0 ==> forall c :: TextOr(b, rs, l, x, c) == c
  {
    hide Number;
    PlaceNumber(b, |rs|, l, x);
    PlaceNumber(b, |rs|, l, 0);
  }

  lemma FlowsOn(b: Buffer, r: Buffer, rs: seq<int>, ch: int)
    requires Wf(b) && Flows(b, r, rs) && IsScalar(ch) && b.cy <= ScrollRegion(b).bot
    ensures Flows(b, PrintRune(r, ch), rs + [ch])
  {
    hide PrintRune, Number, RowOk, ScrollRegion, Flown, NextLine, NextColumn, Down;
    WfSize(b);
    SameRegion(b, r);
    Advance(b, |rs|);
    assert |rs + [ch]| == |rs| + 1;
    NextCursor(b, |rs|);
    if r.cx >= r.cols && r.cy == ScrollRegion(b).bot {
      FlownScrolled(b, r, rs, ch);
      PrintScrolls(r, ch, 0, 0);
    } else {
      PrintPlaces(r, ch);
      FlownOn(b, r, rs, ch, PrintRune(r, ch), if r.cx >= r.cols then r.cy + 1 else r.cy);
    }
  }

  lemma NextCursor(b: Buffer, m: nat)
    requires b.cols >= 1
    ensures (b.cx + (m + 1) - 1) % b.cols + 1 == NextColumn(b, m) + 1 && 0 <= NextColumn(b, m) < b.cols
  {
  }

  /** A text of any length, printed from wherever the cursor is, fills its lines in reading order, cell for
      cell. What does not fit above the bottom of the scroll region scrolls: the rows of the region then show
      its last lines, and no other cell changes. The cursor only has to start above that bottom. */
  lemma {:induction false} PrintsParagraph(b: Buffer, rs: seq<int>)
    requires Wf(b) && Runes(rs) && b.cy <= ScrollRegion(b).bot
    ensures Flows(b, PrintAll(b, rs), rs)
  {
    hide PrintRune, Wf, Flows;
    if rs == [] {
      FlowsNot(b);
    } else {
      var v, ch := rs[..|rs| - 1], rs[|rs| - 1];
      PrintsParagraph(b, v);
      FlowsOn(b, PrintAll(b, v), v, ch);
      assert rs == v + [ch];
    }
  }

  lemma FlowsNot(b: Buffer)
    requires Wf(b) && b.cy <= ScrollRegion(b).bot
    ensures Flows(b, b, [])
  {
    hide RowOk, Number;
    if b.cx > 0 { StartCursor(b.cols, b.cx); }
    assert Down(b, 0) == 0 && Gone(b, 0) == 0;
  }

  lemma StartCursor(cols: int, cx: int)
    requires 1 <= cx <= cols
    ensures (cx - 1) % cols + 1 == cx && (cx - 1) / cols == 0
  {
    DivMod(cols, 0, cx - 1);
  }

  /** Columns less than a row apart in a text are different columns. */
  lemma ApartInRow(cols: int, s: int, t: int)
    requires cols >= 1 && 0 <= s < t < s + cols
    ensures s % cols != t % cols
  {
    var q, d := s / cols, s % cols;
    if d + (t - s) < cols {
      DivMod(cols, q, d + (t - s));
    } else {
      assert t == (q + 1) * cols + (d + (t - s) - cols);
      DivMod(cols, q + 1, d + (t - s) - cols);
    }
  }

  /** The one row at the cursor holds the last rune of the text that came to each column. */
  ghost predicate Overlaid(b: Buffer, r: Buffer, rs: seq<int>)
    requires Wf(b)
  {
    && Keeps(b, r) && r == b.(cells := b.cells[b.cy := r.cells[b.cy]], cx := r.cx)
    && r.cx == (if b.cx + |rs| == 0 then 0 else (b.cx + |rs| - 1) % b.cols + 1)
    && (forall i :: 0 <= i < |rs| && |rs| <= i + b.cols ==>
          r.cells[b.cy][NextColumn(b, i)] == Cell(rs[i], b.pen))
    && (forall x :: 0 <= x < b.cols && (forall i :: 0 <= i < |rs| ==> NextColumn(b, i) != x) ==>
          r.cells[b.cy][x] == b.cells[b.cy][x])
  }

  lemma PrintStays(b: Buffer, ch: int)
    requires Wf(b) && IsScalar(ch) && b.cy > ScrollRegion(b).bot
    ensures var x := if b.cx >= b.cols then 0 else b.cx;
            PrintRune(b, ch) == b.(cells := b.cells[b.cy := b.cells[b.cy][x := Cell(ch, b.pen)]], cx := x + 1)
  {
  }

  lemma OverlaidOn(b: Buffer, r: Buffer, rs: seq<int>, ch: int)
    requires Wf(b) && Overlaid(b, r, rs) && IsScalar(ch) && b.cy > ScrollRegion(b).bot
    ensures Overlaid(b, PrintRune(r, ch), rs + [ch])
  {
    hide PrintRune, RowOk, NextColumn, ScrollRegion;
    WfSize(b);
    WfSize(r);
    SameRegion(b, r);
    PrintStays(r, ch);
    Advance(b, |rs|);
    NextCursor(b, |rs|);
    OverlaidRow(b, r.cells[b.cy], rs, ch);
  }

  lemma OverlaidRow(b: Buffer, row: seq<Cell>, rs: seq<int>, ch: int)
    requires Wf(b) && |row| == b.cols == |b.cells[b.cy]|
    requires forall i :: 0 <= i < |rs| && |rs| <= i + b.cols ==> row[NextColumn(b, i)] == Cell(rs[i], b.pen)
    requires forall x :: 0 <= x < b.cols && (forall i :: 0 <= i < |rs| ==> NextColumn(b, i) != x) ==>
               row[x] == b.cells[b.cy][x]
    ensures var row', all := row[NextColumn(b, |rs|) := Cell(ch, b.pen)], rs + [ch];
            && (forall i :: 0 <= i < |all| && |all| <= i + b.cols ==> row'[NextColumn(b, i)] == Cell(all[i], b.pen))
            && (forall x :: 0 <= x < b.cols && (forall i :: 0 <= i < |all| ==> NextColumn(b, i) != x) ==>
                  row'[x] == b.cells[b.cy][x])
  {
    hide RowOk, NextColumn;
    var row', all := row[NextColumn(b, |rs|) := Cell(ch, b.pen)], rs + [ch];
    forall i | 0 <= i < |all| && |all| <= i + b.cols ensures row'[NextColumn(b, i)] == Cell(all[i], b.pen) {
      if i < |rs| { OtherColumn(b, i, |rs|); }
    }
    forall x | 0 <= x < b.cols && forall i :: 0 <= i < |all| ==> NextColumn(b, i) != x
      ensures row'[x] == b.cells[b.cy][x]
    {
      assert |rs| < |all| && x != NextColumn(b, |rs|);
      forall i | 0 <= i < |rs| ensures NextColumn(b, i) != x { assert i < |all|; }
    }
  }

  lemma OtherColumn(b: Buffer, i: nat, j: nat)
    requires b.cols >= 1 && b.cx >= 0 && i < j < i + b.cols
    ensures NextColumn(b, i) != NextColumn(b, j) && 0 <= NextColumn(b, i) < b.cols
  {
    ApartInRow(b.cols, b.cx + i, b.cx + j);
  }

  /** Below the scroll region nothing scrolls and no line follows: a text of any length is written over and over
      the cursor's row, which ends with the last rune that came to each column. */
  lemma {:induction false} PrintsBelow(b: Buffer, rs: seq<int>)
    requires Wf(b) && Runes(rs) && b.cy > ScrollRegion(b).bot
    ensures Overlaid(b, PrintAll(b, rs), rs)
  {
    hide PrintRune, Wf, Overlaid;
    if rs == [] {
      OverlaidNot(b);
    } else {
      var v, ch := rs[..|rs| - 1], rs[|rs| - 1];
      PrintsBelow(b, v);
      OverlaidOn(b, PrintAll(b, v), v, ch);
      assert rs == v + [ch];
    }
  }

  lemma OverlaidNot(b: Buffer)
    requires Wf(b)
    ensures Overlaid(b, b, [])
  {
    hide RowOk;
    if b.cx > 0 { StartCursor(b.cols, b.cx); }
  }

  lemma {:induction false} PrintsAreRunes(t: Term, rs: seq<int>)
    requires WfTerm(t) && Utf8Stream.Text(rs) && Runes(rs)
    ensures var o := ApplyAll(t, Utf8Stream.Prints(rs));
            o.Ok? && o.t.Cur() == PrintAll(t.Cur(), rs) && o.t == t.WithCur(o.t.Cur()).(dirty := o.t.dirty)
  {
    hide PrintRune;
    if rs != [] {
      var n := |rs| - 1;
      PrintsAreRunes(t, rs[..n]);
      assert Utf8Stream.Prints(rs)[..n] == Utf8Stream.Prints(rs[..n]);
    }
  }

  /** End to end: the UTF-8 bytes of a text, in whatever chunks they come, show that text on the active screen
      in reading order, scrolled as far as it needs, and change no other cell of either screen. */
  lemma TextAppears(e: Emu, rs: seq<int>, chunks: seq<seq<byte>>)
    requires WfEmu(e) && Utf8Stream.Idle(e.front) && Utf8Stream.Text(rs)
    requires Utf8Stream.Concat(chunks) == Utf8Stream.EncodeAll(rs)
    requires e.term.Cur().cy <= ScrollRegion(e.term.Cur()).bot
    ensures var r := Utf8Stream.RunChunks(e, chunks);
            && r.Running? && r.e.front == e.front
            && Flows(e.term.Cur(), r.e.term.Cur(), rs)
            && r.e.term == e.term.WithCur(r.e.term.Cur()).(dirty := r.e.term.dirty)
            && Shows(e.term.Cur(), r.e.term.Visible(), rs, e.term.cursorVisible)
  {
    hide PrintAll, PrintRune, Flows, Shows, Utf8Stream.RunChunks, ApplyAll;
    Utf8Stream.PrintsExactly(e, rs, chunks);
    PrintsAreRunes(e.term, rs);
    PrintsParagraph(e.term.Cur(), rs);
    FlowsShow(e.term.Cur(), Utf8Stream.RunChunks(e, chunks).e.term, rs);
  }

  /** What an observer sees of it: the cells, and the cursor after the text's last rune. */
  ghost predicate Shows(b: Buffer, s: Screen, rs: seq<int>, cursor: bool)
    requires Wf(b)
  {
    && s.cols == b.cols && s.rows == b.rows && |s.cells| == b.rows
    && (forall y :: 0 <= y < b.rows ==> |s.cells[y]| == b.cols)
    && (forall y, x :: 0 <= y < b.rows && 0 <= x < b.cols ==> s.cells[y][x] == Flown(b, rs, y, x))
    && s.cursor.x == (if b.cx + |rs| == 0 then 0 else (b.cx + |rs| - 1) % b.cols + 1)
    && s.cursor.y == b.cy + Down(b, |rs|) - Gone(b, |rs|)
    && s.cursor.visible == cursor
  }

  lemma FlowsShow(b: Buffer, t: Term, rs: seq<int>)
    requires Wf(b) && WfTerm(t) && Flows(b, t.Cur(), rs)
    ensures Shows(b, t.Visible(), rs, t.cursorVisible)
  {
    hide RowOk, Flown, Gone, Down;
    WfSize(t.Cur());
  }

  // ---------- moving ----------

  /** Reverse index takes back a line feed that did not scroll. */
  lemma IndexBack(b: Buffer)
    requires Wf(b) && ScrollRegion(b).top <= b.cy < ScrollRegion(b).bot
    ensures ReverseIndex(LineFeed(b)) == b
  {
  }

  /** A tab goes to the least multiple of eight to the right, or to the last column. */
  lemma TabStop(b: Buffer)
    requires Wf(b)
    ensures var x := Tab(b).cx;
            && (x == b.cols - 1 || (x % 8 == 0 && b.cx < x < b.cols - 1))
            && (forall s :: b.cx < s < x ==> s % 8 != 0)
            && Tab(b) == b.(cx := x)
  {
  }

  function Within(v: int, limit: int): int { if v < 0 then 0 else if v >= limit then limit - 1 else v }

  /** With parameters that fit in 62 bits, every move ends where plain arithmetic puts it, stopped at the
      edges. */
  lemma MovesPlainly(b: Buffer, final: int, params: seq<int>)
    requires Wf(b) && IsMove(final) && forall i :: 0 <= i < |params| ==> 0 <= params[i] < TWO63 / 2
    ensures var n, m := Param(params, 0, 1), Param(params, 1, 1);
            var up, left := final == 'A' as int || final == 'F' as int, final == 'D' as int;
            var down, right := final == 'B' as int || final == 'E' as int, final == 'C' as int;
            var column, row := final == 'G' as int, final == 'd' as int;
            var e := MoveCursor(b, final, params);
            && e.Effect?
            && e.b == b.(cx := e.b.cx, cy := e.b.cy)
            && e.b.cy == (if up then Within(b.cy - n, b.rows) else if down then Within(b.cy + n, b.rows)
                          else if left || right || column then b.cy else Within(n - 1, b.rows))
            && e.b.cx == (if final == 'E' as int || final == 'F' as int then 0
                          else if left then Within(b.cx - n, b.cols) else if right then Within(b.cx + n, b.cols)
                          else if up || down || row then b.cx
                          else Within((if column then n else m) - 1, b.cols))
  {
    hide Sgr.Apply;
  }

  // ---------- resizing ----------

  lemma ResizedCell(b: Buffer, cols: int, rows: int, y: int, x: int)
    requires Wf(b) && 1 <= cols <= MAX_DIM && 1 <= rows <= MAX_DIM && 0 <= y < rows && 0 <= x < cols
    ensures ResizeBuffer(b, cols, rows).cells[y][x] == if y < b.rows && x < b.cols then b.cells[y][x] else BLANK
  {
    ResizedParts(b, cols, rows);
  }

  /** Growing a screen and shrinking it back changes no cell; only a pending wrap and the scroll region are
      given up. */
  lemma GrowAndShrink(b: Buffer, cols: int, rows: int)
    requires Wf(b) && b.cols <= cols <= MAX_DIM && b.rows <= rows <= MAX_DIM
    ensures ResizeBuffer(ResizeBuffer(b, cols, rows), b.cols, b.rows) ==
            b.(cx := Min(b.cx, b.cols - 1), top := 1, bottom := b.rows)
  {
    hide RowOk;
    var big := ResizeBuffer(b, cols, rows);
    ResizedParts(b, cols, rows);
    ResizedParts(big, b.cols, b.rows);
    WfSize(b);
    var back := ResizeBuffer(big, b.cols, b.rows);
    forall y | 0 <= y < b.rows ensures back.cells[y] == b.cells[y] {
      assert forall x :: 0 <= x < b.cols ==> back.cells[y][x] == b.cells[y][x];
    }
    assert back.cells == b.cells;
  }

  // ---------- erasing ----------

  /** Which cells EL erases. */
  lemma ErasedCell(b: Buffer, mode: int, y: int, x: int)
    requires Wf(b) && !ErasesPastRow(b, mode) && 0 <= y < b.rows && 0 <= x < b.cols
    ensures var hit := y == b.cy && ((mode == 0 && x >= b.cx) || (mode == 1 && x <= b.cx) || mode == 2);
            EraseInLine(b, mode).cells[y][x] == if hit then PenCell(b) else b.cells[y][x]
    ensures EraseInLine(b, mode) == b.(cells := EraseInLine(b, mode).cells)
  {
  }

  /** Which cells ECH erases. */
  lemma ErasedChar(b: Buffer, n: int, y: int, x: int)
    requires Wf(b) && 0 <= y < b.rows && 0 <= x < b.cols
    ensures EraseChars(b, n).cells[y][x] == if y == b.cy && b.cx <= x < b.cx + n then PenCell(b) else b.cells[y][x]
    ensures EraseChars(b, n) == b.(cells := EraseChars(b, n).cells)
  {
  }

  // ---------- save and restore ----------

  /** Whatever happened since, as long as the slot was not written again and the size is the same: restoring
      brings back the saved pen and position, a pending wrap clamped to the last column, and no cell
      changes. */
  lemma SaveRestore(t: Term, u: Term)
    requires WfTerm(t) && WfTerm(u) && u.useAlt == t.useAlt && u.cols == t.cols && u.rows == t.rows
    requires u.Saved() == SaveCursor(t).Saved()
    ensures var s, r := t.Cur(), RestoreCursor(u).Cur();
            r == u.Cur().(cx := Min(s.cx, s.cols - 1), cy := s.cy, pen := s.pen)
  {
  }
}
