/** Run-length coding of a screen for the snapshot stream
    (internal/agent/adapter/primary/hubclient/snapshot_encode.go, and its copy in
    internal/agent/adapter/primary/localhost/server.go). */
module SnapshotEncoder {
  import opened Terminal

  /** A span of cells in one style. */
  datatype Run = Run(text: seq<int>, style: Pen)

  datatype Snapshot = Snapshot(
    sessionId: string, machineId: string, cols: int, rows: int, cursor: Cursor, lines: seq<seq<Run>>, rev: nat)

  // ---------- the viewer ----------

  function Expand(r: Run): (cells: seq<Cell>)
    ensures |cells| == |r.text| && forall i :: 0 <= i < |r.text| ==> cells[i] == Cell(r.text[i], r.style)
  {
    seq(|r.text|, i requires 0 <= i < |r.text| => Cell(r.text[i], r.style))
  }

  function ExpandAll(runs: seq<Run>): seq<Cell> {
    if runs == [] then [] else ExpandAll(runs[..|runs| - 1]) + Expand(runs[|runs| - 1])
  }

  predicate AllBlank(cells: seq<Cell>) {
    forall i :: 0 <= i < |cells| ==> cells[i] == BLANK
  }

  /** The runs decode to the row when blanks are padded on the right. */
  predicate Decodes(runs: seq<Run>, row: seq<Cell>) {
    ExpandAll(runs) <= row && AllBlank(row[|ExpandAll(runs)|..])
  }

  predicate DropsAsBlank(r: Run) {
    r.style == DEFAULT_PEN && forall i :: 0 <= i < |r.text| ==> r.text[i] == SPACE
  }

  predicate AdjacentDiffer(runs: seq<Run>) {
    forall i :: 0 < i < |runs| ==> runs[i - 1].style != runs[i].style
  }

  predicate NonEmpty(runs: seq<Run>) {
    forall i :: 0 <= i < |runs| ==> runs[i].text != []
  }

  // ---------- counting styles ----------

  /** The number of maximal spans of one style. */
  function Spans(cells: seq<Cell>): nat {
    if cells == [] then 0
    else if |cells| == 1 then 1
    else Spans(cells[..|cells| - 1]) + if cells[|cells| - 1].style == cells[|cells| - 2].style then 0 else 1
  }

  lemma {:induction false} SpansAppend(a: seq<Cell>, r: Run)
    ensures Spans(a + Expand(r)) <= Spans(a) + 1
    ensures r.text != [] ==>
              Spans(a + Expand(r)) == Spans(a) + if a != [] && a[|a| - 1].style == r.style then 0 else 1
    decreases |r.text|
  {
    hide Expand;
    var cells := a + Expand(r);
    if r.text == [] {
      assert cells == a;
    } else {
      var n := |r.text| - 1;
      var q := Run(r.text[..n], r.style);
      SpansAppend(a, q);
      assert cells[..|cells| - 1] == a + Expand(q);
      if n == 0 { assert a + Expand(q) == a; }
    }
  }

  /** Each run of any encoding covers at most one span. */
  lemma {:induction false} SpansBound(runs: seq<Run>)
    ensures Spans(ExpandAll(runs)) <= |runs|
  {
    if runs != [] {
      var n := |runs| - 1;
      SpansBound(runs[..n]);
      SpansAppend(ExpandAll(runs[..n]), runs[n]);
    }
  }

  /** Runs that are non-empty and differ from their neighbours cover exactly one span each. */
  lemma {:induction false} SpansExact(runs: seq<Run>)
    requires NonEmpty(runs) && AdjacentDiffer(runs)
    ensures Spans(ExpandAll(runs)) == |runs|
    ensures runs != [] ==> ExpandAll(runs) != []
    ensures runs != [] ==> ExpandAll(runs)[|ExpandAll(runs)| - 1].style == runs[|runs| - 1].style
  {
    if runs != [] {
      var n := |runs| - 1;
      SpansExact(runs[..n]);
      SpansAppend(ExpandAll(runs[..n]), runs[n]);
    }
  }

  lemma {:induction false} SpansPrefix(cells: seq<Cell>, k: nat)
    requires k <= |cells|
    ensures Spans(cells[..k]) <= Spans(cells)
  {
    if k < |cells| {
      SpansPrefix(cells[..|cells| - 1], k);
      assert cells[..|cells| - 1][..k] == cells[..k];
    } else {
      assert cells[..k] == cells;
    }
  }

  // ---------- the encoder ----------

  /** What the encoder makes of a row: lossless, with neighbours in different styles and no trailing
      run that a viewer would pad anyway. */
  predicate Encodes(runs: seq<Run>, row: seq<Cell>) {
    && Decodes(runs, row)
    && NonEmpty(runs) && AdjacentDiffer(runs)
    && (runs != [] ==> !DropsAsBlank(runs[|runs| - 1]))
    && (runs != [] && |ExpandAll(runs)| < |row| ==> runs[|runs| - 1].style != DEFAULT_PEN)
  }

  /** The first run after the last flush, with the runs before it, covers the row so far. */
  predicate Covers(runs: seq<Run>, open: Run, cells: seq<Cell>) {
    && ExpandAll(runs) + Expand(open) == cells
    && open.text != [] && NonEmpty(runs) && AdjacentDiffer(runs + [open])
  }

  lemma ExpandSnoc(runs: seq<Run>, r: Run)
    ensures ExpandAll(runs + [r]) == ExpandAll(runs) + Expand(r)
  {
    assert (runs + [r])[..|runs|] == runs;
  }

  lemma Grow(runs: seq<Run>, open: Run, cells: seq<Cell>, c: Cell)
    requires Covers(runs, open, cells)
    ensures c.style == open.style ==> Covers(runs, Run(open.text + [c.ch], open.style), cells + [c])
    ensures c.style != open.style ==> Covers(runs + [open], Run([c.ch], c.style), cells + [c])
  {
    hide ExpandAll;
    ExpandSnoc(runs, open);
    if c.style == open.style {
      var longer := Run(open.text + [c.ch], open.style);
      assert Expand(longer) == Expand(open) + [c];
      assert ExpandAll(runs) + Expand(open) + [c] == ExpandAll(runs) + (Expand(open) + [c]);
      forall i | 0 < i < |runs + [longer]| ensures (runs + [longer])[i - 1].style != (runs + [longer])[i].style {
        assert (runs + [longer])[i].style == (runs + [open])[i].style;
        assert (runs + [longer])[i - 1].style == (runs + [open])[i - 1].style;
      }
    } else {
      assert Expand(Run([c.ch], c.style)) == [c];
    }
  }

  method EncodeRow(row: seq<Cell>) returns (runs: seq<Run>)
    ensures Encodes(runs, row)
  {
    runs := [];
    if |row| == 0 {
      return;
    }
    var style, text := row[0].style, [row[0].ch];
    assert Covers(runs, Run(text, style), row[..1]);
    for x := 1 to |row|
      invariant Covers(runs, Run(text, style), row[..x])
    {
      var c := row[x];
      assert row[..x + 1] == row[..x] + [c];
      Grow(runs, Run(text, style), row[..x], c);
      if c.style == style {
        text := text + [c.ch];
      } else {
        runs := runs + [Run(text, style)];
        style, text := c.style, [c.ch];
      }
    }
    assert row[..|row|] == row;
    ExpandSnoc(runs, Run(text, style));
    runs := runs + [Run(text, style)];
    runs := DropTrailing(runs, row);
  }

  /** The trailing-drop loop. */
  method DropTrailing(full: seq<Run>, row: seq<Cell>) returns (runs: seq<Run>)
    requires ExpandAll(full) == row && NonEmpty(full) && AdjacentDiffer(full)
    ensures Encodes(runs, row)
    ensures runs == full || (full != [] && runs == full[..|full| - 1])
  {
    runs := full;
    while |runs| > 0
      invariant runs == full || (full != [] && runs == full[..|full| - 1] && DropsAsBlank(full[|full| - 1]))
      invariant Decodes(runs, row)
      decreases |runs|
    {
      var last := runs[|runs| - 1];
      if DropsAsBlank(last) {
        assert runs == full;
        runs := runs[..|runs| - 1];
      } else {
        break;
      }
    }
  }

  // ---------- minimality ----------

  /** No encoding of the same row, however it splits the row into runs, is shorter. */
  lemma Minimal(runs: seq<Run>, row: seq<Cell>, others: seq<Run>)
    requires Encodes(runs, row) && Decodes(others, row)
    ensures |runs| <= |others|
  {
    SpansExact(runs);
    SpansBound(others);
    var mine, theirs := ExpandAll(runs), ExpandAll(others);
    if |mine| <= |theirs| {
      assert theirs[..|mine|] == mine;
      SpansPrefix(theirs, |mine|);
    } else {
      TheirsReachesLastRun(runs, row, theirs);
    }
  }

  lemma ExpandLast(runs: seq<Run>)
    requires runs != []
    ensures var n := |runs| - 1; ExpandAll(runs) == ExpandAll(runs[..n]) + Expand(runs[n])
  {
  }

  /** A shorter prefix that still decodes cannot end before the last run that shows. */
  lemma TheirsReachesLastRun(runs: seq<Run>, row: seq<Cell>, theirs: seq<Cell>)
    requires Encodes(runs, row) && theirs <= row && AllBlank(row[|theirs|..])
    requires |theirs| < |ExpandAll(runs)|
    ensures Spans(theirs) >= |runs|
  {
    var n := |runs| - 1;
    SpansExact(runs);
    var before, last := ExpandAll(runs[..n]), runs[n];
    ExpandLast(runs);
    if |theirs| <= |before| {
      BlankTail(before, last, row, |theirs|);
      assert false;
    } else {
      PartOfLast(before, last, row, theirs);
      SpansExact(runs[..n]);
    }
  }

  /** If the row is blank from within or before the last run's start, that run is a blank one. */
  lemma BlankTail(before: seq<Cell>, last: Run, row: seq<Cell>, k: nat)
    requires before + Expand(last) <= row && k <= |before| && AllBlank(row[k..]) && last.text != []
    ensures DropsAsBlank(last)
  {
    var mine := before + Expand(last);
    forall i | 0 <= i < |last.text| ensures last.text[i] == SPACE && last.style == DEFAULT_PEN {
      var x := |before| + i;
      assert row[x] == mine[x] == Cell(last.text[i], last.style);
      assert row[k..][x - k] == row[x];
    }
    assert last.text[0] == SPACE;
  }

  lemma PartOfLast(before: seq<Cell>, last: Run, row: seq<Cell>, theirs: seq<Cell>)
    requires before + Expand(last) <= row && theirs <= row && |before| < |theirs| <= |before| + |last.text|
    requires before != [] ==> before[|before| - 1].style != last.style
    ensures Spans(theirs) == Spans(before) + 1
  {
    var part := Run(last.text[..|theirs| - |before|], last.style);
    var whole := before + Expand(last);
    forall i | 0 <= i < |theirs| ensures theirs[i] == (before + Expand(part))[i] {
      assert theirs[i] == row[i] == whole[i];
    }
    assert theirs == before + Expand(part);
    SpansAppend(before, part);
  }

  // ---------- the whole snapshot ----------

  /** Every line decodes to its row, and the rest is copied. */
  method EncodeSnapshot(id: string, scr: Screen, rev: nat, machineId: string) returns (s: Snapshot)
    requires |scr.cells| == scr.rows
    ensures IsSnapshotOf(s, id, scr, rev) && s.machineId == machineId
  {
    hide Encodes;
    var lines: seq<seq<Run>> := [];
    for y := 0 to scr.rows
      invariant |lines| == y && forall z :: 0 <= z < y ==> Encodes(lines[z], scr.cells[z])
    {
      var runs := EncodeRow(scr.cells[y]);
      lines := lines + [runs];
    }
    s := Snapshot(id, machineId, scr.cols, scr.rows, scr.cursor, lines, rev);
  }

  /** Decoding is a function of the runs and the row length, so the coding loses nothing: two rows of
      one length with the same runs are the same row. */
  lemma Lossless(runs: seq<Run>, row: seq<Cell>, other: seq<Cell>)
    requires Decodes(runs, row) && Decodes(runs, other) && |row| == |other|
    ensures row == other
  {
    var e := ExpandAll(runs);
    forall i | 0 <= i < |row| ensures row[i] == other[i] {
      if i < |e| {
        assert row[i] == e[i] == other[i];
      } else {
        assert row[|e|..][i - |e|] == BLANK && other[|e|..][i - |e|] == BLANK;
      }
    }
  }

  /** A run that holds both the last cell of `mine` and padding after it is in the default style. */
  lemma PaddedRun(before: seq<Cell>, last: Run, row: seq<Cell>, mine: seq<Cell>)
    requires before + Expand(last) <= row && mine <= row && AllBlank(row[|mine|..])
    requires |before| < |mine| < |before| + |last.text|
    ensures mine[|mine| - 1].style == DEFAULT_PEN
  {
    var k, whole := |mine|, before + Expand(last);
    assert mine[k - 1] == row[k - 1] == whole[k - 1];
    assert row[k] == whole[k] && row[k..][0] == row[k];
  }

  /** Two encodings of a row end at the same column. */
  lemma EndsTogether(a: seq<Run>, b: seq<Run>, row: seq<Cell>)
    requires Encodes(a, row) && Encodes(b, row)
    ensures |ExpandAll(b)| <= |ExpandAll(a)|
  {
    var k := |ExpandAll(a)|;
    SpansExact(a);
    if k < |ExpandAll(b)| {
      var n := |b| - 1;
      var before, last := ExpandAll(b[..n]), b[n];
      ExpandLast(b);
      if k <= |before| {
        BlankTail(before, last, row, k);
      } else {
        PaddedRun(before, last, row, ExpandAll(a));
      }
      assert false;
    }
  }

  /** Equal cells, split into non-empty runs with different neighbours, are split the same way. */
  lemma {:induction false} SameRuns(a: seq<Run>, b: seq<Run>)
    requires NonEmpty(a) && AdjacentDiffer(a) && NonEmpty(b) && AdjacentDiffer(b)
    requires ExpandAll(a) == ExpandAll(b)
    ensures a == b
    decreases |a|
  {
    SpansExact(a);
    SpansExact(b);
    if a != [] {
      var m, n := |a| - 1, |b| - 1;
      ExpandLast(a);
      ExpandLast(b);
      LastRunNotLonger(a, b);
      LastRunNotLonger(b, a);
      var x, y := ExpandAll(a[..m]), ExpandAll(b[..n]);
      var e := ExpandAll(a);
      assert x == e[..|x|] && y == e[..|y|];
      SameRuns(a[..m], b[..n]);
      assert Expand(a[m]) == e[|x|..] == Expand(b[n]);
      SameText(a[m], b[n]);
      assert a == a[..m] + [a[m]] && b == b[..n] + [b[n]];
    }
  }

  lemma SameText(a: Run, b: Run)
    requires Expand(a) == Expand(b) && a.text != []
    ensures a == b
  {
    forall i | 0 <= i < |a.text| ensures a.text[i] == b.text[i] {
      assert Expand(a)[i] == Expand(b)[i];
    }
    assert Expand(a)[0] == Expand(b)[0];
  }

  lemma LastRunNotLonger(a: seq<Run>, b: seq<Run>)
    requires a != [] && b != [] && NonEmpty(a) && AdjacentDiffer(a) && NonEmpty(b) && AdjacentDiffer(b)
    requires ExpandAll(a) == ExpandAll(b)
    ensures |a[|a| - 1].text| <= |b[|b| - 1].text|
  {
    var m, n := |a| - 1, |b| - 1;
    ExpandLast(a);
    ExpandLast(b);
    SpansExact(a);
    SpansExact(b);
    if |b[n].text| < |a[m].text| {
      InsideLast(ExpandAll(a[..m]), a[m], ExpandAll(b[..n]), b[n]);
      BeforeLast(b);
      assert false;
    }
  }

  /** If the last run of one split is longer, the cell before the other's last run lies inside it. */
  lemma InsideLast(x: seq<Cell>, long: Run, y: seq<Cell>, short: Run)
    requires x + Expand(long) == y + Expand(short) && 0 < |short.text| < |long.text|
    ensures y != [] && y[|y| - 1].style == long.style == short.style
  {
    var e := x + Expand(long);
    assert e[|y| - 1] == y[|y| - 1] && e[|y| - 1] == Expand(long)[|y| - 1 - |x|];
    assert e[|e| - 1] == Expand(long)[|long.text| - 1] == Expand(short)[|short.text| - 1];
  }

  lemma BeforeLast(b: seq<Run>)
    requires b != [] && NonEmpty(b) && AdjacentDiffer(b)
    ensures var y := ExpandAll(b[..|b| - 1]);
            y != [] ==> y[|y| - 1].style != b[|b| - 1].style
  {
    SpansExact(b[..|b| - 1]);
  }

  /** The encoding is canonical: a row has exactly one. */
  lemma Canonical(a: seq<Run>, b: seq<Run>, row: seq<Cell>)
    requires Encodes(a, row) && Encodes(b, row)
    ensures a == b
  {
    EndsTogether(a, b, row);
    EndsTogether(b, a, row);
    assert ExpandAll(a) == row[..|ExpandAll(a)|] == ExpandAll(b);
    SameRuns(a, b);
  }

  predicate IsSnapshotOf(s: Snapshot, id: string, scr: Screen, rev: nat) {
    && |scr.cells| == scr.rows == |s.lines|
    && s == Snapshot(id, s.machineId, scr.cols, scr.rows, scr.cursor, s.lines, rev)
    && forall y :: 0 <= y < scr.rows ==> Encodes(s.lines[y], scr.cells[y])
  }

  /** Two snapshots of one screen agree on everything but the machine id. */
  lemma CopiesAgree(s: Snapshot, t: Snapshot, id: string, scr: Screen, rev: nat)
    requires IsSnapshotOf(s, id, scr, rev) && IsSnapshotOf(t, id, scr, rev)
    ensures t == s.(machineId := t.machineId)
  {
    hide Encodes;
    forall y | 0 <= y < scr.rows ensures s.lines[y] == t.lines[y] {
      Canonical(s.lines[y], t.lines[y], scr.cells[y]);
    }
  }

  /** The second copy of the encoder, written out with its own loops; the machine id is filled in later. */
  method EncodeLocalSnapshot(id: string, scr: Screen, rev: nat) returns (s: Snapshot)
    requires |scr.cells| == scr.rows
    ensures IsSnapshotOf(s, id, scr, rev) && s.machineId == ""
  {
    hide Encodes;
    var lines: seq<seq<Run>> := [];
    for y := 0 to scr.rows
      invariant |lines| == y && forall z :: 0 <= z < y ==> Encodes(lines[z], scr.cells[z])
    {
      var runs := EncodeLocalRow(scr.cells[y]);
      lines := lines + [runs];
    }
    s := Snapshot(id, "", scr.cols, scr.rows, scr.cursor, lines, rev);
  }

  method EncodeLocalRow(row: seq<Cell>) returns (runs: seq<Run>)
    ensures Encodes(runs, row)
  {
    runs := [];
    if |row| == 0 {
      return;
    }
    var fg, bg, attrs, text := row[0].style.fg, row[0].style.bg, row[0].style.attrs, [row[0].ch];
    assert Covers(runs, Run(text, Pen(fg, bg, attrs)), row[..1]);
    for x := 1 to |row|
      invariant Covers(runs, Run(text, Pen(fg, bg, attrs)), row[..x])
    {
      var c := row[x];
      assert row[..x + 1] == row[..x] + [c];
      Grow(runs, Run(text, Pen(fg, bg, attrs)), row[..x], c);
      if c.style.fg == fg && c.style.bg == bg && c.style.attrs == attrs {
        text := text + [c.ch];
      } else {
        runs := runs + [Run(text, Pen(fg, bg, attrs))];
        fg, bg, attrs, text := c.style.fg, c.style.bg, c.style.attrs, [c.ch];
      }
    }
    assert row[..|row|] == row;
    ExpandSnoc(runs, Run(text, Pen(fg, bg, attrs)));
    runs := runs + [Run(text, Pen(fg, bg, attrs))];
    runs := DropTrailing(runs, row);
  }

  /** Run on one screen, the two copies give the same snapshot but for the machine id. */
  method EncodeTwice(id: string, scr: Screen, rev: nat, machineId: string) returns (s: Snapshot, t: Snapshot)
    requires |scr.cells| == scr.rows
    ensures s.machineId == machineId && t == s.(machineId := "")
  {
    s := EncodeSnapshot(id, scr, rev, machineId);
    t := EncodeLocalSnapshot(id, scr, rev);
    CopiesAgree(s, t, id, scr, rev);
  }

  // ---------- what a viewer sees ----------

  /** A line as a viewer draws it: the runs in order, then unstyled blanks up to the width. */
  function Drawn(runs: seq<Run>, cols: nat): seq<Cell> {
    var cells := ExpandAll(runs);
    if |cells| >= cols then cells else cells + seq(cols - |cells|, _ => Cell(0x20, Pen(0, 0, 0)))
  }

  function View(s: Snapshot): Screen {
    Screen(s.cols, s.rows, s.cursor,
           seq(|s.lines|, y requires 0 <= y < |s.lines| => Drawn(s.lines[y], if s.cols < 0 then 0 else s.cols)))
  }

  lemma DrawnIs(runs: seq<Run>, row: seq<Cell>)
    requires Decodes(runs, row)
    ensures Drawn(runs, |row|) == row
  {
    var e := ExpandAll(runs);
    forall x | 0 <= x < |row| ensures Drawn(runs, |row|)[x] == row[x] {
      if x >= |e| { assert row[|e|..][x - |e|] == BLANK; }
    }
  }

  /** Drawing a snapshot gives back the screen it was made from: size, cursor and every cell; and it names its
      session and revision. */
  lemma ViewRoundTrip(s: Snapshot, id: string, scr: Screen, rev: nat)
    requires IsSnapshotOf(s, id, scr, rev) && forall y :: 0 <= y < scr.rows ==> |scr.cells[y]| == scr.cols
    ensures View(s) == scr
    ensures s.sessionId == id && s.rev == rev && s.cols == scr.cols && s.rows == scr.rows && s.cursor == scr.cursor
  {
    hide Drawn, Decodes;
    forall y | 0 <= y < scr.rows ensures Drawn(s.lines[y], scr.cols) == scr.cells[y] {
      assert Encodes(s.lines[y], scr.cells[y]) && |scr.cells[y]| == scr.cols;
      DrawnIs(s.lines[y], scr.cells[y]);
    }
    if scr.rows > 0 {
      assert |scr.cells[0]| == scr.cols;
      assert View(s).cells == scr.cells;
    }
  }

  /** A snapshot determines the screen it was made from. */
  lemma SnapshotLossless(s: Snapshot, id: string, scr: Screen, other: Screen, rev: nat)
    requires IsSnapshotOf(s, id, scr, rev) && IsSnapshotOf(s, id, other, rev)
    requires forall y :: 0 <= y < scr.rows ==> |scr.cells[y]| == scr.cols
    requires forall y :: 0 <= y < other.rows ==> |other.cells[y]| == other.cols
    ensures scr == other
  {
    forall y | 0 <= y < scr.rows ensures scr.cells[y] == other.cells[y] {
      assert Encodes(s.lines[y], scr.cells[y]) && Encodes(s.lines[y], other.cells[y]);
      assert |scr.cells[y]| == scr.cols && |other.cells[y]| == other.cols;
      Lossless(s.lines[y], scr.cells[y], other.cells[y]);
    }
  }
}
