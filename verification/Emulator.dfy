/** The emulator as the source keeps it: one mutable object holding two screens, a reference to the
    active one, the parser and the partial UTF-8 buffer
    (internal/agent/adapter/secondary/vt/emulator.go). Every method refines a function of
    `EmulatorModel`. */
module Emulator {
  import opened Basics
  import opened Terminal
  import CsiParser
  import Utf8
  import opened FrontEnd
  import Buffers
  import ScreenBuffer
  import ParserMachine
  import M = EmulatorModel

  class Emulator {
    var cols: int
    var rows: int
    const primary: ScreenBuffer.ScreenBuffer
    const alt: ScreenBuffer.ScreenBuffer
    var useAlt: bool
    var cur: ScreenBuffer.ScreenBuffer
    const ps: ParserMachine.ParserMachine
    var cursorVisible: bool
    var savedCursor: M.CursorState
    var savedCursorAlt: M.CursorState
    var rev: nat
    var dirty: bool
    var promptState: M.PromptState
    const utf8Buf: array<byte>
    var utf8Len: nat

    ghost function TermView(): M.Term
      reads this, primary, alt, primary.cells, alt.cells
    {
      M.Term(cols, rows, primary.View(), alt.View(), useAlt, cursorVisible, savedCursor, savedCursorAlt,
             rev, dirty, promptState)
    }

    ghost predicate Disjoint()
      reads this, primary, alt
    {
      forall y, z :: 0 <= y < |primary.cells| && 0 <= z < |alt.cells| ==> primary.cells[y] != alt.cells[z]
    }

    /** The reference matches the flag, and the two screens share no row. */
    ghost predicate TermValid()
      reads this, primary, alt, primary.cells, alt.cells
    {
      && primary != alt
      && cur == (if useAlt then alt else primary)
      && primary.Valid() && alt.Valid()
      && Disjoint()
      && M.WfTerm(TermView())
    }

    /** What the hidden parts of the invariant say. */
    lemma TermFacts()
      requires TermValid()
      ensures M.WfTerm(TermView()) && (cur == primary || cur == alt)
      ensures primary.cols == alt.cols == cols && primary.rows == alt.rows == rows
      ensures 0 <= cur.cx <= cols && TermView().Cur().cx == cur.cx
      ensures Buffers.Wf(TermView().primary) && Buffers.Wf(TermView().alt)
    {
    }

    lemma EmuFacts()
      requires Valid()
      ensures M.WfEmu(View()) && M.WfTerm(TermView()) && (cur == primary || cur == alt)
    {
    }

    ghost predicate FrontShape()
      reads this, ps
    {
      && ps.Shape()
      && utf8Buf.Length == 4 && utf8Len <= 4
      && utf8Buf != ps.inter && utf8Buf != ps.paramBuf && utf8Buf != ps.oscBuf
    }

    ghost function FrontView(): Front
      requires FrontShape()
      reads this, ps, ps.inter, ps.paramBuf, ps.oscBuf, utf8Buf
    {
      Front(ps.View(), utf8Buf[..utf8Len])
    }

    ghost predicate FrontValid()
      reads this, ps, ps.inter, ps.paramBuf, ps.oscBuf, utf8Buf
    {
      FrontShape() && WfFront(FrontView())
    }

    ghost predicate Valid()
      reads this, primary, alt, primary.cells, alt.cells, ps, ps.inter, ps.paramBuf, ps.oscBuf, utf8Buf
    {
      TermValid() && FrontValid()
    }

    ghost function View(): M.Emu
      requires FrontShape()
      reads this, primary, alt, primary.cells, alt.cells, ps, ps.inter, ps.paramBuf, ps.oscBuf, utf8Buf
    {
      M.Emu(FrontView(), TermView())
    }

    lemma Assembled(c: int, r: int)
      requires c <= Buffers.MAX_DIM && r <= Buffers.MAX_DIM
      requires primary != alt && cur == primary && !useAlt && primary.Valid() && alt.Valid() && Disjoint()
      requires TermView() == M.NewTerm(c, r)
      requires ps.Valid() && ps.View() == CsiParser.START && utf8Len == 0 && FrontShape()
      ensures Valid() && View() == M.NewEmu(c, r)
    {
      hide ScreenBuffer.ScreenBuffer.Valid, ScreenBuffer.ScreenBuffer.View, M.WfTerm;
      assert FrontView() == Front(CsiParser.START, []);
    }

    constructor (cols: int, rows: int)
      requires cols <= Buffers.MAX_DIM && rows <= Buffers.MAX_DIM
      ensures Valid() && View() == M.NewEmu(cols, rows)
    {
      hide TermValid, FrontValid, ScreenBuffer.ScreenBuffer.Valid, ScreenBuffer.ScreenBuffer.View, Buffers.New,
        M.WfTerm, CsiParser.WfParser;
      var c := if cols < 1 then 1 else cols;
      var r := if rows < 1 then 1 else rows;
      this.cols, this.rows := c, r;
      utf8Buf, utf8Len := new byte[4](_ => 0), 0;
      var machine := new ParserMachine.ParserMachine();
      ps := machine;
      var p := new ScreenBuffer.ScreenBuffer(c, r);
      var a := new ScreenBuffer.ScreenBuffer(c, r);
      primary, alt, cur, useAlt := p, a, p, false;
      cursorVisible := true;
      savedCursor, savedCursorAlt := M.ORIGIN, M.ORIGIN;
      rev, dirty, promptState := 0, false, M.PromptUnknown;
      new;
      Assembled(cols, rows);
    }

    // ---------- operations on the active screen ----------

    /** Each screen's rows are rows it had before, or new ones. */
    twostate predicate RowsKept()
      reads primary, alt
    {
      && (forall y :: 0 <= y < |primary.cells| ==> primary.cells[y] in old(primary.cells) || fresh(primary.cells[y]))
      && (forall y :: 0 <= y < |alt.cells| ==> alt.cells[y] in old(alt.cells) || fresh(alt.cells[y]))
    }

    /** The screen that is not active. */
    ghost function Other(): ScreenBuffer.ScreenBuffer
      reads this
    {
      if useAlt then primary else alt
    }

    /** An operation of the active screen, followed by setting the dirty mark, is that operation on
        the emulator: the other screen shares no row with it and stays as it was. */
    twostate lemma CurChanged()
      requires old(TermValid()) && cur.Valid() && Buffers.Keeps(old(cur.View()), cur.View())
      requires cols == old(cols) && rows == old(rows) && useAlt == old(useAlt) && cur == old(cur)
      requires cursorVisible == old(cursorVisible) && savedCursor == old(savedCursor)
      requires savedCursorAlt == old(savedCursorAlt) && rev == old(rev) && promptState == old(promptState)
      requires Other().View() == old(Other().View()) && Other().Valid() && Other().cells == old(Other().cells)
      requires forall y :: 0 <= y < |cur.cells| ==> cur.cells[y] in old(cur.cells) || fresh(cur.cells[y])
      ensures TermValid()
      ensures TermView() == old(TermView()).WithCur(cur.View()).(dirty := dirty)
      ensures RowsKept()
    {
      hide Buffers.Wf, ScreenBuffer.ScreenBuffer.Valid, ScreenBuffer.ScreenBuffer.View;
    }

    method PrintRune(r: int)
      requires TermValid() && IsScalar(r)
      modifies this`dirty, cur, cur.cells
      ensures TermValid()
      ensures TermView() == M.Touch(old(TermView()), Buffers.PrintRune(old(TermView()).Cur(), r))
      ensures RowsKept()
    {
      hide Buffers.Wf, Buffers.PrintRune, ScreenBuffer.ScreenBuffer.Valid, ScreenBuffer.ScreenBuffer.View;
      cur.Print(r);
      dirty := true;
      CurChanged();
    }

    method SetColumn(x: int)
      requires TermValid() && 0 <= x <= cols
      modifies this`dirty, cur, cur.cells
      ensures TermValid() && RowsKept()
      ensures TermView() == M.Touch(old(TermView()), old(TermView()).Cur().(cx := x))
    {
      hide Buffers.Wf, ScreenBuffer.ScreenBuffer.Valid, ScreenBuffer.ScreenBuffer.View;
      TermFacts();
      cur.SetColumn(x);
      dirty := true;
      CurChanged();
    }

    method LineFeed()
      requires TermValid()
      modifies this`dirty, cur, cur.cells
      ensures TermValid() && RowsKept()
      ensures TermView() == M.Touch(old(TermView()), Buffers.LineFeed(old(TermView()).Cur()))
    {
      hide Buffers.Wf, Buffers.LineFeed, Buffers.Tab, ScreenBuffer.ScreenBuffer.Valid, ScreenBuffer.ScreenBuffer.View;
      cur.LineFeed();
      dirty := true;
      CurChanged();
    }

    method Tab()
      requires TermValid()
      modifies this`dirty, cur, cur.cells
      ensures TermValid() && RowsKept()
      ensures TermView() == M.Touch(old(TermView()), Buffers.Tab(old(TermView()).Cur()))
    {
      hide Buffers.Wf, Buffers.LineFeed, Buffers.Tab, ScreenBuffer.ScreenBuffer.Valid, ScreenBuffer.ScreenBuffer.View;
      cur.Tab();
      dirty := true;
      CurChanged();
    }

    method ReverseIndex()
      requires TermValid()
      modifies this`dirty, cur, cur.cells
      ensures TermValid() && RowsKept()
      ensures TermView() == M.Touch(old(TermView()), Buffers.ReverseIndex(old(TermView()).Cur()))
    {
      hide Buffers.Wf, Buffers.ReverseIndex, ScreenBuffer.ScreenBuffer.Valid, ScreenBuffer.ScreenBuffer.View;
      cur.ReverseIndex();
      dirty := true;
      CurChanged();
    }

    method ExecuteC0(b: byte)
      requires TermValid()
      modifies this`dirty, cur, cur.cells
      ensures TermValid()
      ensures TermView() == M.ExecuteC0(old(TermView()), b) && RowsKept()
    {
      hide Buffers.Wf, ScreenBuffer.ScreenBuffer.Valid, ScreenBuffer.ScreenBuffer.View, M.WfTerm, M.Touch, TermValid;
      TermFacts();
      if b == 0x0D {
        SetColumn(0);
      } else if 0x0A <= b <= 0x0C {
        LineFeed();
      } else if b == 0x09 {
        Tab();
      } else if b == 0x08 {
        if cur.cx > 0 {
          SetColumn(cur.cx - 1);
        }
      }
    }

    // ---------- cursor save and restore ----------

    method SaveCursor()
      requires TermValid()
      modifies this`savedCursor, this`savedCursorAlt
      ensures TermValid()
      ensures TermView() == M.SaveCursor(old(TermView()))
    {
      hide Buffers.GridOk;
      var cs := M.CursorState(cur.cx, cur.cy, cur.pen);
      if useAlt { savedCursorAlt := cs; } else { savedCursor := cs; }
    }

    method RestoreCursor()
      requires TermValid()
      modifies this`dirty, cur
      ensures TermValid()
      ensures TermView() == M.RestoreCursor(old(TermView())) && RowsKept()
    {
      hide Buffers.Wf, ScreenBuffer.ScreenBuffer.Valid, ScreenBuffer.ScreenBuffer.View, Buffers.Clamp;
      var cs := if useAlt then savedCursorAlt else savedCursor;
      cur.RestoreTo(cs.x, cs.y, cs.pen);
      dirty := true;
      CurChanged();
    }

    // ---------- dispatch ----------

    method HardReset()
      requires TermValid()
      modifies this`cursorVisible, this`promptState, this`dirty, primary, alt
      ensures TermValid()
      ensures TermView() == M.HardReset(old(TermView())) && RowsKept()
    {
      hide Buffers.Wf, ScreenBuffer.ScreenBuffer.Valid, ScreenBuffer.ScreenBuffer.View, Buffers.New, M.WfTerm;
      TermFacts();
      primary.Reset();
      alt.Reset();
      cursorVisible, promptState, dirty := true, M.PromptUnknown, true;
      assert TermView() == M.HardReset(old(TermView()));
    }

    method SwitchAltScreen(on: bool)
      requires TermValid()
      modifies this`useAlt, this`cur, this`dirty
      ensures TermValid()
      ensures TermView() == M.SwitchAlt(old(TermView()), on)
    {
      hide Buffers.Wf, ScreenBuffer.ScreenBuffer.Valid;
      if useAlt == on { return; }
      useAlt := on;
      cur := if on then alt else primary;
      dirty := true;
    }

    method EraseDisplay2()
      requires TermValid()
      modifies this`dirty, cur, cur.cells
      ensures TermValid()
      ensures TermView() == M.Touch(old(TermView()), Buffers.EraseInDisplay(old(TermView()).Cur(), 2))
      ensures RowsKept()
    {
      hide Buffers.Wf, Buffers.EraseInDisplay, ScreenBuffer.ScreenBuffer.Valid;
      var panicked := cur.EraseInDisplay(2);
      dirty := true;
      CurChanged();
    }

    method SetDecMode(mode: int, on: bool)
      requires TermValid()
      modifies this`useAlt, this`cur, this`cursorVisible, this`savedCursor, this`savedCursorAlt, this`dirty
      modifies primary, alt, primary.cells, alt.cells
      ensures TermValid()
      ensures TermView() == M.SetDecMode(old(TermView()), mode, on) && RowsKept()
    {
      hide Buffers.Wf, Buffers.EraseInDisplay, ScreenBuffer.ScreenBuffer.Valid, ScreenBuffer.ScreenBuffer.View,
        M.RestoreCursor, M.SaveCursor, M.SwitchAlt, M.WfTerm;
      if mode == 25 {
        cursorVisible := on;
        dirty := true;
        assert M.WfTerm(M.SetDecMode(old(TermView()), 25, on));
      } else if mode == 47 || mode == 1047 {
        SwitchAltScreen(on);
      } else if mode == 1049 {
        if on {
          SaveCursor();
          SwitchAltScreen(true);
          EraseDisplay2();
        } else {
          SwitchAltScreen(false);
          RestoreCursor();
        }
      }
    }

    method SetDecModes(modes: seq<int>, on: bool)
      requires TermValid()
      modifies this`useAlt, this`cur, this`cursorVisible, this`savedCursor, this`savedCursorAlt, this`dirty
      modifies primary, alt, primary.cells, alt.cells
      ensures TermValid()
      ensures TermView() == M.SetDecModes(old(TermView()), modes, on) && RowsKept()
    {
      hide TermValid, TermView, M.SetDecMode, M.SetDecModes, M.WfTerm;
      TermFacts();
      ghost var t := TermView();
      M.NoModes(t, modes, on);
      for i := 0 to |modes|
        invariant TermValid() && RowsKept() && TermView() == M.SetDecModes(t, modes[..i], on)
      {
        SetDecMode(modes[i], on);
        M.OneMoreMode(t, modes, i, on);
      }
      assert modes[..|modes|] == modes;
    }

    method DispatchCsi(final: byte, inter: seq<byte>, params: seq<int>) returns (fault: Option<Buffers.FaultKind>)
      requires TermValid()
      modifies this`useAlt, this`cur, this`cursorVisible, this`savedCursor, this`savedCursorAlt, this`dirty
      modifies this`promptState, primary, alt, primary.cells, alt.cells
      ensures match M.DispatchCsi(old(TermView()), final, inter, params)
              case Fault(why) => fault == Some(why)
              case Ok(t) => fault == None && TermValid() && TermView() == t && RowsKept()
    {
      hide M.WfTerm, M.SaveCursor, M.RestoreCursor, M.SetDecModes, Buffers.Control, TermValid;
      TermFacts();
      fault := None;
      if |inter| == 0 {
        if final == 's' as int {
          SaveCursor();
        } else if final == 'u' as int {
          RestoreCursor();
        } else {
          fault := DispatchControl(final, params);
        }
      } else if |inter| == 1 && inter[0] == CsiParser.QUESTION {
        assert inter == [CsiParser.QUESTION];
        if final == M.LETTER_H {
          SetDecModes(params, true);
        } else if final == M.LETTER_L {
          SetDecModes(params, false);
        }
      }
    }

    method DispatchControl(final: byte, params: seq<int>) returns (fault: Option<Buffers.FaultKind>)
      requires TermValid()
      modifies this`dirty, cur, cur.cells
      ensures match Buffers.Control(old(TermView()).Cur(), final, params)
              case Broken(why) => fault == Some(why)
              case Effect(b, touched) =>
                && fault == None && TermValid() && RowsKept()
                && TermView() == old(TermView()).WithCur(b).(dirty := old(dirty) || touched)
    {
      hide Buffers.Wf, Buffers.Control, ScreenBuffer.ScreenBuffer.Valid, ScreenBuffer.ScreenBuffer.View;
      var touched;
      touched, fault := cur.Control(final, params);
      if fault == None {
        dirty := dirty || touched;
        CurChanged();
      }
    }

    method DispatchEsc(final: byte, inter: seq<byte>)
      requires TermValid()
      modifies this`useAlt, this`cur, this`cursorVisible, this`savedCursor, this`savedCursorAlt, this`dirty
      modifies this`promptState, primary, alt, primary.cells, alt.cells
      ensures TermValid() && RowsKept()
      ensures TermView() == M.DispatchEsc(old(TermView()), final, inter)
    {
      hide M.WfTerm, M.SaveCursor, M.RestoreCursor, M.HardReset, M.Touch, TermValid, Buffers.ReverseIndex;
      TermFacts();
      if |inter| == 0 {
        if final == '7' as int {
          SaveCursor();
        } else if final == '8' as int {
          RestoreCursor();
        } else if final == 'M' as int {
          ReverseIndex();
        } else if final == 'c' as int {
          HardReset();
        }
      }
    }

    method HandleOsc(payload: seq<byte>)
      requires TermValid()
      modifies this`promptState
      ensures TermValid()
      ensures TermView() == M.HandleOsc(old(TermView()), payload)
    {
      hide Buffers.Wf, ScreenBuffer.ScreenBuffer.Valid, ScreenBuffer.ScreenBuffer.View;
      if !(M.OSC_133 <= payload) { return; }
      var cmd := payload[4..];
      if |cmd| == 0 { return; }
      if cmd[0] == 0x41 || cmd[0] == 0x42 || cmd[0] == 0x44 {
        promptState := M.PromptAtPrompt;
      } else if cmd[0] == 0x43 {
        promptState := M.PromptRunning;
      }
    }

    /** The parser's action, executed. */
    method Dispatch(ev: Event) returns (fault: Option<Buffers.FaultKind>)
      requires TermValid() && EventOk(ev)
      modifies this`useAlt, this`cur, this`cursorVisible, this`savedCursor, this`savedCursorAlt, this`dirty
      modifies this`promptState, primary, alt, primary.cells, alt.cells
      ensures match M.Apply(old(TermView()), ev)
              case Fault(why) => fault == Some(why)
              case Ok(t) => fault == None && TermValid() && TermView() == t && RowsKept()
    {
      hide M.WfTerm, M.DispatchCsi, M.DispatchEsc, M.HandleOsc, M.ExecuteC0, TermValid, Buffers.PrintRune, M.Touch;
      TermFacts();
      fault := None;
      match ev {
        case Printed(r) => PrintRune(r);
        case Command(Execute(ch)) => ExecuteC0(ch);
        case Command(Csi(final, inter, params)) => fault := DispatchCsi(final, inter, params);
        case Command(Esc(final, inter)) => DispatchEsc(final, inter);
        case Command(Osc(payload)) => HandleOsc(payload);
        case _ =>
      }
    }

    // ---------- the byte loops ----------

    /** The object is consistent and its state is `n`. */
    twostate predicate Became(n: M.Emu)
      reads this, primary, alt, primary.cells, alt.cells, ps, ps.inter, ps.paramBuf, ps.oscBuf, utf8Buf
    {
      Valid() && View() == n && RowsKept()
    }

    /** An ASCII byte: the partial UTF-8 sequence is dropped and the parser takes the byte. */
    method FeedAscii(b: byte, ghost e: M.Emu) returns (fault: Option<Buffers.FaultKind>)
      requires Valid() && e == View() && M.WfEmu(e) && b < 0x80
      modifies this, primary, alt, primary.cells, alt.cells, ps, ps.inter, ps.paramBuf, ps.oscBuf, utf8Buf
      ensures match M.StepByte(e, b)
              case Stopped(why) => fault == Some(why)
              case Running(n) => fault == None && Became(n)
    {
      hide TermValid, WfFront, TermView, M.Apply, M.WfTerm, Step;
      EmuFacts();
      var a := ParseByte(b);
      fault := Dispatch(ToEvent(a));
      if fault == None { FrontFacts(M.StepByte(e, b).e); }
    }

    /** The parser takes the byte; the screens are not touched yet. */
    method ParseByte(b: byte) returns (a: CsiParser.Action)
      requires Valid() && b < 0x80
      modifies this`utf8Len, ps, ps.inter, ps.paramBuf, ps.oscBuf
      ensures TermValid() && TermView() == old(TermView()) && FrontShape()
      ensures primary.cells == old(primary.cells) && alt.cells == old(alt.cells)
      ensures FrontView() == Step(old(FrontView()), b).f && ToEvent(a) == Step(old(FrontView()), b).ev
    {
      hide CsiParser.Feed, CsiParser.WfParser, ScreenBuffer.ScreenBuffer.Valid, ScreenBuffer.ScreenBuffer.View,
        M.WfTerm;
      if utf8Len > 0 { utf8Len := 0; }
      a := ps.FeedByte(b);
    }

    /** A high byte joins the partial sequence, which is then printed, dropped, or kept for more. */
    method FeedHigh(b: byte, ghost e: M.Emu) returns (done: bool)
      requires Valid() && e == View() && M.WfEmu(e) && b >= 0x80
      modifies this, primary, alt, primary.cells, alt.cells, ps, ps.inter, ps.paramBuf, ps.oscBuf, utf8Buf
      ensures M.StepByte(e, b).Running? && Became(M.StepByte(e, b).e)
      ensures done <==> utf8Len == 0
    {
      hide TermValid, WfFront, TermView, FrontView, M.StepByte, M.Digested, M.WfEmu;
      EmuFacts();
      M.StepHigh(e, b);
      Accumulate(b);
      done := Digest(e, e.front.pending + [b]);
      FrontFacts(M.StepByte(e, b).e);
    }

    lemma FrontFacts(n: M.Emu)
      requires TermValid() && FrontShape() && View() == n && M.WfEmu(n)
      ensures Valid()
    {
      hide TermValid, WfFront;
    }

    /** The bytes accumulated are printed, dropped, or kept for more. */
    method Digest(ghost e: M.Emu, ghost buf: seq<byte>) returns (done: bool)
      requires TermValid() && FrontShape() && M.WfEmu(e) && TermView() == e.term && buf != []
      requires FrontView() == e.front.(pending := buf)
      modifies this`utf8Len, this`dirty, cur, cur.cells
      ensures TermValid() && FrontShape() && RowsKept() && View() == M.Digested(e, buf)
      ensures done <==> utf8Len == 0
    {
      hide TermValid, CsiParser.WfParser, M.WfTerm, M.Touch, Utf8.DecodeRune, Buffers.PrintRune;
      var d := Utf8.DecodeRune(utf8Buf[..utf8Len]);
      if d.rune == Utf8.RUNE_ERROR && d.size == 1 {
        done := utf8Len >= Utf8.RuneLen(utf8Buf[0]);
        if done { Drop(); }
      } else {
        PrintPending(d.rune);
        done := true;
      }
    }

    /** The decoded rune is printed and the buffer emptied. */
    method PrintPending(r: int)
      requires TermValid() && FrontShape() && IsScalar(r)
      modifies this`utf8Len, this`dirty, cur, cur.cells
      ensures TermValid() && RowsKept()
      ensures TermView() == M.Touch(old(TermView()), Buffers.PrintRune(old(TermView()).Cur(), r))
      ensures FrontShape() && FrontView() == old(FrontView()).(pending := [])
    {
      hide TermValid, M.WfTerm, M.Touch, Buffers.PrintRune, ScreenBuffer.ScreenBuffer.View;
      TermFacts();
      PrintRune(r);
      Drop();
    }

    /** The byte is appended: the buffer always has room for it. */
    method Accumulate(b: byte)
      requires Valid() && b >= 0x80
      modifies this`utf8Len, utf8Buf
      ensures TermValid() && TermView() == old(TermView())
      ensures FrontShape() && FrontView() == old(FrontView()).(pending := old(FrontView()).pending + [b])
      ensures primary.cells == old(primary.cells) && alt.cells == old(alt.cells)
    {
      hide CsiParser.WfParser, ScreenBuffer.ScreenBuffer.Valid, ScreenBuffer.ScreenBuffer.View, M.WfTerm;
      if utf8Len < utf8Buf.Length {
        utf8Buf[utf8Len] := b;
        utf8Len := utf8Len + 1;
      }
    }

    method Drop()
      requires TermValid() && FrontShape()
      modifies this`utf8Len
      ensures TermValid() && TermView() == old(TermView())
      ensures FrontShape() && FrontView() == old(FrontView()).(pending := [])
      ensures old(FrontValid()) ==> FrontValid()
      ensures primary.cells == old(primary.cells) && alt.cells == old(alt.cells)
    {
      hide CsiParser.WfParser, ScreenBuffer.ScreenBuffer.Valid, ScreenBuffer.ScreenBuffer.View, M.WfTerm;
      utf8Len := 0;
    }

    /** The inner loop: high bytes up to the end of one sequence, or up to an ASCII byte, which ends a
        partial sequence by dropping it. */
    method FeedUtf8(p: seq<byte>, ghost e: M.Emu) returns (k: nat, ghost n: M.Emu)
      requires Valid() && e == View() && M.WfEmu(e) && |p| > 0 && p[0] >= 0x80
      modifies this, primary, alt, primary.cells, alt.cells, ps, ps.inter, ps.paramBuf, ps.oscBuf, utf8Buf
      ensures Valid() && RowsKept()
      ensures 1 <= k <= |p| && M.Run(e, p[..k]) == M.Running(n)
      ensures View() == n || (k < |p| && p[k] < 0x80 && View() == M.Flushed(n))
    {
      hide Valid, FrontShape, TermView, FrontView, M.WfEmu, M.Run, M.Flushed;
      k, n := 0, e;
      M.RunNothing(e, p);
      HasShape();
      while k < |p|
        invariant 0 <= k <= |p| && (k == 0 ==> p[0] >= 0x80)
        invariant Valid() && FrontShape() && RowsKept() && M.WfEmu(n) && View() == n
        invariant M.Run(e, p[..k]) == M.Running(n)
      {
        if p[k] < 0x80 {
          Flush(n);
          return;
        }
        var done := FeedNext(p, k, e, n);
        k, n := k + 1, View();
        if done { return; }
      }
    }

    lemma HasShape()
      requires Valid()
      ensures FrontShape()
    {
    }

    /** The partial sequence is dropped. */
    method Flush(ghost n: M.Emu)
      requires Valid() && View() == n
      modifies this`utf8Len
      ensures FrontShape() && Valid() && View() == M.Flushed(n)
      ensures primary.cells == old(primary.cells) && alt.cells == old(alt.cells)
    {
      hide TermValid, WfFront;
      Drop();
    }

    /** One high byte of a chunk. */
    method FeedNext(p: seq<byte>, k: nat, ghost e: M.Emu, ghost n: M.Emu) returns (done: bool)
      requires Valid() && n == View() && M.WfEmu(n) && M.WfEmu(e) && k < |p| && p[k] >= 0x80
      requires M.Run(e, p[..k]) == M.Running(n)
      modifies this, primary, alt, primary.cells, alt.cells, ps, ps.inter, ps.paramBuf, ps.oscBuf, utf8Buf
      ensures FrontShape() && Valid() && RowsKept() && M.WfEmu(View()) && M.Run(e, p[..k + 1]) == M.Running(View())
    {
      hide TermValid, WfFront, M.StepByte, M.WfEmu, M.WfTerm, M.Run;
      M.RunSnoc(e, p, k, n);
      done := FeedHigh(p[k], n);
      EmuFacts();
    }

    /** The first `i` bytes of `p` lead from `e0` to `e`. */
    static ghost predicate Reached(e0: M.Emu, p: seq<byte>, i: nat, e: M.Emu) {
      i <= |p| && M.WfEmu(e0) && M.WfEmu(e) && M.Run(e0, p[..i]) == M.Running(e)
    }

    /** The object holds `e`, except that a partial sequence may be dropped already when the next
        byte is ASCII. */
    ghost predicate Holds(p: seq<byte>, i: nat, e: M.Emu)
      reads this, primary, alt, primary.cells, alt.cells, ps, ps.inter, ps.paramBuf, ps.oscBuf, utf8Buf
    {
      Valid() && (View() == e || (i < |p| && p[i] < 0x80 && View() == M.Flushed(e)))
    }

    /** One turn of the outer loop. */
    method Turn(p: seq<byte>, i: nat, ghost e0: M.Emu, ghost e: M.Emu)
      returns (j: nat, fault: Option<Buffers.FaultKind>, ghost n: M.Emu)
      requires i < |p| && Reached(e0, p, i, e) && Holds(p, i, e)
      modifies this, primary, alt, primary.cells, alt.cells, ps, ps.inter, ps.paramBuf, ps.oscBuf, utf8Buf
      ensures i < j <= |p|
      ensures fault == None ==> Reached(e0, p, j, n) && Holds(p, j, n) && RowsKept()
      ensures fault.Some? ==> M.WfEmu(e0) && M.Run(e0, p) == M.Stopped(fault.value)
    {
      hide TermValid, WfFront, M.StepByte, M.WfEmu, M.WfTerm, M.Run;
      fault, n := None, e;
      if p[i] < 0x80 {
        M.RunSnoc(e0, p, i, e);
        M.StepFlushed(e, p[i]);
        fault := FeedAscii(p[i], View());
        j := i + 1;
        if fault == None {
          n := M.Run(e0, p[..j]).e;
        } else {
          M.StoppedForGood(e0, p, j);
        }
      } else {
        var k;
        k, n := FeedUtf8(p[i..], e);
        M.RunPiece(e0, p, i, k, e, n);
        j := i + k;
      }
    }

    method WriteFrom(p: seq<byte>, ghost e0: M.Emu) returns (fault: Option<Buffers.FaultKind>)
      requires Valid() && e0 == View() && M.WfEmu(e0)
      modifies this, primary, alt, primary.cells, alt.cells, ps, ps.inter, ps.paramBuf, ps.oscBuf, utf8Buf
      ensures match M.Run(e0, p)
              case Stopped(why) => fault == Some(why)
              case Running(n) => fault == None && Became(n)
    {
      hide Valid, FrontShape, TermView, FrontView, Holds, Reached, M.WfEmu, M.Run;
      fault := None;
      var i := 0;
      ghost var e := e0;
      Begun(p, e0);
      while i < |p|
        invariant 0 <= i <= |p| && Reached(e0, p, i, e) && Holds(p, i, e) && RowsKept() && fault == None
      {
        i, fault, e := Turn(p, i, e0, e);
        if fault != None { return; }
      }
      Ended(p, e0, e);
    }

    lemma Begun(p: seq<byte>, e0: M.Emu)
      requires Valid() && e0 == View() && M.WfEmu(e0)
      ensures Reached(e0, p, 0, e0) && Holds(p, 0, e0)
    {
      hide TermValid, WfFront, M.WfEmu, M.Run;
      M.RunNothing(e0, p);
    }

    lemma Ended(p: seq<byte>, e0: M.Emu, e: M.Emu)
      requires Reached(e0, p, |p|, e) && Holds(p, |p|, e)
      ensures FrontShape() && Valid() && View() == e && M.WfEmu(e0) && M.Run(e0, p) == M.Running(e)
    {
      hide TermValid, WfFront, M.WfEmu, M.Run;
      assert p[..|p|] == p;
    }

    /** Write: the nested loops over a chunk are the fold of the byte step over it. */
    method Write(p: seq<byte>) returns (fault: Option<Buffers.FaultKind>)
      requires Valid()
      modifies this, primary, alt, primary.cells, alt.cells, ps, ps.inter, ps.paramBuf, ps.oscBuf, utf8Buf
      ensures match M.Run(old(View()), p)
              case Stopped(why) => fault == Some(why)
              case Running(n) => fault == None && Became(n)
    {
      hide TermValid, WfFront, M.WfEmu, M.WfTerm, M.Run;
      ghost var e := View();
      EmuFacts();
      fault := WriteFrom(p, e);
    }

    // ---------- resize, revision, render ----------

    method Resize(cols: int, rows: int)
      requires Valid() && cols <= Buffers.MAX_DIM && rows <= Buffers.MAX_DIM
      modifies this`cols, this`rows, this`dirty, primary, alt
      ensures Valid()
      ensures View() == old(View()).(term := M.Resize(old(View()).term, cols, rows))
    {
      hide TermValid, WfFront, M.Resize, M.WfTerm;
      ResizeScreens(cols, rows);
    }

    method ResizeBoth(c: int, r: int)
      requires primary != alt && primary.Valid() && alt.Valid() && Disjoint()
      requires 1 <= c <= Buffers.MAX_DIM && 1 <= r <= Buffers.MAX_DIM
      modifies primary, alt
      ensures primary.Valid() && alt.Valid() && Disjoint()
      ensures primary.View() == Buffers.ResizeBuffer(old(primary.View()), c, r)
      ensures alt.View() == Buffers.ResizeBuffer(old(alt.View()), c, r)
    {
      hide ScreenBuffer.ScreenBuffer.Valid, ScreenBuffer.ScreenBuffer.View, Buffers.ResizeBuffer;
      primary.Resize(c, r);
      assert alt.View() == old(alt.View()) && alt.Valid();
      alt.Resize(c, r);
    }

    method ResizeScreens(cols: int, rows: int)
      requires TermValid() && cols <= Buffers.MAX_DIM && rows <= Buffers.MAX_DIM
      modifies this`cols, this`rows, this`dirty, primary, alt
      ensures TermView() == M.Resize(old(TermView()), cols, rows) && TermValid()
    {
      hide ScreenBuffer.ScreenBuffer.Valid, ScreenBuffer.ScreenBuffer.View, M.WfTerm, Buffers.ResizeBuffer;
      TermFacts();
      var c := if cols < 1 then 1 else cols;
      var r := if rows < 1 then 1 else rows;
      if c != this.cols || r != this.rows {
        ghost var t := TermView();
        ghost var n := M.Resize(t, cols, rows);
        assert n == t.(cols := c, rows := r, primary := n.primary, alt := n.alt, dirty := true);
        assert n.primary == Buffers.ResizeBuffer(t.primary, c, r) && n.alt == Buffers.ResizeBuffer(t.alt, c, r);
        assert M.WfTerm(n);
        this.cols, this.rows, dirty := c, r, true;
        ResizeBoth(c, r);
        assert TermView() == n;
      }
    }

    method Rev() returns (r: nat)
      requires TermValid()
      ensures r == M.Rev(TermView()) && r == if dirty then rev + 1 else rev
    {
      r := if dirty then rev + 1 else rev;
    }

    /** The visible screen, copied row by row, with the revision it has. */
    method Render() returns (snap: Screen, r: nat)
      requires TermValid()
      modifies this`rev, this`dirty
      ensures TermValid() && TermView() == M.Rendered(old(TermView()))
      ensures snap == TermView().Visible() && r == TermView().rev
      ensures !dirty && rev == if old(dirty) then old(rev) + 1 else old(rev)
      ensures snap.cols == cols && snap.rows == rows && snap.cursor == Cursor(cur.cx, cur.cy, cursorVisible)
    {
      if dirty {
        rev := rev + 1;
        dirty := false;
      }
      var copied: seq<seq<Cell>> := [];
      for y := 0 to rows
        invariant |copied| == y && forall z :: 0 <= z < y ==> copied[z] == cur.View().cells[z]
      {
        copied := copied + [cur.cells[y][..]];
      }
      hide Buffers.Wf;
      assert copied == cur.View().cells;
      snap := Screen(cols, rows, Cursor(cur.cx, cur.cy, cursorVisible), copied);
      r := rev;
    }
  }
}
