/** The alternate screen is isolated: nothing written while it is active reaches the primary
    screen. */
module AltScreen {
  import opened Terminal
  import opened CsiParser
  import opened CsiRoundTrip
  import ControlSequences
  import FrontEnd
  import opened Buffers
  import opened EmulatorModel

  /** RIS, which resets both screens. */
  predicate IsReset(ev: FrontEnd.Event) {
    ev == FrontEnd.Command(Esc('c' as int, []))
  }

  predicate SamePrimary(t: Term, u: Term) {
    u.primary == t.primary && u.saved == t.saved && u.cols == t.cols && u.rows == t.rows
  }

  /** A sequence of mode changes that ends on the alternate screen never left it. */
  lemma {:induction false} ModesIsolated(t: Term, modes: seq<int>, on: bool)
    requires WfTerm(t) && t.useAlt && SetDecModes(t, modes, on).useAlt
    ensures SamePrimary(t, SetDecModes(t, modes, on))
  {
    if modes != [] {
      var m := SetDecModes(t, modes[..|modes| - 1], on);
      if m.useAlt {
        ModesIsolated(t, modes[..|modes| - 1], on);
      } else {
        NeverOn(t, modes[..|modes| - 1], on);
      }
    }
  }

  /** Leaving the alternate screen takes a reset of a mode, and one sequence only sets or only
      resets. */
  lemma {:induction false} NeverOn(t: Term, modes: seq<int>, on: bool)
    requires WfTerm(t) && t.useAlt && !SetDecModes(t, modes, on).useAlt
    ensures !on
  {
    if modes != [] && on {
      var m := SetDecModes(t, modes[..|modes| - 1], on);
      if !m.useAlt {
        NeverOn(t, modes[..|modes| - 1], on);
      }
    }
  }

  lemma ApplyIsolated(t: Term, ev: FrontEnd.Event)
    requires WfTerm(t) && FrontEnd.EventOk(ev) && t.useAlt && !IsReset(ev)
    requires Apply(t, ev).Ok? && Apply(t, ev).t.useAlt
    ensures SamePrimary(t, Apply(t, ev).t)
  {
    if ev.Command? && ev.act.Csi? && ev.act.inter == [QUESTION]
       && (ev.act.final == LETTER_H || ev.act.final == LETTER_L) {
      ModesIsolated(t, ev.act.params, ev.act.final == LETTER_H);
    }
  }

  /** The alternate screen is active before and after every byte of `w`, and no byte completes a
      RIS. */
  predicate Held(e: Emu, w: seq<byte>)
    requires WfEmu(e)
  {
    && Run(e, w).Running? && Run(e, w).e.term.useAlt
    && (w == [] ||
        var v := w[..|w| - 1];
        Held(e, v) && !IsReset(FrontEnd.Step(Run(e, v).e.front, w[|w| - 1]).ev))
  }

  /** Isolation, for every byte stream. */
  lemma {:induction false} Isolated(e: Emu, w: seq<byte>)
    requires WfEmu(e) && Held(e, w)
    ensures SamePrimary(e.term, Run(e, w).e.term)
  {
    hide Apply, FrontEnd.Step;
    if w != [] {
      Isolated(e, w[..|w| - 1]);
      var m := Run(e, w[..|w| - 1]).e;
      ApplyIsolated(m.term, FrontEnd.Step(m.front, w[|w| - 1]).ev);
    }
  }

  const H: byte := 0x68
  const L: byte := 0x6C

  /** The bytes of `CSI ? 1049 h` and `CSI ? 1049 l`. */
  function Mode1049(final: byte): seq<byte> { ControlSequences.Bytes([1049], true, final) }

  lemma Short1049()
    ensures |Render([1049])| == 4
  {
    assert Decimal(1) == [0x31];
    assert Decimal(10) == [0x31, 0x30];
    assert Decimal(104) == [0x31, 0x30, 0x34];
    assert Decimal(1049) == [0x31, 0x30, 0x34, 0x39];
  }

  lemma Write1049(e: Emu, on: bool)
    requires WfEmu(e)
    ensures var r := Run(e, Mode1049(if on then H else L));
            r.Running? && r.e.term == SetDecMode(e.term, 1049, on)
  {
    Short1049();
    var final := if on then H else L;
    ControlSequences.WriteDispatches(e, [1049], true, final);
    OneMode(e.term, on);
    hide Run, SetDecMode;
    assert Wrapped([1049]) == [1049];
    assert DispatchCsi(e.term, final, Marker(true), [1049]) == Ok(SetDecModes(e.term, [1049], on));
  }

  lemma OneMode(t: Term, on: bool)
    requires WfTerm(t)
    ensures SetDecModes(t, [1049], on) == SetDecMode(t, 1049, on)
  {
    assert [1049][..0] == [];
    assert SetDecModes(t, [], on) == t;
  }

  /** Entering with mode 1049, any output that stays on the alternate screen, and leaving with mode
      1049 gives back the primary screen, pen, scroll region and all, with its cursor clamped to the
      last column. */
  lemma EnterLeave(e: Emu, a: Emu, w: seq<byte>)
    requires WfEmu(e) && !e.term.useAlt
    requires Run(e, Mode1049(H)) == Running(a) && Held(a, w)
    ensures var r := Run(e, Mode1049(H) + w + Mode1049(L));
            && r.Running?
            && !r.e.term.useAlt
            && r.e.term.primary == e.term.primary.(cx := Min(e.term.primary.cx, e.term.cols - 1))
  {
    Write1049(e, true);
    Isolated(a, w);
    var b := Run(a, w).e;
    Write1049(b, false);
    assert Run(b, Mode1049(L)).e.term.primary == e.term.primary.(cx := Min(e.term.primary.cx, e.term.cols - 1)) by {
      hide Run;
      LeaveRestores(e.term, a.term, b.term);
    }
    hide SetDecMode, Held, Mode1049, WfEmu;
    RunAppend(e, Mode1049(H), w);
    RunAppend(e, Mode1049(H) + w, Mode1049(L));
  }

  lemma LeaveRestores(t: Term, a: Term, b: Term)
    requires WfTerm(t) && !t.useAlt && a == SetDecMode(t, 1049, true)
    requires WfTerm(b) && b.useAlt && SamePrimary(a, b)
    ensures var u := SetDecMode(b, 1049, false);
            !u.useAlt && u.primary == t.primary.(cx := Min(t.primary.cx, t.cols - 1))
  {
  }
}
