/** When the emulator can leave its invariant: exactly at two kinds of control sequence. */
module EmulatorSafety {
  import opened Terminal
  import opened CsiParser
  import FrontEnd
  import Utf8
  import opened CsiRoundTrip
  import ControlSequences
  import opened Buffers
  import opened EmulatorModel

  const MAX := TWO63 - 1

  predicate InRange(params: seq<int>) {
    forall i :: 0 <= i < |params| ==> -TWO63 <= params[i] < TWO63
  }

  /** The relative moves whose 64-bit sum or difference lands on the side that is not clamped. */
  predicate Escapes(b: Buffer, final: int, params: seq<int>) {
    var n := Param(params, 0, 1);
    if final == 'A' as int || final == 'F' as int then b.cy - MAX <= n <= b.cy - b.rows
    else if final == 'B' as int || final == 'E' as int then n < -b.cy || n > MAX - b.cy
    else if final == 'C' as int then n < -b.cx || n > MAX - b.cx
    else if final == 'D' as int then b.cx - MAX <= n < b.cx - b.cols
    else false
  }

  lemma WrapOnce(x: int)
    requires -TWO63 - MAX_DIM <= x <= TWO63 + MAX_DIM
    ensures Wrap64(x) == if x > MAX then x - TWO64 else if x < -TWO63 then x + TWO64 else x
  {
  }

  /** A cursor move leaves the grid if and only if its parameter is in the escaping range. */
  lemma MoveFaultIff(b: Buffer, final: int, params: seq<int>)
    requires Wf(b) && IsMove(final) && InRange(params)
    ensures MoveCursor(b, final, params).Broken? <==> Escapes(b, final, params)
  {
    hide Wrap64, GridOk;
    var n := Param(params, 0, 1);
    WrapOnce(b.cy - n);
    WrapOnce(b.cy + n);
    WrapOnce(b.cx - n);
    WrapOnce(b.cx + n);
  }

  /** The byte completes ED 1 or EL 1 while a wrap is pending. */
  predicate ErasesAtPendingWrap(t: Term, ev: FrontEnd.Event) {
    && ev.Command? && ev.act.Csi? && ev.act.inter == []
    && (ev.act.final == 'J' as int || ev.act.final == 'K' as int)
    && Param0(ev.act.params, 0) == 1
    && t.Cur().cx == t.cols
  }

  /** The byte completes a relative move by an escaping amount. */
  predicate MovesOut(t: Term, ev: FrontEnd.Event) {
    && ev.Command? && ev.act.Csi? && ev.act.inter == []
    && IsMove(ev.act.final)
    && Escapes(t.Cur(), ev.act.final, ev.act.params)
  }

  lemma ParamsInRange(f: FrontEnd.Front, b: byte)
    ensures var ev := FrontEnd.Step(f, b).ev;
            ev.Command? && ev.act.Csi? ==> InRange(ev.act.params)
  {
  }

  /** Both faults, each with its exact condition, for every state and every byte. */
  lemma StepFaultIff(e: Emu, b: byte)
    requires WfEmu(e)
    ensures var ev := FrontEnd.Step(e.front, b).ev;
            && (StepByte(e, b) == Stopped(EraseBeyondRow) <==> ErasesAtPendingWrap(e.term, ev))
            && (StepByte(e, b) == Stopped(CursorOutOfGrid) <==> MovesOut(e.term, ev))
  {
    hide FrontEnd.Step, Apply, WfTerm;
    ParamsInRange(e.front, b);
    ApplyFaultIff(e.term, FrontEnd.Step(e.front, b).ev);
  }

  lemma ApplyFaultIff(t: Term, ev: FrontEnd.Event)
    requires WfTerm(t) && FrontEnd.EventOk(ev) && (ev.Command? && ev.act.Csi? ==> InRange(ev.act.params))
    ensures Apply(t, ev) == Fault(EraseBeyondRow) <==> ErasesAtPendingWrap(t, ev)
    ensures Apply(t, ev) == Fault(CursorOutOfGrid) <==> MovesOut(t, ev)
  {
    hide MoveCursor, SetDecModes, GridOk, Escapes;
    if ev.Command? && ev.act.Csi? && ev.act.inter == [] && IsMove(ev.act.final) {
      MoveFaultIff(t.Cur(), ev.act.final, ev.act.params);
    }
  }

  predicate Harmless(e: Emu, b: byte) {
    var ev := FrontEnd.Step(e.front, b).ev;
    !ErasesAtPendingWrap(e.term, ev) && !MovesOut(e.term, ev)
  }

  lemma StepRunsIff(e: Emu, b: byte)
    requires WfEmu(e)
    ensures StepByte(e, b).Running? <==> Harmless(e, b)
  {
    hide FrontEnd.Step, Apply, ErasesAtPendingWrap, MovesOut, WfTerm;
    StepFaultIff(e, b);
    assert StepByte(e, b).Stopped? ==> StepByte(e, b).why == EraseBeyondRow || StepByte(e, b).why == CursorOutOfGrid;
  }

  predicate HarmlessAt(e: Emu, w: seq<byte>, k: nat)
    requires WfEmu(e) && k < |w|
  {
    Run(e, w[..k]).Running? ==> Harmless(Run(e, w[..k]).e, w[k])
  }

  /** A stream runs to its end inside the invariant if and only if every byte is harmless in the
      state the bytes before it lead to. */
  lemma {:induction false} RunsIff(e: Emu, w: seq<byte>)
    requires WfEmu(e)
    ensures Run(e, w).Running? <==> forall k :: 0 <= k < |w| ==> HarmlessAt(e, w, k)
  {
    hide StepByte, Harmless, WfEmu;
    if w != [] {
      var n := |w| - 1;
      var v := w[..n];
      RunsIff(e, v);
      forall k | 0 <= k < n ensures HarmlessAt(e, w, k) <==> HarmlessAt(e, v, k) {
        assert w[..k] == v[..k];
      }
      if Run(e, v).Running? {
        StepRunsIff(Run(e, v).e, w[n]);
      }
      assert HarmlessAt(e, w, n) <==> (Run(e, v).Running? ==> Harmless(Run(e, v).e, w[n]));
    }
  }

  // ---------- short parameters never overflow ----------

  const MAX_DIGITS := 18
  const BOUND := 1_000_000_000_000_000_000

  function Pow10(k: nat): nat { if k == 0 then 1 else 10 * Pow10(k - 1) }

  lemma {:induction false} FieldBound(f: seq<byte>)
    ensures FieldValue(f) < Pow10(|f|)
  {
    if f != [] { FieldBound(f[..|f| - 1]); }
  }

  lemma {:induction false} PowMonotone(i: nat, j: nat)
    requires i <= j
    ensures Pow10(i) <= Pow10(j)
    decreases j
  {
    if i < j { PowMonotone(i, j - 1); }
  }

  lemma Pow18()
    ensures Pow10(18) == BOUND
  {
    assert Pow10(6) == 1_000_000;
    assert Pow10(12) == 1_000_000_000_000;
  }

  /** Every field of the raw parameter string has at most 18 digits. */
  predicate ShortFields(raw: seq<byte>) {
    forall i :: 0 <= i < |Fields(raw)| ==> |Fields(raw)[i]| <= MAX_DIGITS
  }

  lemma ShortFieldsFit(raw: seq<byte>)
    requires ShortFields(raw)
    ensures forall i :: 0 <= i < |ParseParams(raw)| ==> 0 <= ParseParams(raw)[i] < BOUND
  {
    var fs := Fields(raw);
    forall i | 0 <= i < |fs| ensures 0 <= Wrap64(FieldValue(fs[i])) < BOUND {
      FieldBound(fs[i]);
      PowMonotone(|fs[i]|, MAX_DIGITS);
      Pow18();
    }
  }

  /** The two rules a byte stream has to keep: no parameter field of more than 18 digits, and no
      ED 1 or EL 1 while a wrap is pending. */
  predicate KeepsRules(e: Emu, b: byte) {
    && ShortFields(e.front.ps.param)
    && !ErasesAtPendingWrap(e.term, FrontEnd.Step(e.front, b).ev)
  }

  predicate Tame(e: Emu, w: seq<byte>)
    requires WfEmu(e)
  {
    w == [] ||
    var v := w[..|w| - 1];
    && Tame(e, v)
    && (Run(e, v).Running? ==> KeepsRules(Run(e, v).e, w[|w| - 1]))
  }

  lemma CsiParams(f: FrontEnd.Front, b: byte)
    ensures var ev := FrontEnd.Step(f, b).ev;
            ev.Command? && ev.act.Csi? ==> ev.act.params == ParseParams(f.ps.param)
  {
    hide ParseParams, Utf8.DecodeRune;
  }

  lemma RulesAreEnough(e: Emu, b: byte)
    requires WfEmu(e) && KeepsRules(e, b)
    ensures StepByte(e, b).Running?
  {
    hide FrontEnd.Step, ParseParams, Fields, StepByte;
    StepRunsIff(e, b);
    CsiParams(e.front, b);
    ShortFieldsFit(e.front.ps.param);
  }

  /** Safety for every byte stream that keeps the two rules: it runs to its end and every screen
      invariant holds there. */
  lemma {:induction false} TameRuns(e: Emu, w: seq<byte>)
    requires WfEmu(e) && Tame(e, w)
    ensures Run(e, w).Running? && WfEmu(Run(e, w).e)
  {
    if w != [] {
      TameRuns(e, w[..|w| - 1]);
      RulesAreEnough(Run(e, w[..|w| - 1]).e, w[|w| - 1]);
    }
  }

  // ---------- both faults happen ----------

  lemma {:induction false} DecimalLength(n: nat, k: nat)
    requires n < Pow10(k) && k >= 1
    ensures |Decimal(n)| <= k
    decreases k
  {
    if n >= 10 {
      assert k >= 2 by { assert Pow10(1) == 10; }
      DecimalLength(n / 10, k - 1);
    }
  }

  /** One character on a one-column screen, then EL 1: the source panics. */
  lemma EraseFaultReachable()
    ensures var e := NewEmu(1, 1);
            Run(e, [0x61] + ControlSequences.Bytes([1], false, 0x4B)) == Stopped(EraseBeyondRow)
  {
    var e := NewEmu(1, 1);
    var w := ControlSequences.Bytes([1], false, 0x4B);
    var one: seq<byte> := [0x61];
    assert one[..0] == [] && Run(e, one[..0]) == Running(e);
    assert FrontEnd.Step(e.front, 0x61) == FrontEnd.Turn(e.front, FrontEnd.Printed(0x61));
    assert Run(e, one).Running? && Run(e, one).e.term.Cur().cx == 1;
    var m := Run(e, one).e;
    DecimalLength(1, 1);
    ControlSequences.WriteDispatches(m, [1], false, 0x4B);
    assert Wrapped([1]) == [1];
    RunAppend(e, one, w);
  }

  lemma Digits19(n: nat)
    requires n < 10 * BOUND
    ensures |Decimal(n)| <= 19
  {
    Pow18();
    assert Pow10(19) == 10 * Pow10(18);
    DecimalLength(n, 19);
  }

  lemma WrappedOne(n: nat)
    ensures Wrapped([n]) == [Wrap64(n)]
  {
    hide Wrap64;
  }

  /** A cursor-up by 2^63 + 1 rows, which the 64-bit parameter holds as a negative number, leaves
      the grid of any emulator whose cursor is on the top row. */
  lemma MoveFaultReachable(e: Emu)
    requires WfEmu(e) && e.term.Cur().cy == 0
    ensures Run(e, ControlSequences.Bytes([TWO63 + 1], false, 0x41)) == Stopped(CursorOutOfGrid)
  {
    hide Run, Decimal, Pow10, ControlSequences.Bytes, WfTerm, GridOk, Wrapped, Wrap64;
    Digits19(TWO63 + 1);
    ControlSequences.WriteDispatches(e, [TWO63 + 1], false, 0x41);
    WrappedOne(TWO63 + 1);
    WrapOnce(TWO63 + 1);
    WrapOnce(MAX);
  }
}
