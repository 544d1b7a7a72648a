/** Printed control sequences, seen from the whole emulator: the bytes of one sequence have exactly
    the effect of dispatching it. */
module ControlSequences {
  import opened Terminal
  import opened CsiParser
  import opened CsiRoundTrip
  import FrontEnd
  import opened EmulatorModel

  /** Plain: ASCII, and no C0 byte but ESC, CAN and SUB. */
  predicate Plain(w: seq<byte>) {
    forall i :: 0 <= i < |w| ==> w[i] < 0x80 && !Embeddable(w[i])
  }

  function ToEvents(acts: seq<Action>): (r: seq<FrontEnd.Event>)
    ensures |r| == |acts| && forall i :: 0 <= i < |acts| ==> r[i] == FrontEnd.ToEvent(acts[i])
  {
    seq(|acts|, i requires 0 <= i < |acts| => FrontEnd.ToEvent(acts[i]))
  }

  lemma {:induction false} PlainEvents(f: FrontEnd.Front, w: seq<byte>)
    requires Plain(w)
    ensures FrontEnd.After(f, w) == if w == [] then f else FrontEnd.Front(After(f.ps, w), [])
    ensures FrontEnd.Events(f, w) == ToEvents(Sequences(f.ps, w))
  {
    hide FrontEnd.Step, Feed;
    if w != [] {
      var v, b := w[..|w| - 1], w[|w| - 1];
      PlainEvents(f, v);
      PlainStep(f, v, b);
      assert v + [b] == w;
    }
  }

  lemma PlainStep(f: FrontEnd.Front, v: seq<byte>, b: byte)
    requires b < 0x80 && !Embeddable(b)
    requires FrontEnd.After(f, v).ps == After(f.ps, v)
    requires FrontEnd.Events(f, v) == ToEvents(Sequences(f.ps, v))
    ensures FrontEnd.After(f, v + [b]) == FrontEnd.Front(After(f.ps, v + [b]), [])
    ensures FrontEnd.Events(f, v + [b]) == ToEvents(Sequences(f.ps, v + [b]))
  {
    hide Feed;
    var fed := Feed(After(f.ps, v), b);
    NeverExecutes(After(f.ps, v), b);
    assert (v + [b])[..|v|] == v;
    assert After(f.ps, v + [b]) == fed.p;
    assert FrontEnd.Step(FrontEnd.After(f, v), b) ==
      FrontEnd.Turn(FrontEnd.Front(fed.p, []), FrontEnd.ToEvent(fed.act));
    if fed.act.NoAction? {
      assert Sequences(f.ps, v + [b]) == Sequences(f.ps, v);
      assert FrontEnd.Events(f, v + [b]) == FrontEnd.Events(f, v);
    } else {
      assert Sequences(f.ps, v + [b]) == Sequences(f.ps, v) + [fed.act];
      assert FrontEnd.Events(f, v + [b]) == FrontEnd.Events(f, v) + [FrontEnd.ToEvent(fed.act)];
    }
  }

  lemma NeverExecutes(p: Parser, b: byte)
    requires !Embeddable(b)
    ensures !Feed(p, b).act.Execute?
  {
  }

  /** The bytes of a control sequence. */
  function Bytes(ps: seq<nat>, private: bool, final: byte): seq<byte>
    requires ps != []
  {
    [ESC] + ([BRACKET] + Marker(private) + Render(ps) + [final])
  }

  lemma {:induction false} StripPlain(w: seq<byte>)
    requires Plain(w)
    ensures Strip(w) == w
  {
    if w != [] {
      StripPlain(w[..|w| - 1]);
      assert w[..|w| - 1] + [w[|w| - 1]] == w;
    }
  }

  /** Writing the bytes of a control sequence dispatches it, whatever the parser and the partial
      UTF-8 buffer held before. */
  lemma WriteDispatches(e: Emu, ps: seq<nat>, private: bool, final: byte)
    requires WfEmu(e) && CsiFinal(final) && ps != [] && |Render(ps)| <= PARAM_CAP
    ensures var o := DispatchCsi(e.term, final, Marker(private), Wrapped(ps));
            var f := FrontEnd.Front(Parser(Ground, [], [], e.front.ps.osc), []);
            Run(e, Bytes(ps, private, final)) == if o.Ok? then Running(Emu(f, o.t)) else Stopped(o.why)
  {
    hide Render, Strip, Sequences, After, FrontEnd.Events, FrontEnd.After, Run, ApplyAll, DispatchCsi, WfTerm;
    var v := [BRACKET] + Marker(private) + Render(ps) + [final];
    StripPlain(v);
    RoundTrip(e.front.ps, ps, private, final, v);
    var w := [ESC] + v;
    PlainEvents(e.front, w);
    RunIsEvents(e, w);
    var ev := FrontEnd.Command(Csi(final, Marker(private), Wrapped(ps)));
    OneEvent(e.term, ev, FrontEnd.Events(e.front, w));
  }

  lemma OneEvent(t: Term, ev: FrontEnd.Event, evs: seq<FrontEnd.Event>)
    requires WfTerm(t) && FrontEnd.EventOk(ev) && evs == [ev]
    ensures ApplyAll(t, evs) == Apply(t, ev)
  {
    assert evs[..0] == [];
    assert ApplyAll(t, []) == Ok(t);
  }
}
