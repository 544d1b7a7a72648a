/** How the emulator turns output bytes into events: ASCII bytes go through the escape-sequence
    parser, high bytes through the partial UTF-8 buffer (the byte loops of
    internal/agent/adapter/secondary/vt/emulator.go, one byte at a time). */
module FrontEnd {
  import opened Terminal
  import opened CsiParser
  import opened Utf8

  /** `pending` is the filled part of `utf8Buf`. */
  datatype Front = Front(ps: Parser, pending: seq<byte>)

  datatype Event = Printed(rune: int) | Command(act: Action) | Silent

  datatype Turn = Turn(f: Front, ev: Event)

  /** The buffered length always stays below the length its lead byte promises. */
  predicate WfFront(f: Front) {
    && WfParser(f.ps)
    && (f.pending != [] ==> 0x80 <= f.pending[0] && |f.pending| < RuneLen(f.pending[0]))
  }

  function ToEvent(a: Action): (ev: Event) {
    match a
    case NoAction => Silent
    case Print(ch) => Printed(ch)
    case _ => Command(a)
  }

  predicate EventOk(ev: Event) {
    ev.Printed? ==> IsScalar(ev.rune)
  }

  /** One byte. */
  function Step(f: Front, b: byte): (t: Turn)
    ensures WfFront(f) ==> WfFront(t.f)
    ensures EventOk(t.ev)
  {
    if b < 0x80 then
      var fed := Feed(f.ps, b);
      Turn(Front(fed.p, []), ToEvent(fed.act))
    else
      var buf := f.pending + [b];
      var d := DecodeRune(buf);
      if d == Decoded(RUNE_ERROR, 1) then
        Turn(f.(pending := if |buf| >= RuneLen(buf[0]) then [] else buf), Silent)
      else Turn(f.(pending := []), Printed(d.rune))
  }

  /** The front end after a byte string. */
  function After(f: Front, w: seq<byte>): (r: Front)
    ensures WfFront(f) ==> WfFront(r)
  {
    if w == [] then f else Step(After(f, w[..|w| - 1]), w[|w| - 1]).f
  }

  /** The events of a byte string, the silent ones left out. */
  function Events(f: Front, w: seq<byte>): (r: seq<Event>)
    ensures forall i :: 0 <= i < |r| ==> EventOk(r[i])
  {
    if w == [] then []
    else
      var ev := Step(After(f, w[..|w| - 1]), w[|w| - 1]).ev;
      Events(f, w[..|w| - 1]) + if ev == Silent then [] else [ev]
  }

  /** Chunking cannot be seen: two writes make the same events and the same state as one. */
  lemma {:induction false} EventsAppend(f: Front, v: seq<byte>, w: seq<byte>)
    ensures After(f, v + w) == After(After(f, v), w)
    ensures Events(f, v + w) == Events(f, v) + Events(After(f, v), w)
  {
    hide Step;
    if w == [] {
      assert v + w == v;
    } else {
      var n := |w| - 1;
      assert (v + w)[..|v + w| - 1] == v + w[..n];
      EventsAppend(f, v, w[..n]);
    }
  }
}
