/** The streaming UTF-8 decoder of the emulator inverts the RFC 3629 encoding. */
module Utf8Stream {
  import opened Terminal
  import opened CsiParser
  import opened Utf8
  import opened FrontEnd
  import EmulatorModel

  /** The scalars a terminal prints: printable ASCII and everything from U+0080 up. */
  predicate Printable(r: int) {
    IsScalar(r) && 0x20 <= r && r != 0x7F
  }

  predicate Text(rs: seq<int>) {
    forall i :: 0 <= i < |rs| ==> Printable(rs[i])
  }

  function EncodeAll(rs: seq<int>): (w: seq<byte>)
    requires Text(rs)
  {
    if rs == [] then [] else EncodeAll(rs[..|rs| - 1]) + Encode(rs[|rs| - 1])
  }

  function Prints(rs: seq<int>): (evs: seq<Event>)
    ensures |evs| == |rs| && forall i :: 0 <= i < |rs| ==> evs[i] == Printed(rs[i])
  {
    seq(|rs|, i requires 0 <= i < |rs| => Printed(rs[i]))
  }

  predicate Idle(f: Front) { f.ps.state == Ground && f.pending == [] }

  /** A strict prefix of an encoding is buffered whole. */
  lemma {:induction false} PrefixBuffered(f: Front, r: int, k: nat)
    requires Idle(f) && IsScalar(r) && 0x80 <= r && k < |Encode(r)|
    ensures After(f, Encode(r)[..k]) == f.(pending := Encode(r)[..k])
    ensures Events(f, Encode(r)[..k]) == []
  {
    if k > 0 {
      var s := Encode(r)[..k];
      assert s[..k - 1] == Encode(r)[..k - 1];
      PrefixBuffered(f, r, k - 1);
      PrefixIncomplete(r, k);
      assert s[..k - 1] + [s[k - 1]] == s;
    }
  }

  predicate Spells(w: seq<byte>, r: int) { IsScalar(r) && Encode(r) == w }

  function Promised(lead: byte): int {
    if 0xC0 <= lead <= 0xDF then 2 else if 0xE0 <= lead <= 0xEF then 3 else if 0xF0 <= lead <= 0xF7 then 4 else 1
  }

  /** Any byte above ASCII, well formed or not: the buffered bytes with it are printed if and only if they spell
      a scalar; otherwise nothing is printed, and they are kept while shorter than their lead byte promises and
      dropped when not. */
  lemma HighByte(f: Front, b: byte)
    requires WfFront(f) && b >= 0x80
    ensures var buf, t := f.pending + [b], Step(f, b);
            && t.f.ps == f.ps
            && (t.ev.Printed? ==> Spells(buf, t.ev.rune) && t.f.pending == [])
            && ((exists r :: Spells(buf, r)) ==> t.ev.Printed?)
            && (!t.ev.Printed? ==> t.ev.Silent? && t.f.pending == if |buf| < Promised(buf[0]) then buf else [])
  {
    hide WfParser;
    var buf := f.pending + [b];
    if DecodeRune(buf) != Decoded(RUNE_ERROR, 1) { EncodeDecode(buf); }
    if r :| Spells(buf, r) { DecodeEncode(r); }
  }

  lemma OneAscii(f: Front, r: int)
    requires Idle(f) && Printable(r) && r < 0x80
    ensures After(f, [r]) == f && Events(f, [r]) == [Printed(r)]
  {
    var s: seq<byte> := [r];
    assert s[..0] == [];
    assert After(f, s[..0]) == f && Events(f, s[..0]) == [];
    assert Step(f, r) == Turn(f, Printed(r));
  }

  /** The last byte of an encoding completes it. */
  lemma LastByte(f: Front, r: int)
    requires Idle(f) && IsScalar(r) && 0x80 <= r
    ensures var s := Encode(r);
            Step(f.(pending := s[..|s| - 1]), s[|s| - 1]) == Turn(f, Printed(r))
  {
    hide CsiParser.Feed, Encode, DecodeRune;
    var s := Encode(r);
    DecodeEncode(r);
    NotShort(r);
    assert s[..|s| - 1] + [s[|s| - 1]] == s;
  }

  lemma NotShort(r: int)
    requires IsScalar(r) && 0x80 <= r
    ensures |Encode(r)| > 1 && Encode(r)[|Encode(r)| - 1] >= 0x80
  {
  }

  lemma OneRune(f: Front, r: int)
    requires Idle(f) && Printable(r)
    ensures After(f, Encode(r)) == f && Events(f, Encode(r)) == [Printed(r)]
  {
    hide Step, DecodeRune;
    if r < 0x80 {
      OneAscii(f, r);
    } else {
      PrefixBuffered(f, r, |Encode(r)| - 1);
      LastByte(f, r);
    }
  }

  /** Encoding then feeding prints exactly the original runes and leaves the front end idle. */
  lemma {:induction false} RoundTrip(f: Front, rs: seq<int>)
    requires Idle(f) && Text(rs)
    ensures After(f, EncodeAll(rs)) == f
    ensures Events(f, EncodeAll(rs)) == Prints(rs)
  {
    hide Step, Encode;
    if rs != [] {
      var n := |rs| - 1;
      var v, w := EncodeAll(rs[..n]), Encode(rs[n]);
      assert After(f, v) == f && Events(f, v) == Prints(rs[..n]) by { RoundTrip(f, rs[..n]); }
      assert After(f, w) == f && Events(f, w) == [Printed(rs[n])] by { OneRune(f, rs[n]); }
      EventsAppend(f, v, w);
      assert EncodeAll(rs) == v + w;
      assert Prints(rs) == Prints(rs[..n]) + [Printed(rs[n])];
    }
  }

  function Concat(chunks: seq<seq<byte>>): seq<byte> {
    if chunks == [] then [] else Concat(chunks[..|chunks| - 1]) + chunks[|chunks| - 1]
  }

  /** The emulator after a sequence of Write calls. */
  function RunChunks(e: EmulatorModel.Emu, chunks: seq<seq<byte>>): (r: EmulatorModel.Result)
    requires EmulatorModel.WfEmu(e)
    ensures r.Running? ==> EmulatorModel.WfEmu(r.e)
  {
    if chunks == [] then EmulatorModel.Running(e)
    else
      match RunChunks(e, chunks[..|chunks| - 1])
      case Running(m) => EmulatorModel.Run(m, chunks[|chunks| - 1])
      case Stopped(why) => EmulatorModel.Stopped(why)
  }

  lemma {:induction false} ChunksAreOneWrite(e: EmulatorModel.Emu, chunks: seq<seq<byte>>)
    requires EmulatorModel.WfEmu(e)
    ensures RunChunks(e, chunks) == EmulatorModel.Run(e, Concat(chunks))
  {
    if chunks != [] {
      var n := |chunks| - 1;
      ChunksAreOneWrite(e, chunks[..n]);
      EmulatorModel.RunAppend(e, Concat(chunks[..n]), chunks[n]);
    }
  }

  /** Under any chunking, the encoding of printable scalars prints exactly those scalars: the
      emulator ends as if each rune had been printed in turn, and nothing is left buffered. */
  lemma PrintsExactly(e: EmulatorModel.Emu, rs: seq<int>, chunks: seq<seq<byte>>)
    requires EmulatorModel.WfEmu(e) && Idle(e.front) && Text(rs)
    requires Concat(chunks) == EncodeAll(rs)
    ensures var o := EmulatorModel.ApplyAll(e.term, Prints(rs));
            o.Ok? && RunChunks(e, chunks) == EmulatorModel.Running(e.(term := o.t))
  {
    ChunksAreOneWrite(e, chunks);
    EmulatorModel.RunIsEvents(e, Concat(chunks));
    RoundTrip(e.front, rs);
    PrintsNeverFault(e.term, rs);
  }

  lemma {:induction false} PrintsNeverFault(t: EmulatorModel.Term, rs: seq<int>)
    requires EmulatorModel.WfTerm(t) && Text(rs)
    ensures EmulatorModel.ApplyAll(t, Prints(rs)).Ok?
  {
    if rs != [] {
      var n := |rs| - 1;
      PrintsNeverFault(t, rs[..n]);
      assert Prints(rs)[..n] == Prints(rs[..n]);
    }
  }
}
