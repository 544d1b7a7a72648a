/** The parser as the source keeps it: a state and three fixed buffers with fill counts, changed in
    place (internal/agent/adapter/secondary/vt/parser.go). */
module ParserMachine {
  import opened Terminal
  import opened CsiParser

  class ParserMachine {
    var state: State
    const inter: array<byte>
    var nInter: nat
    const paramBuf: array<byte>
    var nParam: nat
    const oscBuf: array<byte>
    var nOsc: nat

    /** The buffers have the source's sizes and the fill counts fit. */
    ghost predicate Shape()
      reads this
    {
      && inter.Length == 4 && paramBuf.Length == 32 && oscBuf.Length == 512
      && inter != paramBuf && inter != oscBuf && paramBuf != oscBuf
      && nInter <= inter.Length && nParam <= paramBuf.Length && nOsc <= oscBuf.Length
    }

    ghost function View(): Parser
      requires Shape()
      reads this, inter, paramBuf, oscBuf
    {
      Parser(state, inter[..nInter], paramBuf[..nParam], oscBuf[..nOsc])
    }

    ghost predicate Valid()
      reads this, inter, paramBuf, oscBuf
    {
      Shape() && WfParser(View())
    }

    constructor ()
      ensures Valid() && View() == START
      ensures fresh(inter) && fresh(paramBuf) && fresh(oscBuf)
    {
      state := Ground;
      inter, paramBuf, oscBuf := new byte[4](_ => 0), new byte[32](_ => 0), new byte[512](_ => 0);
      nInter, nParam, nOsc := 0, 0, 0;
    }

    /** One byte in, at most one action out: exactly the step function, without ever storing past a
        buffer. */
    method FeedByte(b: byte) returns (a: Action)
      requires Valid()
      modifies this, inter, paramBuf, oscBuf
      ensures Valid()
      ensures Fed(View(), a) == Feed(old(View()), b)
    {
      a := NoAction;
      if b < 0x20 {
        a := HandleC0(b);
        return;
      }
      match state {
        case Ground =>
          if b <= 0x7E { a := Print(b); }
        case Escape => a := FeedEscapeByte(b);
        case EscapeInter => a := FeedEscapeByte(b);
        case CsiEntry => a := FeedCsiByte(b);
        case CsiParam => a := FeedCsiByte(b);
        case CsiInter => a := FeedCsiByte(b);
        case CsiIgnore =>
          if CsiFinal(b) { state := Ground; }
        case OscString =>
          if nOsc < oscBuf.Length - 1 {
            oscBuf[nOsc] := b;
            nOsc := nOsc + 1;
          }
          assert View().osc == Push(old(View()).osc, b, OSC_CAP);
        case DcsEntry =>
          if b == 0x5C { state, a := Ground, Dcs; } else { state := DcsPassthrough; }
        case DcsPassthrough =>
          if b == 0x5C { state, a := Ground, Dcs; }
      }
    }

    method HandleC0(b: byte) returns (a: Action)
      requires Valid() && b < 0x20
      modifies this
      ensures Valid()
      ensures Fed(View(), a) == FeedC0(old(View()), b)
    {
      a := NoAction;
      if b == BEL && state == OscString {
        a := Osc(oscBuf[..nOsc]);
        nOsc := 0;
        state := Ground;
      } else if b == BEL && state == DcsPassthrough {
      } else if b == ESC {
        nInter := 0;
        state := Escape;
      } else if b == CAN || b == SUB {
        state := Ground;
      } else if state == OscString || state == DcsPassthrough || state == DcsEntry {
      } else if Executable(b) {
        a := Execute(b);
      }
    }

    method FeedEscapeByte(b: byte) returns (a: Action)
      requires Valid() && b >= 0x20 && (state == Escape || state == EscapeInter)
      modifies this, inter
      ensures Valid()
      ensures Fed(View(), a) == FeedEscape(old(View()), b)
    {
      a := NoAction;
      if state == Escape && b == BRACKET {
        nInter, nParam := 0, 0;
        state := CsiEntry;
      } else if state == Escape && b == 0x5D {
        nOsc := 0;
        state := OscString;
      } else if state == Escape && b == 0x50 {
        state := DcsEntry;
      } else if Intermediate(b) {
        if state == Escape {
          inter[nInter] := b;
          if nInter < inter.Length - 1 { nInter := nInter + 1; }
          state := EscapeInter;
        } else {
          StoreInter(b);
        }
        assert View().inter == Push(old(View()).inter, b, INTER_CAP);
      } else if 0x30 <= b <= 0x7E {
        if b == 0x5C {
          a := Osc(oscBuf[..nOsc]);
          nOsc := 0;
        } else {
          a := Esc(b, inter[..nInter]);
        }
        nInter := 0;
        state := Ground;
      } else if state == Escape && b == 0x7F {
      } else {
        state := Ground;
      }
    }

    /** The guarded store: a full buffer drops the byte. */
    method StoreInter(b: byte)
      requires Shape() && nInter <= 3
      modifies this`nInter, inter
      ensures Shape() && nInter <= 3
      ensures View() == old(View()).(inter := Push(old(View()).inter, b, INTER_CAP))
    {
      if nInter < inter.Length - 1 {
        inter[nInter] := b;
        nInter := nInter + 1;
      }
      assert inter[..nInter] == Push(old(inter[..nInter]), b, INTER_CAP);
    }

    method StoreParam(b: byte)
      requires Shape() && nParam <= 31
      modifies this`nParam, paramBuf
      ensures Shape() && nParam <= 31
      ensures View() == old(View()).(param := Push(old(View()).param, b, PARAM_CAP))
    {
      if nParam < paramBuf.Length - 1 {
        paramBuf[nParam] := b;
        nParam := nParam + 1;
      }
      assert paramBuf[..nParam] == Push(old(paramBuf[..nParam]), b, PARAM_CAP);
    }

    method FeedCsiByte(b: byte) returns (a: Action)
      requires Valid() && b >= 0x20 && state in {CsiEntry, CsiParam, CsiInter}
      modifies this, inter, paramBuf
      ensures Shape() && Fed(View(), a) == FeedCsi(old(View()), b)
      ensures Valid()
    {
      hide ParseParams;
      a := NoAction;
      if state == CsiEntry && IsDigit(b) {
        // The one store the source does not guard: the buffer is empty here.
        paramBuf[nParam] := b;
        nParam := nParam + 1;
        state := CsiParam;
        assert View().param == old(View()).param + [b];
      } else if state != CsiInter && IsParamByte(b) {
        StoreParam(b);
        state := CsiParam;
      } else if state == CsiParam && b == 0x3A {
        StoreParam(SEMICOLON);
      } else if Intermediate(b) {
        StoreInter(b);
        state := CsiInter;
      } else if state == CsiEntry && 0x3C <= b <= 0x3F {
        StoreInter(b);
        state := CsiParam;
      } else if CsiFinal(b) {
        var params := ParseParamsLoop(paramBuf[..nParam]);
        a := Csi(b, inter[..nInter], params);
        nInter, nParam := 0, 0;
        state := Ground;
      } else if state != CsiInter && b == 0x7F {
      } else {
        state := CsiIgnore;
      }
    }
  }

  /** The accumulator loop: `cur` wraps at every digit, and still ends as the whole field's value
      reduced once. */
  method ParseParamsLoop(raw: seq<byte>) returns (params: seq<int>)
    ensures params == ParseParams(raw)
  {
    hide Wrap64, Fields, FieldValue, Values;
    if |raw| == 0 {
      return [];
    }
    params := [];
    var cur := 0;
    ghost var done: seq<seq<byte>>, last: seq<byte> := [], [];
    EmptyFields();
    assert raw[..0] == [];
    for i := 0 to |raw|
      invariant Fields(raw[..i]) == done + [last]
      invariant params == Values(done) && cur == Wrap64(FieldValue(last))
    {
      var b := raw[i];
      assert raw[..i + 1] == raw[..i] + [b];
      FieldsSnoc(raw[..i], b);
      if b == SEMICOLON {
        ValuesSnoc(done, last);
        params := params + [cur];
        cur := 0;
        done, last := done + [last], [];
      } else {
        FieldValueSnoc(last, b);
        assert (done + [last])[..|done|] == done;
        if IsDigit(b) {
          WrapStep(FieldValue(last), b - 0x30);
          cur := Wrap64(cur * 10 + (b - 0x30));
        }
        last := last + [b];
      }
    }
    assert raw[..|raw|] == raw;
    ValuesSnoc(done, last);
    params := params + [cur];
  }

  lemma EmptyFields()
    ensures Fields([]) == [[]] && Values([]) == [] && Wrap64(FieldValue([])) == 0
  {
  }
}
