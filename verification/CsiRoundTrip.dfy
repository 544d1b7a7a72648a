/** Printing a control sequence and parsing it back (section 5.4 of ECMA-48). */
module CsiRoundTrip {
  import opened Terminal
  import opened CsiParser

  // ---------- printing ----------

  /** The decimal digits of `n`. */
  function Decimal(n: nat): (s: seq<byte>)
    ensures |s| >= 1 && forall i :: 0 <= i < |s| ==> IsDigit(s[i])
  {
    if n < 10 then [0x30 + n] else Decimal(n / 10) + [0x30 + n % 10]
  }

  /** The parameters in decimal, separated by semicolons. */
  function Render(ps: seq<nat>): (s: seq<byte>)
    requires ps != []
    ensures s != [] && forall i :: 0 <= i < |s| ==> IsParamByte(s[i])
  {
    if |ps| == 1 then Decimal(ps[0])
    else Render(ps[..|ps| - 1]) + [SEMICOLON] + Decimal(ps[|ps| - 1])
  }

  function Decimals(ps: seq<nat>): (fs: seq<seq<byte>>)
    ensures |fs| == |ps| && forall i :: 0 <= i < |ps| ==> fs[i] == Decimal(ps[i])
  {
    seq(|ps|, i requires 0 <= i < |ps| => Decimal(ps[i]))
  }

  /** The optional private marker of a control sequence. */
  function Marker(private: bool): seq<byte> { if private then [QUESTION] else [] }

  // ---------- parameters parse back ----------

  lemma {:induction false} ValueOfDecimal(n: nat)
    ensures FieldValue(Decimal(n)) == n
  {
    if n >= 10 {
      ValueOfDecimal(n / 10);
      assert Decimal(n)[..|Decimal(n)| - 1] == Decimal(n / 10);
    }
  }

  lemma {:induction false} FieldsOfDigits(raw: seq<byte>, fs: seq<seq<byte>>, f: seq<byte>, d: seq<byte>)
    requires Fields(raw) == fs + [f] && forall i :: 0 <= i < |d| ==> IsDigit(d[i])
    ensures Fields(raw + d) == fs + [f + d]
  {
    hide Fields;
    if d == [] {
      assert raw + d == raw && f + d == f;
    } else {
      var e, b := d[..|d| - 1], d[|d| - 1];
      FieldsOfDigits(raw, fs, f, e);
      assert raw + d == raw + e + [b] && f + d == f + e + [b];
      FieldsSnoc(raw + e, b);
      assert (fs + [f + e])[..|fs|] == fs;
    }
  }

  lemma FieldsOfNothing()
    ensures Fields([]) == [[]]
  {
  }

  /** One more field: a separator and its digits. */
  lemma FieldsStep(r: seq<byte>, fs: seq<seq<byte>>, d: seq<byte>)
    requires Fields(r) == fs && forall i :: 0 <= i < |d| ==> IsDigit(d[i])
    ensures Fields(r + [SEMICOLON] + d) == fs + [d]
  {
    hide Fields;
    FieldsSnoc(r, SEMICOLON);
    FieldsOfDigits(r + [SEMICOLON], fs, [], d);
    assert [] + d == d;
  }

  lemma {:induction false} FieldsOfRender(ps: seq<nat>)
    requires ps != []
    ensures Fields(Render(ps)) == Decimals(ps)
  {
    hide Fields, Decimal;
    var n := |ps| - 1;
    if n == 0 {
      var d := Decimal(ps[0]);
      FieldsOfNothing();
      FieldsOfDigits([], [], [], d);
      assert [] + d == d;
      assert Decimals(ps) == [d];
    } else {
      FieldsOfRender(ps[..n]);
      FieldsStep(Render(ps[..n]), Decimals(ps[..n]), Decimal(ps[n]));
      assert Decimals(ps) == Decimals(ps[..n]) + [Decimal(ps[n])];
    }
  }

  /** The parameters as Go's int holds them: exact below 2^63. */
  function Wrapped(ps: seq<nat>): (r: seq<int>)
    ensures |r| == |ps| && forall i :: 0 <= i < |ps| ==> r[i] == Wrap64(ps[i])
    ensures (forall i :: 0 <= i < |ps| ==> ps[i] < TWO63) ==> r == ps
  {
    seq(|ps|, i requires 0 <= i < |ps| => Wrap64(ps[i]))
  }

  /** Parsing inverts printing, up to Go's 64-bit reduction. */
  lemma ParseRender(ps: seq<nat>)
    requires ps != []
    ensures ParseParams(Render(ps)) == Wrapped(ps)
  {
    hide Fields, FieldValue, Decimal, Wrap64;
    FieldsOfRender(ps);
    forall i | 0 <= i < |ps| ensures Values(Decimals(ps))[i] == Wrap64(ps[i]) {
      ValueOfDecimal(ps[i]);
    }
  }

  // ---------- whole sequences ----------

  /** The parser after a byte string. */
  function After(p: Parser, w: seq<byte>): Parser {
    if w == [] then p else Feed(After(p, w[..|w| - 1]), w[|w| - 1]).p
  }

  /** The actions of a byte string, without the C0 bytes executed on the way. */
  function Sequences(p: Parser, w: seq<byte>): seq<Action> {
    if w == [] then []
    else
      var a := Feed(After(p, w[..|w| - 1]), w[|w| - 1]).act;
      Sequences(p, w[..|w| - 1]) + if a.NoAction? || a.Execute? then [] else [a]
  }

  /** A C0 byte that a control sequence may contain: it is executed on the spot or ignored. */
  predicate Embeddable(b: byte) { b < 0x20 && b != ESC && b != CAN && b != SUB }

  function Strip(w: seq<byte>): (s: seq<byte>) {
    if w == [] then []
    else
      Strip(w[..|w| - 1]) + if Embeddable(w[|w| - 1]) then [] else [w[|w| - 1]]
  }

  predicate InString(p: Parser) { p.state in {OscString, DcsEntry, DcsPassthrough} }

  /** No prefix of `s` leaves the parser inside an OSC or DCS string. */
  predicate Outside(p: Parser, s: seq<byte>) {
    !InString(After(p, s)) && (s == [] || Outside(p, s[..|s| - 1]))
  }

  /** Embedded C0 bytes change neither the parser's path nor the sequences it recognises. */
  lemma {:induction false} EmbeddedC0(p: Parser, w: seq<byte>)
    requires Outside(p, Strip(w))
    ensures After(p, w) == After(p, Strip(w))
    ensures Sequences(p, w) == Sequences(p, Strip(w))
  {
    hide After, Sequences, Feed, Outside, Strip, Embeddable;
    if w == [] {
      StripNothing();
    } else {
      var v, b := w[..|w| - 1], w[|w| - 1];
      assert w == v + [b];
      StripSnoc(v, b);
      FeedOne(p, v, b);
      if Embeddable(b) {
        OutsideNow(p, Strip(v));
        EmbeddedC0(p, v);
        EmbeddedFeeds(After(p, v), b);
      } else {
        OutsideBefore(p, Strip(v), b);
        EmbeddedC0(p, v);
        FeedOne(p, Strip(v), b);
      }
    }
  }

  lemma StripNothing()
    ensures Strip([]) == []
  {
  }

  lemma StripSnoc(v: seq<byte>, b: byte)
    ensures Strip(v + [b]) == if Embeddable(b) then Strip(v) else Strip(v) + [b]
  {
    assert (v + [b])[..|v|] == v;
  }

  lemma OutsideNow(p: Parser, s: seq<byte>)
    requires Outside(p, s)
    ensures !InString(After(p, s))
  {
  }

  lemma OutsideBefore(p: Parser, s: seq<byte>, b: byte)
    requires Outside(p, s + [b])
    ensures Outside(p, s)
  {
    assert (s + [b])[..|s|] == s;
  }

  lemma EmbeddedFeeds(q: Parser, b: byte)
    requires !InString(q) && Embeddable(b)
    ensures Feed(q, b).p == q && (Feed(q, b).act.NoAction? || Feed(q, b).act.Execute?)
  {
  }

  predicate Clean(p: Parser, s: seq<byte>, q: Parser) {
    Outside(p, s) && After(p, s) == q && Sequences(p, s) == []
  }

  /** One more byte that completes nothing. */
  lemma Extend(p: Parser, s: seq<byte>, q: Parser, b: byte)
    requires Clean(p, s, q) && Feed(q, b).act.NoAction? && !InString(Feed(q, b).p)
    ensures Clean(p, s + [b], Feed(q, b).p)
  {
    assert (s + [b])[..|s|] == s;
  }

  function Truncated(raw: seq<byte>): seq<byte> {
    if |raw| <= PARAM_CAP then raw else raw[..PARAM_CAP]
  }

  /** The parser once `raw` has been accumulated. */
  function Piled(q: Parser, raw: seq<byte>): Parser {
    if raw == [] then q else q.(state := CsiParam, param := Truncated(raw))
  }

  lemma PileOne(q: Parser, raw: seq<byte>, b: byte)
    requires q.state in {CsiEntry, CsiParam} && q.param == [] && IsParamByte(b)
    ensures Feed(Piled(q, raw), b) == Fed(Piled(q, raw + [b]), NoAction)
  {
    if |raw| >= PARAM_CAP { assert (raw + [b])[..PARAM_CAP] == raw[..PARAM_CAP]; }
  }

  /** Parameter bytes pile up in the accumulator until it is full. */
  lemma {:induction false} FeedParams(p: Parser, s: seq<byte>, q: Parser, raw: seq<byte>)
    requires Clean(p, s, q) && q.state in {CsiEntry, CsiParam} && q.param == []
    requires forall i :: 0 <= i < |raw| ==> IsParamByte(raw[i])
    ensures Clean(p, s + raw, Piled(q, raw))
  {
    hide Feed, After, Sequences, Outside;
    if raw == [] {
      assert s + raw == s;
    } else {
      var r, b := raw[..|raw| - 1], raw[|raw| - 1];
      FeedParams(p, s, q, r);
      PileOne(q, r, b);
      assert r + [b] == raw;
      Extend(p, s + r, Piled(q, r), b);
      assert s + r + [b] == s + raw;
    }
  }

  lemma {:induction false} Prepend(p: Parser, b: byte, v: seq<byte>)
    requires Feed(p, b).act.NoAction?
    ensures After(p, [b] + v) == After(Feed(p, b).p, v)
    ensures Sequences(p, [b] + v) == Sequences(Feed(p, b).p, v)
  {
    var w := [b] + v;
    if v == [] {
      assert w[..|w| - 1] == [] && w[|w| - 1] == b;
      assert After(p, []) == p && Sequences(p, []) == [];
    } else {
      assert w[..|w| - 1] == [b] + v[..|v| - 1];
      Prepend(p, b, v[..|v| - 1]);
    }
  }

  lemma CleanStart(p: Parser)
    requires !InString(p)
    ensures Clean(p, [], p)
  {
  }

  lemma Introducer(p: Parser, private: bool)
    requires p.state == Escape
    ensures Clean(p, [BRACKET] + Marker(private),
                  Parser(if private then CsiParam else CsiEntry, Marker(private), [], p.osc))
  {
    hide Clean;
    CleanStart(p);
    Extend(p, [], p, BRACKET);
    assert [] + [BRACKET] == [BRACKET];
    if private {
      var c := Feed(p, BRACKET).p;
      Extend(p, [BRACKET], c, QUESTION);
      assert [] + [QUESTION] == [QUESTION];
      assert Feed(c, QUESTION).p == Parser(CsiParam, [QUESTION], [], p.osc);
    } else {
      assert [BRACKET] + [] == [BRACKET];
    }
  }

  lemma RecognisedTail(p: Parser, raw: seq<byte>, private: bool, final: byte, v: seq<byte>)
    requires p.state == Escape && CsiFinal(final)
    requires forall i :: 0 <= i < |raw| ==> IsParamByte(raw[i])
    requires Strip(v) == [BRACKET] + Marker(private) + raw + [final]
    ensures After(p, v) == Parser(Ground, [], [], p.osc)
    ensures Sequences(p, v) == [Csi(final, Marker(private), ParseParams(Truncated(raw)))]
  {
    var intro := [BRACKET] + Marker(private);
    Introducer(p, private);
    var q := Parser(if private then CsiParam else CsiEntry, Marker(private), [], p.osc);
    FeedParams(p, intro, q, raw);
    Complete(p, intro + raw, Piled(q, raw), final);
    EmbeddedC0(p, v);
  }

  /** The final byte completes the sequence. */
  lemma Complete(p: Parser, s: seq<byte>, q: Parser, final: byte)
    requires Clean(p, s, q) && q.state in {CsiEntry, CsiParam} && CsiFinal(final)
    ensures Outside(p, s + [final])
    ensures After(p, s + [final]) == Parser(Ground, [], [], q.osc)
    ensures Sequences(p, s + [final]) == [Csi(final, q.inter, ParseParams(q.param))]
  {
    hide ParseParams, After, Sequences, Outside, Feed;
    FinalFeeds(q, final);
    FeedOne(p, s, final);
    OutsideSnoc(p, s, final);
  }

  lemma FinalFeeds(q: Parser, final: byte)
    requires q.state in {CsiEntry, CsiParam} && CsiFinal(final)
    ensures Feed(q, final) == BuildCsi(q, final)
  {
    hide ParseParams;
  }

  lemma OutsideSnoc(p: Parser, s: seq<byte>, b: byte)
    requires Outside(p, s) && !InString(After(p, s + [b]))
    ensures Outside(p, s + [b])
  {
    assert (s + [b])[..|s|] == s;
  }

  /** From any parser state, a control sequence with any parameter bytes is recognised as exactly
      one action and leaves the parser in ground, even with C0 bytes embedded anywhere after the
      ESC; parameter bytes past the 31st are dropped. */
  lemma Recognised(p: Parser, raw: seq<byte>, private: bool, final: byte, v: seq<byte>)
    requires CsiFinal(final)
    requires forall i :: 0 <= i < |raw| ==> IsParamByte(raw[i])
    requires Strip(v) == [BRACKET] + Marker(private) + raw + [final]
    ensures After(p, [ESC] + v) == Parser(Ground, [], [], p.osc)
    ensures Sequences(p, [ESC] + v) == [Csi(final, Marker(private), ParseParams(Truncated(raw)))]
  {
    Prepend(p, ESC, v);
    RecognisedTail(Feed(p, ESC).p, raw, private, final, v);
  }

  /** Print, feed, and get the same parameters back, for every list that prints in at most 31
      bytes. */
  lemma RoundTrip(p: Parser, ps: seq<nat>, private: bool, final: byte, v: seq<byte>)
    requires CsiFinal(final) && ps != [] && |Render(ps)| <= PARAM_CAP
    requires Strip(v) == [BRACKET] + Marker(private) + Render(ps) + [final]
    ensures After(p, [ESC] + v) == Parser(Ground, [], [], p.osc)
    ensures Sequences(p, [ESC] + v) == [Csi(final, Marker(private), Wrapped(ps))]
  {
    Recognised(p, Render(ps), private, final, v);
    ParseRender(ps);
  }

  // ---------- operating system commands ----------

  const OSC_START: seq<byte> := [ESC, 0x5D]

  /** BEL, or the string terminator ESC \. */
  function OscEnd(st: bool): seq<byte> { if st then [ESC, 0x5C] else [BEL] }

  lemma FeedOne(p: Parser, w: seq<byte>, b: byte)
    ensures After(p, w + [b]) == Feed(After(p, w), b).p
    ensures var a := Feed(After(p, w), b).act;
            Sequences(p, w + [b]) == Sequences(p, w) + if a.NoAction? || a.Execute? then [] else [a]
  {
    assert (w + [b])[..|w|] == w;
  }

  lemma OscOpens(p: Parser)
    ensures After(p, OSC_START) == Parser(OscString, [], p.param, []) && Sequences(p, OSC_START) == []
  {
    FeedOne(p, [], ESC);
    assert [] + [ESC] == [ESC] && [ESC] + [0x5D] == OSC_START;
    FeedOne(p, [ESC], 0x5D);
  }

  lemma {:induction false} OscAccumulates(p: Parser, payload: seq<byte>)
    requires |payload| <= OSC_CAP && forall i :: 0 <= i < |payload| ==> payload[i] >= 0x20
    ensures After(p, OSC_START + payload) == Parser(OscString, [], p.param, payload)
    ensures Sequences(p, OSC_START + payload) == []
  {
    hide After, Sequences;
    if payload == [] {
      assert OSC_START + payload == OSC_START;
      OscOpens(p);
    } else {
      var v, b := payload[..|payload| - 1], payload[|payload| - 1];
      OscAccumulates(p, v);
      FeedOne(p, OSC_START + v, b);
      assert OSC_START + payload == OSC_START + v + [b] && payload == v + [b];
    }
  }

  /** From any state, an operating system command of at most 511 bytes, ended by BEL or by ESC \, yields
      exactly one action with that payload and returns to ground. */
  lemma OscRoundTrip(p: Parser, payload: seq<byte>, st: bool)
    requires |payload| <= OSC_CAP && forall i :: 0 <= i < |payload| ==> payload[i] >= 0x20
    ensures After(p, OSC_START + payload + OscEnd(st)) == Parser(Ground, [], p.param, [])
    ensures Sequences(p, OSC_START + payload + OscEnd(st)) == [Osc(payload)]
  {
    hide After, Sequences;
    OscAccumulates(p, payload);
    var w := OSC_START + payload;
    if st {
      FeedOne(p, w, ESC);
      FeedOne(p, w + [ESC], 0x5C);
      assert w + OscEnd(st) == w + [ESC] + [0x5C];
    } else {
      FeedOne(p, w, BEL);
    }
  }
}
