/** The escape-sequence state machine (internal/agent/adapter/secondary/vt/parser.go) as a function
    on values: one byte in, at most one action out. */
module CsiParser {
  import opened Terminal

  datatype State =
    | Ground
    | Escape
    | EscapeInter
    | CsiEntry
    | CsiParam
    | CsiInter
    | CsiIgnore
    | OscString
    | DcsEntry
    | DcsPassthrough

  datatype Action =
    | NoAction
    | Print(ch: byte)
    | Execute(ch: byte)
    | Esc(final: byte, inter: seq<byte>)
    | Csi(final: byte, inter: seq<byte>, params: seq<int>)
    | Osc(payload: seq<byte>)
    | Dcs

  /** The three accumulators are the filled parts of the source's fixed buffers. */
  datatype Parser = Parser(state: State, inter: seq<byte>, param: seq<byte>, osc: seq<byte>)

  const START := Parser(Ground, [], [], [])

  /** The accumulators never hold more than these, one less than the buffers can. */
  const INTER_CAP := 3
  const PARAM_CAP := 31
  const OSC_CAP := 511

  const ESC: byte := 0x1B
  const CAN: byte := 0x18
  const SUB: byte := 0x1A
  const BEL: byte := 0x07
  const SEMICOLON: byte := 0x3B
  const BRACKET: byte := 0x5B
  const QUESTION: byte := 0x3F

  predicate IsDigit(b: byte) { 0x30 <= b <= 0x39 }

  predicate IsParamByte(b: byte) { IsDigit(b) || b == SEMICOLON }

  /** The parser's invariant: no accumulator can be written past its buffer, even in the two
      branches of `feedByte` that store a byte without testing the length first. */
  predicate WfParser(p: Parser) {
    && |p.inter| <= INTER_CAP
    && |p.param| <= PARAM_CAP
    && |p.osc| <= OSC_CAP
    && (p.state == Escape ==> p.inter == [])
    && (p.state == CsiEntry ==> p.inter == [] && p.param == [])
    && (forall i :: 0 <= i < |p.param| ==> IsParamByte(p.param[i]))
  }

  datatype Fed = Fed(p: Parser, act: Action)

  /** Append unless the accumulator is full. */
  function Push(s: seq<byte>, b: byte, cap: nat): (r: seq<byte>)
    ensures |s| <= cap ==> |r| <= cap
  {
    if |s| < cap then s + [b] else s
  }

  /** The C0 bytes the emulator executes: BEL, BS, HT, LF, VT, FF and CR. */
  predicate Executable(b: byte) { 0x07 <= b <= 0x0D }

  function FeedC0(p: Parser, b: byte): (r: Fed)
    requires b < 0x20
    ensures WfParser(p) ==> WfParser(r.p)
  {
    if b == BEL && p.state == OscString then BuildOsc(p)
    else if b == BEL && p.state == DcsPassthrough then Fed(p, NoAction)
    else if b == ESC then Fed(p.(state := Escape, inter := []), NoAction)
    else if b == CAN || b == SUB then Fed(p.(state := Ground), NoAction)
    else if p.state in {OscString, DcsPassthrough, DcsEntry} then Fed(p, NoAction)
    else if Executable(b) then Fed(p, Execute(b))
    else Fed(p, NoAction)
  }

  /** The completed OSC string; the accumulator is emptied. */
  function BuildOsc(p: Parser): Fed {
    Fed(p.(state := Ground, osc := []), Osc(p.osc))
  }

  /** A completed ESC sequence. ESC \ is the string terminator: it yields whatever an OSC
      string interrupted by ESC had accumulated. */
  function BuildEsc(p: Parser, b: byte): Fed {
    if b == 0x5C then Fed(Parser(Ground, [], p.param, []), Osc(p.osc))
    else Fed(p.(state := Ground, inter := []), Esc(b, p.inter))
  }

  function BuildCsi(p: Parser, b: byte): Fed {
    Fed(Parser(Ground, [], [], p.osc), Csi(b, p.inter, ParseParams(p.param)))
  }

  function WithInter(p: Parser, b: byte, s: State): Fed {
    Fed(p.(state := s, inter := Push(p.inter, b, INTER_CAP)), NoAction)
  }

  function WithParam(p: Parser, b: byte): Fed {
    Fed(p.(state := CsiParam, param := Push(p.param, b, PARAM_CAP)), NoAction)
  }

  predicate Intermediate(b: byte) { 0x20 <= b <= 0x2F }

  predicate CsiFinal(b: byte) { 0x40 <= b <= 0x7E }

  function FeedEscape(p: Parser, b: byte): (r: Fed)
    requires b >= 0x20
    ensures WfParser(p) && p.state in {Escape, EscapeInter} ==> WfParser(r.p)
  {
    if p.state == Escape && b == BRACKET then Fed(Parser(CsiEntry, [], [], p.osc), NoAction)
    else if p.state == Escape && b == 0x5D then Fed(p.(state := OscString, osc := []), NoAction)
    else if p.state == Escape && b == 0x50 then Fed(p.(state := DcsEntry), NoAction)
    else if Intermediate(b) then WithInter(p, b, EscapeInter)
    else if 0x30 <= b <= 0x7E then BuildEsc(p, b)
    else if p.state == Escape && b == 0x7F then Fed(p, NoAction)
    else Fed(p.(state := Ground), NoAction)
  }

  function FeedCsi(p: Parser, b: byte): (r: Fed)
    requires b >= 0x20
    ensures WfParser(p) && p.state in {CsiEntry, CsiParam, CsiInter} ==> WfParser(r.p)
  {
    if p.state != CsiInter && IsParamByte(b) then WithParam(p, b)
    else if p.state == CsiParam && b == 0x3A then WithParam(p, SEMICOLON)
    else if Intermediate(b) then WithInter(p, b, CsiInter)
    else if p.state == CsiEntry && 0x3C <= b <= 0x3F then WithInter(p, b, CsiParam)
    else if CsiFinal(b) then BuildCsi(p, b)
    else if p.state != CsiInter && b == 0x7F then Fed(p, NoAction)
    else Fed(p.(state := CsiIgnore), NoAction)
  }

  function FeedString(p: Parser, b: byte): (r: Fed)
    requires b >= 0x20
    ensures WfParser(p) && p.state in {OscString, DcsEntry, DcsPassthrough} ==> WfParser(r.p)
  {
    if p.state == OscString then Fed(p.(osc := Push(p.osc, b, OSC_CAP)), NoAction)
    else if b == 0x5C then Fed(p.(state := Ground), Dcs)
    else Fed(p.(state := DcsPassthrough), NoAction)
  }

  /** One byte through the machine. */
  function Feed(p: Parser, b: byte): (r: Fed)
    ensures WfParser(p) ==> WfParser(r.p)
  {
    if b < 0x20 then FeedC0(p, b)
    else match p.state
      case Ground => Fed(p, if b <= 0x7E then Print(b) else NoAction)
      case Escape => FeedEscape(p, b)
      case EscapeInter => FeedEscape(p, b)
      case CsiEntry => FeedCsi(p, b)
      case CsiParam => FeedCsi(p, b)
      case CsiInter => FeedCsi(p, b)
      case CsiIgnore => Fed(if CsiFinal(b) then p.(state := Ground) else p, NoAction)
      case OscString => FeedString(p, b)
      case DcsEntry => FeedString(p, b)
      case DcsPassthrough => FeedString(p, b)
  }

  // ---------- parameters ----------

  /** The fields of a raw parameter string, split at semicolons. */
  function Fields(raw: seq<byte>): (fs: seq<seq<byte>>)
    ensures |fs| >= 1
  {
    if raw == [] then [[]]
    else
      var fs := Fields(raw[..|raw| - 1]);
      var b := raw[|raw| - 1];
      if b == SEMICOLON then fs + [[]]
      else fs[..|fs| - 1] + [fs[|fs| - 1] + [b]]
  }

  /** The decimal value of a field, as a mathematical integer. */
  function FieldValue(f: seq<byte>): (n: nat) {
    if f == [] then 0
    else
      var b := f[|f| - 1];
      if IsDigit(b) then FieldValue(f[..|f| - 1]) * 10 + (b - 0x30)
      else FieldValue(f[..|f| - 1])
  }

  function Values(fs: seq<seq<byte>>): (vs: seq<int>)
    ensures |vs| == |fs|
    ensures forall i :: 0 <= i < |fs| ==> vs[i] == Wrap64(FieldValue(fs[i]))
  {
    seq(|fs|, i requires 0 <= i < |fs| => Wrap64(FieldValue(fs[i])))
  }

  /** One more byte starts a field or extends the last one. */
  lemma FieldsSnoc(raw: seq<byte>, b: byte)
    ensures var fs := Fields(raw);
            Fields(raw + [b]) ==
            if b == SEMICOLON then fs + [[]] else fs[..|fs| - 1] + [fs[|fs| - 1] + [b]]
  {
    assert (raw + [b])[..|raw|] == raw;
  }

  lemma FieldValueSnoc(f: seq<byte>, b: byte)
    ensures FieldValue(f + [b]) == if IsDigit(b) then FieldValue(f) * 10 + (b - 0x30) else FieldValue(f)
  {
    assert (f + [b])[..|f|] == f;
  }

  lemma ValuesSnoc(fs: seq<seq<byte>>, f: seq<byte>)
    ensures Values(fs + [f]) == Values(fs) + [Wrap64(FieldValue(f))]
  {
    hide Wrap64, FieldValue;
    var vs := Values(fs + [f]);
    assert forall i :: 0 <= i < |fs| ==> vs[i] == Values(fs)[i];
  }

  /** The parameters of a raw string: nothing for the empty string, otherwise each field's decimal
      value reduced to Go's 64-bit int. */
  function ParseParams(raw: seq<byte>): seq<int> {
    if raw == [] then [] else Values(Fields(raw))
  }
}
