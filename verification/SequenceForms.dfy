/** Every form of sequence that the parser knows (section 5 of ECMA-48), from its bytes to its action and from
    whatever state the parser is in: escape sequences, control sequences with any marker, separators and
    intermediates, malformed ones, and the two kinds of strings. */
module SequenceForms {
  import opened Terminal
  import opened CsiParser
  import opened CsiRoundTrip

  predicate Among(w: seq<byte>, lo: int, hi: int) { forall i :: 0 <= i < |w| ==> lo <= w[i] <= hi }

  /** At most the first `n` bytes. */
  function First(w: seq<byte>, n: nat): seq<byte> { if |w| <= n then w else w[..n] }

  lemma FirstSnoc(w: seq<byte>, b: byte, n: nat)
    ensures First(First(w, n) + [b], n) == First(w + [b], n) && |First(w, n)| <= n
  {
  }

  /** One more byte that neither completes nor executes anything. */
  lemma Silent(p: Parser, w: seq<byte>, b: byte)
    ensures var r := Feed(After(p, w), b);
            && After(p, w + [b]) == r.p
            && (r.act.NoAction? ==> Sequences(p, w + [b]) == Sequences(p, w))
  {
    hide Feed;
    FeedOne(p, w, b);
  }

  lemma NothingYet(p: Parser)
    ensures After(p, []) == p && Sequences(p, []) == []
  {
  }

  // ---------- escape sequences ----------

  lemma {:induction false} Intermediates(p: Parser, inter: seq<byte>)
    requires Among(inter, 0x20, 0x2F)
    ensures After(p, [0x1B] + inter) ==
            p.(state := if inter == [] then Escape else EscapeInter, inter := First(inter, 3))
    ensures Sequences(p, [0x1B] + inter) == []
  {
    hide After, Sequences;
    if inter == [] {
      NothingYet(p);
      Silent(p, [], 0x1B);
      assert [] + [0x1B] == [0x1B] + inter;
    } else {
      var v, b := inter[..|inter| - 1], inter[|inter| - 1];
      Intermediates(p, v);
      Silent(p, [0x1B] + v, b);
      assert [0x1B] + v + [b] == [0x1B] + inter;
      assert v + [b] == inter;
    }
  }

  /** ESC, intermediates, and a final byte: one action with at most three of the intermediates. The string
      terminator ESC \ delivers what an OSC string had accumulated. */
  lemma EscForm(p: Parser, inter: seq<byte>, final: byte)
    requires Among(inter, 0x20, 0x2F) && 0x30 <= final <= 0x7E
    requires inter == [] ==> final !in {'[' as int, ']' as int, 'P' as int}
    ensures var w, terminator := [0x1B] + inter + [final], final == '\\' as int;
            && After(p, w) == Parser(Ground, [], p.param, if terminator then [] else p.osc)
            && Sequences(p, w) == [if terminator then Osc(p.osc) else Esc(final, First(inter, 3))]
  {
    hide After, Sequences;
    Intermediates(p, inter);
    FeedOne(p, [0x1B] + inter, final);
  }

  // ---------- control sequences ----------

  /** A colon separates like a semicolon. */
  function Semicolons(raw: seq<byte>): (r: seq<byte>)
    ensures |r| == |raw| && forall i :: 0 <= i < |raw| ==> r[i] == if raw[i] == 0x3A then 0x3B else raw[i]
  {
    seq(|raw|, i requires 0 <= i < |raw| => if raw[i] == 0x3A then 0x3B else raw[i])
  }

  lemma SemicolonsSnoc(raw: seq<byte>, b: byte)
    ensures Semicolons(raw + [b]) == Semicolons(raw) + [if b == 0x3A then 0x3B else b]
  {
  }

  /** The parser once the parameter bytes `raw` have come. */
  function Gathered(q: Parser, raw: seq<byte>): Parser {
    if raw == [] then q else q.(state := CsiParam, param := First(Semicolons(raw), 31))
  }

  lemma {:induction false} Accumulates(p: Parser, s: seq<byte>, q: Parser, raw: seq<byte>)
    requires Clean(p, s, q) && q.state in {CsiEntry, CsiParam} && q.param == [] && Among(raw, 0x30, 0x3B)
    requires q.state == CsiEntry && raw != [] ==> raw[0] != 0x3A
    ensures Clean(p, s + raw, Gathered(q, raw))
  {
    hide Feed, Clean, Gathered;
    if raw == [] {
      assert s + raw == s;
      GatheredNone(q);
    } else {
      var r, b := raw[..|raw| - 1], raw[|raw| - 1];
      assert r + [b] == raw;
      Accumulates(p, s, q, r);
      GatherOne(q, r, b);
      Extend(p, s + r, Gathered(q, r), b);
      assert s + r + [b] == s + raw;
    }
  }

  lemma GatheredNone(q: Parser)
    ensures Gathered(q, []) == q
  {
  }

  lemma GatherOne(q: Parser, raw: seq<byte>, b: byte)
    requires q.state in {CsiEntry, CsiParam} && q.param == [] && 0x30 <= b <= 0x3B
    requires q.state == CsiEntry && raw == [] ==> b != 0x3A
    ensures Feed(Gathered(q, raw), b) == Fed(Gathered(q, raw + [b]), NoAction)
    ensures !InString(Gathered(q, raw + [b]))
  {
    hide Semicolons, Feed, First;
    var c := if b == 0x3A then 0x3B else b;
    SemicolonsSnoc(raw, b);
    FirstSnoc(Semicolons(raw), c, 31);
    FirstSnoc([], c, 31);
    NoSemicolons();
    AllOf([], 31);
    AccumulatesOne(Gathered(q, raw), b);
  }

  lemma NoSemicolons()
    ensures Semicolons([]) == []
  {
  }

  lemma AllOf(w: seq<byte>, n: nat)
    requires |w| <= n
    ensures First(w, n) == w
  {
  }

  lemma AccumulatesOne(m: Parser, b: byte)
    requires m.state in {CsiEntry, CsiParam} && 0x30 <= b <= 0x3B && (m.state == CsiEntry ==> b != 0x3A)
    requires |m.param| <= 31
    ensures Feed(m, b) ==
            Fed(m.(state := CsiParam, param := First(m.param + [if b == 0x3A then 0x3B else b], 31)), NoAction)
  {
  }

  lemma {:induction false} Intersperses(p: Parser, s: seq<byte>, q: Parser, inter: seq<byte>)
    requires Clean(p, s, q) && q.state in {CsiEntry, CsiParam} && |q.inter| <= 3 && Among(inter, 0x20, 0x2F)
    ensures Clean(p, s + inter, if inter == [] then q else q.(state := CsiInter, inter := First(q.inter + inter, 3)))
  {
    hide Feed, Clean, First;
    if inter == [] {
      assert s + inter == s;
    } else {
      var v, b := inter[..|inter| - 1], inter[|inter| - 1];
      Intersperses(p, s, q, v);
      FirstSnoc(q.inter + v, b, 3);
      AllOf(q.inter, 3);
      var m := if v == [] then q else q.(state := CsiInter, inter := First(q.inter + v, 3));
      IntersperseOne(m, b);
      Extend(p, s + v, m, b);
      assert s + v + [b] == s + inter;
      assert v + [b] == inter && q.inter + v + [b] == q.inter + inter;
      assert q.inter + [] == q.inter;
    }
  }

  lemma IntersperseOne(m: Parser, b: byte)
    requires m.state in {CsiEntry, CsiParam, CsiInter} && 0x20 <= b <= 0x2F && |m.inter| <= 3
    ensures Feed(m, b) == Fed(m.(state := CsiInter, inter := First(m.inter + [b], 3)), NoAction)
  {
  }

  /** The beginning of a control sequence: at most one private marker, parameter bytes, intermediates. */
  predicate Beginning(marker: seq<byte>, raw: seq<byte>, inter: seq<byte>) {
    && |marker| <= 1 && Among(marker, 0x3C, 0x3F)
    && Among(raw, 0x30, 0x3B) && (marker == [] && raw != [] ==> raw[0] != 0x3A)
    && Among(inter, 0x20, 0x2F)
  }

  /** The parser after it. */
  function Begun(p: Parser, marker: seq<byte>, raw: seq<byte>, inter: seq<byte>): Parser {
    Parser(if inter != [] then CsiInter else if marker + raw != [] then CsiParam else CsiEntry,
           First(marker + inter, 3), First(Semicolons(raw), 31), p.osc)
  }

  lemma Begins(p: Parser, marker: seq<byte>, raw: seq<byte>, inter: seq<byte>)
    requires p.state == Escape && Beginning(marker, raw, inter)
    ensures Clean(p, [0x5B] + marker + raw + inter, Begun(p, marker, raw, inter))
  {
    hide Clean;
    var q := Parser(if marker == [] then CsiEntry else CsiParam, marker, [], p.osc);
    Opens(p, marker);
    Accumulates(p, [0x5B] + marker, q, raw);
    var m := if raw == [] then q else q.(state := CsiParam, param := First(Semicolons(raw), 31));
    Intersperses(p, [0x5B] + marker + raw, m, inter);
    assert marker + [] == marker;
  }

  lemma Opens(p: Parser, marker: seq<byte>)
    requires p.state == Escape && |marker| <= 1 && Among(marker, 0x3C, 0x3F)
    ensures Clean(p, [0x5B] + marker, Parser(if marker == [] then CsiEntry else CsiParam, marker, [], p.osc))
  {
    hide Clean;
    CleanStart(p);
    Extend(p, [], p, 0x5B);
    assert [] + [0x5B] == [0x5B];
    if marker == [] {
      assert [0x5B] + marker == [0x5B];
    } else {
      var c := Feed(p, 0x5B).p;
      Extend(p, [0x5B], c, marker[0]);
      assert [0x5B] + marker == [0x5B] + [marker[0]];
      assert [] + [marker[0]] == marker;
    }
  }

  /** A control sequence in full: marker, parameters, intermediates, final byte. One action, with at most three
      of marker and intermediates and the parameters that the first 31 bytes spell. `v` may have C0 bytes other
      than ESC, CAN and SUB anywhere in it. */
  lemma CsiForm(p: Parser, marker: seq<byte>, raw: seq<byte>, inter: seq<byte>, final: byte, v: seq<byte>)
    requires Beginning(marker, raw, inter) && 0x40 <= final <= 0x7E
    requires Strip(v) == [0x5B] + marker + raw + inter + [final]
    ensures After(p, [0x1B] + v) == Parser(Ground, [], [], p.osc)
    ensures Sequences(p, [0x1B] + v) ==
            [Csi(final, First(marker + inter, 3), ParseParams(First(Semicolons(raw), 31)))]
  {
    hide After, Sequences, Outside, ParseParams, Strip, First, Semicolons;
    Prepend(p, 0x1B, v);
    var e := Feed(p, 0x1B).p;
    Begins(e, marker, raw, inter);
    var s := [0x5B] + marker + raw + inter;
    Finishes(e, s, Begun(e, marker, raw, inter), final);
    EmbeddedC0(e, v);
  }

  lemma Finishes(p: Parser, s: seq<byte>, q: Parser, final: byte)
    requires Clean(p, s, q) && q.state in {CsiEntry, CsiParam, CsiInter} && 0x40 <= final <= 0x7E
    ensures Outside(p, s + [final])
    ensures After(p, s + [final]) == Parser(Ground, [], [], q.osc)
    ensures Sequences(p, s + [final]) == [Csi(final, q.inter, ParseParams(q.param))]
  {
    hide ParseParams, After, Sequences, Outside, Feed;
    FinishFeeds(q, final);
    FeedOne(p, s, final);
    OutsideSnoc(p, s, final);
  }

  lemma FinishFeeds(q: Parser, final: byte)
    requires q.state in {CsiEntry, CsiParam, CsiInter} && 0x40 <= final <= 0x7E
    ensures Feed(q, final) == Fed(Parser(Ground, [], [], q.osc), Csi(final, q.inter, ParseParams(q.param)))
  {
    hide ParseParams;
  }

  /** A byte out of place: a colon first, a marker after a marker or a parameter, a parameter byte, marker or DEL
      after an intermediate. */
  predicate OutOfPlace(marker: seq<byte>, raw: seq<byte>, inter: seq<byte>, bad: byte) {
    if inter != [] then 0x30 <= bad <= 0x3F || bad == 0x7F
    else if marker + raw != [] then 0x3C <= bad <= 0x3F
    else bad == 0x3A
  }

  /** It spoils the control sequence, which is skipped up to its final byte. */
  lemma MalformedSkipped(p: Parser, marker: seq<byte>, raw: seq<byte>, inter: seq<byte>, bad: byte, rest: seq<byte>,
                         final: byte)
    requires Beginning(marker, raw, inter) && OutOfPlace(marker, raw, inter, bad)
    requires (forall i :: 0 <= i < |rest| ==> 0x20 <= rest[i] <= 0x3F || rest[i] == 0x7F) && 0x40 <= final <= 0x7E
    ensures var w := [0x1B] + ([0x5B] + marker + raw + inter + [bad] + rest + [final]);
            After(p, w).state == Ground && Sequences(p, w) == []
  {
    hide After, Sequences, Clean, First, Semicolons;
    var e := Feed(p, 0x1B).p;
    Begins(e, marker, raw, inter);
    var s, q := [0x5B] + marker + raw + inter, Begun(e, marker, raw, inter);
    Extend(e, s, q, bad);
    Skips(e, s + [bad], Feed(q, bad).p, rest);
    CleanParts(e, s + [bad] + rest, Feed(q, bad).p);
    FeedOne(e, s + [bad] + rest, final);
    Prepend(p, 0x1B, s + [bad] + rest + [final]);
  }

  lemma CleanParts(p: Parser, s: seq<byte>, q: Parser)
    requires Clean(p, s, q)
    ensures After(p, s) == q && Sequences(p, s) == []
  {
  }

  lemma {:induction false} Skips(p: Parser, s: seq<byte>, q: Parser, rest: seq<byte>)
    requires Clean(p, s, q) && q.state == CsiIgnore
    requires forall i :: 0 <= i < |rest| ==> 0x20 <= rest[i] <= 0x3F || rest[i] == 0x7F
    ensures Clean(p, s + rest, q)
  {
    hide Clean;
    if rest == [] {
      assert s + rest == s;
    } else {
      var v, b := rest[..|rest| - 1], rest[|rest| - 1];
      Skips(p, s, q, v);
      Extend(p, s + v, q, b);
      assert s + v + [b] == s + rest;
    }
  }

  // ---------- parameters ----------

  /** Digit strings, possibly empty, with semicolons between them. */
  function Join(ds: seq<seq<byte>>): seq<byte>
    requires ds != []
  {
    if |ds| == 1 then ds[0] else Join(ds[..|ds| - 1]) + [0x3B] + ds[|ds| - 1]
  }

  /** What the semicolons separate is one parameter each, an empty one being zero; no bytes at all are no
      parameter. */
  lemma {:induction false} ParamsOf(ds: seq<seq<byte>>)
    requires ds != [] && forall i :: 0 <= i < |ds| ==> Among(ds[i], 0x30, 0x39)
    ensures Fields(Join(ds)) == ds
    ensures ParseParams(Join(ds)) == if ds == [[]] then [] else Values(ds)
    ensures FieldValue([]) == 0
  {
    hide Fields, Values;
    var n := |ds| - 1;
    if n == 0 {
      FieldsOfNothing();
      FieldsOfDigits([], [], [], ds[0]);
      assert [] + ds[0] == ds[0] && [] + [ds[0]] == ds;
    } else {
      ParamsOf(ds[..n]);
      FieldsStep(Join(ds[..n]), ds[..n], ds[n]);
      assert ds[..n] + [ds[n]] == ds;
    }
  }

  // ---------- strings ----------

  /** The bytes of a string body that an OSC string keeps. */
  function Kept(body: seq<byte>): seq<byte> {
    if body == [] then []
    else Kept(body[..|body| - 1]) + if body[|body| - 1] < 0x20 then [] else [body[|body| - 1]]
  }

  lemma KeptSnoc(body: seq<byte>, b: byte)
    ensures Kept(body + [b]) == Kept(body) + if b < 0x20 then [] else [b]
  {
    assert (body + [b])[..|body|] == body;
  }

  lemma {:induction false} OscBody(p: Parser, body: seq<byte>)
    requires forall i :: 0 <= i < |body| ==> body[i] !in {0x07, 0x18, 0x1A, 0x1B}
    ensures After(p, [0x1B, 0x5D] + body) == Parser(OscString, [], p.param, First(Kept(body), 511))
    ensures Sequences(p, [0x1B, 0x5D] + body) == []
  {
    hide After, Sequences;
    if body == [] {
      OscOpens(p);
      assert [0x1B, 0x5D] + body == OSC_START;
    } else {
      var v, b := body[..|body| - 1], body[|body| - 1];
      OscBody(p, v);
      Silent(p, [0x1B, 0x5D] + v, b);
      KeptSnoc(v, b);
      assert v + [b] == body && [0x1B, 0x5D] + v + [b] == [0x1B, 0x5D] + body;
    }
  }

  /** An OSC string of any length, ended by BEL or ESC \: one action with the first 511 bytes that are not C0. */
  lemma OscForm(p: Parser, body: seq<byte>, end: seq<byte>)
    requires forall i :: 0 <= i < |body| ==> body[i] !in {0x07, 0x18, 0x1A, 0x1B}
    requires end == [0x07] || end == [0x1B, 0x5C]
    ensures var w := [0x1B, 0x5D] + body + end;
            After(p, w) == Parser(Ground, [], p.param, []) && Sequences(p, w) == [Osc(First(Kept(body), 511))]
  {
    hide After, Sequences;
    OscBody(p, body);
    var s := [0x1B, 0x5D] + body;
    FeedOne(p, s, end[0]);
    if |end| == 2 {
      FeedOne(p, s + [0x1B], 0x5C);
      assert s + end == s + [0x1B] + [0x5C];
    } else {
      assert s + end == s + [0x07];
    }
  }

  lemma {:induction false} DcsBody(p: Parser, body: seq<byte>)
    requires forall i :: 0 <= i < |body| ==> body[i] !in {0x18, 0x1A, 0x1B, 0x5C}
    ensures var q := After(p, [0x1B, 0x50] + body);
            q.state in {DcsEntry, DcsPassthrough} && q == Parser(q.state, [], p.param, p.osc)
    ensures Sequences(p, [0x1B, 0x50] + body) == []
  {
    hide After, Sequences;
    if body == [] {
      NothingYet(p);
      Silent(p, [], 0x1B);
      Silent(p, [0x1B], 0x50);
      assert [] + [0x1B] == [0x1B] && [0x1B] + [0x50] == [0x1B, 0x50] + body;
    } else {
      var v, b := body[..|body| - 1], body[|body| - 1];
      DcsBody(p, v);
      Silent(p, [0x1B, 0x50] + v, b);
      assert [0x1B, 0x50] + v + [b] == [0x1B, 0x50] + body;
    }
  }

  /** A device control string ends at its first backslash and is discarded as one action. */
  lemma DcsForm(p: Parser, body: seq<byte>)
    requires forall i :: 0 <= i < |body| ==> body[i] !in {0x18, 0x1A, 0x1B, 0x5C}
    ensures var w := [0x1B, 0x50] + body + [0x5C];
            After(p, w) == Parser(Ground, [], p.param, p.osc) && Sequences(p, w) == [Dcs]
  {
    hide After, Sequences;
    DcsBody(p, body);
    FeedOne(p, [0x1B, 0x50] + body, 0x5C);
  }

  // ---------- single bytes ----------

  /** CAN and SUB abort whatever was under way, and DEL is ignored in the middle of a sequence, except that it
      ends an escape sequence after an intermediate. */
  lemma Cancels(p: Parser)
    ensures Feed(p, 0x18) == Fed(p.(state := Ground), NoAction) == Feed(p, 0x1A)
    ensures p.state in {Ground, Escape, CsiEntry, CsiParam} ==> Feed(p, 0x7F) == Fed(p, NoAction)
    ensures p.state == EscapeInter ==> Feed(p, 0x7F) == Fed(p.(state := Ground), NoAction)
  {
  }

  /** Outside strings the C0 bytes 7 to 13 are executed and the others but ESC, CAN and SUB are ignored; inside
      they are swallowed, and BEL ends an OSC string. In ground the bytes 20 to 7E print. */
  lemma Controls(p: Parser, b: byte)
    requires b < 0x20 && b !in {0x18, 0x1A, 0x1B}
    ensures p.state !in {OscString, DcsEntry, DcsPassthrough} ==>
              Feed(p, b) == Fed(p, if 7 <= b <= 13 then Execute(b) else NoAction)
    ensures p.state in {DcsEntry, DcsPassthrough} || (p.state == OscString && b != 7) ==> Feed(p, b) == Fed(p, NoAction)
    ensures p.state == OscString ==> Feed(p, 7) == Fed(p.(state := Ground, osc := []), Osc(p.osc))
  {
  }

  lemma Prints(p: Parser, b: byte)
    requires p.state == Ground && 0x20 <= b <= 0x7E
    ensures Feed(p, b) == Fed(p, Print(b))
  {
  }
}
