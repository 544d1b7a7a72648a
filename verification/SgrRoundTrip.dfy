/** Every pen can be written as a list of SGR codes and read back. */
module SgrRoundTrip {
  import opened Terminal
  import opened Sgr

  function Has(a: bv16, bit: bv16): bool { a & bit != 0 }

  function With(a: bv16, bit: bv16, on: bool): bv16 { if on then a | bit else a }

  /** The code of an attribute, if it is set. */
  function Flag(a: bv16, bit: bv16, code: int): seq<int> { if Has(a, bit) then [code] else [] }

  function Colour(c: int, foreground: bool): seq<int> {
    var code := if foreground then 38 else 48;
    if c == COLOR_DEFAULT then [code + 1]
    else if c <= 256 then [code, 5, c - 1]
    else [code, 2, c / 0x1_0000 % 0x100, c / 0x100 % 0x100, c % 0x100]
  }

  function Weights(a: bv16, tail: seq<int>): seq<int> {
    Flag(a, BOLD, 1) + (Flag(a, FAINT, 2) + (Flag(a, ITALIC, 3) + (Flag(a, UNDERLINE, 4) + tail)))
  }

  function Effects(a: bv16, tail: seq<int>): seq<int> {
    Flag(a, BLINK, 5) + (Flag(a, INVERSE, 7) + (Flag(a, HIDDEN, 8) + (Flag(a, STRIKE, 9) + tail)))
  }

  /** Reset, then the attributes, then both colours. */
  function Written(p: Pen): seq<int> {
    [0] + Weights(p.attrs, Effects(p.attrs, Colour(p.fg, true) + (Colour(p.bg, false) + [])))
  }

  lemma OneCode(pen: Pen, code: int, tail: seq<int>)
    requires code != 38 && code != 48
    ensures Codes(pen, [code] + tail) == Codes(SingleCode(pen, code), tail)
  {
    assert ([code] + tail)[1..] == tail;
  }

  lemma BoldSet(pen: Pen)
    ensures SingleCode(pen, 1) == pen.(attrs := With(pen.attrs, BOLD, true))
  {
  }

  lemma FaintSet(pen: Pen)
    ensures SingleCode(pen, 2) == pen.(attrs := With(pen.attrs, FAINT, true))
  {
  }

  lemma ItalicSet(pen: Pen)
    ensures SingleCode(pen, 3) == pen.(attrs := With(pen.attrs, ITALIC, true))
  {
  }

  lemma UnderlineSet(pen: Pen)
    ensures SingleCode(pen, 4) == pen.(attrs := With(pen.attrs, UNDERLINE, true))
  {
  }

  lemma BlinkSet(pen: Pen)
    ensures SingleCode(pen, 5) == pen.(attrs := With(pen.attrs, BLINK, true))
  {
  }

  lemma InverseSet(pen: Pen)
    ensures SingleCode(pen, 7) == pen.(attrs := With(pen.attrs, INVERSE, true))
  {
  }

  lemma HiddenSet(pen: Pen)
    ensures SingleCode(pen, 8) == pen.(attrs := With(pen.attrs, HIDDEN, true))
  {
  }

  lemma StrikeSet(pen: Pen)
    ensures SingleCode(pen, 9) == pen.(attrs := With(pen.attrs, STRIKE, true))
  {
  }

  lemma FlagSets(pen: Pen, a: bv16, bit: bv16, code: int, tail: seq<int>)
    requires code != 38 && code != 48 && SingleCode(pen, code) == pen.(attrs := With(pen.attrs, bit, true))
    ensures Codes(pen, Flag(a, bit, code) + tail) == Codes(pen.(attrs := With(pen.attrs, bit, Has(a, bit))), tail)
  {
    hide Codes, SingleCode, Has, With;
    if Has(a, bit) {
      OneCode(pen, code, tail);
    } else {
      assert [] + tail == tail;
      WithoutIt(pen.attrs, bit);
    }
  }

  lemma WithoutIt(a: bv16, bit: bv16)
    ensures With(a, bit, false) == a
  {
  }

  function WithWeights(x: bv16, a: bv16): bv16 {
    var y := With(With(x, BOLD, Has(a, BOLD)), FAINT, Has(a, FAINT));
    With(With(y, ITALIC, Has(a, ITALIC)), UNDERLINE, Has(a, UNDERLINE))
  }

  function WithEffects(x: bv16, a: bv16): bv16 {
    var y := With(With(x, BLINK, Has(a, BLINK)), INVERSE, Has(a, INVERSE));
    With(With(y, HIDDEN, Has(a, HIDDEN)), STRIKE, Has(a, STRIKE))
  }

  lemma WeightsSet(pen: Pen, a: bv16, tail: seq<int>)
    ensures Codes(pen, Weights(a, tail)) == Codes(pen.(attrs := WithWeights(pen.attrs, a)), tail)
  {
    hide Codes, Has, With, Flag, SingleCode;
    var p1 := pen.(attrs := With(pen.attrs, BOLD, Has(a, BOLD)));
    var p2 := pen.(attrs := With(p1.attrs, FAINT, Has(a, FAINT)));
    var p3 := pen.(attrs := With(p2.attrs, ITALIC, Has(a, ITALIC)));
    var t3 := Flag(a, UNDERLINE, 4) + tail;
    var t2 := Flag(a, ITALIC, 3) + t3;
    BoldSet(pen);
    FlagSets(pen, a, BOLD, 1, Flag(a, FAINT, 2) + t2);
    FaintSet(p1);
    FlagSets(p1, a, FAINT, 2, t2);
    ItalicSet(p2);
    FlagSets(p2, a, ITALIC, 3, t3);
    UnderlineSet(p3);
    FlagSets(p3, a, UNDERLINE, 4, tail);
  }

  lemma EffectsSet(pen: Pen, a: bv16, tail: seq<int>)
    ensures Codes(pen, Effects(a, tail)) == Codes(pen.(attrs := WithEffects(pen.attrs, a)), tail)
  {
    hide Codes, Has, With, Flag, SingleCode;
    var p1 := pen.(attrs := With(pen.attrs, BLINK, Has(a, BLINK)));
    var p2 := pen.(attrs := With(p1.attrs, INVERSE, Has(a, INVERSE)));
    var p3 := pen.(attrs := With(p2.attrs, HIDDEN, Has(a, HIDDEN)));
    var t3 := Flag(a, STRIKE, 9) + tail;
    var t2 := Flag(a, HIDDEN, 8) + t3;
    BlinkSet(pen);
    FlagSets(pen, a, BLINK, 5, Flag(a, INVERSE, 7) + t2);
    InverseSet(p1);
    FlagSets(p1, a, INVERSE, 7, t2);
    HiddenSet(p2);
    FlagSets(p2, a, HIDDEN, 8, t3);
    StrikeSet(p3);
    FlagSets(p3, a, STRIKE, 9, tail);
  }

  lemma AllBits(a: bv16)
    requires a & 0xFF00 == 0
    ensures WithEffects(WithWeights(0, a), a) == a
  {
  }

  /** The components of a flagged colour. */
  lemma Components(c: int)
    requires TRUECOLOR_FLAG <= c < 2 * TRUECOLOR_FLAG
    ensures Truecolor(c / 0x1_0000 % 0x100, c / 0x100 % 0x100, c % 0x100) == c
  {
  }

  lemma ColourSets(pen: Pen, c: int, foreground: bool, tail: seq<int>)
    requires IsColor(c)
    ensures Codes(pen, Colour(c, foreground) + tail) == Codes(if foreground then pen.(fg := c) else pen.(bg := c), tail)
  {
    var list := Colour(c, foreground) + tail;
    if c == COLOR_DEFAULT {
      OneCode(pen, list[0], tail);
      assert list == [list[0]] + tail;
    } else {
      if c > 256 { Components(c); }
      var rest := list[1..];
      var x := ExtendedColor(rest);
      assert x.color == c && rest[x.consumed..] == tail;
    }
  }

  /** Writing a pen as codes and applying them, to whatever pen, gives the pen back. */
  lemma PenRoundTrip(p: Pen, from: Pen)
    requires p.Ok()
    ensures Apply(from, Written(p)) == p
  {
    hide Codes, WithWeights, WithEffects, Weights, Effects, Colour;
    var colours := Colour(p.fg, true) + (Colour(p.bg, false) + []);
    OneCode(from, 0, Weights(p.attrs, Effects(p.attrs, colours)));
    WeightsSet(DEFAULT_PEN, p.attrs, Effects(p.attrs, colours));
    EffectsSet(DEFAULT_PEN.(attrs := WithWeights(0, p.attrs)), p.attrs, colours);
    AllBits(p.attrs);
    var q := DEFAULT_PEN.(attrs := p.attrs);
    ColourSets(q, p.fg, true, Colour(p.bg, false) + []);
    ColourSets(q.(fg := p.fg), p.bg, false, []);
    NoCodes(p);
  }

  lemma NoCodes(p: Pen)
    ensures Codes(p, []) == p
  {
  }
}
