/** What every SGR code does to the three fields of the pen (section 8.3.117 of ECMA-48 and the xterm colour
    codes), in numbers, and how a list is read code by code. */
module SgrMeaning {
  import opened Terminal
  import opened Sgr

  predicate Extends(code: int) { code == 38 || code == 48 }

  /** The foreground after a code: palette colours 0-7 and 8-15 by the short codes, or the default. */
  function Foreground(pen: Pen, code: int): int {
    if 30 <= code <= 37 then code - 30 + 1
    else if 90 <= code <= 97 then code - 90 + 9
    else if code == 39 || code == 0 then 0
    else pen.fg
  }

  function Background(pen: Pen, code: int): int {
    if 40 <= code <= 47 then code - 40 + 1
    else if 100 <= code <= 107 then code - 100 + 9
    else if code == 49 || code == 0 then 0
    else pen.bg
  }

  /** The codes that set or clear an attribute bit, each leaving the other bits and the colours alone. */
  lemma AttributesMean(pen: Pen)
    ensures Codes(pen, [1]) == pen.(attrs := pen.attrs | 1)
    ensures Codes(pen, [2]) == pen.(attrs := pen.attrs | 2)
    ensures Codes(pen, [3]) == pen.(attrs := pen.attrs | 4)
    ensures Codes(pen, [4]) == pen.(attrs := pen.attrs | 8)
    ensures Codes(pen, [5]) == pen.(attrs := pen.attrs | 16)
    ensures Codes(pen, [6]) == pen.(attrs := pen.attrs | 16)
    ensures Codes(pen, [7]) == pen.(attrs := pen.attrs | 32)
    ensures Codes(pen, [8]) == pen.(attrs := pen.attrs | 64)
    ensures Codes(pen, [9]) == pen.(attrs := pen.attrs | 128)
    ensures Codes(pen, [22]) == pen.(attrs := pen.attrs & !3)
    ensures Codes(pen, [23]) == pen.(attrs := pen.attrs & !4)
    ensures Codes(pen, [24]) == pen.(attrs := pen.attrs & !8)
    ensures Codes(pen, [25]) == pen.(attrs := pen.attrs & !16)
    ensures Codes(pen, [27]) == pen.(attrs := pen.attrs & !32)
    ensures Codes(pen, [28]) == pen.(attrs := pen.attrs & !64)
    ensures Codes(pen, [29]) == pen.(attrs := pen.attrs & !128)
  {
    hide AttrCode, Codes;
    Attribute(pen, 1);
    Bold(pen);
    Attribute(pen, 2);
    Faint(pen);
    Attribute(pen, 3);
    Italic(pen);
    Attribute(pen, 4);
    Underline(pen);
    Attribute(pen, 5);
    Blink(pen);
    Attribute(pen, 6);
    FastBlink(pen);
    Attribute(pen, 7);
    Inverse(pen);
    Attribute(pen, 8);
    Hidden(pen);
    Attribute(pen, 9);
    Strike(pen);
    Attribute(pen, 22);
    NoWeight(pen);
    Attribute(pen, 23);
    NoItalic(pen);
    Attribute(pen, 24);
    NoUnderline(pen);
    Attribute(pen, 25);
    NoBlink(pen);
    Attribute(pen, 27);
    NoInverse(pen);
    Attribute(pen, 28);
    NoHidden(pen);
    Attribute(pen, 29);
    NoStrike(pen);
  }

  /** Every other code: the colours, and the attributes only by a reset. */
  lemma ColoursMean(pen: Pen, code: int)
    requires !(1 <= code <= 9) && code !in {22, 23, 24, 25, 27, 28, 29} && !Extends(code)
    ensures Codes(pen, [code]) ==
            Pen(Foreground(pen, code), Background(pen, code), if code == 0 then 0 else pen.attrs)
  {
    hide AttrCode;
    OneCode(pen, code);
    NoAttribute(pen, code);
  }

  lemma NoAttribute(pen: Pen, code: int)
    requires !(1 <= code <= 9) && code !in {22, 23, 24, 25, 27, 28, 29}
    ensures AttrCode(pen, code) == pen
  {
  }

  lemma Attribute(pen: Pen, code: int)
    requires 1 <= code <= 9 || code in {22, 23, 24, 25, 27, 28, 29}
    ensures Codes(pen, [code]) == AttrCode(pen, code)
  {
    hide AttrCode;
    OneCode(pen, code);
  }

  lemma OneCode(pen: Pen, code: int)
    requires !Extends(code)
    ensures Codes(pen, [code]) == SingleCode(pen, code)
  {
  }

  lemma Bold(pen: Pen)
    ensures AttrCode(pen, 1) == pen.(attrs := pen.attrs | 1)
  {
  }

  lemma Faint(pen: Pen)
    ensures AttrCode(pen, 2) == pen.(attrs := pen.attrs | 2)
  {
  }

  lemma Italic(pen: Pen)
    ensures AttrCode(pen, 3) == pen.(attrs := pen.attrs | 4)
  {
  }

  lemma Underline(pen: Pen)
    ensures AttrCode(pen, 4) == pen.(attrs := pen.attrs | 8)
  {
  }

  lemma Blink(pen: Pen)
    ensures AttrCode(pen, 5) == pen.(attrs := pen.attrs | 16)
  {
  }

  lemma FastBlink(pen: Pen)
    ensures AttrCode(pen, 6) == pen.(attrs := pen.attrs | 16)
  {
  }

  lemma Inverse(pen: Pen)
    ensures AttrCode(pen, 7) == pen.(attrs := pen.attrs | 32)
  {
  }

  lemma Hidden(pen: Pen)
    ensures AttrCode(pen, 8) == pen.(attrs := pen.attrs | 64)
  {
  }

  lemma Strike(pen: Pen)
    ensures AttrCode(pen, 9) == pen.(attrs := pen.attrs | 128)
  {
  }

  lemma NoWeight(pen: Pen)
    ensures AttrCode(pen, 22) == pen.(attrs := pen.attrs & !3)
  {
  }

  lemma NoItalic(pen: Pen)
    ensures AttrCode(pen, 23) == pen.(attrs := pen.attrs & !4)
  {
  }

  lemma NoUnderline(pen: Pen)
    ensures AttrCode(pen, 24) == pen.(attrs := pen.attrs & !8)
  {
  }

  lemma NoBlink(pen: Pen)
    ensures AttrCode(pen, 25) == pen.(attrs := pen.attrs & !16)
  {
  }

  lemma NoInverse(pen: Pen)
    ensures AttrCode(pen, 27) == pen.(attrs := pen.attrs & !32)
  {
  }

  lemma NoHidden(pen: Pen)
    ensures AttrCode(pen, 28) == pen.(attrs := pen.attrs & !64)
  {
  }

  lemma NoStrike(pen: Pen)
    ensures AttrCode(pen, 29) == pen.(attrs := pen.attrs & !128)
  {
  }

  function Capped(v: int): int { if v < 0 then 0 else if v > 255 then 255 else v }

  /** The colour that the parameters after 38 or 48 spell, and how many they are: palette entry n after 5;n, a
      true colour after 2;r;g;b, each number brought into a byte, and the default after anything else, of which
      one parameter is skipped. */
  function Spelled(rest: seq<int>): Extended {
    if |rest| == 0 then Extended(0, 0)
    else if rest[0] == 5 && |rest| >= 2 then Extended(2, Capped(rest[1]) + 1)
    else if rest[0] == 2 && |rest| >= 4 then
      Extended(4, 0x1000000 + Capped(rest[1]) * 65536 + Capped(rest[2]) * 256 + Capped(rest[3]))
    else Extended(1, 0)
  }

  lemma ExtendedIs(rest: seq<int>)
    ensures ExtendedColor(rest) == Spelled(rest)
  {
  }

  /** 38 sets the foreground and 48 the background to it. */
  lemma ExtendedMeans(pen: Pen, code: int, rest: seq<int>)
    requires Extends(code)
    ensures var x := Spelled(rest);
            && x.consumed <= |rest|
            && Codes(pen, [code] + rest) ==
               Codes(if code == 38 then pen.(fg := x.color) else pen.(bg := x.color), rest[x.consumed..])
  {
    hide SingleCode, ExtendedColor, Spelled;
    ExtendedIs(rest);
    assert ([code] + rest)[1..] == rest;
  }

  /** A list is read from left to right, nothing at all being a reset. */
  lemma ListMeans(pen: Pen, code: int, rest: seq<int>)
    requires !Extends(code)
    ensures Apply(pen, []) == Pen(0, 0, 0) && Codes(pen, []) == pen
    ensures Apply(pen, [code] + rest) == Codes(pen, [code] + rest) == Codes(Codes(pen, [code]), rest)
  {
    hide SingleCode;
    assert ([code] + rest)[1..] == rest;
    OneCode(pen, code);
  }
}
