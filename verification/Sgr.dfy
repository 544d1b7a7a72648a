/** Select Graphic Rendition (internal/agent/adapter/secondary/vt/sgr.go; section 8.3.117 of
    ECMA-48): how a parameter list changes the pen. */
module Sgr {
  import opened Terminal

  const BOLD: bv16 := 1
  const FAINT: bv16 := 2
  const ITALIC: bv16 := 4
  const UNDERLINE: bv16 := 8
  const BLINK: bv16 := 16
  const INVERSE: bv16 := 32
  const HIDDEN: bv16 := 64
  const STRIKE: bv16 := 128

  function Clamp8(v: int): (r: int)
    ensures 0 <= r <= 255 && (0 <= v <= 255 ==> r == v)
  {
    if v < 0 then 0 else if v > 255 then 255 else v
  }

  function PaletteIndex(i: int): int { i + 1 }

  function Truecolor(r: int, g: int, b: int): int {
    TRUECOLOR_FLAG + r * 0x1_0000 + g * 0x100 + b
  }

  /** The three components can be read back from the encoded colour, which never collides with a
      palette index or the default. */
  lemma TruecolorRoundTrip(r: int, g: int, b: int)
    requires 0 <= r <= 255 && 0 <= g <= 255 && 0 <= b <= 255
    ensures var c := Truecolor(r, g, b);
            c > 256 && IsColor(c) &&
            c / 0x100 / 0x100 % 0x100 == r && c / 0x100 % 0x100 == g && c % 0x100 == b
  {
    DivMod(0x100, (0x100 + r) * 0x100 + g, b);
    DivMod(0x100, 0x100 + r, g);
    DivMod(0x100, 1, r);
  }

  datatype Extended = Extended(consumed: nat, color: int)

  /** The colour that follows a 38 or 48, and how many parameters it takes. */
  function ExtendedColor(rest: seq<int>): (r: Extended)
    ensures IsColor(r.color) && r.consumed <= |rest|
  {
    if rest == [] then Extended(0, COLOR_DEFAULT)
    else if rest[0] == 5 && 1 < |rest| then Extended(2, PaletteIndex(Clamp8(rest[1])))
    else if rest[0] == 2 && 3 < |rest| then
      Extended(4, Truecolor(Clamp8(rest[1]), Clamp8(rest[2]), Clamp8(rest[3])))
    else Extended(1, COLOR_DEFAULT)
  }

  function AttrCode(pen: Pen, code: int): (r: Pen)
    ensures pen.Ok() ==> r.Ok()
  {
    match code
    case 1 => pen.(attrs := pen.attrs | BOLD)
    case 2 => pen.(attrs := pen.attrs | FAINT)
    case 3 => pen.(attrs := pen.attrs | ITALIC)
    case 4 => pen.(attrs := pen.attrs | UNDERLINE)
    case 5 => pen.(attrs := pen.attrs | BLINK)
    case 6 => pen.(attrs := pen.attrs | BLINK)
    case 7 => pen.(attrs := pen.attrs | INVERSE)
    case 8 => pen.(attrs := pen.attrs | HIDDEN)
    case 9 => pen.(attrs := pen.attrs | STRIKE)
    case 22 => pen.(attrs := pen.attrs & !(BOLD | FAINT))
    case 23 => pen.(attrs := pen.attrs & !ITALIC)
    case 24 => pen.(attrs := pen.attrs & !UNDERLINE)
    case 25 => pen.(attrs := pen.attrs & !BLINK)
    case 27 => pen.(attrs := pen.attrs & !INVERSE)
    case 28 => pen.(attrs := pen.attrs & !HIDDEN)
    case 29 => pen.(attrs := pen.attrs & !STRIKE)
    case _ => pen
  }

  /** A code that stands alone (every code but 38 and 48). */
  function SingleCode(pen: Pen, code: int): (r: Pen)
    ensures pen.Ok() ==> r.Ok()
  {
    if code == 0 then DEFAULT_PEN
    else if 30 <= code <= 37 then pen.(fg := PaletteIndex(code - 30))
    else if code == 39 then pen.(fg := COLOR_DEFAULT)
    else if 40 <= code <= 47 then pen.(bg := PaletteIndex(code - 40))
    else if code == 49 then pen.(bg := COLOR_DEFAULT)
    else if 90 <= code <= 97 then pen.(fg := PaletteIndex(code - 90 + 8))
    else if 100 <= code <= 107 then pen.(bg := PaletteIndex(code - 100 + 8))
    else AttrCode(pen, code)
  }

  /** The pen after a whole parameter list, read left to right. */
  function Codes(pen: Pen, params: seq<int>): (r: Pen)
    ensures pen.Ok() ==> r.Ok()
    decreases |params|
  {
    if params == [] then pen
    else
      var code, rest := params[0], params[1..];
      if code == 38 then
        var x := ExtendedColor(rest);
        Codes(pen.(fg := x.color), rest[x.consumed..])
      else if code == 48 then
        var x := ExtendedColor(rest);
        Codes(pen.(bg := x.color), rest[x.consumed..])
      else Codes(SingleCode(pen, code), rest)
  }

  function Apply(pen: Pen, params: seq<int>): (r: Pen)
    ensures pen.Ok() ==> r.Ok()
  {
    if params == [] then DEFAULT_PEN else Codes(pen, params)
  }

  /** The loop of `applySGR`, which walks the list by index and lets 38 and 48 skip ahead. */
  method ApplyLoop(pen: Pen, params: seq<int>) returns (r: Pen)
    ensures r == Apply(pen, params)
  {
    hide SingleCode, ExtendedColor;
    if |params| == 0 {
      return DEFAULT_PEN;
    }
    r := pen;
    var i := 0;
    while i < |params|
      invariant 0 <= i <= |params|
      invariant Codes(r, params[i..]) == Codes(pen, params)
    {
      var code := params[i];
      var rest := params[i..][1..];
      assert rest == params[i + 1..];
      i := i + 1;
      if code == 38 {
        var n, color := ParseExtendedColor(params, i);
        assert rest[n..] == params[i + n..];
        i := i + n;
        r := r.(fg := color);
      } else if code == 48 {
        var n, color := ParseExtendedColor(params, i);
        assert rest[n..] == params[i + n..];
        i := i + n;
        r := r.(bg := color);
      } else {
        r := SingleCode(r, code);
      }
    }
  }

  method ParseExtendedColor(params: seq<int>, start: nat) returns (consumed: nat, color: int)
    requires start <= |params|
    ensures ExtendedColor(params[start..]) == Extended(consumed, color)
  {
    if start >= |params| {
      return 0, COLOR_DEFAULT;
    }
    if params[start] == 5 {
      if start + 1 < |params| {
        var idx := params[start + 1];
        if idx < 0 { idx := 0; }
        if idx > 255 { idx := 255; }
        return 2, PaletteIndex(idx);
      }
      return 1, COLOR_DEFAULT;
    }
    if params[start] == 2 {
      if start + 3 < |params| {
        var r, g, b := Clamp8(params[start + 1]), Clamp8(params[start + 2]), Clamp8(params[start + 3]);
        return 4, Truecolor(r, g, b);
      }
      return 1, COLOR_DEFAULT;
    }
    return 1, COLOR_DEFAULT;
  }

  // ---------- laws ----------

  /** A list that does not stop inside an extended colour. */
  predicate Complete(params: seq<int>)
    decreases |params|
  {
    params == [] ||
    if params[0] == 38 || params[0] == 48 then
      var rest := params[1..];
      && ExtendedColor(rest).consumed > 0
      && (rest[0] == 5 ==> 1 < |rest|)
      && (rest[0] == 2 ==> 3 < |rest|)
      && Complete(rest[ExtendedColor(rest).consumed..])
    else Complete(params[1..])
  }

  /** One list or two: splitting a parameter list at a place where no extended colour is cut
      leaves the same pen. */
  lemma {:induction false} CodesCompose(pen: Pen, a: seq<int>, b: seq<int>)
    requires Complete(a)
    ensures Codes(pen, a + b) == Codes(Codes(pen, a), b)
    decreases |a|
  {
    if a == [] {
      assert a + b == b;
    } else {
      var code, rest := a[0], a[1..];
      assert (a + b)[1..] == rest + b;
      if code == 38 || code == 48 {
        var x := ExtendedColor(rest);
        assert ExtendedColor(rest + b) == x;
        assert (rest + b)[x.consumed..] == rest[x.consumed..] + b;
        CodesCompose(if code == 38 then pen.(fg := x.color) else pen.(bg := x.color), rest[x.consumed..], b);
      } else {
        CodesCompose(SingleCode(pen, code), rest, b);
      }
    }
  }

  /** A reset anywhere at top level forgets every earlier code and the pen itself. */
  lemma ResetForgets(pen: Pen, a: seq<int>, b: seq<int>)
    requires Complete(a)
    ensures Codes(pen, a + [0] + b) == Codes(DEFAULT_PEN, b)
  {
    assert a + [0] + b == a + ([0] + b);
    CodesCompose(pen, a, [0] + b);
    assert ([0] + b)[1..] == b;
  }
}
