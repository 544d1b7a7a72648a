/** The shared vocabulary of the terminal: bytes, cells, colours and the rendered screen
    (internal/agent/domain/terminal/screen.go), and Go's 64-bit `int` arithmetic. */
module Terminal {

  type byte = x: int | 0 <= x < 256

  const COLOR_DEFAULT := 0
  const TRUECOLOR_FLAG := 0x100_0000

  /** A cell colour is the default, a palette index plus one, or a flagged 24-bit RGB value. */
  predicate IsColor(c: int) {
    0 <= c <= 256 || TRUECOLOR_FLAG <= c < 2 * TRUECOLOR_FLAG
  }

  /** A Unicode scalar value: a code point that is not a surrogate. */
  predicate IsScalar(r: int) {
    0 <= r < 0xD800 || 0xE000 <= r < 0x11_0000
  }

  /** The SGR pen: the style given to the characters printed next. */
  datatype Pen = Pen(fg: int, bg: int, attrs: bv16) {
    /** Only the eight documented attribute bits are ever set. */
    predicate Ok() {
      IsColor(fg) && IsColor(bg) && attrs & 0xFF00 == 0
    }
  }

  const DEFAULT_PEN := Pen(COLOR_DEFAULT, COLOR_DEFAULT, 0)

  datatype Cell = Cell(ch: int, style: Pen) {
    predicate Ok() {
      IsScalar(ch) && style.Ok()
    }
  }

  const SPACE := 0x20
  const BLANK := Cell(SPACE, DEFAULT_PEN)

  datatype Cursor = Cursor(x: int, y: int, visible: bool)

  /** An immutable snapshot of the visible grid. */
  datatype Screen = Screen(cols: int, rows: int, cursor: Cursor, cells: seq<seq<Cell>>)

  /** Division with remainder by a positive divisor is unique. */
  lemma DivMod(m: int, q: int, d: int)
    requires m > 0 && 0 <= d < m
    ensures (q * m + d) / m == q && (q * m + d) % m == d
  {
    var x := q * m + d;
    var k := x / m - q;
    assert k * m == d - x % m;
  }

  // ---------- Go's int ----------

  const TWO63 := 0x8000_0000_0000_0000
  const TWO64 := 0x1_0000_0000_0000_0000

  /** Two's-complement reduction to 64 bits. */
  function Wrap64(x: int): (r: int)
    ensures -TWO63 <= r < TWO63
    ensures -TWO63 <= x < TWO63 ==> r == x
  {
    (x + TWO63) % TWO64 - TWO63
  }

  /** Reduction may be postponed past a multiply-and-add step. */
  lemma WrapStep(x: int, d: int)
    ensures Wrap64(Wrap64(x) * 10 + d) == Wrap64(x * 10 + d)
  {
    var k := (x + TWO63) / TWO64;
    var y := x * 10 + d + TWO63;
    assert Wrap64(x) == x - k * TWO64;
    var q, r := y / TWO64, y % TWO64;
    assert Wrap64(x) * 10 + d + TWO63 == (q - 10 * k) * TWO64 + r;
    DivMod(TWO64, q - 10 * k, r);
  }
}
