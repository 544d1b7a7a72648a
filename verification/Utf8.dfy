/** UTF-8 as section 3 of RFC 3629 defines it, and the decoder the emulator calls on it. */
module Utf8 {
  import opened Terminal

  const RUNE_ERROR := 0xFFFD

  datatype Decoded = Decoded(rune: int, size: int)

  /** The RFC 3629 encoding of a scalar value. */
  function Encode(r: int): (s: seq<byte>)
    requires IsScalar(r)
    ensures 1 <= |s| <= 4
    ensures r < 0x80 <==> s[0] < 0x80
    ensures forall i :: 1 <= i < |s| ==> 0x80 <= s[i] < 0xC0
  {
    var a, b, c := r / 64, r / 64 / 64, r / 64 / 64 / 64;
    if r < 0x80 then [r]
    else if r < 0x800 then [0xC0 + a, 0x80 + r % 64]
    else if r < 0x1_0000 then [0xE0 + b, 0x80 + a % 64, 0x80 + r % 64]
    else [0xF0 + c, 0x80 + b % 64, 0x80 + a % 64, 0x80 + r % 64]
  }

  /** The length a lead byte promises; 1 for a byte that cannot lead. */
  function RuneLen(b: byte): (n: int)
    ensures 1 <= n <= 4
  {
    if 0xC0 <= b < 0xE0 then 2
    else if 0xE0 <= b < 0xF0 then 3
    else if 0xF0 <= b < 0xF8 then 4
    else 1
  }

  /** The range the second byte must fall in, which excludes overlong forms, surrogates and
      values past U+10FFFF. */
  predicate SecondOk(lead: byte, b: byte) {
    && 0x80 <= b < 0xC0
    && (lead == 0xE0 ==> 0xA0 <= b)
    && (lead == 0xED ==> b < 0xA0)
    && (lead == 0xF0 ==> 0x90 <= b)
    && (lead == 0xF4 ==> b < 0x90)
  }

  predicate Continuation(b: byte) {
    0x80 <= b < 0xC0
  }

  /** Go's utf8.DecodeRune: the first rune of `s` and its width, with (RUNE_ERROR, 1) both for a
      bad encoding and for a truncated one. */
  function DecodeRune(s: seq<byte>): (d: Decoded)
    ensures IsScalar(d.rune)
  {
    var bad := Decoded(RUNE_ERROR, 1);
    if |s| == 0 then Decoded(RUNE_ERROR, 0)
    else if s[0] < 0x80 then Decoded(s[0], 1)
    else if s[0] < 0xC2 || s[0] > 0xF4 || |s| < RuneLen(s[0]) || !SecondOk(s[0], s[1]) then bad
    else
      var b0: int, b1: int := s[0], s[1] - 0x80;
      if b0 < 0xE0 then Decoded((b0 - 0xC0) * 64 + b1, 2)
      else if !Continuation(s[2]) then bad
      else
        var b2: int := s[2] - 0x80;
        if b0 < 0xF0 then Decoded(((b0 - 0xE0) * 64 + b1) * 64 + b2, 3)
        else if !Continuation(s[3]) then bad
        else Decoded((((b0 - 0xF0) * 64 + b1) * 64 + b2) * 64 + (s[3] - 0x80), 4)
  }

  /** The bits of the rune, six to a continuation byte, and how many bytes it takes. */
  lemma EncodeIs(r: int)
    requires IsScalar(r)
    ensures var s := Encode(r);
            && |s| == (if r < 0x80 then 1 else if r < 0x800 then 2 else if r < 0x1_0000 then 3 else 4)
            && (|s| == 1 ==> s[0] == r)
            && (|s| == 2 ==> Bits(s[0], 0xC0) * 64 + Bits(s[1], 0x80) == r)
            && (|s| == 3 ==> (Bits(s[0], 0xE0) * 64 + Bits(s[1], 0x80)) * 64 + Bits(s[2], 0x80) == r)
            && (|s| == 4 ==>
                  ((Bits(s[0], 0xF0) * 64 + Bits(s[1], 0x80)) * 64 + Bits(s[2], 0x80)) * 64 + Bits(s[3], 0x80) == r)
  {
  }

  /** What a byte holds besides its marker. */
  function Bits(b: int, marker: int): int { b - marker }

  /** Decoding inverts encoding, and a lead byte promises exactly the encoded length. */
  lemma DecodeEncode(r: int)
    requires IsScalar(r)
    ensures DecodeRune(Encode(r)) == Decoded(r, |Encode(r)|)
    ensures RuneLen(Encode(r)[0]) == |Encode(r)|
  {
  }

  /** Encoding inverts decoding: an accepted byte string is the one encoding of its rune. */
  lemma EncodeDecode(s: seq<byte>)
    requires s != [] && |s| == DecodeRune(s).size && DecodeRune(s) != Decoded(RUNE_ERROR, 1)
    ensures Encode(DecodeRune(s).rune) == s
  {
    if |s| == 2 {
      EncodeDecode2(s);
    } else if |s| == 3 {
      EncodeDecode3(s);
    } else if |s| == 4 {
      EncodeDecode4(s);
    }
  }

  lemma EncodeDecode2(s: seq<byte>)
    requires |s| == 2 == DecodeRune(s).size
    ensures Encode(DecodeRune(s).rune) == s
  {
    DivMod(64, s[0] - 0xC0, s[1] - 0x80);
  }

  lemma EncodeDecode3(s: seq<byte>)
    requires |s| == 3 == DecodeRune(s).size
    ensures Encode(DecodeRune(s).rune) == s
  {
    var lead: int := s[0] - 0xE0;
    DivMod(64, lead * 64 + (s[1] - 0x80), s[2] - 0x80);
    DivMod(64, lead, s[1] - 0x80);
  }

  lemma EncodeDecode4(s: seq<byte>)
    requires |s| == 4 == DecodeRune(s).size
    ensures Encode(DecodeRune(s).rune) == s
  {
    var lead: int := s[0] - 0xF0;
    var top := lead * 64 + (s[1] - 0x80);
    DivMod(64, top * 64 + (s[2] - 0x80), s[3] - 0x80);
    DivMod(64, top, s[2] - 0x80);
    DivMod(64, lead, s[1] - 0x80);
  }

  /** A strict prefix of a multibyte encoding still asks for more bytes. */
  lemma PrefixIncomplete(r: int, k: int)
    requires IsScalar(r) && 0 < k < |Encode(r)|
    ensures DecodeRune(Encode(r)[..k]) == Decoded(RUNE_ERROR, 1)
    ensures k < RuneLen(Encode(r)[..k][0])
  {
    DecodeEncode(r);
  }
}
