/** The byte and text encodings the service applies to what it sends:
    `Encoding.ASCII`, Base64 (section 4 of RFC 4648), UTF-8 and the
    percent-encoding of `Uri.EscapeDataString` (section 2 of RFC 3986). */
module Encoding {
  import opened Text

  type Byte = x: int | 0 <= x < 256

  // ---------------------------------------------------------------------
  // Encoding.ASCII

  /** `Encoding.ASCII.GetBytes`: one byte per UTF-16 code unit of the
      string, the unit itself below U+0080 and '?' otherwise.  ASCII text
      gives its codes; a character beyond U+FFFF, two units long, gives two
      '?' bytes. */
  function AsciiBytes(s: string): (r: seq<Byte>)
    ensures |r| == |Utf16(s)| && |r| >= |s|
    ensures forall i :: 0 <= i < |r| ==> r[i] < 0x80
    ensures forall i :: 0 <= i < |r| ==> (r[i] == Utf16(s)[i] <==> Utf16(s)[i] < 0x80)
    ensures IsBmp(s) ==> |r| == |s| && forall i :: 0 <= i < |s| && s[i] as int < 0x80 ==> r[i] == s[i] as int
  {
    var units := Utf16(s);
    seq(|units|, i requires 0 <= i < |units| => if units[i] < 0x80 then units[i] else '?' as int)
  }

  predicate IsAscii(s: string) {
    forall i :: 0 <= i < |s| ==> s[i] as int < 0x80
  }

  /** The text of ASCII bytes. */
  function AsciiText(bs: seq<Byte>): (r: string)
    requires forall i :: 0 <= i < |bs| ==> bs[i] < 0x80
    ensures |r| == |bs|
  {
    seq(|bs|, i requires 0 <= i < |bs| => bs[i] as char)
  }

  lemma AsciiRoundTrip(s: string)
    requires IsAscii(s)
    ensures AsciiText(AsciiBytes(s)) == s
  {
    assert IsBmp(s);
  }

  /** Two different non-ASCII texts of the same length give the same bytes. */
  lemma AsciiLosesLetters()
    ensures AsciiBytes("пароль") == AsciiBytes("секрет")
    ensures "пароль" != "секрет"
  {
    assert "пароль"[0] != "секрет"[0];
  }

  /** A character beyond U+FFFF is two UTF-16 units and so two '?' bytes. */
  lemma AsciiOfSupplementary()
    ensures AsciiBytes("\U{1F600}") == ['?' as int, '?' as int]
  {
    assert Utf16("\U{1F600}") == [0xD83D, 0xDE00];
  }

  // ---------------------------------------------------------------------
  // Base64

  /** The character of a six-bit value in the standard alphabet. */
  function Digit64(v: int): (c: char)
    requires 0 <= v < 64
    ensures IsDigit64(c)
  {
    if v < 26 then ('A' as int + v) as char
    else if v < 52 then ('a' as int + v - 26) as char
    else if v < 62 then ('0' as int + v - 52) as char
    else if v == 62 then '+'
    else '/'
  }

  predicate IsDigit64(c: char) {
    'A' <= c <= 'Z' || 'a' <= c <= 'z' || '0' <= c <= '9' || c == '+' || c == '/'
  }

  /** The six-bit value of a character of the alphabet. */
  function Value64(c: char): (v: int)
    requires IsDigit64(c)
    ensures 0 <= v < 64
  {
    if 'A' <= c <= 'Z' then c as int - 'A' as int
    else if 'a' <= c <= 'z' then c as int - 'a' as int + 26
    else if '0' <= c <= '9' then c as int - '0' as int + 52
    else if c == '+' then 62
    else 63
  }

  lemma Digit64Inverse(v: int)
    requires 0 <= v < 64
    ensures IsDigit64(Digit64(v)) && Value64(Digit64(v)) == v
  {
  }

  /** Marks a padding position among the six-bit values. */
  const Pad := 64

  /** A group of four six-bit values or paddings. */
  predicate IsQuad(q: seq<int>) {
    |q| == 4 && 0 <= q[0] < Pad && 0 <= q[1] < Pad && 0 <= q[2] <= Pad && 0 <= q[3] <= Pad
  }

  /** The group of one last byte: two values and two paddings. */
  function SplitOne(x: Byte): (q: seq<int>)
    ensures IsQuad(q) && q[2] == Pad && q[3] == Pad
  {
    [x / 4, x % 4 * 16, Pad, Pad]
  }

  /** The group of two last bytes: three values and one padding. */
  function SplitTwo(x: Byte, y: Byte): (q: seq<int>)
    ensures IsQuad(q) && q[2] < Pad && q[3] == Pad
  {
    [x / 4, x % 4 * 16 + y / 16, y % 16 * 4, Pad]
  }

  /** The group of three bytes: four values. */
  function SplitThree(x: Byte, y: Byte, z: Byte): (q: seq<int>)
    ensures IsQuad(q) && q[2] < Pad && q[3] < Pad
  {
    [x / 4, x % 4 * 16 + y / 16, y % 16 * 4 + z / 64, z % 64]
  }

  /** The six-bit values `Convert.ToBase64String` writes for `bs`, with
      `Pad` where the last group is padded with '='. */
  function Sextets(bs: seq<Byte>): (r: seq<int>)
    ensures forall i :: 0 <= i < |r| ==> 0 <= r[i] <= Pad
    decreases |bs|
  {
    if |bs| == 0 then []
    else if |bs| == 1 then SplitOne(bs[0])
    else if |bs| == 2 then SplitTwo(bs[0], bs[1])
    else SplitThree(bs[0], bs[1], bs[2]) + Sextets(bs[3..])
  }

  /** The character of a six-bit value or of the padding. */
  function Char64(v: int): (c: char)
    requires 0 <= v <= Pad
    ensures IsDigit64(c) || c == '='
  {
    if v == Pad then '=' else Digit64(v)
  }

  /** `Convert.ToBase64String`: every three bytes become four characters of
      the standard alphabet, and the last group is padded with '='. */
  function Base64(bs: seq<Byte>): (r: string)
    ensures forall i :: 0 <= i < |r| ==> IsDigit64(r[i]) || r[i] == '='
  {
    var vs := Sextets(bs);
    seq(|vs|, i requires 0 <= i < |vs| => Char64(vs[i]))
  }

  datatype Option64 = Malformed | Bytes(bytes: seq<Byte>)

  /** The six-bit value of a character, `Pad` for '=', -1 outside the alphabet. */
  function Unchar(c: char): (v: int)
    ensures -1 <= v <= Pad
  {
    if c == '=' then Pad else if IsDigit64(c) then Value64(c) else -1
  }

  /** The byte of a last group `a b = =`. */
  function JoinOne(a: int, b: int): seq<Byte>
    requires 0 <= a < Pad && 0 <= b < Pad
  {
    [a * 4 + b / 16]
  }

  /** The bytes of a last group `a b c =`. */
  function JoinTwo(a: int, b: int, c: int): seq<Byte>
    requires 0 <= a < Pad && 0 <= b < Pad && 0 <= c < Pad
  {
    [a * 4 + b / 16, b % 16 * 16 + c / 4]
  }

  /** The bytes of a full group `a b c d`. */
  function JoinThree(a: int, b: int, c: int, d: int): seq<Byte>
    requires 0 <= a < Pad && 0 <= b < Pad && 0 <= c < Pad && 0 <= d < Pad
  {
    [a * 4 + b / 16, b % 16 * 16 + c / 4, c % 4 * 64 + d]
  }

  /** Decoding of six-bit values: groups of four, padding only at the end. */
  function DecodeSextets(vs: seq<int>): Option64
    decreases |vs|
  {
    if |vs| == 0 then Bytes([])
    else if |vs| < 4 || !(0 <= vs[0] < Pad) || !(0 <= vs[1] < Pad) then Malformed
    else if |vs| == 4 && vs[2] == Pad && vs[3] == Pad then Bytes(JoinOne(vs[0], vs[1]))
    else if !(0 <= vs[2] < Pad) then Malformed
    else if |vs| == 4 && vs[3] == Pad then Bytes(JoinTwo(vs[0], vs[1], vs[2]))
    else if !(0 <= vs[3] < Pad) then Malformed
    else
      var rest := DecodeSextets(vs[4..]);
      if rest.Malformed? then Malformed else Bytes(JoinThree(vs[0], vs[1], vs[2], vs[3]) + rest.bytes)
  }

  /** The six-bit values of the characters of `s`. */
  function Unchars(s: string): (r: seq<int>)
    ensures |r| == |s| && forall i :: 0 <= i < |s| ==> r[i] == Unchar(s[i])
  {
    seq(|s|, i requires 0 <= i < |s| => Unchar(s[i]))
  }

  /** Base64 decoding of padded text in the standard alphabet (section 4 of
      RFC 4648); `Malformed` for anything else. */
  function FromBase64(s: string): Option64 {
    DecodeSextets(Unchars(s))
  }

  /** Reading the characters back gives the six-bit values. */
  lemma UncharsOfBase64(bs: seq<Byte>)
    ensures Unchars(Base64(bs)) == Sextets(bs)
  {
    var vs := Sextets(bs);
    forall i | 0 <= i < |vs|
      ensures Unchar(Char64(vs[i])) == vs[i]
    {
      if vs[i] < Pad {
        Digit64Inverse(vs[i]);
      }
    }
  }

  lemma JoinOneSplit(x: Byte)
    ensures var q := SplitOne(x); JoinOne(q[0], q[1]) == [x]
  {
  }

  lemma JoinTwoSplit(x: Byte, y: Byte)
    ensures var q := SplitTwo(x, y); JoinTwo(q[0], q[1], q[2]) == [x, y]
  {
  }

  lemma JoinThreeSplit(x: Byte, y: Byte, z: Byte)
    ensures var q := SplitThree(x, y, z); JoinThree(q[0], q[1], q[2], q[3]) == [x, y, z]
  {
  }

  /** A last group decodes by its paddings. */
  lemma DecodeLast(q: seq<int>)
    requires IsQuad(q) && q[3] == Pad
    ensures q[2] == Pad ==> DecodeSextets(q) == Bytes(JoinOne(q[0], q[1]))
    ensures q[2] < Pad ==> DecodeSextets(q) == Bytes(JoinTwo(q[0], q[1], q[2]))
  {
  }

  /** A full group in front of values that decode. */
  lemma DecodeFull(q: seq<int>, t: seq<int>)
    requires IsQuad(q) && q[2] < Pad && q[3] < Pad
    requires DecodeSextets(t).Bytes?
    ensures DecodeSextets(q + t) == Bytes(JoinThree(q[0], q[1], q[2], q[3]) + DecodeSextets(t).bytes)
  {
    assert (q + t)[4..] == t;
  }

  /** The six-bit values decode back to the bytes. */
  lemma {:induction false} SextetsRoundTrip(bs: seq<Byte>)
    ensures DecodeSextets(Sextets(bs)) == Bytes(bs)
    decreases |bs|
  {
    if |bs| == 1 {
      DecodeLast(SplitOne(bs[0]));
      JoinOneSplit(bs[0]);
    } else if |bs| == 2 {
      DecodeLast(SplitTwo(bs[0], bs[1]));
      JoinTwoSplit(bs[0], bs[1]);
    } else if |bs| >= 3 {
      SextetsRoundTrip(bs[3..]);
      DecodeFull(SplitThree(bs[0], bs[1], bs[2]), Sextets(bs[3..]));
      JoinThreeSplit(bs[0], bs[1], bs[2]);
      assert bs == [bs[0], bs[1], bs[2]] + bs[3..];
    }
  }

  /** Decoding undoes `Convert.ToBase64String`. */
  lemma Base64RoundTrip(bs: seq<Byte>)
    ensures FromBase64(Base64(bs)) == Bytes(bs)
  {
    UncharsOfBase64(bs);
    SextetsRoundTrip(bs);
  }

  /** Four characters for every started group of three bytes. */
  lemma {:induction false} Base64Length(bs: seq<Byte>)
    ensures |Base64(bs)| == 4 * ((|bs| + 2) / 3)
    decreases |bs|
  {
    if |bs| >= 3 {
      Base64Length(bs[3..]);
      assert (|bs| + 2) / 3 == (|bs[3..]| + 2) / 3 + 1;
    }
  }

  // ---------------------------------------------------------------------
  // UTF-8 and Uri.EscapeDataString

  /** The UTF-8 bytes of one Unicode scalar value. */
  function Utf8(c: char): (r: seq<Byte>)
    ensures 1 <= |r| <= 4
    ensures (|r| == 1) == (c as int < 0x80)
  {
    var n := c as int;
    if n < 0x80 then [n]
    else if n < 0x800 then [0xC0 + n / 64, 0x80 + n % 64]
    else if n < 0x1_0000 then [0xE0 + n / 4096, 0x80 + n / 64 % 64, 0x80 + n % 64]
    else [0xF0 + n / 262144, 0x80 + n / 4096 % 64, 0x80 + n / 64 % 64, 0x80 + n % 64]
  }

  /** The characters `EscapeDataString` leaves alone. */
  predicate IsUnreserved(c: char) {
    'A' <= c <= 'Z' || 'a' <= c <= 'z' || '0' <= c <= '9' || c == '-' || c == '_' || c == '.' || c == '~'
  }

  predicate IsHexUpper(c: char) {
    '0' <= c <= '9' || 'A' <= c <= 'F'
  }

  function HexDigit(v: int): (c: char)
    requires 0 <= v < 16
    ensures IsHexUpper(c)
  {
    if v < 10 then ('0' as int + v) as char else ('A' as int + v - 10) as char
  }

  /** "%XY" for each byte. */
  function PercentEncode(bs: seq<Byte>): (r: string)
    ensures |r| == 3 * |bs|
    ensures forall i :: 0 <= i < |r| ==> r[i] == '%' || IsHexUpper(r[i])
    decreases |bs|
  {
    if |bs| == 0 then ""
    else ['%', HexDigit(bs[0] / 16), HexDigit(bs[0] % 16)] + PercentEncode(bs[1..])
  }

  /** `Uri.EscapeDataString`: unreserved characters as they are, every other
      character as its percent-encoded UTF-8 bytes. */
  function EscapeDataString(s: string): (r: string)
    ensures |r| >= |s|
    ensures forall i :: 0 <= i < |r| ==> IsUnreserved(r[i]) || r[i] == '%'
    decreases |s|
  {
    if |s| == 0 then ""
    else (if IsUnreserved(s[0]) then [s[0]] else PercentEncode(Utf8(s[0]))) + EscapeDataString(s[1..])
  }

  /** An escaped name never holds a path or query delimiter. */
  lemma EscapedHasNoDelimiter(s: string)
    ensures '/' !in EscapeDataString(s) && '?' !in EscapeDataString(s) && '#' !in EscapeDataString(s)
  {
  }

  /** A name made of unreserved characters goes into the path unchanged. */
  lemma {:induction false} EscapeKeepsUnreserved(s: string)
    requires forall i :: 0 <= i < |s| ==> IsUnreserved(s[i])
    ensures EscapeDataString(s) == s
    decreases |s|
  {
    if |s| > 0 {
      EscapeKeepsUnreserved(s[1..]);
      assert s == [s[0]] + s[1..];
    }
  }
}
