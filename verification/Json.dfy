/** JSON values as `System.Text.Json.JsonElement` exposes them: a kind, the
    text of a number, the characters of a string, the ordered properties of
    an object (duplicates kept, as `EnumerateObject` yields them). */
module Json {
  import opened Wrappers
  import opened Text

  datatype JsonValue =
    | JNull
    | JBool(b: bool)
    | JNumber(literal: string)
    | JString(s: string)
    | JArray(items: seq<JsonValue>)
    | JObject(properties: seq<Property>)

  datatype Property = Property(name: string, value: JsonValue)

  /** `JsonValueKind`; `Undefined` is the kind of a property that was absent. */
  datatype ValueKind = Undefined | Object | Array | String | Number | True | False | Null

  function KindOf(v: JsonValue): (k: ValueKind)
    ensures k != Undefined
    ensures k == Array <==> v.JArray?
    ensures k == Object <==> v.JObject?
    ensures k == Null <==> v.JNull?
  {
    match v
    case JNull => Null
    case JBool(b) => if b then True else False
    case JNumber(_) => Number
    case JString(_) => String
    case JArray(_) => Array
    case JObject(_) => Object
  }

  /** The enum member's name, as `{kind}` interpolates it. */
  function KindName(k: ValueKind): string {
    match k
    case Undefined => "Undefined"
    case Object => "Object"
    case Array => "Array"
    case String => "String"
    case Number => "Number"
    case True => "True"
    case False => "False"
    case Null => "Null"
  }

  /** A string literal as the writer spells it: the characters escaped and
      enclosed in quotes.  Its inside reads back, by the string grammar of
      RFC 8259 section 7, as exactly `s`, and it holds no character the
      encoder escapes. */
  function Quote(s: string): (r: string)
    ensures |r| >= 2 && r[0] == '"' && r[|r| - 1] == '"'
    ensures Unescape(r[1..|r| - 1]) == Some(s)
    ensures forall i :: 0 <= i < |r| ==> !MustEscape(r[i])
  {
    EscapeRoundTrip(s);
    var r := "\"" + Escape(s) + "\"";
    assert r[1..|r| - 1] == Escape(s);
    r
  }

  /** An upper-case hexadecimal digit. */
  function HexChar(d: int): (c: char)
    requires 0 <= d < 16
    ensures IsHex(c)
  {
    "0123456789ABCDEF"[d]
  }

  /** A space separator (Unicode category Zs) other than U+0020. */
  predicate IsSpaceSeparator(c: char) {
    c == '\U{00A0}' || c == '\U{1680}' || '\U{2000}' <= c <= '\U{200A}'
    || c == '\U{202F}' || c == '\U{205F}' || c == '\U{3000}'
  }

  /** The characters `JavaScriptEncoder.UnsafeRelaxedJsonEscaping` never
      writes as themselves, besides the quote and the backslash: the controls
      (category Cc, U+0000-U+001F and U+007F-U+009F), the space separators
      other than U+0020, the line and paragraph separators, the private-use
      characters of the Basic Multilingual Plane, and every character beyond
      it. */
  predicate MustEscape(c: char) {
    c < ' ' || '\U{007F}' <= c <= '\U{009F}' || IsSpaceSeparator(c)
    || c == '\U{2028}' || c == '\U{2029}' || '\U{E000}' <= c <= '\U{F8FF}'
    || c as int >= 0x10000
  }

  /** `\uXXXX` for one UTF-16 code unit, in upper-case hexadecimal. */
  function HexEscape(u: int): (r: string)
    requires 0 <= u < 0x10000
    ensures |r| == 6 && r[0] == '\\' && r[1] == 'u' && forall i :: 2 <= i < 6 ==> IsHex(r[i])
    ensures forall i :: 0 <= i < |r| ==> !MustEscape(r[i])
  {
    var d0, u1 := u % 16, u / 16;
    var d1, u2 := u1 % 16, u1 / 16;
    var d2, d3 := u2 % 16, u2 / 16;
    "\\u" + [HexChar(d3), HexChar(d2), HexChar(d1), HexChar(d0)]
  }

  /** How the writer spells one character inside a string: the quote and the
      backslash after a backslash; backspace, tab, line feed, form feed and
      carriage return by their short escapes; any other character it must
      escape as `\uXXXX`, a character beyond U+FFFF as the escapes of its
      surrogate pair; anything else as itself. */
  function EscapeChar(c: char): (r: string)
    ensures |r| > 0
    ensures forall i :: 0 <= i < |r| ==> !MustEscape(r[i])
    ensures r == [c] <==> !MustEscape(c) && c != '"' && c != '\\'
  {
    if c as int >= 0x10000 then PairEscape(c)
    else if c == '"' then "\\\""
    else if c == '\\' then "\\\\"
    else if c == '\U{0008}' then "\\b"
    else if c == '\t' then "\\t"
    else if c == '\n' then "\\n"
    else if c == '\U{000C}' then "\\f"
    else if c == '\r' then "\\r"
    else if MustEscape(c) then HexEscape(c as int)
    else [c]
  }

  /** A character beyond U+FFFF as the escapes of its surrogate pair. */
  function PairEscape(c: char): (r: string)
    requires c as int >= 0x10000
    ensures |r| == 12 && forall i :: 0 <= i < |r| ==> !MustEscape(r[i])
  {
    var units := CodeUnits(c);
    NothingToEscapeJoin(HexEscape(units[0]), HexEscape(units[1]));
    HexEscape(units[0]) + HexEscape(units[1])
  }

  lemma NothingToEscapeJoin(a: string, b: string)
    requires forall i :: 0 <= i < |a| ==> !MustEscape(a[i])
    requires forall i :: 0 <= i < |b| ==> !MustEscape(b[i])
    ensures forall i :: 0 <= i < |a + b| ==> !MustEscape((a + b)[i])
  {
  }

  function Escape(s: string): (r: string)
    ensures forall i :: 0 <= i < |r| ==> !MustEscape(r[i])
    decreases |s|
  {
    if |s| == 0 then ""
    else
      NothingToEscapeJoin(EscapeChar(s[0]), Escape(s[1..]));
      EscapeChar(s[0]) + Escape(s[1..])
  }

  // ---------------------------------------------------------------------
  // Reading a string's inside back (RFC 8259 section 7), the partner of
  // `Escape`

  predicate IsHex(c: char) {
    '0' <= c <= '9' || 'A' <= c <= 'F' || 'a' <= c <= 'f'
  }

  function HexValue(c: char): (d: nat)
    requires IsHex(c)
    ensures d < 16
  {
    if '0' <= c <= '9' then c as int - '0' as int
    else if 'A' <= c <= 'F' then c as int - 'A' as int + 10
    else c as int - 'a' as int + 10
  }

  /** The character a two-character escape `\x` stands for. */
  function ShortEscaped(x: char): Option<char> {
    if x == '"' then Some('"')
    else if x == '\\' then Some('\\')
    else if x == '/' then Some('/')
    else if x == 'b' then Some('\U{0008}')
    else if x == 'f' then Some('\U{000C}')
    else if x == 'n' then Some('\n')
    else if x == 'r' then Some('\r')
    else if x == 't' then Some('\t')
    else None
  }

  function Prepend(c: char, rest: Option<string>): Option<string> {
    if rest.None? then None else Some([c] + rest.value)
  }

  /** The code unit a `\uXXXX` escape at the start of `t` stands for. */
  function HexUnit(t: string): (r: Option<int>)
    ensures r.Some? ==> |t| >= 6 && 0 <= r.value < 0x10000
  {
    if |t| < 6 || t[0] != '\\' || t[1] != 'u' || !IsHex(t[2]) || !IsHex(t[3]) || !IsHex(t[4]) || !IsHex(t[5]) then None
    else Some(4096 * HexValue(t[2]) + 256 * HexValue(t[3]) + 16 * HexValue(t[4]) + HexValue(t[5]))
  }

  /** The characters the inside of a string literal stands for; `None` when
      it holds an unescaped quote or control character, an unknown escape,
      or a `\u` escape of a surrogate that is not a high surrogate followed
      by an escaped low one. */
  function Unescape(t: string): Option<string>
    decreases |t|
  {
    if |t| == 0 then Some("")
    else if t[0] == '"' || t[0] < ' ' then None
    else if t[0] != '\\' then Prepend(t[0], Unescape(t[1..]))
    else if |t| < 2 then None
    else if t[1] == 'u' then
      var hi := HexUnit(t);
      if hi.None? || 0xDC00 <= hi.value < 0xE000 then None
      else if hi.value < 0xD800 || 0xE000 <= hi.value then Prepend(hi.value as char, Unescape(t[6..]))
      else
        var lo := HexUnit(t[6..]);
        if lo.None? || !(0xDC00 <= lo.value < 0xE000) then None
        else Prepend((0x10000 + (hi.value - 0xD800) * 0x400 + (lo.value - 0xDC00)) as char, Unescape(t[12..]))
    else
      match ShortEscaped(t[1])
      case None => None
      case Some(c) => Prepend(c, Unescape(t[2..]))
  }

  lemma HexDigitRead(d: int)
    requires 0 <= d < 16
    ensures IsHex(HexChar(d)) && HexValue(HexChar(d)) == d
  {
  }

  /** A `\uXXXX` escape reads back as its code unit, and reading goes on
      after its six characters. */
  lemma HexEscapeRead(u: int, rest: string)
    requires 0 <= u < 0x10000
    ensures HexUnit(HexEscape(u) + rest) == Some(u)
    ensures (HexEscape(u) + rest)[6..] == rest
  {
    var d0, u1 := u % 16, u / 16;
    var d1, u2 := u1 % 16, u1 / 16;
    var d2, d3 := u2 % 16, u2 / 16;
    HexDigitRead(d0);
    HexDigitRead(d1);
    HexDigitRead(d2);
    HexDigitRead(d3);
    var t := HexEscape(u) + rest;
    assert t[2] == HexChar(d3) && t[3] == HexChar(d2) && t[4] == HexChar(d1) && t[5] == HexChar(d0);
    assert 4096 * d3 + 256 * d2 + 16 * d1 + d0 == u;
  }

  /** An escaped code unit outside the surrogates reads back as its character. */
  lemma UnescapeUnit(u: int, rest: string)
    requires 0 <= u < 0xD800 || 0xE000 <= u < 0x10000
    ensures Unescape(HexEscape(u) + rest) == Prepend(u as char, Unescape(rest))
  {
    HexEscapeRead(u, rest);
  }

  /** An escaped surrogate pair reads back as the character it encodes. */
  lemma UnescapePair(hi: int, lo: int, rest: string)
    requires 0xD800 <= hi < 0xDC00 && 0xDC00 <= lo < 0xE000
    ensures Unescape(HexEscape(hi) + HexEscape(lo) + rest)
         == Prepend((0x10000 + (hi - 0xD800) * 0x400 + (lo - 0xDC00)) as char, Unescape(rest))
  {
    var tail := HexEscape(lo) + rest;
    var t := HexEscape(hi) + HexEscape(lo) + rest;
    assert t == HexEscape(hi) + tail;
    HexEscapeRead(hi, tail);
    HexEscapeRead(lo, rest);
    assert t[6..] == tail && t[12..] == rest;
  }

  lemma UnescapePairChar(c: char, rest: string)
    requires c as int >= 0x10000
    ensures Unescape(PairEscape(c) + rest) == Prepend(c, Unescape(rest))
  {
    var units := CodeUnits(c);
    assert PairEscape(c) == HexEscape(units[0]) + HexEscape(units[1]);
    UnescapePair(units[0], units[1], rest);
  }

  predicate HasShortEscape(c: char) {
    c == '"' || c == '\\' || c == '\U{0008}' || c == '\t' || c == '\n' || c == '\U{000C}' || c == '\r'
  }

  lemma UnescapeShortChar(c: char, rest: string)
    requires HasShortEscape(c)
    ensures Unescape(EscapeChar(c) + rest) == Prepend(c, Unescape(rest))
  {
    var t := EscapeChar(c) + rest;
    assert t[2..] == rest;
  }

  lemma UnescapeUnitChar(c: char, rest: string)
    requires !HasShortEscape(c) && MustEscape(c) && c as int < 0x10000
    ensures Unescape(EscapeChar(c) + rest) == Prepend(c, Unescape(rest))
  {
    assert EscapeChar(c) == HexEscape(c as int);
    UnescapeUnit(c as int, rest);
  }

  /** Reading an escaped character gives the character back and goes on
      with what follows it. */
  lemma UnescapeChar(c: char, rest: string)
    ensures Unescape(EscapeChar(c) + rest) == Prepend(c, Unescape(rest))
  {
    if c as int >= 0x10000 {
      assert EscapeChar(c) == PairEscape(c);
      UnescapePairChar(c, rest);
    } else if HasShortEscape(c) {
      UnescapeShortChar(c, rest);
    } else if MustEscape(c) {
      UnescapeUnitChar(c, rest);
    } else {
      var t := EscapeChar(c) + rest;
      assert t[1..] == rest;
    }
  }

  /** The escape of a code unit given by its four hexadecimal digits. */
  lemma HexEscapeDigits(u: int, d3: int, d2: int, d1: int, d0: int)
    requires 0 <= d3 < 16 && 0 <= d2 < 16 && 0 <= d1 < 16 && 0 <= d0 < 16
    requires u == 4096 * d3 + 256 * d2 + 16 * d1 + d0
    ensures HexEscape(u) == "\\u" + [HexChar(d3), HexChar(d2), HexChar(d1), HexChar(d0)]
  {
    DivMod16(u, 256 * d3 + 16 * d2 + d1, d0);
    DivMod16(u / 16, 16 * d3 + d2, d1);
    DivMod16(u / 16 / 16, d3, d2);
  }

  lemma DivMod16(u: int, q: int, d: int)
    requires 0 <= d < 16 && u == 16 * q + d
    ensures u / 16 == q && u % 16 == d
  {
  }

  /** DEL, a no-break space and a private-use character are written as
      `\uXXXX` escapes. */
  lemma EncoderEscapesBmp()
    ensures EscapeChar('\U{007F}') == "\\u007F"
    ensures EscapeChar('\U{00A0}') == "\\u00A0"
    ensures EscapeChar('\U{E000}') == "\\uE000"
  {
    HexEscapeDigits(0x7F, 0, 0, 7, 15);
    HexEscapeDigits(0xA0, 0, 0, 10, 0);
    HexEscapeDigits(0xE000, 14, 0, 0, 0);
  }

  /** An emoji is written as the escapes of its surrogate pair. */
  lemma EncoderEscapesPair()
    ensures EscapeChar('\U{1F600}') == "\\uD83D\\uDE00"
  {
    assert CodeUnits('\U{1F600}') == [0xD83D, 0xDE00];
    HexEscapeDigits(0xD83D, 13, 8, 3, 13);
    HexEscapeDigits(0xDE00, 13, 14, 0, 0);
  }

  /** Escaping loses nothing: the reader gives back every string the writer
      wrote, so distinct strings are written differently. */
  lemma {:induction false} EscapeRoundTrip(s: string)
    ensures Unescape(Escape(s)) == Some(s)
    decreases |s|
  {
    if |s| > 0 {
      UnescapeChar(s[0], Escape(s[1..]));
      EscapeRoundTrip(s[1..]);
      assert [s[0]] + s[1..] == s;
    }
  }

  /** Compact JSON text of a value, as `JsonSerializer.Serialize` writes it
      without indentation.  A string, array or object can be told from its
      first and last characters. */
  function Write(v: JsonValue): (r: string)
    ensures |r| > 0
    ensures v.JString? ==> r[0] == '"' && r[|r| - 1] == '"'
    ensures v.JArray? ==> r[0] == '[' && r[|r| - 1] == ']'
    ensures v.JObject? ==> r[0] == '{' && r[|r| - 1] == '}'
    decreases v
  {
    match v
    case JNull => "null"
    case JBool(b) => if b then "true" else "false"
    case JNumber(l) => if |l| == 0 then "0" else l
    case JString(s) => Quote(s)
    case JArray(items) =>
      "[" + Join(",", seq(|items|, i requires 0 <= i < |items| => Write(items[i]))) + "]"
    case JObject(ps) =>
      "{" + Join(",", seq(|ps|, i requires 0 <= i < |ps| => Quote(ps[i].name) + ":" + Write(ps[i].value))) + "}"
  }

  /** `JsonElement.ToString()`: a string's characters, a number's text,
      "True"/"False", "" for null, raw text for arrays and objects. */
  function ElementToString(v: JsonValue): string {
    match v
    case JNull => ""
    case JBool(b) => if b then "True" else "False"
    case JNumber(l) => l
    case JString(s) => s
    case _ => Write(v)
  }

  /** The value of the last property named exactly `key`, as a dictionary
      built from the properties (later entries overwrite earlier ones) holds it. */
  function LastValue(props: seq<Property>, key: string): (r: Option<JsonValue>)
    ensures r.Some? <==> exists i :: 0 <= i < |props| && props[i].name == key
    ensures r.Some? ==> exists i :: 0 <= i < |props| && props[i].name == key && props[i].value == r.value
                                    && forall j :: i < j < |props| ==> props[j].name != key
    decreases |props|
  {
    if |props| == 0 then None
    else if props[|props| - 1].name == key then
      var i := |props| - 1;
      assert 0 <= i < |props| && props[i].name == key;
      Some(props[i].value)
    else
      var r := LastValue(props[..|props| - 1], key);
      LastValueInit(props, key, r);
      r
  }

  /** A key absent from the last property is looked up in the others. */
  lemma LastValueInit(props: seq<Property>, key: string, r: Option<JsonValue>)
    requires |props| > 0 && props[|props| - 1].name != key
    requires var init := props[..|props| - 1];
      (r.Some? <==> exists i :: 0 <= i < |init| && init[i].name == key)
      && (r.Some? ==> exists i :: 0 <= i < |init| && init[i].name == key && init[i].value == r.value
                                  && forall j :: i < j < |init| ==> init[j].name != key)
    ensures r.Some? <==> exists i :: 0 <= i < |props| && props[i].name == key
    ensures r.Some? ==> exists i :: 0 <= i < |props| && props[i].name == key && props[i].value == r.value
                                    && forall j :: i < j < |props| ==> props[j].name != key
  {
    var init := props[..|props| - 1];
    if r.Some? {
      var i :| 0 <= i < |init| && init[i].name == key && init[i].value == r.value
               && forall j :: i < j < |init| ==> init[j].name != key;
      assert props[i] == init[i];
      forall j | i < j < |props|
        ensures props[j].name != key
      {
        if j < |init| { assert props[j] == init[j]; }
      }
    } else {
      forall i | 0 <= i < |props|
        ensures props[i].name != key
      {
        if i < |init| { assert props[i] == init[i]; }
      }
    }
  }

  predicate IsDigit(c: char) {
    '0' <= c <= '9'
  }

  predicate AllDigits(s: string) {
    forall i :: 0 <= i < |s| ==> IsDigit(s[i])
  }

  function DigitsValue(ds: string): nat
    requires AllDigits(ds)
    decreases |ds|
  {
    if |ds| == 0 then 0 else 10 * DigitsValue(ds[..|ds| - 1]) + DigitValue(ds[|ds| - 1])
  }

  function DigitValue(c: char): nat
    requires IsDigit(c)
  {
    c as int - '0' as int
  }

  const Int64Min: int := -0x8000_0000_0000_0000
  const Int64Max: int := 0x7FFF_FFFF_FFFF_FFFF

  /** `JsonElement.TryGetInt64`: succeeds when the number's text is an optional
      minus sign followed by decimal digits and its value fits a `long`. */
  function TryGetInt64(literal: string): (r: Option<int>)
    ensures r.Some? ==> Int64Min <= r.value <= Int64Max
  {
    var negative := |literal| > 0 && literal[0] == '-';
    var digits := if negative then literal[1..] else literal;
    if |digits| > 0 && AllDigits(digits) then
      var v: int := if negative then -(DigitsValue(digits) as int) else DigitsValue(digits);
      if Int64Min <= v <= Int64Max then Some(v) else None
    else None
  }

  /** A character other than a digit, past a leading minus sign, makes the
      text no `long`. */
  lemma NotInt64(literal: string, j: nat)
    requires j < |literal| && !IsDigit(literal[j]) && !(j == 0 && literal[0] == '-')
    ensures TryGetInt64(literal).None?
  {
    if |literal| > 0 && literal[0] == '-' {
      var digits := literal[1..];
      assert digits[j - 1] == literal[j];
      assert !AllDigits(digits);
    } else {
      assert !AllDigits(literal);
    }
  }

  lemma {:induction false} DigitsOfNat(n: nat)
    ensures DigitsValue(NatToString(n)) == n
  {
    if n >= 10 {
      DigitsOfNat(n / 10);
      var s := NatToString(n);
      assert s[..|s| - 1] == NatToString(n / 10);
    }
  }

  /** The reading of an optional minus sign followed by digits. */
  lemma ReadSigned(literal: string, negative: bool, ds: string)
    requires |ds| > 0 && AllDigits(ds)
    requires literal == if negative then "-" + ds else ds
    ensures var v := if negative then -(DigitsValue(ds) as int) else DigitsValue(ds);
      TryGetInt64(literal) == if Int64Min <= v <= Int64Max then Some(v) else None
  {
    if negative {
      assert literal[1..] == ds;
    } else {
      assert IsDigit(ds[0]);
    }
  }

  /** A `long` written in decimal reads back as the same `long`. */
  lemma Int64RoundTrip(n: int)
    requires Int64Min <= n <= Int64Max
    ensures TryGetInt64(IntToString(n)) == Some(n)
  {
    IntToStringSign(n);
    var m: nat := if n < 0 then -n else n;
    DigitsOfNat(m);
    ReadSigned(IntToString(n), n < 0, NatToString(m));
  }

  /** The integer form of a number in RFC 8259 section 6: an optional minus
      sign, then "0" or a non-zero digit followed by digits. */
  predicate IsJsonInteger(literal: string) {
    var ds := if |literal| > 0 && literal[0] == '-' then literal[1..] else literal;
    |ds| > 0 && AllDigits(ds) && (ds[0] == '0' ==> |ds| == 1)
  }

  lemma {:induction false} LeadingDigitPositive(ds: string)
    requires |ds| > 0 && AllDigits(ds) && ds[0] != '0'
    ensures DigitsValue(ds) >= 1
    decreases |ds|
  {
    if |ds| > 1 {
      LeadingDigitPositive(ds[..|ds| - 1]);
    }
  }

  /** Digits without a leading zero are the decimal spelling of their value. */
  lemma {:induction false} DigitsSpellValue(ds: string)
    requires |ds| > 0 && AllDigits(ds) && (ds[0] == '0' ==> |ds| == 1)
    ensures NatToString(DigitsValue(ds)) == ds
    decreases |ds|
  {
    var last := ds[|ds| - 1];
    var d := DigitValue(last);
    assert DigitChar(d) == last;
    if |ds| > 1 {
      var p := ds[..|ds| - 1];
      LeadingDigitPositive(p);
      DigitsSpellValue(p);
      var n := DigitsValue(ds);
      assert n == 10 * DigitsValue(p) + d && n >= 10;
      assert n / 10 == DigitsValue(p) && n % 10 == d;
      assert ds == p + [last];
    }
  }

  /** The value of a text in the integer form. */
  function IntegerValue(literal: string): int
    requires IsJsonInteger(literal)
  {
    if |literal| > 0 && literal[0] == '-' then -(DigitsValue(literal[1..]) as int) else DigitsValue(literal)
  }

  lemma ReadsIntegerValue(literal: string)
    requires IsJsonInteger(literal)
    ensures var v := IntegerValue(literal);
      TryGetInt64(literal) == if Int64Min <= v <= Int64Max then Some(v) else None
  {
  }

  lemma IntToStringSign(n: int)
    ensures |IntToString(n)| > 0
    ensures n < 0 ==> IntToString(n) == "-" + NatToString(-n)
    ensures n >= 0 ==> IntToString(n) == NatToString(n) && IsDigit(IntToString(n)[0])
  {
  }

  lemma UnsignedSpelling(ds: string, n: int)
    requires |ds| > 0 && AllDigits(ds) && (ds[0] == '0' ==> |ds| == 1)
    ensures ds == IntToString(n) <==> n == DigitsValue(ds)
  {
    DigitsSpellValue(ds);
    IntToStringSign(n);
    if n >= 0 {
      DigitsOfNat(n);
    }
  }

  lemma MinusPrefix(a: string, b: string)
    requires "-" + a == "-" + b
    ensures a == b
  {
    assert ("-" + a)[1..] == a && ("-" + b)[1..] == b;
  }

  lemma SignedDigits(ds: string, s: string, spelled: string, m: nat)
    requires AllDigits(ds) && AllDigits(s)
    requires "-" + ds == spelled && spelled == "-" + s && DigitsValue(s) == m
    ensures DigitsValue(ds) == m
  {
    MinusPrefix(ds, s);
  }

  lemma NegativeSpelling(ds: string, n: int)
    requires |ds| > 0 && AllDigits(ds) && n < 0
    requires "-" + ds == IntToString(n)
    ensures DigitsValue(ds) == -n
  {
    IntToStringSign(n);
    DigitsOfNat(-n);
    SignedDigits(ds, NatToString(-n), IntToString(n), -n);
  }

  lemma SignedSpellingOnlyIf(ds: string, n: int)
    requires |ds| > 0 && AllDigits(ds)
    requires "-" + ds == IntToString(n) || ("-" + ds == "-0" && n == 0)
    ensures n == -(DigitsValue(ds) as int)
  {
    if "-" + ds == "-0" && n == 0 {
      MinusPrefix(ds, "0");
      assert DigitsValue(ds) == 10 * DigitsValue(ds[..0]) + DigitValue('0');
    } else if n < 0 {
      NegativeSpelling(ds, n);
    } else {
      IntToStringSign(n);
      assert false;
    }
  }

  lemma SignedSpellingIf(ds: string, n: int)
    requires |ds| > 0 && AllDigits(ds) && (ds[0] == '0' ==> |ds| == 1)
    requires n == -(DigitsValue(ds) as int)
    ensures "-" + ds == IntToString(n) || ("-" + ds == "-0" && n == 0)
  {
    DigitsSpellValue(ds);
    if DigitsValue(ds) == 0 {
      assert ds == NatToString(0);
    } else {
      IntToStringSign(n);
    }
  }

  lemma SignedSpelling(ds: string, n: int)
    requires |ds| > 0 && AllDigits(ds) && (ds[0] == '0' ==> |ds| == 1)
    ensures "-" + ds == IntToString(n) || ("-" + ds == "-0" && n == 0) <==> n == -(DigitsValue(ds) as int)
  {
    if "-" + ds == IntToString(n) || ("-" + ds == "-0" && n == 0) {
      SignedSpellingOnlyIf(ds, n);
    }
    if n == -(DigitsValue(ds) as int) {
      SignedSpellingIf(ds, n);
    }
  }

  /** A text in the integer form spells one integer: its value. */
  lemma SpellsValue(literal: string, n: int)
    requires IsJsonInteger(literal)
    ensures literal == IntToString(n) || (literal == "-0" && n == 0) <==> n == IntegerValue(literal)
  {
    if |literal| > 0 && literal[0] == '-' {
      SignedSpelling(literal[1..], n);
      assert literal == "-" + literal[1..];
    } else {
      UnsignedSpelling(literal, n);
    }
  }

  /** On the integers JSON can spell, `TryGetInt64` yields `n` exactly when `n`
      fits a `long` and the text is `n` in decimal, or "-0" for zero. */
  lemma IntegerLiteralRead(literal: string, n: int)
    requires IsJsonInteger(literal)
    ensures TryGetInt64(literal) == Some(n) <==>
      Int64Min <= n <= Int64Max && (literal == IntToString(n) || (literal == "-0" && n == 0))
  {
    ReadsIntegerValue(literal);
    SpellsValue(literal, n);
  }
}
