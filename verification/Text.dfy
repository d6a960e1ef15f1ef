/** The .NET string operations the client relies on, with their .NET meaning:
    `string.IsNullOrWhiteSpace`, ordinal `Contains`/`StartsWith`/`EndsWith`,
    `Trim`, invariant upper/lower casing, `OrdinalIgnoreCase` equality,
    `string.Join`, `int.ToString()` and C# unchecked 32-bit arithmetic. */
module Text {
  import opened Wrappers

  /** C# `int`. */
  type Int32 = x: int | -0x8000_0000 <= x < 0x8000_0000

  /** C# unchecked `int` arithmetic: the value congruent to `x` modulo 2^32. */
  function Wrap32(x: int): (r: Int32)
    ensures (r - x) % 0x1_0000_0000 == 0
    ensures -0x8000_0000 <= x < 0x8000_0000 ==> r == x
  {
    var m := x % 0x1_0000_0000;
    if m < 0x8000_0000 then m else m - 0x1_0000_0000
  }

  /** `char.IsWhiteSpace`: the Unicode separators plus U+0009..U+000D and U+0085. */
  predicate IsWhiteSpace(c: char) {
    c == ' ' || ('\t' <= c <= '\r') || c == '\U{0085}' || c == '\U{00A0}' || c == '\U{1680}'
    || ('\U{2000}' <= c <= '\U{200A}') || c == '\U{2028}' || c == '\U{2029}'
    || c == '\U{202F}' || c == '\U{205F}' || c == '\U{3000}'
  }

  /** `string.IsNullOrWhiteSpace` on a non-null string. */
  predicate IsBlank(s: string) {
    forall i :: 0 <= i < |s| ==> IsWhiteSpace(s[i])
  }

  /** `string.IsNullOrWhiteSpace` on a nullable string. */
  predicate IsNullOrBlank(s: Option<string>) {
    s.None? || IsBlank(s.value)
  }

  /** Ordinal `string.StartsWith(string)`. */
  predicate StartsWith(s: string, prefix: string)
    decreases |prefix|
  {
    |prefix| == 0 || (|s| > 0 && s[0] == prefix[0] && StartsWith(s[1..], prefix[1..]))
  }

  lemma {:induction false} StartsWithSlice(s: string, prefix: string)
    ensures StartsWith(s, prefix) <==> |prefix| <= |s| && s[..|prefix|] == prefix
    decreases |prefix|
  {
    if |prefix| > 0 && |s| > 0 {
      StartsWithSlice(s[1..], prefix[1..]);
      if |prefix| <= |s| && s[..|prefix|] == prefix {
        assert s[1..][..|prefix| - 1] == s[..|prefix|][1..];
      }
      if StartsWith(s, prefix) {
        assert s[..|prefix|] == [s[0]] + s[1..][..|prefix| - 1];
        assert prefix == [prefix[0]] + prefix[1..];
      }
    }
  }

  /** Ordinal `string.EndsWith(string)`. */
  predicate EndsWith(s: string, suffix: string) {
    |suffix| <= |s| && s[|s| - |suffix|..] == suffix
  }

  /** Ordinal `string.Contains(string)`. */
  predicate Contains(s: string, part: string)
    decreases |s|
  {
    |part| <= |s| && (StartsWith(s, part) || Contains(s[1..], part))
  }

  /** `part` occurs in `s` starting at index `i`. */
  predicate OccursAt(s: string, part: string, i: int) {
    0 <= i <= |s| - |part| && s[i..i + |part|] == part
  }

  /** `Contains` means `part` occurs at some index of `s`. */
  lemma {:induction false} ContainsAt(s: string, part: string)
    ensures Contains(s, part) <==> exists i :: OccursAt(s, part, i)
    decreases |s|
  {
    StartsWithSlice(s, part);
    if StartsWith(s, part) {
      assert OccursAt(s, part, 0);
    }
    if |s| > 0 && |part| <= |s| {
      ContainsAt(s[1..], part);
      if exists i :: OccursAt(s, part, i) {
        var i :| OccursAt(s, part, i);
        if i > 0 {
          assert s[1..][i - 1..i - 1 + |part|] == s[i..i + |part|];
          assert OccursAt(s[1..], part, i - 1);
        } else {
          assert StartsWith(s, part);
        }
      }
      if Contains(s[1..], part) {
        var j :| OccursAt(s[1..], part, j);
        assert s[1..][j..j + |part|] == s[j + 1..j + 1 + |part|];
        assert OccursAt(s, part, j + 1);
      }
    } else if |s| == 0 && exists i :: OccursAt(s, part, i) {
      var i :| OccursAt(s, part, i);
      assert StartsWith(s, part);
    }
  }

  /** A string containing `outer` contains every part of `outer`. */
  lemma ContainsTransitive(s: string, outer: string, part: string)
    requires Contains(s, outer) && Contains(outer, part)
    ensures Contains(s, part)
  {
    ContainsAt(s, outer);
    ContainsAt(outer, part);
    ContainsAt(s, part);
    var i :| OccursAt(s, outer, i);
    var j :| OccursAt(outer, part, j);
    forall k | 0 <= k < |part|
      ensures s[i + j..i + j + |part|][k] == part[k]
    {
      assert part[k] == outer[j + k] == s[i..i + |outer|][j + k];
    }
    assert OccursAt(s, part, i + j);
  }

  /** A string containing `outer` contains every suffix of `outer`. */
  lemma ContainsSuffix(s: string, outer: string, i: nat)
    requires Contains(s, outer) && i <= |outer|
    ensures Contains(s, outer[i..])
  {
    ContainsAt(outer, outer[i..]);
    assert OccursAt(outer, outer[i..], i);
    ContainsTransitive(s, outer, outer[i..]);
  }

  function TrimStart(s: string): (r: string)
    ensures |r| <= |s| && r == s[|s| - |r|..]
    ensures |r| > 0 ==> !IsWhiteSpace(r[0])
    ensures IsBlank(s[..|s| - |r|])
    decreases |s|
  {
    if |s| > 0 && IsWhiteSpace(s[0]) then TrimStart(s[1..]) else s
  }

  function TrimEnd(s: string): (r: string)
    ensures |r| <= |s| && r == s[..|r|]
    ensures |r| > 0 ==> !IsWhiteSpace(r[|r| - 1])
    ensures IsBlank(s[|r|..])
    decreases |s|
  {
    if |s| > 0 && IsWhiteSpace(s[|s| - 1]) then TrimEnd(s[..|s| - 1]) else s
  }

  /** `r` is the slice of `s` that starts at `i` after a blank prefix and is
      followed only by a blank suffix. */
  predicate BlankAround(s: string, i: int, r: string) {
    0 <= i && i + |r| <= |s| && r == s[i..i + |r|] && IsBlank(s[..i]) && IsBlank(s[i + |r|..])
  }

  /** `string.Trim()`: drops leading and trailing white space. The result is
      the slice of `s` that starts after its blank prefix and is followed only
      by a blank suffix; it is empty exactly when `s` is blank. */
  function Trim(s: string): (r: string)
    ensures |r| > 0 ==> !IsWhiteSpace(r[0]) && !IsWhiteSpace(r[|r| - 1])
    ensures BlankAround(s, |s| - |TrimStart(s)|, r)
    ensures r == "" <==> IsBlank(s)
  {
    TrimmedSlice(s, TrimStart(s), TrimEnd(TrimStart(s)));
    TrimEnd(TrimStart(s))
  }

  lemma SliceOfSlice(s: string, i: nat, k: nat)
    requires i + k <= |s|
    ensures s[i..][..k] == s[i..i + k] && s[i..][k..] == s[i + k..]
  {
  }

  lemma BlankJoin(a: string, b: string)
    requires IsBlank(a) && IsBlank(b)
    ensures IsBlank(a + b)
  {
  }

  /** What trimming a prefix `s[..i]` and then a suffix leaves. */
  lemma TrimmedSlice(s: string, m: string, r: string)
    requires |m| <= |s| && m == s[|s| - |m|..] && IsBlank(s[..|s| - |m|])
    requires |r| <= |m| && r == m[..|r|] && IsBlank(m[|r|..])
    requires |m| > 0 ==> !IsWhiteSpace(m[0])
    requires |r| > 0 ==> !IsWhiteSpace(r[|r| - 1])
    ensures |r| > 0 ==> !IsWhiteSpace(r[0]) && !IsWhiteSpace(r[|r| - 1])
    ensures BlankAround(s, |s| - |m|, r)
    ensures r == "" <==> IsBlank(s)
  {
    var i := |s| - |m|;
    if |r| > 0 {
      assert r[0] == m[0];
    }
    SliceOfSlice(s, i, |r|);
    if r == "" {
      assert s == s[..i] + m;
      BlankJoin(s[..i], m);
    } else {
      assert r[0] == s[i];
    }
  }

  /** `Trim` leaves a string that neither starts nor ends with white space unchanged. */
  lemma TrimUnpadded(s: string)
    requires |s| > 0 && !IsWhiteSpace(s[0]) && !IsWhiteSpace(s[|s| - 1])
    ensures Trim(s) == s
  {
  }

  /** `char.ToUpperInvariant` for Latin and Cyrillic letters (other characters are kept). */
  function UpperChar(c: char): char {
    if 'a' <= c <= 'z' then (c as int - 0x20) as char
    else if '\U{0430}' <= c <= '\U{044F}' then (c as int - 0x20) as char
    else if '\U{0450}' <= c <= '\U{045F}' then (c as int - 0x50) as char
    else c
  }

  /** `char.ToLowerInvariant` for Latin and Cyrillic letters (other characters are kept). */
  function LowerChar(c: char): char {
    if 'A' <= c <= 'Z' then (c as int + 0x20) as char
    else if '\U{0410}' <= c <= '\U{042F}' then (c as int + 0x20) as char
    else if '\U{0400}' <= c <= '\U{040F}' then (c as int + 0x50) as char
    else c
  }

  /** `string.ToUpperInvariant()`: each character upper-cased in place. */
  function ToUpper(s: string): (r: string)
    ensures |r| == |s|
    ensures forall i :: 0 <= i < |s| ==> r[i] == UpperChar(s[i])
  {
    seq(|s|, i requires 0 <= i < |s| => UpperChar(s[i]))
  }

  /** Upper-casing an upper-cased string changes nothing. */
  lemma ToUpperIdempotent(s: string)
    ensures ToUpper(ToUpper(s)) == ToUpper(s)
  {
    forall i | 0 <= i < |s|
      ensures UpperChar(UpperChar(s[i])) == UpperChar(s[i])
    {
    }
  }

  /** `string.ToLowerInvariant()`: each character lower-cased in place. */
  function ToLower(s: string): (r: string)
    ensures |r| == |s|
    ensures forall i :: 0 <= i < |s| ==> r[i] == LowerChar(s[i])
  {
    seq(|s|, i requires 0 <= i < |s| => LowerChar(s[i]))
  }

  /** `string.Equals(a, b, StringComparison.OrdinalIgnoreCase)`. */
  predicate EqualsIgnoreCase(a: string, b: string) {
    ToUpper(a) == ToUpper(b)
  }

  /** `string.Join(separator, parts)`. */
  function Join(separator: string, parts: seq<string>): string
    decreases |parts|
  {
    if |parts| == 0 then ""
    else if |parts| == 1 then parts[0]
    else parts[0] + separator + Join(separator, parts[1..])
  }

  function DigitChar(d: int): (c: char)
    requires 0 <= d < 10
    ensures '0' <= c <= '9' && c as int - '0' as int == d
  {
    ('0' as int + d) as char
  }

  function NatToString(n: nat): (r: string)
    ensures |r| > 0
    ensures forall i :: 0 <= i < |r| ==> '0' <= r[i] <= '9'
  {
    if n < 10 then [DigitChar(n)] else NatToString(n / 10) + [DigitChar(n % 10)]
  }

  /** `long.ToString()` / `int.ToString()` in decimal. */
  function IntToString(n: int): string {
    if n < 0 then "-" + NatToString(-n) else NatToString(n)
  }

  /** `PadLeft(width, fill)`: `s` right-aligned in a field of `width`
      characters, the rest of the field filled with `fill`. */
  function PadLeft(s: string, width: nat, fill: char): (r: string)
    ensures |r| == if |s| < width then width else |s|
    ensures r[|r| - |s|..] == s
    ensures forall i :: 0 <= i < |r| - |s| ==> r[i] == fill
  {
    if |s| < width then seq(width - |s|, _ => fill) + s else s
  }

  // ---------------------------------------------------------------------
  // UTF-16, the form of a .NET `string`

  /** Every character lies in the Basic Multilingual Plane. */
  predicate IsBmp(s: string) {
    forall i :: 0 <= i < |s| ==> s[i] as int < 0x10000
  }

  /** The UTF-16 code units of one character: its code in the Basic
      Multilingual Plane, a high and a low surrogate beyond it.  The pair
      combines back into the character. */
  function CodeUnits(c: char): (r: seq<int>)
    ensures |r| == if c as int < 0x10000 then 1 else 2
    ensures |r| == 1 ==> r[0] == c as int
    ensures |r| == 2 ==>
      0xD800 <= r[0] < 0xDC00 && 0xDC00 <= r[1] < 0xE000
      && 0x10000 + (r[0] - 0xD800) * 0x400 + (r[1] - 0xDC00) == c as int
  {
    if c as int < 0x10000 then [c as int]
    else
      var x := c as int - 0x10000;
      [0xD800 + x / 0x400, 0xDC00 + x % 0x400]
  }

  /** The UTF-16 code units of a string, in order.  There is one per
      character exactly when every character lies in the Basic Multilingual
      Plane, and then each unit is the character's code. */
  function Utf16(s: string): (r: seq<int>)
    ensures |r| >= |s|
    ensures forall i :: 0 <= i < |r| ==> 0 <= r[i] < 0x10000
    ensures |r| == |s| <==> IsBmp(s)
    ensures IsBmp(s) ==> forall i :: 0 <= i < |s| ==> r[i] == s[i] as int
    decreases |s|
  {
    if |s| == 0 then []
    else
      var head, tail := CodeUnits(s[0]), Utf16(s[1..]);
      assert IsBmp(s) <==> s[0] as int < 0x10000 && IsBmp(s[1..]) by {
        if s[0] as int < 0x10000 && IsBmp(s[1..]) {
          forall i | 0 <= i < |s| ensures s[i] as int < 0x10000 {
            if i > 0 { assert s[i] == s[1..][i - 1]; }
          }
        }
      }
      head + tail
  }
}
