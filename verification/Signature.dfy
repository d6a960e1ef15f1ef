/** The argument-signature scanner of the routine payload generator: the
    case-insensitive pattern
      optional (IN|OUT|INOUT) and white space, a name of [a-zA-Z0-9_],
      white space, a type of non-comma characters, then a comma or the end
    applied with `Regex.Matches`.  No part of the pattern can match a comma
    except the final one, and the type part always runs on to the next comma,
    so every match lies inside one comma-separated segment and ends it.  The
    scanner therefore splits the signature at its commas and, in every
    segment, tries each start position in turn as the regex engine does,
    with the engine's backtracking written out in `MatchAt` and `MatchRest`. */
module Signature {
  import opened Wrappers
  import opened Text

  /** One match: the direction keyword as written (or ""), the name, the raw type. */
  datatype ArgMatch = ArgMatch(direction: string, name: string, rawType: string)

  /** A parameter the payload is generated for: its name and trimmed type. */
  datatype ArgDef = ArgDef(name: string, argType: string)

  const Keywords: set<string> := {"IN", "OUT", "INOUT"}

  /** `[a-zA-Z0-9_]` (the class already holds both cases). */
  predicate IsNameChar(c: char) {
    'a' <= c <= 'z' || 'A' <= c <= 'Z' || '0' <= c <= '9' || c == '_'
  }

  /** The pieces of `s` between its commas, as `s.Split(',')` returns them. */
  function Segments(s: string): (r: seq<string>)
    ensures |r| >= 1
    ensures forall i :: 0 <= i < |r| ==> ',' !in r[i]
    decreases |s|
  {
    if |s| == 0 then [""]
    else
      var rest := Segments(s[1..]);
      if s[0] == ',' then [""] + rest
      else [[s[0]] + rest[0]] + rest[1..]
  }

  /** End of the longest run of name characters starting at `i`. */
  function NameEnd(s: string, i: nat): (r: nat)
    requires i <= |s|
    ensures i <= r <= |s|
    ensures forall k :: i <= k < r ==> IsNameChar(s[k])
    ensures r < |s| ==> !IsNameChar(s[r])
    decreases |s| - i
  {
    if i < |s| && IsNameChar(s[i]) then NameEnd(s, i + 1) else i
  }

  /** End of the longest run of white space starting at `i` (`\s+` is greedy). */
  function SpaceEnd(s: string, i: nat): (r: nat)
    requires i <= |s|
    ensures i <= r <= |s|
    ensures forall k :: i <= k < r ==> IsWhiteSpace(s[k])
    ensures r < |s| ==> !IsWhiteSpace(s[r])
    decreases |s| - i
  {
    if i < |s| && IsWhiteSpace(s[i]) then SpaceEnd(s, i + 1) else i
  }

  /** The keyword `kw` (upper case) written at `p` in any case, followed by white space. */
  predicate KeywordAt(seg: string, p: nat, kw: string) {
    p + |kw| < |seg| && ToUpper(seg[p..p + |kw|]) == kw && IsWhiteSpace(seg[p + |kw|])
  }

  /** `(IN|OUT|INOUT)\s`, alternatives tried in the pattern's order: the keyword's end. */
  function KeywordEnd(seg: string, p: nat): (r: Option<nat>)
    ensures r.Some? ==> p < r.value < |seg| && IsWhiteSpace(seg[r.value])
                        && ToUpper(seg[p..r.value]) in Keywords
  {
    if KeywordAt(seg, p, "IN") then Some(p + 2)
    else if KeywordAt(seg, p, "OUT") then Some(p + 3)
    else if KeywordAt(seg, p, "INOUT") then Some(p + 5)
    else None
  }

  /** The pattern without its direction group, tried at `q` inside one segment:
      the name takes the whole run of name characters and must be followed by
      white space; the type takes the rest of the segment after the white
      space, or, when the segment ends in that white space, gives back its
      last character (the type needs one character). */
  function MatchRest(seg: string, q: nat): (r: Option<(string, string)>)
    requires q <= |seg|
    ensures r.Some? ==> |r.value.0| > 0 && |r.value.1| > 0
    ensures r.Some? ==> forall k :: 0 <= k < |r.value.0| ==> IsNameChar(r.value.0[k])
  {
    var n := NameEnd(seg, q);
    if n == q || n == |seg| || !IsWhiteSpace(seg[n]) then None
    else
      var w := SpaceEnd(seg, n);
      if w < |seg| then Some((seg[q..n], seg[w..]))
      else if w - n >= 2 then Some((seg[q..n], seg[w - 1..w]))
      else None
  }

  /** The whole pattern tried at `p`: first with a direction keyword, then,
      when that fails, without one. */
  function MatchAt(seg: string, p: nat): (r: Option<ArgMatch>)
    requires p <= |seg|
    ensures r.Some? ==> |r.value.name| > 0 && |r.value.rawType| > 0
    ensures r.Some? ==> r.value.direction == "" || ToUpper(r.value.direction) in Keywords
  {
    var plain := MatchRest(seg, p);
    var k := KeywordEnd(seg, p);
    if k.Some? && MatchRest(seg, SpaceEnd(seg, k.value)).Some? then
      var m := MatchRest(seg, SpaceEnd(seg, k.value)).value;
      Some(ArgMatch(seg[p..k.value], m.0, m.1))
    else if plain.Some? then Some(ArgMatch("", plain.value.0, plain.value.1))
    else None
  }

  /** The first match in `seg` at position `p` or later. */
  function FirstMatch(seg: string, p: nat): (r: Option<ArgMatch>)
    requires p <= |seg|
    ensures r.Some? ==> |r.value.name| > 0 && |r.value.rawType| > 0
    decreases |seg| - p
  {
    if p == |seg| then None
    else
      var m := MatchAt(seg, p);
      if m.Some? then m else FirstMatch(seg, p + 1)
  }

  function MatchesOf(segments: seq<string>): (r: seq<ArgMatch>)
    ensures |r| <= |segments|
    decreases |segments|
  {
    if |segments| == 0 then []
    else
      var m := FirstMatch(segments[0], 0);
      (if m.Some? then [m.value] else []) + MatchesOf(segments[1..])
  }

  /** `regex.Matches(argumentsSignature)`: at most one match per segment, in order. */
  function Matches(s: string): (r: seq<ArgMatch>)
    ensures |r| <= |Segments(s)|
  {
    MatchesOf(Segments(s))
  }

  /** The parameter of a match: its name and its trimmed type. */
  function Definition(m: ArgMatch): ArgDef {
    ArgDef(m.name, Trim(m.rawType))
  }

  /** The match's direction is OUT, compared in upper case. */
  predicate IsOut(m: ArgMatch) {
    ToUpper(m.direction) == "OUT"
  }

  /** What one match contributes: nothing for OUT, else its definition. */
  function KeptOne(m: ArgMatch): (r: seq<ArgDef>)
    ensures |r| <= 1
  {
    if !IsOut(m) then [Definition(m)] else []
  }

  /** The matches whose direction is not OUT, with their types trimmed, in order. */
  function Kept(ms: seq<ArgMatch>): (r: seq<ArgDef>)
    ensures |r| <= |ms|
    decreases |ms|
  {
    if |ms| == 0 then [] else Kept(ms[..|ms| - 1]) + KeptOne(ms[|ms| - 1])
  }

  /** Extending a prefix of the matches by one extends what is kept by that match's part. */
  lemma KeptPrefix(ms: seq<ArgMatch>, k: nat)
    requires k < |ms|
    ensures Kept(ms[..k + 1]) == Kept(ms[..k]) + KeptOne(ms[k])
  {
    assert ms[..k + 1][..k] == ms[..k];
  }

  /** The definitions of all matches, in order. */
  function AllDefinitions(ms: seq<ArgMatch>): (r: seq<ArgDef>)
    ensures |r| == |ms| && forall i :: 0 <= i < |ms| ==> r[i] == Definition(ms[i])
    decreases |ms|
  {
    if |ms| == 0 then [] else AllDefinitions(ms[..|ms| - 1]) + [Definition(ms[|ms| - 1])]
  }

  /** With no OUT match, every match is kept, in order, with its type trimmed. */
  lemma {:induction false} KeptAll(ms: seq<ArgMatch>)
    requires forall i :: 0 <= i < |ms| ==> !IsOut(ms[i])
    ensures Kept(ms) == AllDefinitions(ms)
    decreases |ms|
  {
    if |ms| > 0 {
      var front, last := ms[..|ms| - 1], ms[|ms| - 1];
      assert Kept(front) == AllDefinitions(front) by {
        assert forall i :: 0 <= i < |front| ==> front[i] == ms[i];
        KeptAll(front);
      }
      assert KeptOne(last) == [Definition(last)];
    }
  }

  /** Matches whose direction is OUT add nothing. */
  lemma {:induction false} KeptNoneOut(outs: seq<ArgMatch>)
    requires forall i :: 0 <= i < |outs| ==> IsOut(outs[i])
    ensures Kept(outs) == []
    decreases |outs|
  {
    if |outs| > 0 {
      KeptNoneOut(outs[..|outs| - 1]);
    }
  }

  /** The parameters a signature yields. */
  function Definitions(s: string): seq<ArgDef> {
    Kept(Matches(s))
  }

  // ---------------------------------------------------------------------
  // Segments and commas

  lemma JoinCons(separator: string, x: string, rest: seq<string>)
    requires |rest| >= 1
    ensures Join(separator, [x] + rest) == x + separator + Join(separator, rest)
  {
    assert ([x] + rest)[1..] == rest;
  }

  /** Joining the segments with commas gives back the signature. */
  lemma {:induction false} SegmentsJoin(s: string)
    ensures Join(",", Segments(s)) == s
    decreases |s|
  {
    if |s| > 0 {
      var rest := Segments(s[1..]);
      SegmentsJoin(s[1..]);
      if s[0] == ',' {
        JoinCons(",", "", rest);
        assert s == [','] + s[1..];
      } else if |rest| == 1 {
        assert s == [s[0]] + s[1..];
      } else {
        JoinCons(",", [s[0]] + rest[0], rest[1..]);
        assert rest == [rest[0]] + rest[1..];
        JoinCons(",", rest[0], rest[1..]);
        assert s == [s[0]] + s[1..];
      }
    }
  }

  lemma {:induction false} SegmentsOfCommaFree(a: string)
    requires ',' !in a
    ensures Segments(a) == [a]
    decreases |a|
  {
    if |a| > 0 {
      assert ',' !in a[1..] by {
        forall k | 0 <= k < |a[1..]| ensures a[1..][k] != ',' {
          assert a[1..][k] == a[k + 1];
        }
      }
      SegmentsOfCommaFree(a[1..]);
      assert a == [a[0]] + a[1..];
    }
  }

  lemma {:induction false} SegmentsOfCons(a: string, t: string)
    requires ',' !in a
    ensures Segments(a + "," + t) == [a] + Segments(t)
    decreases |a|
  {
    var s := a + "," + t;
    if |a| == 0 {
      assert s[1..] == t;
    } else {
      assert ',' !in a[1..] by {
        forall k | 0 <= k < |a[1..]| ensures a[1..][k] != ',' {
          assert a[1..][k] == a[k + 1];
        }
      }
      SegmentsOfCons(a[1..], t);
      assert s[1..] == a[1..] + "," + t;
      assert a == [a[0]] + a[1..];
    }
  }

  /** Splitting comma-free parts joined with commas gives the parts back. */
  lemma {:induction false} SegmentsOfJoin(parts: seq<string>)
    requires |parts| >= 1
    requires forall i :: 0 <= i < |parts| ==> ',' !in parts[i]
    ensures Segments(Join(",", parts)) == parts
    decreases |parts|
  {
    if |parts| == 1 {
      SegmentsOfCommaFree(parts[0]);
    } else {
      SegmentsOfJoin(parts[1..]);
      SegmentsOfCons(parts[0], Join(",", parts[1..]));
      assert parts == [parts[0]] + parts[1..];
    }
  }

  // ---------------------------------------------------------------------
  // What a well-formed segment yields

  lemma WhiteSpaceIsNoLetter(c: char)
    requires IsWhiteSpace(c)
    ensures UpperChar(c) == c && !IsNameChar(c)
  {
  }

  lemma UpperLetterNotSpace(c: char)
    ensures 'A' <= UpperChar(c) <= 'Z' ==> !IsWhiteSpace(c)
  {
  }

  lemma NameCharNotSpace(c: char)
    ensures IsNameChar(c) ==> !IsWhiteSpace(c)
  {
  }

  lemma NameEndAt(s: string, i: nat, j: nat)
    requires i <= j < |s|
    requires forall k :: i <= k < j ==> IsNameChar(s[k])
    requires !IsNameChar(s[j])
    ensures NameEnd(s, i) == j
  {
  }

  lemma SpaceEndAt(s: string, i: nat, j: nat)
    requires i <= j < |s|
    requires forall k :: i <= k < j ==> IsWhiteSpace(s[k])
    requires !IsWhiteSpace(s[j])
    ensures SpaceEnd(s, i) == j
  {
  }

  /** At `q`, a name up to `n`, white space up to `w` and a type from `w` on
      give that name and that type. */
  lemma RestAt(seg: string, q: nat, n: nat, w: nat)
    requires q < n < w < |seg|
    requires forall k :: q <= k < n ==> IsNameChar(seg[k])
    requires forall k :: n <= k < w ==> IsWhiteSpace(seg[k])
    requires !IsWhiteSpace(seg[w])
    ensures MatchRest(seg, q) == Some((seg[q..n], seg[w..]))
  {
    WhiteSpaceIsNoLetter(seg[n]);
    NameEndAt(seg, q, n);
    SpaceEndAt(seg, n, w);
  }

  /** No keyword is written at a white-space position. */
  lemma BlankNoKeyword(seg: string, p: nat, kw: string)
    requires p < |seg| && IsWhiteSpace(seg[p]) && kw in Keywords
    ensures !KeywordAt(seg, p, kw)
  {
    WhiteSpaceIsNoLetter(seg[p]);
    if p + |kw| < |seg| {
      assert ToUpper(seg[p..p + |kw|])[0] == UpperChar(seg[p]);
    }
  }

  /** A white-space position starts no match. */
  lemma BlankStartsNoMatch(seg: string, p: nat)
    requires p < |seg| && IsWhiteSpace(seg[p])
    ensures MatchAt(seg, p).None?
  {
    WhiteSpaceIsNoLetter(seg[p]);
    assert NameEnd(seg, p) == p;
    BlankNoKeyword(seg, p, "IN");
    BlankNoKeyword(seg, p, "OUT");
    BlankNoKeyword(seg, p, "INOUT");
    assert KeywordEnd(seg, p) == None;
  }

  /** White space before `j` starts no match. */
  lemma {:induction false} SkipBlank(seg: string, p: nat, j: nat)
    requires p <= j <= |seg|
    requires forall k :: p <= k < j ==> IsWhiteSpace(seg[k])
    ensures FirstMatch(seg, p) == FirstMatch(seg, j)
    decreases j - p
  {
    if p < j {
      BlankStartsNoMatch(seg, p);
      SkipBlank(seg, p + 1, j);
    }
  }

  /** No keyword matches at `p` when a name other than a keyword runs up to
      `n` and white space follows. */
  lemma NoKeywordAt(seg: string, p: nat, n: nat, kw: string)
    requires p < n < |seg|
    requires forall k :: p <= k < n ==> IsNameChar(seg[k])
    requires IsWhiteSpace(seg[n])
    requires kw in Keywords && ToUpper(seg[p..n]) != kw
    ensures !KeywordAt(seg, p, kw)
  {
    WhiteSpaceIsNoLetter(seg[n]);
    if p + |kw| > n && p + |kw| < |seg| {
      assert ToUpper(seg[p..p + |kw|])[n - p] == UpperChar(seg[n]);
    }
  }

  lemma KeywordEndOf(seg: string, p: nat, k: nat)
    requires p <= k < |seg| && ToUpper(seg[p..k]) in Keywords && IsWhiteSpace(seg[k])
    ensures KeywordEnd(seg, p) == Some(k)
  {
    var u := ToUpper(seg[p..k]);
    if u == "OUT" {
      assert ToUpper(seg[p..p + 2])[0] == u[0];
    } else if u == "INOUT" {
      assert ToUpper(seg[p..p + 3])[1] == u[1];
      assert UpperChar(seg[p + 2]) == u[2] == 'O';
      UpperLetterNotSpace(seg[p + 2]);
    }
  }

  /** A segment of blank text (up to `p`), a name that is not a direction
      keyword (up to `n`), white space (up to `w`) and a type yields that name
      and that type with no direction. */
  lemma PlainSegment(seg: string, p: nat, n: nat, w: nat, name: string, ty: string)
    requires p < n < w < |seg| && seg[p..n] == name && seg[w..] == ty
    requires IsBlank(seg[..p]) && IsBlank(seg[n..w])
    requires forall k :: 0 <= k < |name| ==> IsNameChar(name[k])
    requires ToUpper(name) !in Keywords && !IsWhiteSpace(ty[0])
    ensures FirstMatch(seg, 0) == Some(ArgMatch("", name, ty))
  {
    forall k | 0 <= k < p ensures IsWhiteSpace(seg[k]) {
      assert seg[k] == seg[..p][k];
    }
    forall k | p <= k < n ensures IsNameChar(seg[k]) {
      assert seg[k] == name[k - p];
    }
    forall k | n <= k < w ensures IsWhiteSpace(seg[k]) {
      assert seg[k] == seg[n..w][k - n];
    }
    assert seg[w] == ty[0];
    SkipBlank(seg, 0, p);
    NoKeywordAt(seg, p, n, "IN");
    NoKeywordAt(seg, p, n, "OUT");
    NoKeywordAt(seg, p, n, "INOUT");
    RestAt(seg, p, n, w);
  }

  /** A segment of blank text (up to `p`), a direction keyword (up to `k`),
      white space (up to `q`), a name (up to `n`), white space (up to `w`) and
      a type yields the direction as written, the name and the type. */
  lemma DirectedSegment(seg: string, p: nat, k: nat, q: nat, n: nat, w: nat, d: string, name: string, ty: string)
    requires p < k < q < n < w < |seg|
    requires seg[p..k] == d && seg[q..n] == name && seg[w..] == ty
    requires IsBlank(seg[..p]) && IsBlank(seg[k..q]) && IsBlank(seg[n..w])
    requires ToUpper(d) in Keywords
    requires forall i :: 0 <= i < |name| ==> IsNameChar(name[i])
    requires !IsWhiteSpace(ty[0])
    ensures FirstMatch(seg, 0) == Some(ArgMatch(d, name, ty))
  {
    forall i | 0 <= i < p ensures IsWhiteSpace(seg[i]) {
      assert seg[i] == seg[..p][i];
    }
    forall i | k <= i < q ensures IsWhiteSpace(seg[i]) {
      assert seg[i] == seg[k..q][i - k];
    }
    forall i | q <= i < n ensures IsNameChar(seg[i]) {
      assert seg[i] == name[i - q];
    }
    forall i | n <= i < w ensures IsWhiteSpace(seg[i]) {
      assert seg[i] == seg[n..w][i - n];
    }
    assert seg[w] == ty[0];
    SkipBlank(seg, 0, p);
    KeywordEndOf(seg, p, k);
    NameCharNotSpace(seg[q]);
    SpaceEndAt(seg, k, q);
    RestAt(seg, q, n, w);
  }

  // ---------------------------------------------------------------------
  // Signatures as the server writes them

  /** A parameter as a signature declares it: a direction keyword or "", a name, a type. */
  datatype Param = Param(direction: string, name: string, paramType: string)

  /** A declaration the pattern is meant for: a plain name (not itself a
      direction keyword when no direction is written) and a comma-free type
      with no surrounding white space. */
  predicate WellFormed(p: Param) {
    && |p.name| > 0 && (forall k :: 0 <= k < |p.name| ==> IsNameChar(p.name[k]))
    && (if p.direction == "" then ToUpper(p.name) !in Keywords else ToUpper(p.direction) in Keywords)
    && |p.paramType| > 0 && ',' !in p.paramType
    && !IsWhiteSpace(p.paramType[0]) && !IsWhiteSpace(p.paramType[|p.paramType| - 1])
  }

  function Render(p: Param): string {
    if p.direction == "" then p.name + " " + p.paramType
    else p.direction + " " + p.name + " " + p.paramType
  }

  /** The declarations separated by ", ". */
  function RenderAll(ps: seq<Param>): string
    requires |ps| > 0
    decreases |ps|
  {
    if |ps| == 1 then Render(ps[0]) else Render(ps[0]) + ", " + RenderAll(ps[1..])
  }

  function MatchOf(p: Param): ArgMatch {
    ArgMatch(p.direction, p.name, p.paramType)
  }

  /** The match each declaration should give, in order. */
  function MatchesOfParams(ps: seq<Param>): (r: seq<ArgMatch>)
    ensures |r| == |ps| && forall i :: 0 <= i < |ps| ==> r[i] == MatchOf(ps[i])
    decreases |ps|
  {
    if |ps| == 0 then [] else [MatchOf(ps[0])] + MatchesOfParams(ps[1..])
  }

  /** The parameters a signature declares for input: all but the OUT ones, in order. */
  function Declared(ps: seq<Param>): seq<ArgDef>
    decreases |ps|
  {
    if |ps| == 0 then []
    else (if ToUpper(ps[0].direction) == "OUT" then [] else [ArgDef(ps[0].name, ps[0].paramType)])
         + Declared(ps[1..])
  }

  lemma LetterIsNoComma(c: char)
    ensures 'A' <= UpperChar(c) <= 'Z' ==> c != ',' && !IsWhiteSpace(c)
  {
  }

  /** A direction keyword consists of letters. */
  lemma KeywordLetters(d: string)
    requires ToUpper(d) in Keywords
    ensures forall k :: 0 <= k < |d| ==> d[k] != ',' && !IsWhiteSpace(d[k])
  {
    forall k | 0 <= k < |d| ensures d[k] != ',' && !IsWhiteSpace(d[k]) {
      var u := ToUpper(d);
      assert u[k] == UpperChar(d[k]);
      assert 'A' <= u[k] <= 'Z';
      LetterIsNoComma(d[k]);
    }
  }

  lemma RenderedPlain(lead: string, name: string, ty: string)
    requires IsBlank(lead) && |name| > 0 && (forall k :: 0 <= k < |name| ==> IsNameChar(name[k]))
    requires ToUpper(name) !in Keywords && |ty| > 0 && !IsWhiteSpace(ty[0])
    ensures FirstMatch(lead + (name + " " + ty), 0) == Some(ArgMatch("", name, ty))
  {
    var seg := lead + (name + " " + ty);
    var a := |lead|;
    var n := a + |name|;
    assert seg[..a] == lead && seg[a..] == name + " " + ty;
    assert seg[a..n] == name && seg[n..n + 1] == " " && seg[n + 1..] == ty;
    PlainSegment(seg, a, n, n + 1, name, ty);
  }

  lemma RenderedDirected(lead: string, d: string, name: string, ty: string)
    requires IsBlank(lead) && ToUpper(d) in Keywords
    requires |name| > 0 && (forall k :: 0 <= k < |name| ==> IsNameChar(name[k]))
    requires |ty| > 0 && !IsWhiteSpace(ty[0])
    ensures FirstMatch(lead + (d + " " + name + " " + ty), 0) == Some(ArgMatch(d, name, ty))
  {
    var seg := lead + (d + " " + name + " " + ty);
    var a := |lead|;
    var k := a + |d|;
    var q := k + 1;
    var n := q + |name|;
    assert seg[..a] == lead && seg[a..] == d + " " + name + " " + ty;
    assert seg[a..k] == d && seg[k..q] == " " && seg[q..n] == name && seg[n..n + 1] == " " && seg[n + 1..] == ty;
    DirectedSegment(seg, a, k, q, n, n + 1, d, name, ty);
  }

  /** One declaration, after blank text, is found as written. */
  lemma RenderedSegment(lead: string, p: Param)
    requires IsBlank(lead) && WellFormed(p)
    ensures FirstMatch(lead + Render(p), 0) == Some(MatchOf(p))
  {
    if p.direction == "" {
      RenderedPlain(lead, p.name, p.paramType);
    } else {
      RenderedDirected(lead, p.direction, p.name, p.paramType);
    }
  }

  /** A declaration holds no comma. */
  lemma RenderedCommaFree(lead: string, p: Param)
    requires IsBlank(lead) && WellFormed(p)
    ensures ',' !in lead + Render(p)
  {
    assert ',' !in lead by {
      forall k | 0 <= k < |lead| ensures lead[k] != ',' {
        assert IsWhiteSpace(lead[k]);
      }
    }
    assert ',' !in p.name by {
      forall k | 0 <= k < |p.name| ensures p.name[k] != ',' {
        assert IsNameChar(p.name[k]);
      }
    }
    if p.direction != "" {
      KeywordLetters(p.direction);
    }
  }

  /** Scanning declarations separated by ", " finds every one of them, in order. */
  lemma {:induction false} MatchesOfRendered(lead: string, ps: seq<Param>)
    requires IsBlank(lead) && |ps| > 0
    requires forall i :: 0 <= i < |ps| ==> WellFormed(ps[i])
    ensures Matches(lead + RenderAll(ps)) == MatchesOfParams(ps)
    decreases |ps|
  {
    var first := lead + Render(ps[0]);
    RenderedSegment(lead, ps[0]);
    RenderedCommaFree(lead, ps[0]);
    if |ps| == 1 {
      SegmentsOfCommaFree(first);
      assert [first][1..] == [];
    } else {
      var rest := " " + RenderAll(ps[1..]);
      Regroup(lead, Render(ps[0]), RenderAll(ps[1..]));
      SegmentsOfCons(first, rest);
      MatchesOfRendered(" ", ps[1..]);
      assert ([first] + Segments(rest))[1..] == Segments(rest);
    }
  }

  lemma Regroup(l: string, r: string, t: string)
    ensures l + (r + ", " + t) == (l + r) + "," + (" " + t)
  {
  }

  /** A well-formed declaration contributes what `Declared` says. */
  lemma KeptOneDeclared(p: Param)
    requires WellFormed(p)
    ensures KeptOne(MatchOf(p)) == if ToUpper(p.direction) == "OUT" then [] else [ArgDef(p.name, p.paramType)]
  {
    TrimUnpadded(p.paramType);
  }

  /** `Declared` read from the back, as `Kept` is. */
  lemma {:induction false} DeclaredSnoc(ps: seq<Param>)
    requires |ps| > 0
    ensures var p := ps[|ps| - 1];
      Declared(ps) == Declared(ps[..|ps| - 1])
                      + (if ToUpper(p.direction) == "OUT" then [] else [ArgDef(p.name, p.paramType)])
    decreases |ps|
  {
    if |ps| > 1 {
      DeclaredSnoc(ps[1..]);
      assert ps[1..][..|ps| - 2] == ps[..|ps| - 1][1..];
    }
  }

  /** The matches of declarations read from the back, as `Kept` reads them. */
  lemma KeptSnoc(ps: seq<Param>)
    requires |ps| > 0
    ensures Kept(MatchesOfParams(ps)) == Kept(MatchesOfParams(ps[..|ps| - 1])) + KeptOne(MatchOf(ps[|ps| - 1]))
  {
    var ms := MatchesOfParams(ps);
    assert ms[..|ms| - 1] == MatchesOfParams(ps[..|ps| - 1]);
  }

  /** Keeping the non-OUT matches of declarations whose types carry no
      surrounding white space gives exactly the declared parameters. */
  lemma {:induction false} KeptDeclared(ps: seq<Param>)
    requires forall i :: 0 <= i < |ps| ==> Trim(ps[i].paramType) == ps[i].paramType
    ensures Kept(MatchesOfParams(ps)) == Declared(ps)
    decreases |ps|
  {
    if |ps| > 0 {
      var front, last := ps[..|ps| - 1], ps[|ps| - 1];
      KeptDeclared(front);
      KeptSnoc(ps);
      DeclaredSnoc(ps);
      assert Trim(last.paramType) == last.paramType;
    }
  }

  /** The parameters found in a signature written as "[DIR ]name type, ..."
      are exactly its input parameters, in order, with their types. */
  lemma DefinitionsOfRendered(ps: seq<Param>)
    requires |ps| > 0
    requires forall i :: 0 <= i < |ps| ==> WellFormed(ps[i])
    ensures Definitions(RenderAll(ps)) == Declared(ps)
  {
    MatchesOfRendered("", ps);
    assert "" + RenderAll(ps) == RenderAll(ps);
    forall i | 0 <= i < |ps|
      ensures Trim(ps[i].paramType) == ps[i].paramType
    {
      TrimUnpadded(ps[i].paramType);
    }
    KeptDeclared(ps);
  }
}
