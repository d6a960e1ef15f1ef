/** The example argument list the client proposes for a stored routine: one
    example value per input parameter, chosen first by the parameter's type
    and then, where its name says more, by its name, written as an indented
    JSON array.  The current time and fresh GUIDs come in as parameters. */
module Payload {
  import opened Wrappers
  import opened Text
  import opened Json
  import opened Signature

  /** A local date and time. */
  datatype DateTime = DateTime(year: nat, month: nat, day: nat, hour: nat, minute: nat, second: nat)

  /** `DateTime.Now` and `DateTime.Now.AddDays(7)`. */
  datatype Clock = Clock(now: DateTime, weekLater: DateTime)

  /** The values the generator produces: `int`, `double` 0.0, `bool`, `string`,
      an empty `JsonObject` and an empty `List<object>`. */
  datatype ExampleValue = Integer(n: int) | RealZero | Boolean(b: bool) | Text(s: string) | EmptyObject | EmptyList

  /** A field of a formatted date or time: decimal digits whose value is `v`. */
  predicate ShowsNumber(s: string, v: nat) {
    AllDigits(s) && DigitsValue(s) == v
  }

  function Pow10(k: nat): nat {
    if k == 0 then 1 else 10 * Pow10(k - 1)
  }

  lemma {:induction false} NatToStringLength(n: nat, width: nat)
    requires 1 <= width && n < Pow10(width)
    ensures |NatToString(n)| <= width
    decreases width
  {
    if n >= 10 {
      NatToStringLength(n / 10, width - 1);
    }
  }

  lemma {:induction false} ZerosValue(z: string)
    requires forall i :: 0 <= i < |z| ==> z[i] == '0'
    ensures AllDigits(z) && DigitsValue(z) == 0
    decreases |z|
  {
    if |z| > 0 {
      ZerosValue(z[..|z| - 1]);
    }
  }

  /** Leading zeros do not change the value of a digit string. */
  lemma {:induction false} LeadingZeros(z: string, s: string)
    requires forall i :: 0 <= i < |z| ==> z[i] == '0'
    requires AllDigits(s)
    ensures AllDigits(z + s) && DigitsValue(z + s) == DigitsValue(s)
    decreases |s|
  {
    ZerosValue(z);
    if |s| == 0 {
      assert z + s == z;
    } else {
      LeadingZeros(z, s[..|s| - 1]);
      assert (z + s)[..|z + s| - 1] == z + s[..|s| - 1];
    }
  }

  /** Zero-padding digits to at least their length keeps their value. */
  lemma PaddedDigits(s: string, width: nat)
    requires AllDigits(s) && |s| <= width
    ensures var r := PadLeft(s, width, '0');
      |r| == width && AllDigits(r) && DigitsValue(r) == DigitsValue(s)
  {
    var r := PadLeft(s, width, '0');
    var z := r[..|r| - |s|];
    assert r == z + s;
    LeadingZeros(z, s);
  }

  /** A number with at most `width` digits, zero-padded to `width`, takes
      exactly `width` digits and reads back as itself. */
  lemma PaddedNumber(n: nat, width: nat)
    requires 1 <= width && n < Pow10(width)
    ensures |PadLeft(NatToString(n), width, '0')| == width
    ensures ShowsNumber(PadLeft(NatToString(n), width, '0'), n)
  {
    NatToStringLength(n, width);
    DigitsOfNat(n);
    PaddedDigits(NatToString(n), width);
  }

  /** The `dd`, `MM`, `HH`, `mm` and `ss` fields: at least two digits, and
      exactly two that read back as `n` when `n` is below 100. */
  function TwoDigits(n: nat): (r: string)
    ensures |r| >= 2
    ensures n < 100 ==> |r| == 2 && ShowsNumber(r, n)
  {
    if n < 100 then PaddedNumber(n, 2); PadLeft(NatToString(n), 2, '0')
    else PadLeft(NatToString(n), 2, '0')
  }

  lemma JoinedFields(a: string, sep1: char, b: string, sep2: char, c: string)
    ensures var r := a + [sep1] + b + [sep2] + c;
      |r| == |a| + |b| + |c| + 2 && r[..|a|] == a && r[|a|] == sep1
      && r[|a| + 1..|a| + 1 + |b|] == b && r[|a| + 1 + |b|] == sep2 && r[|a| + |b| + 2..] == c
  {
  }

  lemma TimeFields(date: string, h: string, m: string, s: string)
    requires |date| == 10 && |h| == 2 && |m| == 2 && |s| == 2
    ensures var r := date + "T" + h + ":" + m + ":" + s;
      |r| == 19 && r[..10] == date && r[10] == 'T' && r[13] == ':' && r[16] == ':'
      && r[11..13] == h && r[14..16] == m && r[17..] == s
  {
    var r := date + "T" + h + ":" + m + ":" + s;
    assert r == date + ("T" + h + ":" + m + ":" + s);
  }

  /** `ToString("yyyy-MM-dd")`: for a year below 10000, the four digits of the
      year, the month and the day, separated by '-'. */
  function FormatDate(d: DateTime): (r: string)
    ensures |r| >= 10
    ensures d.year < 10000 && d.month < 100 && d.day < 100 ==>
      |r| == 10 && r[4] == '-' && r[7] == '-'
      && ShowsNumber(r[..4], d.year) && ShowsNumber(r[5..7], d.month) && ShowsNumber(r[8..], d.day)
  {
    var year := PadLeft(NatToString(d.year), 4, '0');
    var r := year + "-" + TwoDigits(d.month) + "-" + TwoDigits(d.day);
    if d.year < 10000 && d.month < 100 && d.day < 100 then
      PaddedNumber(d.year, 4);
      JoinedFields(year, '-', TwoDigits(d.month), '-', TwoDigits(d.day));
      r
    else r
  }

  /** `ToString("yyyy-MM-ddTHH:mm:ss")`: the date, 'T', then the hour, minute
      and second, separated by ':'. */
  function FormatDateTime(d: DateTime): (r: string)
    ensures |r| >= 19
    ensures d.year < 10000 && d.month < 100 && d.day < 100 && d.hour < 100 && d.minute < 100 && d.second < 100 ==>
      |r| == 19 && r[..10] == FormatDate(d) && r[10] == 'T' && r[13] == ':' && r[16] == ':'
      && ShowsNumber(r[11..13], d.hour) && ShowsNumber(r[14..16], d.minute) && ShowsNumber(r[17..], d.second)
  {
    var r := FormatDate(d) + "T" + TwoDigits(d.hour) + ":" + TwoDigits(d.minute) + ":" + TwoDigits(d.second);
    if d.year < 10000 && d.month < 100 && d.day < 100 && d.hour < 100 && d.minute < 100 && d.second < 100 then
      TimeFields(FormatDate(d), TwoDigits(d.hour), TwoDigits(d.minute), TwoDigits(d.second));
      r
    else r
  }

  /** The example chosen by the (lower-cased) type; the first test that holds wins. */
  function TypeDefault(t: string, clock: Clock, guid: string): ExampleValue {
    if Contains(t, "int") || Contains(t, "serial") || Contains(t, "smallint") || Contains(t, "bigint") then Integer(0)
    else if Contains(t, "numeric") || Contains(t, "decimal") || Contains(t, "real") || Contains(t, "double") then RealZero
    else if Contains(t, "bool") then Boolean(false)
    else if Contains(t, "date") then Text(FormatDate(clock.now))
    else if Contains(t, "timestamp") || Contains(t, "time") then Text(FormatDateTime(clock.now))
    else if Contains(t, "uuid") then Text(guid)
    else if Contains(t, "json") then EmptyObject
    else if Contains(t, "bytea") then Text("base64_encoded_bytes")
    else if EndsWith(t, "[]") then EmptyList
    else Text("string_value")
  }

  /** The example after the name rules (lower-cased name `n` and type `t`),
      which override `byType` when one of them applies. */
  function NameExample(n: string, t: string, clock: Clock, guid: string, byType: ExampleValue): ExampleValue {
    if Contains(n, "name") then
      if Contains(n, "first") then Text("John")
      else if Contains(n, "last") then Text("Doe")
      else if Contains(n, "middle") then Text("M")
      else if Contains(n, "user") then Text("username")
      else Text("Default Name")
    else if Contains(n, "email") then Text("email@example.com")
    else if Contains(n, "phone") then Text("+1234567890")
    else if Contains(n, "password") then Text("P@$$wOrd")
    else if Contains(n, "date") then
      if Contains(n, "birth") then Text(FormatDate(DateTime(1990, 1, 1, 0, 0, 0)))
      else if Contains(n, "start") then Text(FormatDate(clock.now))
      else if Contains(n, "end") then Text(FormatDate(clock.weekLater))
      else if Contains(n, "hire") then Text(FormatDate(clock.now))
      else if t == "date" then Text(FormatDate(clock.now))
      else Text(FormatDateTime(clock.now))
    else if Contains(n, "id") then
      if Contains(t, "int") || Contains(t, "serial") then Integer(1)
      else if Contains(t, "uuid") then Text(guid)
      else Text("id_value")
    else if Contains(n, "status") then Text("active")
    else if Contains(n, "passport") then Text("AB123456")
    else if Contains(n, "p_plain_password") then Text("SecurePassword123!")
    else if EndsWith(n, "_str") && Contains(t, "char") then
      if Contains(n, "date") then Text(FormatDate(clock.now)) else byType
    else byType
  }

  /** The example value of one parameter; `guid` is the GUID drawn for it. */
  function ExampleFor(def: ArgDef, clock: Clock, guid: string): ExampleValue {
    var n := ToLower(def.name);
    var t := ToLower(def.argType);
    NameExample(n, t, clock, guid, TypeDefault(t, clock, guid))
  }

  /** The JSON value the serializer sees. */
  function ToJson(v: ExampleValue): JsonValue {
    match v
    case Integer(n) => JNumber(IntToString(n))
    case RealZero => JNumber("0")
    case Boolean(b) => JBool(b)
    case Text(s) => JString(s)
    case EmptyObject => JObject([])
    case EmptyList => JArray([])
  }

  /** The line break of the indented writer (the client runs on Windows). */
  const NewLine: string := "\r\n"

  /** `JsonSerializer.Serialize` of a list with `WriteIndented`: one element
      per line, indented by two spaces. */
  function Indented(vs: seq<ExampleValue>): (r: string)
    ensures |vs| == 0 <==> r == "[]"
  {
    if |vs| == 0 then "[]"
    else "[" + NewLine + "  " + Join("," + NewLine + "  ", ElementTexts(vs)) + NewLine + "]"
  }

  /** The compact JSON text of each value, in order. */
  function ElementTexts(vs: seq<ExampleValue>): (r: seq<string>)
    ensures |r| == |vs|
    ensures forall i :: 0 <= i < |vs| ==> r[i] == Write(ToJson(vs[i]))
  {
    seq(|vs|, i requires 0 <= i < |vs| => Write(ToJson(vs[i])))
  }

  /** The element lines of an indented array: each text indented by two
      spaces, followed by a comma on every line but the last. */
  function ElementLines(texts: seq<string>): (r: seq<string>)
    ensures |r| == |texts|
    ensures forall i :: 0 <= i < |texts| ==> r[i] == "  " + texts[i] + (if i < |texts| - 1 then "," else "")
    decreases |texts|
  {
    if |texts| == 0 then []
    else if |texts| == 1 then ["  " + texts[0]]
    else ["  " + texts[0] + ","] + ElementLines(texts[1..])
  }

  /** No character below U+0020, so no line break. */
  predicate Printable(s: string) {
    forall i :: 0 <= i < |s| ==> s[i] >= ' '
  }

  /** The example values of the parameters found in a signature, in order. */
  function ExampleValues(defs: seq<ArgDef>, clock: Clock, guids: nat -> string): (r: seq<ExampleValue>)
    ensures |r| == |defs|
    ensures forall i :: 0 <= i < |defs| ==> r[i] == ExampleFor(defs[i], clock, guids(i))
  {
    seq(|defs|, i requires 0 <= i < |defs| => ExampleFor(defs[i], clock, guids(i)))
  }

  /** The text `GeneratePayload` leaves in the arguments box. */
  function PayloadText(signature: string, clock: Clock, guids: nat -> string): string {
    if IsBlank(signature) then "[]"
    else
      var defs := Definitions(signature);
      if |defs| == 0 then "[]" else Indented(ExampleValues(defs, clock, guids))
  }

  // ---------------------------------------------------------------------
  // Properties

  /** The payload is the empty array exactly when the signature is blank or
      declares no input parameter. */
  lemma PayloadEmpty(signature: string, clock: Clock, guids: nat -> string)
    ensures PayloadText(signature, clock, guids) == "[]"
        <==> IsBlank(signature) || Definitions(signature) == []
  {
  }

  /** A signature written as "[DIR ]name type, ..." gets one example per
      input parameter, in declaration order. */
  lemma PayloadOfRendered(ps: seq<Param>, clock: Clock, guids: nat -> string)
    requires |ps| > 0
    requires forall i :: 0 <= i < |ps| ==> WellFormed(ps[i])
    requires exists i :: 0 <= i < |ps| && ToUpper(ps[i].direction) != "OUT"
    ensures PayloadText(RenderAll(ps), clock, guids) == Indented(ExampleValues(Declared(ps), clock, guids))
  {
    DefinitionsOfRendered(ps);
    var i :| 0 <= i < |ps| && ToUpper(ps[i].direction) != "OUT";
    DeclaredNonEmpty(ps, i);
    RenderedNotBlank(ps);
  }

  lemma {:induction false} DeclaredNonEmpty(ps: seq<Param>, i: nat)
    requires i < |ps| && ToUpper(ps[i].direction) != "OUT"
    ensures |Declared(ps)| > 0
    decreases i
  {
    if i > 0 && ToUpper(ps[0].direction) == "OUT" {
      DeclaredNonEmpty(ps[1..], i - 1);
    }
  }

  lemma RenderedNotBlank(ps: seq<Param>)
    requires |ps| > 0 && WellFormed(ps[0])
    ensures !IsBlank(RenderAll(ps))
  {
    var p := ps[0];
    var r := RenderAll(ps);
    if p.direction == "" {
      assert r[0] == p.name[0];
      NameCharNotSpace(p.name[0]);
    } else {
      KeywordLetters(p.direction);
      assert r[0] == p.direction[0];
    }
  }

  /** A parameter whose name mentions "name" always gets one of the name
      examples, whatever its type: "first" is tested before "last", "last"
      before "middle", "middle" before "user". */
  lemma NameWins(def: ArgDef, clock: Clock, guid: string)
    requires Contains(ToLower(def.name), "name")
    ensures var n := ToLower(def.name); var v := ExampleFor(def, clock, guid);
      v in {Text("John"), Text("Doe"), Text("M"), Text("username"), Text("Default Name")}
      && (Contains(n, "first") ==> v == Text("John"))
      && (!Contains(n, "first") && Contains(n, "last") ==> v == Text("Doe"))
      && (!Contains(n, "first") && !Contains(n, "last") && Contains(n, "middle") ==> v == Text("M"))
      && (!Contains(n, "first") && !Contains(n, "last") && !Contains(n, "middle") && Contains(n, "user")
          ==> v == Text("username"))
      && (!Contains(n, "first") && !Contains(n, "last") && !Contains(n, "middle") && !Contains(n, "user")
          ==> v == Text("Default Name"))
  {
  }

  /** The type test for integers comes first: any type mentioning "int"
      ("interval", "point" too) gives 0 unless a name rule applies. */
  lemma IntegerFirst(t: string, clock: Clock, guid: string)
    requires Contains(t, "int")
    ensures TypeDefault(t, clock, guid) == Integer(0)
  {
  }

  lemma IntervalIsInteger(clock: Clock, guid: string)
    ensures TypeDefault("interval", clock, guid) == Integer(0)
    ensures TypeDefault("point", clock, guid) == Integer(0)
  {
    assert StartsWith("interval", "int");
    assert StartsWith("point"[2..], "int");
    assert Contains("point"[2..], "int");
    assert Contains("point"[1..], "int");
  }

  /** An identifier of an integer type gets 1, unless an earlier name rule applies. */
  lemma IntegerId(def: ArgDef, clock: Clock, guid: string)
    requires var n := ToLower(def.name);
      Contains(n, "id") && !Contains(n, "name") && !Contains(n, "email") && !Contains(n, "phone")
      && !Contains(n, "password") && !Contains(n, "date")
    requires Contains(ToLower(def.argType), "int")
    ensures ExampleFor(def, clock, guid) == Integer(1)
  {
  }

  /** The rule for "p_plain_password" is never reached: such a name contains
      "password", whose rule comes first. */
  lemma PlainPasswordShadowed(def: ArgDef, clock: Clock, guid: string)
    requires Contains(ToLower(def.name), "p_plain_password")
    ensures ExampleFor(def, clock, guid) in
      {Text("John"), Text("Doe"), Text("M"), Text("username"), Text("Default Name"),
       Text("email@example.com"), Text("+1234567890"), Text("P@$$wOrd")}
    ensures ExampleFor(def, clock, guid) != Text("SecurePassword123!")
  {
    var n := ToLower(def.name);
    var t := ToLower(def.argType);
    PasswordInPlainPassword(n);
    PasswordRule(n, t, clock, guid, TypeDefault(t, clock, guid));
  }

  lemma PasswordRule(n: string, t: string, clock: Clock, guid: string, byType: ExampleValue)
    requires Contains(n, "password")
    ensures NameExample(n, t, clock, guid, byType) in
      {Text("John"), Text("Doe"), Text("M"), Text("username"), Text("Default Name"),
       Text("email@example.com"), Text("+1234567890"), Text("P@$$wOrd")}
  {
  }

  /** A name containing "p_plain_password" contains "password". */
  lemma PasswordInPlainPassword(n: string)
    requires Contains(n, "p_plain_password")
    ensures Contains(n, "password")
  {
    ContainsSuffix(n, "p_plain_password", 8);
    assert "p_plain_password"[8..] == "password";
  }

  /** The rule for names ending in "_str" never changes the value: its only
      change needs "date" in the name, whose rule comes first. */
  lemma StrRuleIsNoOp(n: string, t: string, clock: Clock, guid: string, byType: ExampleValue)
    requires !Contains(n, "name") && !Contains(n, "email") && !Contains(n, "phone") && !Contains(n, "password")
    requires !Contains(n, "date") && !Contains(n, "id") && !Contains(n, "status") && !Contains(n, "passport")
    ensures NameExample(n, t, clock, guid, byType) == byType
  {
    if Contains(n, "p_plain_password") {
      PasswordInPlainPassword(n);
    }
  }

  /** A date whose name says nothing more follows its type: a date for type
      "date", a date and time otherwise. */
  lemma PlainDateName(n: string, t: string, clock: Clock, guid: string, byType: ExampleValue)
    requires Contains(n, "date")
    requires !Contains(n, "name") && !Contains(n, "email") && !Contains(n, "phone") && !Contains(n, "password")
    requires !Contains(n, "birth") && !Contains(n, "start") && !Contains(n, "end") && !Contains(n, "hire")
    ensures NameExample(n, t, clock, guid, byType)
         == if t == "date" then Text(FormatDate(clock.now)) else Text(FormatDateTime(clock.now))
  {
  }

  /** The payload is the indented array of the examples' JSON texts. */
  lemma IndentedShape(vs: seq<ExampleValue>)
    requires |vs| > 0
    ensures var r := Indented(vs);
      |r| >= 7 && r[..5] == "[\r\n  " && r[|r| - 3..] == "\r\n]"
  {
  }

  lemma {:induction false} JoinAppend(separator: string, parts: seq<string>, last: string)
    requires |parts| > 0
    ensures Join(separator, parts + [last]) == Join(separator, parts) + separator + last
    decreases |parts|
  {
    if |parts| > 1 {
      JoinAppend(separator, parts[1..], last);
      assert (parts + [last])[1..] == parts[1..] + [last];
    }
  }

  /** Indenting the joined texts gives the element lines joined by line breaks. */
  lemma {:induction false} JoinedElementLines(texts: seq<string>)
    requires |texts| > 0
    ensures "  " + Join("," + NewLine + "  ", texts) == Join(NewLine, ElementLines(texts))
    decreases |texts|
  {
    if |texts| > 1 {
      JoinedElementLines(texts[1..]);
      var lines := ElementLines(texts);
      assert lines[1..] == ElementLines(texts[1..]);
    }
  }

  lemma WrittenExamplePrintable(v: ExampleValue)
    ensures Printable(Write(ToJson(v)))
  {
    match v
    case Integer(n) =>
      var s := IntToString(n);
      assert s == if n < 0 then "-" + NatToString(-n) else NatToString(n);
    case _ =>
  }

  lemma Regroup(a: string, b: string, c: string, d: string, e: string, f: string)
    ensures a + b + c + d + e + f == (a + b) + (c + d) + (e + f)
  {
  }

  lemma FramedLines(texts: seq<string>)
    requires |texts| > 0
    ensures "[" + NewLine + "  " + Join("," + NewLine + "  ", texts) + NewLine + "]"
         == Join(NewLine, ["["] + ElementLines(texts) + ["]"])
  {
    var lines := ElementLines(texts);
    var body := Join(NewLine, lines);
    JoinedElementLines(texts);
    var framed := ["["] + lines;
    assert framed[1..] == lines;
    assert Join(NewLine, framed) == "[" + NewLine + body;
    JoinAppend(NewLine, framed, "]");
    var head := "[" + NewLine;
    var tail := NewLine + "]";
    var inner := "  " + Join("," + NewLine + "  ", texts);
    Regroup("[", NewLine, "  ", Join("," + NewLine + "  ", texts), NewLine, "]");
    assert Join(NewLine, framed + ["]"]) == head + body + tail;
  }

  /** A non-empty payload is "[", one line per example value in order, then
      "]"; each element line is the value's JSON text indented by two
      spaces, a comma ending all lines but the last, and no line break
      inside, so the array reads one element per line. */
  lemma IndentedLines(vs: seq<ExampleValue>)
    requires |vs| > 0
    ensures var lines := ElementLines(ElementTexts(vs));
      Indented(vs) == Join(NewLine, ["["] + lines + ["]"])
      && forall i :: 0 <= i < |lines| ==> Printable(lines[i])
  {
    FramedLines(ElementTexts(vs));
    var texts := ElementTexts(vs);
    var lines := ElementLines(texts);
    forall i | 0 <= i < |lines|
      ensures Printable(lines[i])
    {
      WrittenExamplePrintable(vs[i]);
      assert lines[i] == "  " + texts[i] + (if i < |texts| - 1 then "," else "");
    }
  }
}
