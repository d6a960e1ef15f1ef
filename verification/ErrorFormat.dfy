/** The diagnostic text the service builds from a failed HTTP response: a
    fixed head line, then whatever the body can be read as, tried in a fixed
    order.  The body arrives both as text and as the JSON document the text
    parses to (`None` when it is no JSON). */
module ErrorFormat {
  import opened Wrappers
  import opened Text
  import opened Json
  import opened Records

  /** What `FormatError` ends with: a message, or the null dereference that a
      `null` validation entry or a `null` inside `loc` causes (it escapes the
      `catch (JsonException)`). */
  datatype Formatted = Message(text: string) | NullReference

  /** The outcome of deserializing the body into the validation wrapper:
      the parse throws, or it yields the `detail` list (`None` for null). */
  datatype WrapperParse = Throws | Parsed(detail: Option<seq<Option<FastApiValidationError>>>)

  const MaxRawTextLength: nat := 500

  /** The head line: the status code's name and the reason phrase. */
  function BaseError(statusName: string, reason: Option<string>): string {
    "Ошибка: " + statusName + " - " + reason.GetOr("") + "."
  }

  /** A non-JSON body as shown: at most 500 characters, then "..." when cut. */
  function Truncated(body: string): (r: string)
    ensures |body| <= MaxRawTextLength ==> r == body
    ensures |body| > MaxRawTextLength ==>
      |r| == MaxRawTextLength + 3 && r[..MaxRawTextLength] == body[..MaxRawTextLength] && r[MaxRawTextLength..] == "..."
  {
    if |body| > MaxRawTextLength then body[..MaxRawTextLength] + "..." else body
  }

  // ---------------------------------------------------------------------
  // Deserializing into the validation wrapper (property names matched
  // without regard to case; every occurrence of a property is read, the
  // last one wins)

  predicate NameMatches(p: Property, key: string) {
    EqualsIgnoreCase(p.name, key)
  }

  /** The value of the last property whose name matches `key` ignoring case. */
  function LastMatching(props: seq<Property>, key: string): (r: Option<JsonValue>)
    ensures r.Some? ==> exists i :: 0 <= i < |props| && NameMatches(props[i], key) && props[i].value == r.value
    ensures r.None? ==> forall i :: 0 <= i < |props| ==> !NameMatches(props[i], key)
    decreases |props|
  {
    if |props| == 0 then None
    else if NameMatches(props[|props| - 1], key) then Some(props[|props| - 1].value)
    else LastMatching(props[..|props| - 1], key)
  }

  /** Every occurrence of `key` holds null or a string (a `string?` property). */
  predicate TextsFit(props: seq<Property>, key: string) {
    forall i :: 0 <= i < |props| && NameMatches(props[i], key) ==> props[i].value.JNull? || props[i].value.JString?
  }

  /** Every occurrence of `key` holds null or an array (a `List<…>?` property). */
  predicate ListsFit(props: seq<Property>, key: string) {
    forall i :: 0 <= i < |props| && NameMatches(props[i], key) ==> props[i].value.JNull? || props[i].value.JArray?
  }

  /** A value that deserializes into a `FastApiValidationError?`. */
  predicate EntryFits(v: JsonValue) {
    v.JNull? ||
    (v.JObject? && ListsFit(v.properties, "loc") && TextsFit(v.properties, "msg") && TextsFit(v.properties, "type"))
  }

  /** A value that deserializes into a `List<FastApiValidationError>?`. */
  predicate DetailFits(v: JsonValue) {
    v.JNull? || (v.JArray? && forall k :: 0 <= k < |v.items| ==> EntryFits(v.items[k]))
  }

  /** A document that deserializes into a `FastApiValidationErrorWrapper?`. */
  predicate WrapperFits(doc: JsonValue) {
    doc.JNull? ||
    (doc.JObject? && forall i :: 0 <= i < |doc.properties| && NameMatches(doc.properties[i], "detail") ==>
                                   DetailFits(doc.properties[i].value))
  }

  function TextOf(v: Option<JsonValue>): Option<string> {
    if v.Some? && v.value.JString? then Some(v.value.s) else None
  }

  /** `List<object>`: a JSON null becomes a null reference, anything else a
      `JsonElement`. */
  function LocOf(v: Option<JsonValue>): Option<seq<Option<JsonValue>>> {
    if v.Some? && v.value.JArray? then
      Some(seq(|v.value.items|, k requires 0 <= k < |v.value.items| =>
                 if v.value.items[k].JNull? then None else Some(v.value.items[k])))
    else None
  }

  function EntryOf(v: JsonValue): (r: Option<FastApiValidationError>)
    requires EntryFits(v)
    ensures r.None? <==> v.JNull?
  {
    if v.JObject? then
      var ps := v.properties;
      Some(FastApiValidationError(LocOf(LastMatching(ps, "loc")), TextOf(LastMatching(ps, "msg")), TextOf(LastMatching(ps, "type"))))
    else None
  }

  /** `JsonSerializer.Deserialize<FastApiValidationErrorWrapper>` of the body. */
  function ParseWrapper(doc: JsonValue): (r: WrapperParse)
    ensures r.Throws? <==> !WrapperFits(doc)
  {
    if !WrapperFits(doc) then Throws
    else if doc.JNull? then Parsed(None)
    else
      var d := LastMatching(doc.properties, "detail");
      if d.Some? && d.value.JArray? then
        Parsed(Some(seq(|d.value.items|, k requires 0 <= k < |d.value.items| => EntryOf(d.value.items[k]))))
      else Parsed(None)
  }

  // ---------------------------------------------------------------------
  // The validation lines

  /** `loc` joined with " -> ", or "Н/Д" when it is missing or empty; a null
      inside it cannot be turned into text. */
  function LocText(loc: Option<seq<Option<JsonValue>>>): (r: Option<string>)
    ensures loc.None? || |loc.value| == 0 ==> r == Some("Н/Д")
    ensures r.None? <==> loc.Some? && exists k :: 0 <= k < |loc.value| && loc.value[k].None?
  {
    if loc.None? || |loc.value| == 0 then Some("Н/Д")
    else if exists k :: 0 <= k < |loc.value| && loc.value[k].None? then None
    else Some(Join(" -> ", seq(|loc.value|, k requires 0 <= k < |loc.value| => ElementToString(loc.value[k].value))))
  }

  function EntryLine(e: FastApiValidationError, loc: string): string {
    "Поле: " + loc + ", Сообщение: " + e.msg.GetOr("") + " (Тип: " + e.errorType.GetOr("") + ")"
  }

  /** One line per entry, in order; `None` when an entry or a `loc` item is null. */
  function ValidationLines(entries: seq<Option<FastApiValidationError>>): (r: Option<seq<string>>)
    ensures r.Some? ==> |r.value| == |entries|
    ensures r.Some? ==> forall k :: 0 <= k < |entries| ==>
      entries[k].Some? && LocText(entries[k].value.loc).Some?
      && r.value[k] == EntryLine(entries[k].value, LocText(entries[k].value.loc).value)
    ensures r.None? <==> exists k :: 0 <= k < |entries| && (entries[k].None? || LocText(entries[k].value.loc).None?)
    decreases |entries|
  {
    if |entries| == 0 then Some([])
    else
      var last := entries[|entries| - 1];
      var front := ValidationLines(entries[..|entries| - 1]);
      if front.None? || last.None? then None
      else
        var loc := LocText(last.value.loc);
        if loc.None? then None else Some(front.value + [EntryLine(last.value, loc.value)])
  }

  // ---------------------------------------------------------------------
  // The chain

  /** `FormatError`: the head line, then, in this order, a blank-body note,
      the validation lines, the exact "detail" key (a string directly, any
      other kind as JSON), the whole document as JSON; a body the wrapper
      parse rejects is shown as raw text. */
  function FormatError(statusName: string, reason: Option<string>, body: string, doc: Option<JsonValue>): Formatted {
    var head := BaseError(statusName, reason);
    if IsBlank(body) then Message(head + " (Пустое тело ответа)")
    else if doc.None? || ParseWrapper(doc.value).Throws? then
      Message(head + "\nОтвет сервера (не JSON):\n" + Truncated(body))
    else
      var detail := ParseWrapper(doc.value).detail;
      if detail.Some? && |detail.value| > 0 then
        var lines := ValidationLines(detail.value);
        if lines.None? then NullReference
        else Message(head + "\nДетали валидации:\n" + Join("\n", lines.value))
      else
        var exact := if doc.value.JObject? then LastValue(doc.value.properties, "detail") else None;
        if exact.Some? then
          if exact.value.JString? then Message(head + "\nДетали: " + exact.value.s)
          else Message(head + "\nДетали (JSON):\n" + Write(exact.value))
        else Message(head + "\nОтвет сервера (JSON):\n" + Write(doc.value))
  }

  // ---------------------------------------------------------------------
  // Properties

  /** Every message starts with the head line. */
  lemma MessageStartsWithHead(statusName: string, reason: Option<string>, body: string, doc: Option<JsonValue>)
    ensures var f := FormatError(statusName, reason, body, doc);
      var head := BaseError(statusName, reason);
      f.Message? ==> |head| <= |f.text| && f.text[..|head|] == head
  {
  }

  /** A whitespace-only body gives the head line and the empty-body note. */
  lemma BlankBody(statusName: string, reason: Option<string>, body: string, doc: Option<JsonValue>)
    requires IsBlank(body)
    ensures FormatError(statusName, reason, body, doc) == Message(BaseError(statusName, reason) + " (Пустое тело ответа)")
  {
  }

  /** A body that is no JSON, or JSON whose root is neither an object nor null,
      is shown as raw text, cut at 500 characters. */
  lemma RawTextBranch(statusName: string, reason: Option<string>, body: string, doc: Option<JsonValue>)
    requires !IsBlank(body)
    requires doc.None? || !(doc.value.JObject? || doc.value.JNull?)
    ensures FormatError(statusName, reason, body, doc) ==
      Message(BaseError(statusName, reason) + "\nОтвет сервера (не JSON):\n" + Truncated(body))
  {
  }

  /** A "detail" that the typed parse accepted is null or an array, never a
      string: the branch that shows a string detail directly cannot fire. */
  lemma {:induction false} StringDetailUnreachable(doc: JsonValue)
    requires doc.JObject? && ParseWrapper(doc).Parsed?
    ensures var exact := LastValue(doc.properties, "detail");
      exact.Some? ==> !exact.value.JString?
  {
    var exact := LastValue(doc.properties, "detail");
    if exact.Some? {
      var i :| 0 <= i < |doc.properties| && doc.properties[i].name == "detail" && doc.properties[i].value == exact.value;
      assert NameMatches(doc.properties[i], "detail");
      assert DetailFits(doc.properties[i].value);
    }
  }

  /** Hence FastAPI's plain `{"detail": "..."}` answer ends in the raw-text
      branch, like a body that is no JSON at all. */
  lemma StringDetailShownRaw(statusName: string, reason: Option<string>, body: string, text: string, doc: JsonValue)
    requires !IsBlank(body)
    requires doc == JObject([Property("detail", JString(text))])
    ensures FormatError(statusName, reason, body, Some(doc)) ==
      Message(BaseError(statusName, reason) + "\nОтвет сервера (не JSON):\n" + Truncated(body))
  {
    assert NameMatches(doc.properties[0], "detail");
  }

  /** A non-empty list of well-formed entries gives one line per entry, in
      order, after the validation heading. */
  lemma ValidationBranch(statusName: string, reason: Option<string>, body: string, doc: JsonValue)
    requires !IsBlank(body) && ParseWrapper(doc).Parsed?
    requires var d := ParseWrapper(doc).detail; d.Some? && |d.value| > 0 && ValidationLines(d.value).Some?
    ensures FormatError(statusName, reason, body, Some(doc)) ==
      Message(BaseError(statusName, reason) + "\nДетали валидации:\n" + Join("\n", ValidationLines(ParseWrapper(doc).detail.value).value))
  {
  }

  /** The chain is strict: once the validation list is non-empty, no later
      branch is consulted, whatever else the document holds. */
  lemma ValidationWins(statusName: string, reason: Option<string>, body: string, doc: JsonValue)
    requires !IsBlank(body) && ParseWrapper(doc).Parsed?
    requires var d := ParseWrapper(doc).detail; d.Some? && |d.value| > 0
    ensures var f := FormatError(statusName, reason, body, Some(doc));
      f.NullReference? || (f.Message? && StartsWith(f.text, BaseError(statusName, reason) + "\nДетали валидации:\n"))
  {
    var head := BaseError(statusName, reason) + "\nДетали валидации:\n";
    var lines := ValidationLines(ParseWrapper(doc).detail.value);
    if lines.Some? {
      var t := head + Join("\n", lines.value);
      assert t[..|head|] == head;
      StartsWithSlice(t, head);
    }
  }

  /** The wrapper matches "detail" in any letter case, the dictionary lookup
      after it only in lower case: an empty "Detail" list falls through both
      and the whole document is shown. */
  lemma CapitalisedEmptyDetail(statusName: string, reason: Option<string>, body: string, doc: JsonValue)
    requires !IsBlank(body)
    requires doc == JObject([Property("Detail", JArray([]))])
    ensures FormatError(statusName, reason, body, Some(doc)) ==
      Message(BaseError(statusName, reason) + "\nОтвет сервера (JSON):\n" + Write(doc))
  {
    EmptyDetailParsed(doc);
    assert doc.properties[0].name != "detail";
    assert LastValue(doc.properties, "detail") == None;
  }

  lemma EmptyDetailParsed(doc: JsonValue)
    requires doc == JObject([Property("Detail", JArray([]))])
    ensures ParseWrapper(doc) == Parsed(Some([]))
  {
    assert NameMatches(doc.properties[0], "detail");
    assert WrapperFits(doc);
    assert LastMatching(doc.properties, "detail") == Some(JArray([]));
    assert |ParseWrapper(doc).detail.value| == 0;
  }

  /** A `null` validation entry makes `FormatError` fail instead of
      producing a message. */
  lemma NullEntryFails(statusName: string, reason: Option<string>, body: string, doc: JsonValue)
    requires !IsBlank(body) && ParseWrapper(doc).Parsed?
    requires var d := ParseWrapper(doc).detail;
      d.Some? && exists k :: 0 <= k < |d.value| && d.value[k].None?
    ensures FormatError(statusName, reason, body, Some(doc)).NullReference?
  {
  }
}
