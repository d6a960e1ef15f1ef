/** The HTTP client of the API: the two header slots it keeps, the guards and
    request building of its operations, and how one transport outcome becomes
    the (result, error message) pair every operation returns.  The transport
    itself is an input: `Outcome` is what the network did with the request. */
module Services {
  import opened Wrappers
  import opened Text
  import opened Json
  import opened Records
  import opened ErrorFormat
  import opened Encoding

  const DefaultBaseUrl := "https://api.desperatio.com"
  const DbRoleHeaderName := "X-Database-Role"

  // ---------------------------------------------------------------------
  // Header state

  /** The `Authorization` value of HTTP Basic authentication (section 2 of
      RFC 7617): the scheme, a space, and the Base64 of the ASCII bytes of
      "user:password". */
  function BasicCredentials(username: string, password: string): string {
    "Basic " + Base64(AsciiBytes(username + ":" + password))
  }

  /** The text before and after the first ':' (`None` without one). */
  function SplitAtColon(s: string): (r: Option<(string, string)>)
    ensures r.Some? ==> s == r.value.0 + ":" + r.value.1 && ':' !in r.value.0
    ensures r.None? ==> ':' !in s
    decreases |s|
  {
    if |s| == 0 then None
    else if s[0] == ':' then Some(("", s[1..]))
    else
      match SplitAtColon(s[1..])
      case None => None
      case Some(parts) => Some(([s[0]] + parts.0, parts.1))
  }

  /** What a server reads from a Basic `Authorization` value: user and
      password, or `None` when the value is no well-formed Basic value. */
  function ReadBasicCredentials(header: string): Option<(string, string)> {
    if |header| < 6 || header[..6] != "Basic " then None
    else match FromBase64(header[6..])
      case Malformed => None
      case Bytes(bs) =>
        if forall i :: 0 <= i < |bs| ==> bs[i] < 0x80 then SplitAtColon(AsciiText(bs)) else None
  }

  /** The first ':' of "user:password" is the one after a user name without colons. */
  lemma {:induction false} SplitJoined(user: string, password: string)
    requires ':' !in user
    ensures SplitAtColon(user + ":" + password) == Some((user, password))
    decreases |user|
  {
    if |user| == 0 {
      assert (user + ":" + password)[1..] == password;
    } else {
      SplitJoined(user[1..], password);
      assert (user + ":" + password)[1..] == user[1..] + ":" + password;
      assert [user[0]] + user[1..] == user;
    }
  }

  /** ASCII credentials, with no ':' in the user name, are read back as set. */
  lemma CredentialsRoundTrip(user: string, password: string)
    requires IsAscii(user) && IsAscii(password) && ':' !in user
    ensures ReadBasicCredentials(BasicCredentials(user, password)) == Some((user, password))
  {
    var text := user + ":" + password;
    assert IsAscii(text) by {
      forall i | 0 <= i < |text| ensures text[i] as int < 0x80 {
        if i < |user| { assert text[i] == user[i]; }
        else if i > |user| { assert text[i] == password[i - |user| - 1]; }
      }
    }
    var header := BasicCredentials(user, password);
    assert header[..6] == "Basic " && header[6..] == Base64(AsciiBytes(text));
    Base64RoundTrip(AsciiBytes(text));
    AsciiRoundTrip(text);
    SplitJoined(user, password);
  }

  /** Characters outside ASCII are lost: two different passwords give the
      same header. */
  lemma NonAsciiPasswordsCollide()
    ensures BasicCredentials("admin", "пароль") == BasicCredentials("admin", "секрет")
    ensures "пароль" != "секрет"
  {
    var a, b := "admin" + ":" + "пароль", "admin" + ":" + "секрет";
    assert |a| == |b| == 12;
    forall i | 0 <= i < 12
      ensures AsciiBytes(a)[i] == AsciiBytes(b)[i]
    {
      if i < 6 { assert a[i] == b[i]; } else { assert a[i] as int >= 0x80 && b[i] as int >= 0x80; }
    }
    assert AsciiBytes(a) == AsciiBytes(b);
    assert "пароль"[0] != "секрет"[0];
  }

  /** The values of the role header after `SetDatabaseRoleHeader(dbRole)`:
      the old ones are removed and a non-blank role is added. */
  function RoleValues(dbRole: Option<string>): (r: seq<string>)
    ensures |r| <= 1
    ensures r == [] <==> IsNullOrBlank(dbRole)
  {
    if IsNullOrBlank(dbRole) then [] else [dbRole.value]
  }

  /** The client's default request headers that the service changes:
      `Authorization` and the values of `X-Database-Role`. */
  class ApiService {
    var baseUrl: string
    var authorization: Option<string>
    var roleValues: seq<string>

    /** At most one role value is ever present. */
    predicate Valid()
      reads this
    {
      |roleValues| <= 1
    }

    constructor (url: Option<string>)
      ensures baseUrl == if url.Some? && |url.value| > 0 then url.value else DefaultBaseUrl
      ensures authorization.None? && roleValues == []
      ensures Valid()
    {
      baseUrl := if url.Some? && |url.value| > 0 then url.value else DefaultBaseUrl;
      authorization := None;
      roleValues := [];
    }

    method SetCredentials(username: Option<string>, password: Option<string>)
      modifies this`authorization
      ensures IsNullOrBlank(username) || IsNullOrBlank(password) ==> authorization.None?
      ensures !IsNullOrBlank(username) && !IsNullOrBlank(password) ==>
        authorization == Some(BasicCredentials(username.value, password.value))
    {
      if IsNullOrBlank(username) || IsNullOrBlank(password) {
        authorization := None;
      } else {
        authorization := Some(BasicCredentials(username.value, password.value));
      }
    }

    method ClearCredentials()
      modifies this`authorization
      ensures authorization.None?
    {
      authorization := None;
    }

    /** Removes every role value, then adds a non-blank role: the new state
        does not depend on the old one, so repeating a call changes nothing. */
    method SetDatabaseRoleHeader(dbRole: Option<string>)
      requires Valid()
      modifies this`roleValues
      ensures roleValues == RoleValues(dbRole)
      ensures Valid()
    {
      roleValues := [];
      if !IsNullOrBlank(dbRole) {
        roleValues := roleValues + [dbRole.value];
      }
    }

    /** The role header as sent: its single value, if any. */
    function RoleHeader(): (r: Option<string>)
      requires Valid()
      reads this
      ensures r.None? <==> roleValues == []
    {
      if roleValues == [] then None else Some(roleValues[0])
    }
  }

  // ---------------------------------------------------------------------
  // Transport outcome

  /** What the network did with one request: an HTTP response (its status
      code and the name of that code, the reason phrase, the body text and
      the JSON the body parses to, or the parser's message), or one of the
      exceptions the service catches. */
  datatype Outcome =
    | Response(code: int, statusName: string, reason: Option<string>, body: string,
               doc: Result<JsonValue, string>)
    | HttpFailure(message: string, statusCode: Option<string>)
    | Cancelled(isTimeout: bool, message: string)
    | Failure(message: string)

  /** `IsSuccessStatusCode`. */
  predicate IsSuccess(code: int) {
    200 <= code <= 299
  }

  const NullReferenceMessage := "Object reference not set to an instance of an object."

  function Unexpected(message: string): string {
    "Произошла непредвиденная ошибка: " + message
  }

  function NetworkError(message: string, statusName: Option<string>): string {
    "Сетевая ошибка: " + message + " (СтатусКод: " + statusName.GetOr("") + ")"
  }

  function CancelledError(isTimeout: bool, message: string): string {
    if isTimeout then "Тайм-аут запроса." else "Запрос отменен: " + message
  }

  function DocOf(doc: Result<JsonValue, string>): Option<JsonValue> {
    if doc.Ok? then Some(doc.value) else None
  }

  /** The text an error status leaves: the formatted message, or the
      message of the `NullReferenceException` the formatter throws. */
  function ShownError(f: Formatted): string {
    match f
    case Message(text) => text
    case NullReference => Unexpected(NullReferenceMessage)
  }

  /** `GetAsync`/`PostAsync` after the request: a success status gives the
      deserialized body (`decode` is the typed deserializer; `Ok(None)` is a
      JSON null), any other status the `FormatError` text, and each caught
      exception its own message. */
  function Complete<T>(outcome: Outcome, decode: JsonValue -> Result<Option<T>, string>): (r: (Option<T>, Option<string>))
    ensures r.0.Some? ==> r.1.None?
    ensures r.1.None? <==>
      outcome.Response? && IsSuccess(outcome.code) && outcome.doc.Ok? && decode(outcome.doc.value).Ok?
    ensures outcome.Response? && IsSuccess(outcome.code) && outcome.doc.Ok? && decode(outcome.doc.value).Ok? ==>
      r.0 == decode(outcome.doc.value).value
    ensures outcome.Response? && IsSuccess(outcome.code) && outcome.doc.Err? ==>
      r.1 == Some(Unexpected(outcome.doc.error))
    ensures outcome.Response? && IsSuccess(outcome.code) && outcome.doc.Ok? && decode(outcome.doc.value).Err? ==>
      r.1 == Some(Unexpected(decode(outcome.doc.value).error))
    ensures outcome.Response? && !IsSuccess(outcome.code) ==>
      r.0.None? && r.1 == Some(ShownError(FormatError(outcome.statusName, outcome.reason, outcome.body, DocOf(outcome.doc))))
    ensures outcome.HttpFailure? ==> r.1 == Some(NetworkError(outcome.message, outcome.statusCode))
    ensures outcome.Cancelled? ==> r.1 == Some(CancelledError(outcome.isTimeout, outcome.message))
    ensures outcome.Failure? ==> r.1 == Some(Unexpected(outcome.message))
  {
    match outcome
    case Response(code, statusName, reason, body, doc) =>
      if IsSuccess(code) then
        if doc.Err? then (None, Some(Unexpected(doc.error)))
        else if decode(doc.value).Err? then (None, Some(Unexpected(decode(doc.value).error)))
        else (decode(doc.value).value, None)
      else
        (None, Some(ShownError(FormatError(statusName, reason, body, DocOf(doc)))))
    case HttpFailure(m, statusCode) => (None, Some(NetworkError(m, statusCode)))
    case Cancelled(isTimeout, m) => (None, Some(CancelledError(isTimeout, m)))
    case Failure(m) => (None, Some(Unexpected(m)))
  }

  /** Every error message is of one of five kinds, told apart by its start. */
  lemma ErrorKinds<T>(outcome: Outcome, decode: JsonValue -> Result<Option<T>, string>)
    ensures var e := Complete(outcome, decode).1;
      e.Some? ==>
        (outcome.Response? && !IsSuccess(outcome.code) && StartsWith(e.value, "Ошибка: "))
        || (outcome.HttpFailure? && StartsWith(e.value, "Сетевая ошибка: "))
        || (outcome.Cancelled? && outcome.isTimeout && e.value == "Тайм-аут запроса.")
        || (outcome.Cancelled? && !outcome.isTimeout && StartsWith(e.value, "Запрос отменен: "))
        || ((outcome.Failure? || outcome.Response?) && StartsWith(e.value, "Произошла непредвиденная ошибка: "))
  {
    var e := Complete(outcome, decode).1;
    if e.Some? {
      var prefix: string;
      match outcome {
        case Response(code, statusName, reason, body, doc) =>
          var f := FormatError(statusName, reason, body, DocOf(doc));
          if !IsSuccess(code) && f.Message? {
            MessageStartsWithHead(statusName, reason, body, DocOf(doc));
            prefix := "Ошибка: ";
            assert BaseError(statusName, reason)[..|prefix|] == prefix;
          } else {
            prefix := "Произошла непредвиденная ошибка: ";
          }
        case HttpFailure(_, _) =>
          prefix := "Сетевая ошибка: ";
        case Cancelled(isTimeout, _) =>
          prefix := if isTimeout then "Тайм-аут запроса." else "Запрос отменен: ";
        case Failure(_) =>
          prefix := "Произошла непредвиденная ошибка: ";
      }
      assert |prefix| <= |e.value| && e.value[..|prefix|] == prefix;
      StartsWithSlice(e.value, prefix);
    }
  }

  /** No error message is empty. */
  lemma ErrorsNotEmpty<T>(outcome: Outcome, decode: JsonValue -> Result<Option<T>, string>)
    ensures Complete(outcome, decode).1.Some? ==> |Complete(outcome, decode).1.value| > 0
  {
    ErrorKinds(outcome, decode);
  }

  // ---------------------------------------------------------------------
  // Operations: the request sent (none when a guard answers) and the pair
  // returned

  /** A request to the API: its path and query, and the JSON body of a POST. */
  datatype Request = Get(uri: string) | Post(uri: string, payload: RoutineCallArgs)

  /** `new RoutineCallArgs()`. */
  const EmptyArgs := RoutineCallArgs([], map[])

  const BlankTableMessage := "Имя таблицы/представления не может быть пустым."
  const BlankColumnMessage := "Имя колонки не может быть пустым."
  const BlankRoutineMessage := "Имя рутины не может быть пустым."

  /** `GetTableOrViewSchemaAsync`: a blank name is refused without a request. */
  function GetTableOrViewSchemaAsync(name: string, outcome: Outcome,
                                     decode: JsonValue -> Result<Option<TableSchemaDetail>, string>)
    : (r: (Option<Request>, Option<TableSchemaDetail>, string))
    ensures IsBlank(name) ==> r == (None, None, BlankTableMessage)
    ensures !IsBlank(name) ==>
      r.0 == Some(Get("/schema/table/" + EscapeDataString(name)))
      && r.1 == Complete(outcome, decode).0 && r.2 == Complete(outcome, decode).1.GetOr("")
      && (r.1.None? || r.2 == "")
  {
    if IsBlank(name) then (None, None, BlankTableMessage)
    else
      var (body, error) := Complete(outcome, decode);
      (Some(Get("/schema/table/" + EscapeDataString(name))), body, error.GetOr(""))
  }

  /** The path segment of a routine kind, in Russian or English, any case. */
  function RoutineSegment(routineType: string): (r: Option<string>)
    ensures r == Some("procedure") <==>
      EqualsIgnoreCase(routineType, "процедура") || EqualsIgnoreCase(routineType, "procedure")
    ensures r == Some("function") <==>
      r != Some("procedure") && (EqualsIgnoreCase(routineType, "функция") || EqualsIgnoreCase(routineType, "function"))
    ensures r.Some? ==> r.value in {"procedure", "function"}
  {
    if EqualsIgnoreCase(routineType, "процедура") || EqualsIgnoreCase(routineType, "procedure") then Some("procedure")
    else if EqualsIgnoreCase(routineType, "функция") || EqualsIgnoreCase(routineType, "function") then Some("function")
    else None
  }

  /** `CallRoutineAsync`: the blank-name guard, then the kind, then one POST
      to "/routines/{kind}/{escaped name}"; the pair it returns never holds a
      null response or a null message. */
  function CallRoutineAsync(routineType: string, routineName: Option<string>, payload: Option<RoutineCallArgs>,
                            outcome: Outcome, decode: JsonValue -> Result<Option<RoutineCallResponse>, string>)
    : (r: (Option<Request>, RoutineCallResponse, string))
    ensures IsNullOrBlank(routineName) ==> r == (None, EmptyRoutineCallResponse, BlankRoutineMessage)
    ensures !IsNullOrBlank(routineName) && RoutineSegment(routineType).None? ==>
      r == (None, EmptyRoutineCallResponse, "Неизвестный тип рутины: " + routineType)
    ensures r.0.Some? <==> !IsNullOrBlank(routineName) && RoutineSegment(routineType).Some?
    ensures r.0.Some? ==>
      r.0.value == Post("/routines/" + RoutineSegment(routineType).value + "/" + EscapeDataString(routineName.value),
                        payload.GetOr(EmptyArgs))
    ensures r.0.Some? ==>
      r.1 == Complete(outcome, decode).0.GetOr(EmptyRoutineCallResponse)
      && r.2 == Complete(outcome, decode).1.GetOr("")
    ensures r.2 != "" ==> r.1 == EmptyRoutineCallResponse
  {
    if IsNullOrBlank(routineName) then (None, EmptyRoutineCallResponse, BlankRoutineMessage)
    else
      match RoutineSegment(routineType)
      case None => (None, EmptyRoutineCallResponse, "Неизвестный тип рутины: " + routineType)
      case Some(segment) =>
        var request := Post("/routines/" + segment + "/" + EscapeDataString(routineName.value), payload.GetOr(EmptyArgs));
        var (response, error) := Complete(outcome, decode);
        (Some(request), response.GetOr(EmptyRoutineCallResponse), error.GetOr(""))
  }

  /** A failed call is returned as an empty response with a non-empty message. */
  lemma FailedCallGivesEmptyResponse(routineType: string, routineName: Option<string>, payload: Option<RoutineCallArgs>,
                                     outcome: Outcome, decode: JsonValue -> Result<Option<RoutineCallResponse>, string>)
    requires !IsNullOrBlank(routineName) && RoutineSegment(routineType).Some?
    requires Complete(outcome, decode).1.Some?
    ensures var r := CallRoutineAsync(routineType, routineName, payload, outcome, decode);
      r.1 == EmptyRoutineCallResponse && r.2 == Complete(outcome, decode).1.value && r.2 != ""
  {
    ErrorsNotEmpty(outcome, decode);
  }

  /** `ReadItemsByColumnValueAsync`: the table name is checked before the
      column name, a null value is sent as "", and a missing list becomes
      an empty one. */
  function ReadItemsByColumnValueAsync(table: string, column: string, value: Option<string>,
                                       outcome: Outcome, decode: JsonValue -> Result<Option<seq<JsonValue>>, string>)
    : (r: (Option<Request>, seq<JsonValue>, string))
    ensures IsBlank(table) ==> r == (None, [], BlankTableMessage)
    ensures !IsBlank(table) && IsBlank(column) ==> r == (None, [], BlankColumnMessage)
    ensures r.0.Some? <==> !IsBlank(table) && !IsBlank(column)
    ensures r.0.Some? ==>
      r.0.value == Get("/" + EscapeDataString(table) + "/column/" + EscapeDataString(column)
                       + "/" + EscapeDataString(value.GetOr("")))
    ensures r.0.Some? ==>
      r.1 == Complete(outcome, decode).0.GetOr([]) && r.2 == Complete(outcome, decode).1.GetOr("")
  {
    if IsBlank(table) then (None, [], BlankTableMessage)
    else if IsBlank(column) then (None, [], BlankColumnMessage)
    else
      var uri := "/" + EscapeDataString(table) + "/column/" + EscapeDataString(column)
                 + "/" + EscapeDataString(value.GetOr(""));
      var (items, error) := Complete(outcome, decode);
      (Some(Get(uri)), items.GetOr([]), error.GetOr(""))
  }

  /** Each escaped part is one path segment: the path has exactly the four
      '/' of its template, whatever the names hold. */
  lemma ColumnPathSegments(table: string, column: string, value: string)
    ensures var uri := "/" + EscapeDataString(table) + "/column/" + EscapeDataString(column) + "/" + EscapeDataString(value);
      multiset(uri)['/'] == 4
  {
    EscapedHasNoDelimiter(table);
    EscapedHasNoDelimiter(column);
    EscapedHasNoDelimiter(value);
  }

  // ---------------------------------------------------------------------
  // Query string of ReadItemsAsync

  /** One entry of the query dictionary, in insertion order. */
  datatype QueryParam = QueryParam(key: string, value: string)

  /** One entry of the caller's filter dictionary (its value may be null). */
  datatype Filter = Filter(key: string, value: Option<string>)

  function Keys(ps: seq<QueryParam>): (r: seq<string>)
    ensures |r| == |ps| && forall i :: 0 <= i < |ps| ==> r[i] == ps[i].key
  {
    seq(|ps|, i requires 0 <= i < |ps| => ps[i].key)
  }

  /** The position of `key`, if present. */
  function IndexOfKey(ps: seq<QueryParam>, key: string): (r: Option<nat>)
    ensures r.Some? ==> r.value < |ps| && ps[r.value].key == key
    ensures r.None? <==> key !in Keys(ps)
    decreases |ps|
  {
    if |ps| == 0 then None
    else if ps[|ps| - 1].key == key then Some(|ps| - 1)
    else
      var r := IndexOfKey(ps[..|ps| - 1], key);
      assert Keys(ps) == Keys(ps[..|ps| - 1]) + [ps[|ps| - 1].key];
      r
  }

  /** The dictionary's value for `key`. */
  function Lookup(ps: seq<QueryParam>, key: string): Option<string> {
    match IndexOfKey(ps, key)
    case Some(i) => Some(ps[i].value)
    case None => None
  }

  predicate DistinctKeys(ps: seq<QueryParam>) {
    forall i, j :: 0 <= i < j < |ps| ==> ps[i].key != ps[j].key
  }

  /** `dictionary[key] = value`: an existing key keeps its place and takes
      the new value, a new key goes last. */
  function Assign(ps: seq<QueryParam>, key: string, value: string): (r: seq<QueryParam>)
    ensures Keys(r) == if key in Keys(ps) then Keys(ps) else Keys(ps) + [key]
  {
    match IndexOfKey(ps, key)
    case Some(i) =>
      var r := ps[i := QueryParam(key, value)];
      assert Keys(r) == Keys(ps);
      r
    case None =>
      var r := ps + [QueryParam(key, value)];
      assert Keys(r) == Keys(ps) + [key];
      r
  }

  /** `Assign` keeps the keys distinct and leaves `key` at one position,
      holding `value`. */
  lemma AssignPlaces(ps: seq<QueryParam>, key: string, value: string)
    requires DistinctKeys(ps)
    ensures var r := Assign(ps, key, value);
      DistinctKeys(r) && exists i :: 0 <= i < |r| && r[i] == QueryParam(key, value)
  {
    var r := Assign(ps, key, value);
    match IndexOfKey(ps, key)
    case Some(i) =>
      assert r == ps[i := QueryParam(key, value)];
      forall j, k | 0 <= j < k < |r| ensures r[j].key != r[k].key {
        assert r[j].key == ps[j].key && r[k].key == ps[k].key;
      }
      assert r[i] == QueryParam(key, value);
    case None =>
      assert r == ps + [QueryParam(key, value)];
      assert key !in Keys(ps);
      forall j, k | 0 <= j < k < |r| ensures r[j].key != r[k].key {
        if k == |ps| {
          assert Keys(ps)[j] == r[j].key;
        }
      }
      assert r[|ps|] == QueryParam(key, value);
  }

  /** After `Assign`, `key` maps to `value`, every other key keeps its
      value, and keys stay distinct. */
  lemma AssignLookup(ps: seq<QueryParam>, key: string, value: string, other: string)
    requires DistinctKeys(ps)
    ensures DistinctKeys(Assign(ps, key, value))
    ensures Lookup(Assign(ps, key, value), key) == Some(value)
    ensures other != key ==> Lookup(Assign(ps, key, value), other) == Lookup(ps, other)
  {
    var r := Assign(ps, key, value);
    AssignPlaces(ps, key, value);
    KeyIndexUnique(r, key);
    if other != key {
      assert Keys(r)[..|ps|] == Keys(ps);
      KeyIndexUnique(r, other);
      KeyIndexUnique(ps, other);
      if IndexOfKey(ps, other).Some? {
        var j := IndexOfKey(ps, other).value;
        assert r[j].key == other;
      }
    }
  }

  /** With distinct keys, a key is found at its one position. */
  lemma KeyIndexUnique(ps: seq<QueryParam>, key: string)
    requires DistinctKeys(ps)
    ensures forall i :: 0 <= i < |ps| && ps[i].key == key ==> IndexOfKey(ps, key) == Some(i)
  {
  }

  /** `if (!string.IsNullOrWhiteSpace(option)) dictionary[key] = option`. */
  function AssignOption(ps: seq<QueryParam>, key: string, option: Option<string>): seq<QueryParam> {
    if IsNullOrBlank(option) then ps else Assign(ps, key, option.value)
  }

  /** The dictionary as first created: limit, then offset. */
  function LimitOffset(limit: Int32, offset: Int32): seq<QueryParam> {
    [QueryParam("limit", IntToString(limit)), QueryParam("offset", IntToString(offset))]
  }

  /** The dictionary before the filters: limit and offset, then `sort_by`
      and `fields` when they are not blank. */
  function InitialParams(limit: Int32, offset: Int32, sortBy: Option<string>, fields: Option<string>)
    : seq<QueryParam>
  {
    AssignOption(AssignOption(LimitOffset(limit, offset), "sort_by", sortBy), "fields", fields)
  }

  /** A conditional write keeps the keys distinct, keeps the earlier keys in
      place, and changes at most the value of its own key. */
  lemma AssignOptionFacts(ps: seq<QueryParam>, key: string, option: Option<string>, other: string)
    requires DistinctKeys(ps)
    ensures var r := AssignOption(ps, key, option);
      DistinctKeys(r) && |r| >= |ps| && Keys(r)[..|ps|] == Keys(ps)
      && Lookup(r, key) == (if IsNullOrBlank(option) then Lookup(ps, key) else Some(option.value))
      && (other != key ==> Lookup(r, other) == Lookup(ps, other))
  {
    if !IsNullOrBlank(option) {
      AssignLookup(ps, key, option.value, other);
      AssignLookup(ps, key, option.value, key);
    }
  }

  /** The first two entries have distinct keys and hold limit and offset. */
  lemma LimitOffsetFacts(limit: Int32, offset: Int32, key: string)
    ensures var ps := LimitOffset(limit, offset);
      DistinctKeys(ps) && Keys(ps) == ["limit", "offset"]
      && Lookup(ps, key) ==
        if key == "limit" then Some(IntToString(limit))
        else if key == "offset" then Some(IntToString(offset))
        else None
  {
    var ps := LimitOffset(limit, offset);
    assert DistinctKeys(ps);
    KeyIndexUnique(ps, "limit");
    KeyIndexUnique(ps, "offset");
    assert Keys(ps) == ["limit", "offset"];
  }

  /** The initial dictionary holds limit and offset first, with distinct keys. */
  lemma InitialParamsKeys(limit: Int32, offset: Int32, sortBy: Option<string>, fields: Option<string>)
    ensures var ps := InitialParams(limit, offset, sortBy, fields);
      DistinctKeys(ps) && |ps| >= 2 && ps[0].key == "limit" && ps[1].key == "offset"
  {
    var p0 := LimitOffset(limit, offset);
    LimitOffsetFacts(limit, offset, "");
    AssignOptionFacts(p0, "sort_by", sortBy, "");
    var p1 := AssignOption(p0, "sort_by", sortBy);
    AssignOptionFacts(p1, "fields", fields, "");
    var p2 := AssignOption(p1, "fields", fields);
    assert Keys(p2)[..|p1|][..2] == Keys(p1)[..2] == Keys(p0);
    assert Keys(p2)[0] == "limit" && Keys(p2)[1] == "offset";
  }

  /** The initial dictionary maps limit and offset to their decimal text, and
      `sort_by` and `fields` to their values when these are not blank; it holds no other key. */
  lemma InitialParamsLookup(limit: Int32, offset: Int32, sortBy: Option<string>, fields: Option<string>, key: string)
    ensures Lookup(InitialParams(limit, offset, sortBy, fields), key) ==
        if key == "limit" then Some(IntToString(limit))
        else if key == "offset" then Some(IntToString(offset))
        else if key == "sort_by" then (if IsNullOrBlank(sortBy) then None else Some(sortBy.value))
        else if key == "fields" then (if IsNullOrBlank(fields) then None else Some(fields.value))
        else None
  {
    var p0 := LimitOffset(limit, offset);
    LimitOffsetFacts(limit, offset, key);
    LimitOffsetFacts(limit, offset, "sort_by");
    AssignOptionFacts(p0, "sort_by", sortBy, key);
    var p1 := AssignOption(p0, "sort_by", sortBy);
    AssignOptionFacts(p1, "fields", fields, key);
  }

  /** A filter is written unless its key is blank or its value null. */
  predicate Applies(f: Filter) {
    !IsBlank(f.key) && f.value.Some?
  }

  /** The filters written through the indexer, in order. */
  function ApplyFilters(ps: seq<QueryParam>, filters: seq<Filter>): seq<QueryParam>
    decreases |filters|
  {
    if |filters| == 0 then ps
    else
      var f := filters[|filters| - 1];
      var before := ApplyFilters(ps, filters[..|filters| - 1]);
      if Applies(f) then Assign(before, f.key, f.value.value) else before
  }

  /** The query dictionary `ReadItemsAsync` builds. */
  function QueryParams(limit: Int32, offset: Int32, sortBy: Option<string>, fields: Option<string>,
                       filters: Option<seq<Filter>>): seq<QueryParam>
  {
    var ps := InitialParams(limit, offset, sortBy, fields);
    if filters.Some? then ApplyFilters(ps, filters.value) else ps
  }

  /** The value of the last filter written for `key`, if any. */
  function LastFilter(filters: seq<Filter>, key: string): (r: Option<string>)
    decreases |filters|
  {
    if |filters| == 0 then None
    else
      var f := filters[|filters| - 1];
      if Applies(f) && f.key == key then Some(f.value.value) else LastFilter(filters[..|filters| - 1], key)
  }

  /** Filters keep the keys distinct and only ever add keys at the end. */
  lemma {:induction false} FiltersKeepKeys(ps: seq<QueryParam>, filters: seq<Filter>)
    requires DistinctKeys(ps)
    ensures var r := ApplyFilters(ps, filters);
      DistinctKeys(r) && |r| >= |ps| && Keys(r)[..|ps|] == Keys(ps)
    decreases |filters|
  {
    if |filters| > 0 {
      var f := filters[|filters| - 1];
      var before := ApplyFilters(ps, filters[..|filters| - 1]);
      FiltersKeepKeys(ps, filters[..|filters| - 1]);
      if Applies(f) {
        AssignLookup(before, f.key, f.value.value, f.key);
        var r := Assign(before, f.key, f.value.value);
        assert Keys(r)[..|before|] == Keys(before);
        assert Keys(r)[..|ps|] == Keys(before)[..|ps|];
      }
    }
  }

  /** A key's value is the last filter written for it, else its initial value. */
  lemma {:induction false} FiltersLookup(ps: seq<QueryParam>, filters: seq<Filter>, key: string)
    requires DistinctKeys(ps)
    ensures Lookup(ApplyFilters(ps, filters), key)
         == if LastFilter(filters, key).Some? then LastFilter(filters, key) else Lookup(ps, key)
    decreases |filters|
  {
    if |filters| > 0 {
      var f := filters[|filters| - 1];
      var before := ApplyFilters(ps, filters[..|filters| - 1]);
      FiltersLookup(ps, filters[..|filters| - 1], key);
      FiltersKeepKeys(ps, filters[..|filters| - 1]);
      if Applies(f) {
        AssignLookup(before, f.key, f.value.value, key);
      }
    }
  }

  /** `ReadItemsAsync`'s query: `limit` and `offset` always come first; each
      key holds the last filter written for it, else its option. */
  lemma QueryParamsMeaning(limit: Int32, offset: Int32, sortBy: Option<string>, fields: Option<string>,
                           filters: Option<seq<Filter>>, key: string)
    ensures var ps := QueryParams(limit, offset, sortBy, fields, filters);
      var fromFilters := if filters.Some? then LastFilter(filters.value, key) else None;
      DistinctKeys(ps) && |ps| >= 2 && ps[0].key == "limit" && ps[1].key == "offset"
      && Lookup(ps, key) == if fromFilters.Some? then fromFilters else Lookup(InitialParams(limit, offset, sortBy, fields), key)
  {
    var p := InitialParams(limit, offset, sortBy, fields);
    InitialParamsKeys(limit, offset, sortBy, fields);
    if filters.Some? {
      FiltersKeepKeys(p, filters.value);
      FiltersLookup(p, filters.value, key);
      var ps := ApplyFilters(p, filters.value);
      assert Keys(ps)[..|p|][0] == Keys(p)[0] && Keys(ps)[..|p|][1] == Keys(p)[1];
    }
  }

  /** `QueryHelpers.AddQueryString`: the pairs `key=value` (each part put
      through the URL encoder `encode`) joined by '&', after '?' (or '&'
      when the URI already has a query), in front of any '#' fragment. */
  function AddQueryString(uri: string, ps: seq<QueryParam>, encode: string -> string): string {
    var pairs := seq(|ps|, i requires 0 <= i < |ps| => encode(ps[i].key) + "=" + encode(ps[i].value));
    var anchor := FirstIndexOf(uri, '#');
    var base := if anchor.Some? then uri[..anchor.value] else uri;
    var fragment := if anchor.Some? then uri[anchor.value..] else "";
    if |ps| == 0 then uri
    else base + (if '?' in base then "&" else "?") + Join("&", pairs) + fragment
  }

  function FirstIndexOf(s: string, c: char): (r: Option<nat>)
    ensures r.Some? ==> r.value < |s| && s[r.value] == c && c !in s[..r.value]
    ensures r.None? <==> c !in s
    decreases |s|
  {
    if |s| == 0 then None
    else if s[0] == c then Some(0)
    else
      match FirstIndexOf(s[1..], c)
      case None => None
      case Some(i) =>
        assert s[..i + 1] == [s[0]] + s[1..][..i];
        Some(i + 1)
  }

  /** `ReadItemsAsync`: a blank name is refused without a request; else the
      filter dictionary is copied into the query one entry at a time and one
      GET is sent to "/{escaped name}?{query}". */
  method ReadItemsAsync(name: string, limit: Int32, offset: Int32, sortBy: Option<string>, fields: Option<string>,
                        filters: Option<seq<Filter>>, encode: string -> string,
                        outcome: Outcome, decode: JsonValue -> Result<Option<PaginatedDataResponse>, string>)
    returns (sent: Option<Request>, response: Option<PaginatedDataResponse>, error: Option<string>)
    ensures IsBlank(name) ==> sent.None? && response.None? && error == Some(BlankTableMessage)
    ensures !IsBlank(name) ==>
      sent == Some(Get(AddQueryString("/" + EscapeDataString(name),
                                      QueryParams(limit, offset, sortBy, fields, filters), encode)))
      && (response, error) == Complete(outcome, decode)
  {
    if IsBlank(name) {
      return None, None, Some(BlankTableMessage);
    }
    var ps := [QueryParam("limit", IntToString(limit)), QueryParam("offset", IntToString(offset))];
    ps := AssignOption(ps, "sort_by", sortBy);
    ps := AssignOption(ps, "fields", fields);
    if filters.Some? {
      var fs := filters.value;
      for k := 0 to |fs|
        invariant ps == ApplyFilters(InitialParams(limit, offset, sortBy, fields), fs[..k])
      {
        assert fs[..k + 1][..k] == fs[..k];
        if Applies(fs[k]) {
          ps := Assign(ps, fs[k].key, fs[k].value.value);
        }
      }
      assert fs[..|fs|] == fs;
    }
    sent := Some(Get(AddQueryString("/" + EscapeDataString(name), ps, encode)));
    var result := Complete(outcome, decode);
    response, error := result.0, result.1;
  }

  /** The escaped table name holds no '?' or '#', so the query is appended
      with '?' straight after it. */
  lemma ReadItemsUri(name: string, ps: seq<QueryParam>, encode: string -> string)
    requires |ps| > 0
    ensures var pairs := seq(|ps|, i requires 0 <= i < |ps| => encode(ps[i].key) + "=" + encode(ps[i].value));
      AddQueryString("/" + EscapeDataString(name), ps, encode)
        == "/" + EscapeDataString(name) + "?" + Join("&", pairs)
  {
    EscapedHasNoDelimiter(name);
    var path := "/" + EscapeDataString(name);
    assert '#' !in path && '?' !in path;
  }
}
