/** The state of the main window that the client updates in place: paging of
    the data query, the table name copied into the query fields, the example
    payload of the selected routine and the view of a routine's result. */
module ViewModel {
  import opened Wrappers
  import opened Text
  import opened Json
  import opened Records
  import opened Signature
  import opened Payload
  import opened Flattening
  import opened Services

  /** What the routine list has selected: nothing, a placeholder object, a
      procedure or a function. */
  datatype RoutineItem = NoItem | OtherItem | Procedure(proc: ProcedureInfo) | Function(func: FunctionInfo)

  /** What a routine call leaves on screen: the text box and the result grid. */
  datatype RoutineView = RoutineView(text: string, table: Option<DataTable>)

  const Int32Max: int := 0x7FFF_FFFF

  // ---------------------------------------------------------------------
  // Paging arithmetic

  /** The value the `DataQueryLimit` setter stores. */
  function StoredLimit(value: Int32): (r: Int32)
    ensures r >= 1
    ensures value > 0 <==> r == value
  {
    if value > 0 then value else 1
  }

  /** The value the `DataQueryOffset` setter stores. */
  function StoredOffset(value: Int32): (r: Int32)
    ensures r >= 0
    ensures value >= 0 <==> r == value
  {
    if value >= 0 then value else 0
  }

  /** `DataQueryOffset += DataQueryLimit` in unchecked `int` arithmetic,
      stored through the offset setter. */
  function NextOffset(offset: Int32, limit: Int32): (r: Int32)
    requires offset >= 0 && limit >= 1
    ensures r >= 0
    ensures offset + limit <= Int32Max ==> r == offset + limit
    ensures offset + limit > Int32Max ==> r == 0
  {
    StoredOffset(Wrap32(offset + limit))
  }

  /** `DataQueryOffset = Math.Max(0, DataQueryOffset - DataQueryLimit)`. */
  function PreviousOffset(offset: Int32, limit: Int32): (r: Int32)
    requires offset >= 0 && limit >= 1
    ensures 0 <= r <= offset
    ensures r == if offset >= limit then offset - limit else 0
  {
    var d := Wrap32(offset - limit);
    StoredOffset(if 0 >= d then 0 else d)
  }

  /** The guard of the Next command: a table is shown and `offset + limit`,
      computed in `int`, is below the total. */
  predicate NextEnabled(hasTable: bool, offset: Int32, limit: Int32, total: Int32) {
    hasTable && Wrap32(offset + limit) < total
  }

  /** The guard of the Previous command. */
  predicate PreviousEnabled(hasTable: bool, offset: Int32) {
    hasTable && offset > 0
  }

  // ---------------------------------------------------------------------
  // The table-result test and the view of a routine's answer

  /** The precise return type announces rows: upper-cased, it starts with
      TABLE or contains SETOF RECORD or RECORD[]. */
  predicate IsTableReturnType(preciseReturnType: Option<string>) {
    preciseReturnType.Some? &&
    var u := ToUpper(preciseReturnType.value);
    StartsWith(u, "TABLE") || Contains(u, "SETOF RECORD") || Contains(u, "RECORD[]")
  }

  /** Only a function whose return type announces rows is shown as a table. */
  predicate ExpectsTable(item: RoutineItem) {
    item.Function? && IsTableReturnType(item.func.preciseReturnType)
  }

  /** The message above a table of `n` rows. */
  function RowsMessage(n: nat): string {
    "Table result displayed below. (" + NatToString(n) + " rows)"
  }

  /** The message for a table function that answered with something else. */
  function ExpectedArrayMessage(result: JsonValue, indent: JsonValue -> string): string {
    "Expected array for table result, but got " + KindName(KindOf(result)) + ".\nRaw JSON:\n" + indent(result)
  }

  /** What the window shows once a call of `item` came back with `response`
      (or failed with `error`).  `indent` is the indented serializer and
      `failure` the message of the exception the table raises on a first
      object with a repeated property name. */
  function CallView(item: RoutineItem, response: Option<RoutineCallResponse>, error: string,
                    indent: JsonValue -> string, failure: string): RoutineView
  {
    if response.None? then RoutineView("Error: " + error, None)
    else
      var r := response.value;
      if r.result.Some? && !r.result.value.JNull? then
        var result := r.result.value;
        if ExpectsTable(item) then
          if result.JArray? then
            if Acceptable(Some(result.items)) then
              RoutineView(RowsMessage(|result.items|), Some(Flatten(Some(result.items))))
            else
              RoutineView("Error converting table result: " + failure + "\nRaw JSON:\n" + indent(result), None)
          else RoutineView(ExpectedArrayMessage(result, indent), None)
        else RoutineView(indent(result), None)
      else if r.status.Some? && |r.status.value| > 0 then
        RoutineView("Status: " + r.status.value
                    + (if r.argsUsed.Some? && |r.argsUsed.value| > 0
                       then "\nArgs Used: " + indent(JArray(r.argsUsed.value)) else ""), None)
      else RoutineView("Routine executed. No specific result data or status returned.", None)
  }

  /** The kind word the window hands to the service for the selected item. */
  function RoutineKindWord(item: RoutineItem): string {
    if item.Procedure? then "процедура" else "функция"
  }

  // ---------------------------------------------------------------------
  // Payload generation

  /** The first loop of `GeneratePayload`: the parameters whose upper-cased
      direction is not OUT, with their types trimmed, in signature order. */
  method CollectDefinitions(ms: seq<ArgMatch>) returns (defs: seq<ArgDef>)
    ensures defs == Kept(ms)
  {
    defs := [];
    var k := 0;
    while k < |ms|
      invariant 0 <= k <= |ms|
      invariant defs == Kept(ms[..k])
    {
      var m := ms[k];
      if !IsOut(m) {
        defs := defs + [Definition(m)];
      }
      KeptPrefix(ms, k);
      k := k + 1;
    }
    assert ms[..k] == ms;
  }

  /** The second loop of `GeneratePayload`: one example value per parameter. */
  method CollectExamples(defs: seq<ArgDef>, clock: Clock, guids: nat -> string) returns (values: seq<ExampleValue>)
    ensures values == ExampleValues(defs, clock, guids)
  {
    values := [];
    var j := 0;
    while j < |defs|
      invariant 0 <= j <= |defs|
      invariant |values| == j
      invariant forall i :: 0 <= i < j ==> values[i] == ExampleFor(defs[i], clock, guids(i))
    {
      values := values + [ExampleFor(defs[j], clock, guids(j))];
      j := j + 1;
    }
  }

  /** `GeneratePayload` without its final assignment: the text it leaves in
      the arguments box. */
  method BuildPayload(signature: string, clock: Clock, guids: nat -> string) returns (text: string)
    ensures text == PayloadText(signature, clock, guids)
  {
    if IsBlank(signature) {
      return "[]";
    }
    var defs := CollectDefinitions(Matches(signature));
    if |defs| == 0 {
      return "[]";
    }
    var values := CollectExamples(defs, clock, guids);
    text := Indented(values);
  }

  /** The arguments box after a routine was picked: "[]" for a missing or
      blank signature, the generated payload otherwise. */
  function ExamplePayload(signature: Option<string>, clock: Clock, guids: nat -> string): (r: string)
    ensures IsNullOrBlank(signature) ==> r == "[]"
  {
    if IsNullOrBlank(signature) then "[]" else PayloadText(signature.value, clock, guids)
  }

  /** The arguments signature of a routine item, if it has one. */
  function SignatureOf(item: RoutineItem): Option<string> {
    match item
    case Procedure(p) => p.argumentsSignature
    case Function(f) => f.argumentsSignature
    case _ => None
  }

  /** The name shown for a routine item. */
  function NameOf(item: RoutineItem): Option<string> {
    match item
    case Procedure(p) => p.name
    case Function(f) => f.name
    case _ => None
  }

  // ---------------------------------------------------------------------
  // The window state

  class MainViewModel {
    var selectedTableNameForSchema: Option<string>
    var dataQueryTableName: Option<string>
    var dataByColumnTableName: Option<string>
    var dataQueryLimit: Int32
    var dataQueryOffset: Int32
    var dataQueryTotalCount: Int32
    var queriedDataTable: Option<DataTable>
    var selectedRoutineItem: RoutineItem
    var selectedRoutineName: Option<string>
    var routineArgumentsInput: Option<string>
    var routineCallResult: Option<string>
    var routineCallDataTableResult: Option<DataTable>

    /** The setters keep a positive limit and a non-negative offset. */
    predicate Valid()
      reads this
    {
      dataQueryLimit >= 1 && dataQueryOffset >= 0
    }

    constructor ()
      ensures Valid()
      ensures dataQueryLimit == 10 && dataQueryOffset == 0 && dataQueryTotalCount == 0
      ensures queriedDataTable == None && selectedRoutineItem == OtherItem
      ensures selectedTableNameForSchema == Some("") && dataQueryTableName == Some("") && dataByColumnTableName == Some("")
      ensures routineArgumentsInput == Some("[]") && selectedRoutineName == None
      ensures routineCallResult == None && routineCallDataTableResult == None
    {
      selectedTableNameForSchema := Some("");
      dataQueryTableName := Some("");
      dataByColumnTableName := Some("");
      dataQueryLimit := 10;
      dataQueryOffset := 0;
      dataQueryTotalCount := 0;
      queriedDataTable := None;
      selectedRoutineItem := OtherItem;
      selectedRoutineName := None;
      routineArgumentsInput := Some("[]");
      routineCallResult := None;
      routineCallDataTableResult := None;
    }

    predicate CanGoNext()
      reads this
    {
      NextEnabled(queriedDataTable.Some?, dataQueryOffset, dataQueryLimit, dataQueryTotalCount)
    }

    predicate CanGoPrevious()
      reads this
    {
      PreviousEnabled(queriedDataTable.Some?, dataQueryOffset)
    }

    method SetDataQueryLimit(value: Int32)
      requires Valid()
      modifies this`dataQueryLimit
      ensures Valid()
      ensures dataQueryLimit == StoredLimit(value)
    {
      dataQueryLimit := if value > 0 then value else 1;
    }

    method SetDataQueryOffset(value: Int32)
      requires Valid()
      modifies this`dataQueryOffset
      ensures Valid()
      ensures dataQueryOffset == StoredOffset(value)
    {
      dataQueryOffset := if value >= 0 then value else 0;
    }

    /** The first half of the Next command; the reload that follows is
        `ReadData`. */
    method NextPage()
      requires Valid()
      modifies this`dataQueryOffset
      ensures Valid()
      ensures dataQueryOffset == NextOffset(old(dataQueryOffset), dataQueryLimit)
    {
      SetDataQueryOffset(Wrap32(dataQueryOffset + dataQueryLimit));
    }

    /** The first half of the Previous command; the reload that follows is
        `ReadData`. */
    method PreviousPage()
      requires Valid()
      modifies this`dataQueryOffset
      ensures Valid()
      ensures dataQueryOffset == PreviousOffset(old(dataQueryOffset), dataQueryLimit)
    {
      var d := Wrap32(dataQueryOffset - dataQueryLimit);
      SetDataQueryOffset(if 0 >= d then 0 else d);
    }

    /** Picking a table for its schema also fills both query forms, unless
        the name is blank. */
    method SetSelectedTableNameForSchema(value: Option<string>)
      modifies this`selectedTableNameForSchema, this`dataQueryTableName, this`dataByColumnTableName
      ensures selectedTableNameForSchema == value
      ensures !IsNullOrBlank(value) ==> dataQueryTableName == value && dataByColumnTableName == value
      ensures IsNullOrBlank(value) ==>
        dataQueryTableName == old(dataQueryTableName) && dataByColumnTableName == old(dataByColumnTableName)
    {
      selectedTableNameForSchema := value;
      if !IsNullOrBlank(value) {
        dataQueryTableName := value;
        dataByColumnTableName := value;
      }
    }

    /** `ExecuteReadDataAsync` once the service answered with `page` (`None`
        when the request failed). */
    method ReadData(page: Option<PaginatedDataResponse>)
      requires Valid()
      requires page.Some? && page.value.data.Some? ==> Acceptable(page.value.data)
      modifies this`queriedDataTable, this`dataQueryTotalCount, this`dataQueryOffset, this`dataQueryLimit
      ensures Valid()
      ensures IsNullOrBlank(dataQueryTableName) ==>
        queriedDataTable == None && dataQueryTotalCount == 0
        && dataQueryOffset == old(dataQueryOffset) && dataQueryLimit == old(dataQueryLimit)
      ensures !IsNullOrBlank(dataQueryTableName) && page.Some? && page.value.data.Some? ==>
        queriedDataTable == Some(Flatten(page.value.data))
        && dataQueryTotalCount == page.value.totalCount
        && dataQueryOffset == StoredOffset(page.value.offset)
        && dataQueryLimit == StoredLimit(page.value.limit)
      ensures !IsNullOrBlank(dataQueryTableName) && !(page.Some? && page.value.data.Some?) ==>
        queriedDataTable == None && dataQueryTotalCount == 0
        && dataQueryOffset == old(dataQueryOffset) && dataQueryLimit == old(dataQueryLimit)
    {
      if IsNullOrBlank(dataQueryTableName) {
        queriedDataTable := None;
        dataQueryTotalCount := 0;
        return;
      }
      queriedDataTable := None;
      if page.Some? && page.value.data.Some? {
        dataQueryTotalCount := page.value.totalCount;
        SetDataQueryOffset(page.value.offset);
        SetDataQueryLimit(page.value.limit);
        var t := ConvertJsonElementsToDataTable(page.value.data);
        queriedDataTable := Some(t);
      } else {
        dataQueryTotalCount := 0;
      }
    }

    /** `GeneratePayload`: fills the arguments box from a signature. */
    method GeneratePayload(signature: string, clock: Clock, guids: nat -> string)
      modifies this`routineArgumentsInput
      ensures routineArgumentsInput == Some(PayloadText(signature, clock, guids))
    {
      var text := BuildPayload(signature, clock, guids);
      routineArgumentsInput := Some(text);
    }

    /** `GenerateExamplePayloadForProcedure`. */
    method GenerateExamplePayloadForProcedure(proc: Option<ProcedureInfo>, clock: Clock, guids: nat -> string)
      modifies this`routineArgumentsInput
      ensures proc.None? ==> routineArgumentsInput == Some("[]")
      ensures proc.Some? ==> routineArgumentsInput == Some(ExamplePayload(proc.value.argumentsSignature, clock, guids))
    {
      if proc.None? || IsNullOrBlank(proc.value.argumentsSignature) {
        routineArgumentsInput := Some("[]");
        return;
      }
      GeneratePayload(proc.value.argumentsSignature.value, clock, guids);
    }

    /** `GenerateExamplePayloadForFunction`. */
    method GenerateExamplePayloadForFunction(func: Option<FunctionInfo>, clock: Clock, guids: nat -> string)
      modifies this`routineArgumentsInput
      ensures func.None? ==> routineArgumentsInput == Some("[]")
      ensures func.Some? ==> routineArgumentsInput == Some(ExamplePayload(func.value.argumentsSignature, clock, guids))
    {
      if func.None? || IsNullOrBlank(func.value.argumentsSignature) {
        routineArgumentsInput := Some("[]");
        return;
      }
      GeneratePayload(func.value.argumentsSignature.value, clock, guids);
    }

    /** The `SelectedRoutineItem` setter: a new selection clears the result
        and prepares the name and the example arguments. */
    method SetSelectedRoutineItem(value: RoutineItem, clock: Clock, guids: nat -> string)
      modifies this`selectedRoutineItem, this`routineCallResult, this`routineCallDataTableResult,
               this`selectedRoutineName, this`routineArgumentsInput
      ensures value == old(selectedRoutineItem) ==>
        routineCallResult == old(routineCallResult) && routineCallDataTableResult == old(routineCallDataTableResult)
        && selectedRoutineName == old(selectedRoutineName) && routineArgumentsInput == old(routineArgumentsInput)
      ensures selectedRoutineItem == value
      ensures value != old(selectedRoutineItem) ==>
        routineCallResult == Some("") && routineCallDataTableResult == None
        && selectedRoutineName == NameOf(value)
        && routineArgumentsInput == Some(ExamplePayload(SignatureOf(value), clock, guids))
    {
      if value == selectedRoutineItem {
        return;
      }
      selectedRoutineItem := value;
      routineCallResult := Some("");
      routineCallDataTableResult := None;
      match value
      case Procedure(p) =>
        selectedRoutineName := p.name;
        GenerateExamplePayloadForProcedure(Some(p), clock, guids);
      case Function(f) =>
        selectedRoutineName := f.name;
        GenerateExamplePayloadForFunction(Some(f), clock, guids);
      case _ =>
        selectedRoutineName := None;
        routineArgumentsInput := Some("[]");
    }

    /** `ExecuteCallSelectedRoutineAsync` once the service answered with
        `response` or `error`. */
    method CallSelectedRoutine(response: Option<RoutineCallResponse>, error: string,
                               indent: JsonValue -> string, failure: string)
      modifies this`routineCallResult, this`routineCallDataTableResult
      ensures selectedRoutineItem.NoItem? || IsNullOrBlank(selectedRoutineName) ==>
        routineCallResult == Some("No routine selected.") && routineCallDataTableResult == None
      ensures !(selectedRoutineItem.NoItem? || IsNullOrBlank(selectedRoutineName)) ==>
        var v := CallView(selectedRoutineItem, response, error, indent, failure);
        routineCallResult == Some(v.text) && routineCallDataTableResult == v.table
    {
      if selectedRoutineItem.NoItem? || IsNullOrBlank(selectedRoutineName) {
        routineCallResult := Some("No routine selected.");
        routineCallDataTableResult := None;
        return;
      }
      var v := CallView(selectedRoutineItem, response, error, indent, failure);
      if v.table.Some? {
        var items := response.value.result.value.items;
        var t := ConvertJsonElementsToDataTable(Some(items));
        routineCallDataTableResult := Some(t);
      } else {
        routineCallDataTableResult := None;
      }
      routineCallResult := Some(v.text);
    }
  }

  // ---------------------------------------------------------------------
  // Properties

  /** Without overflow the Next guard means exactly: a table is shown and the
      next page starts before the total. */
  lemma NextGuardMeaning(hasTable: bool, offset: Int32, limit: Int32, total: Int32)
    requires offset >= 0 && limit >= 1 && offset + limit <= Int32Max
    ensures NextEnabled(hasTable, offset, limit, total) <==> hasTable && offset + limit < total
    ensures NextEnabled(hasTable, offset, limit, total) ==> NextOffset(offset, limit) < total
  {
  }

  /** The Next guard adds in `int`: with a limit near the top of the range
      the sum wraps negative, so the guard lets the command run although the
      next page would start past the total, and the stored offset falls back
      to 0. */
  lemma NextGuardWraps()
    ensures NextEnabled(true, 1, Int32Max, 5)
    ensures 1 + Int32Max >= 5
    ensures NextOffset(1, Int32Max) == 0
  {
    assert Wrap32(1 + Int32Max) == -0x8000_0000;
  }

  /** Previous undoes Next whenever Next did not wrap. */
  lemma PreviousUndoesNext(offset: Int32, limit: Int32)
    requires offset >= 0 && limit >= 1 && offset + limit <= Int32Max
    ensures PreviousOffset(NextOffset(offset, limit), limit) == offset
  {
  }

  /** Previous is only enabled when it moves the offset back. */
  lemma PreviousMovesBack(hasTable: bool, offset: Int32, limit: Int32)
    requires offset >= 0 && limit >= 1
    requires PreviousEnabled(hasTable, offset)
    ensures PreviousOffset(offset, limit) < offset
  {
  }

  /** A table appears only for a table function that answered with an array
      whose first object has distinct names, and then it is the flattening
      of that array. */
  lemma TableOnlyFromTableFunctions(item: RoutineItem, response: Option<RoutineCallResponse>, error: string,
                                    indent: JsonValue -> string, failure: string)
    ensures var v := CallView(item, response, error, indent, failure);
      v.table.Some? <==>
        ExpectsTable(item) && response.Some? && response.value.result.Some?
        && response.value.result.value.JArray? && Acceptable(Some(response.value.result.value.items))
    ensures var v := CallView(item, response, error, indent, failure);
      v.table.Some? ==>
        var items := response.value.result.value.items;
        v.table.value == Flatten(Some(items)) && |v.table.value.rows| == |items| && v.text == RowsMessage(|items|)
  {
  }

  /** A table function answering with a non-null non-array gets the
      "Expected array" message and no table. */
  lemma NonArrayForTable(item: RoutineItem, r: RoutineCallResponse, error: string,
                         indent: JsonValue -> string, failure: string)
    requires ExpectsTable(item) && r.result.Some?
    requires !r.result.value.JArray? && !r.result.value.JNull?
    ensures CallView(item, Some(r), error, indent, failure) == RoutineView(ExpectedArrayMessage(r.result.value, indent), None)
  {
  }

  /** A procedure's answer is never shown as a table. */
  lemma ProceduresNeverTable(p: ProcedureInfo, response: Option<RoutineCallResponse>, error: string,
                             indent: JsonValue -> string, failure: string)
    ensures CallView(Procedure(p), response, error, indent, failure).table.None?
  {
  }

  /** A return type is recognised whatever its letter case. */
  lemma TableTypeIgnoresCase(t: string)
    ensures IsTableReturnType(Some(t)) <==> IsTableReturnType(Some(ToUpper(t)))
  {
    ToUpperIdempotent(t);
  }

  /** A missing return type never announces a table. */
  lemma NoReturnTypeNoTable(f: FunctionInfo)
    requires f.preciseReturnType.None?
    ensures !ExpectsTable(Function(f))
  {
  }

  /** The example payload of a routine with a usable signature is the one
      `GeneratePayload` writes, so an all-OUT signature also yields "[]". */
  lemma ExamplePayloadEmpty(signature: Option<string>, clock: Clock, guids: nat -> string)
    ensures ExamplePayload(signature, clock, guids) == "[]" <==>
      signature.None? || IsBlank(signature.value) || |Definitions(signature.value)| == 0
  {
    if signature.Some? {
      PayloadEmpty(signature.value, clock, guids);
    }
  }

  // ---------------------------------------------------------------------
  // The window and the service together

  /** The kind word the window sends is one the service maps to a path segment. */
  lemma KindWordAccepted(item: RoutineItem)
    ensures RoutineSegment(RoutineKindWord(item)) == Some(if item.Procedure? then "procedure" else "function")
  {
    assert EqualsIgnoreCase("процедура", "процедура");
    assert EqualsIgnoreCase("функция", "функция");
  }

  const ExecutedMessage := "Routine executed. No specific result data or status returned."

  /** As written: the service never answers a call with a null response, so
      a failed call reaches the window as an empty response, which it shows
      as executed; the error message is dropped. */
  lemma FailedCallShownAsExecuted(item: RoutineItem, name: Option<string>, payload: Option<RoutineCallArgs>,
                                  outcome: Outcome, decode: JsonValue -> Result<Option<RoutineCallResponse>, string>,
                                  indent: JsonValue -> string, failure: string)
    requires !IsNullOrBlank(name)
    requires Complete(outcome, decode).1.Some?
    ensures var r := CallRoutineAsync(RoutineKindWord(item), name, payload, outcome, decode);
      r.2 != "" && CallView(item, Some(r.1), r.2, indent, failure) == RoutineView(ExecutedMessage, None)
  {
    KindWordAccepted(item);
    FailedCallGivesEmptyResponse(RoutineKindWord(item), name, payload, outcome, decode);
  }

  /** The window's reading of the service's pair with a non-empty message
      taken as the failure that the null test was meant to catch. */
  function PairView(item: RoutineItem, response: RoutineCallResponse, error: string,
                    indent: JsonValue -> string, failure: string): (v: RoutineView)
    ensures error == "" ==> v == CallView(item, Some(response), error, indent, failure)
    ensures error != "" ==> v == RoutineView("Error: " + error, None)
  {
    CallView(item, if error != "" then None else Some(response), error, indent, failure)
  }

  /** Corrected: read this way, a failed call shows "Error: " and the
      service's message. */
  lemma FailedCallShowsError(item: RoutineItem, name: Option<string>, payload: Option<RoutineCallArgs>,
                             outcome: Outcome, decode: JsonValue -> Result<Option<RoutineCallResponse>, string>,
                             indent: JsonValue -> string, failure: string)
    requires !IsNullOrBlank(name)
    requires Complete(outcome, decode).1.Some?
    ensures var r := CallRoutineAsync(RoutineKindWord(item), name, payload, outcome, decode);
      PairView(item, r.1, r.2, indent, failure) == RoutineView("Error: " + Complete(outcome, decode).1.value, None)
  {
    KindWordAccepted(item);
    FailedCallGivesEmptyResponse(RoutineKindWord(item), name, payload, outcome, decode);
  }
}
