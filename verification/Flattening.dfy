/** Flattening a list of JSON values into a table: the columns come from the
    first element, every element gives one row, and every cell holds the
    element's value coerced by its JSON kind. */
module Flattening {
  import opened Wrappers
  import opened Text
  import opened Json

  /** What a table cell holds: `DBNull`, a string, a `long`, a number that is
      not a `long` (kept as its literal), or a `bool`. */
  datatype Cell = DbNull | Str(s: string) | Int64(v: int) | OtherNumber(literal: string) | Bool(b: bool)

  /** A table: the column names in order, whether its one column is the
      string-typed "Value" column, and one row per element, keyed by column. */
  datatype DataTable = DataTable(columns: seq<string>, stringColumn: bool, rows: seq<map<string, Cell>>)

  const ValueColumn: string := "Value"

  /** `GetValueFromJsonElement`: the cell value of one JSON value. */
  function CellOf(v: JsonValue): (c: Cell)
    ensures v.JNull? <==> c.DbNull?
    ensures v.JString? ==> c == Str(v.s)
    ensures v.JBool? ==> c == Bool(v.b)
    ensures (v.JArray? || v.JObject?) ==> c == Str(Write(v))
    ensures v.JNumber? ==> c.Int64? || c == OtherNumber(v.literal)
    ensures c.Int64? <==> v.JNumber? && TryGetInt64(v.literal).Some?
    ensures c.Int64? ==> TryGetInt64(v.literal) == Some(c.v)
  {
    match v
    case JString(s) => Str(s)
    case JNumber(l) =>
      var n := TryGetInt64(l);
      if n.Some? then Int64(n.value) else OtherNumber(l)
    case JBool(b) => Bool(b)
    case JNull => DbNull
    case JArray(_) => Str(ElementToString(v))
    case JObject(_) => Str(ElementToString(v))
  }

  /** The value a column stores: a string-typed column converts what it is given to text. */
  function Store(c: Cell, stringColumn: bool): (r: Cell)
    ensures !stringColumn ==> r == c
    ensures stringColumn ==> r.DbNull? || r.Str?
    ensures c.DbNull? ==> r.DbNull?
  {
    if !stringColumn then c
    else match c
      case Int64(v) => Str(IntToString(v))
      case OtherNumber(l) => Str(l)
      case Bool(b) => Str(if b then "True" else "False")
      case _ => c
  }

  function Names(props: seq<Property>): (r: seq<string>)
    ensures |r| == |props| && forall i :: 0 <= i < |props| ==> r[i] == props[i].name
  {
    seq(|props|, i requires 0 <= i < |props| => props[i].name)
  }

  predicate Distinct(names: seq<string>) {
    forall i, j :: 0 <= i < j < |names| ==> names[i] != names[j]
  }

  // ---------------------------------------------------------------------
  // Column names: `DataColumnCollection.Add` names a column added with an
  // empty name "Column1", "Column2", ..., skipping names already taken, and
  // refuses a name that is already taken

  /** The default name with index `k`. */
  function DefaultName(k: nat): string {
    "Column" + NatToString(k)
  }

  /** The index a name carries when it is "Column" followed by digits. */
  function DefaultIndex(name: string): Option<nat> {
    if |name| > 6 && name[..6] == "Column" && AllDigits(name[6..]) then Some(DigitsValue(name[6..])) else None
  }

  lemma DefaultIndexOf(k: nat)
    ensures DefaultIndex(DefaultName(k)) == Some(k)
  {
    var name := DefaultName(k);
    assert name[..6] == "Column" && name[6..] == NatToString(k);
    DigitsOfNat(k);
  }

  predicate IndexedFrom(name: string, k: nat) {
    DefaultIndex(name).Some? && DefaultIndex(name).value >= k
  }

  /** How many names are default names with an index of at least `k`. */
  function CountFrom(columns: seq<string>, k: nat): nat
    decreases |columns|
  {
    if |columns| == 0 then 0
    else CountFrom(columns[1..], k) + (if IndexedFrom(columns[0], k) then 1 else 0)
  }

  lemma {:induction false} CountDrops(columns: seq<string>, k: nat)
    ensures CountFrom(columns, k + 1) <= CountFrom(columns, k)
    ensures DefaultName(k) in columns ==> CountFrom(columns, k + 1) < CountFrom(columns, k)
    decreases |columns|
  {
    if |columns| > 0 {
      CountDrops(columns[1..], k);
      DefaultIndexOf(k);
      if columns[0] != DefaultName(k) {
        assert DefaultName(k) in columns ==> DefaultName(k) in columns[1..];
      }
    }
  }

  /** `AssignName`: the first default name, from index `k` on, that no column
      has, and the index after it. */
  function AssignName(columns: seq<string>, k: nat): (r: (string, nat))
    ensures r.1 > k && r.0 == DefaultName(r.1 - 1) && r.0 !in columns
    ensures forall j :: k <= j < r.1 - 1 ==> DefaultName(j) in columns
    decreases CountFrom(columns, k)
  {
    if DefaultName(k) in columns then
      CountDrops(columns, k);
      AssignName(columns, k + 1)
    else (DefaultName(k), k + 1)
  }

  /** `Columns.Add(name)` on columns `columns` whose default-name counter is
      `counter`: an empty name gets the next free default name, a name
      already taken throws (`None`), any other name is added as it is. */
  function AddColumn(columns: seq<string>, counter: nat, name: string): (r: Option<(seq<string>, nat)>)
    ensures r.None? <==> name != "" && name in columns
    ensures r.Some? ==>
      |r.value.0| == |columns| + 1 && r.value.0[..|columns|] == columns
      && r.value.0[|columns|] !in columns && r.value.0[|columns|] != "" && r.value.1 >= counter
    ensures r.Some? && name != "" ==> r.value == (columns + [name], counter)
    ensures r.Some? && name == "" ==> exists j :: counter <= j && r.value.0[|columns|] == DefaultName(j)
  {
    if name == "" then
      var (c, next) := AssignName(columns, counter);
      Some((columns + [c], next))
    else if name in columns then None
    else Some((columns + [name], counter))
  }

  /** The columns of a new table after adding `names` in order (the counter
      starts at 1); `None` when an addition throws. */
  function AddNames(names: seq<string>): (r: Option<(seq<string>, nat)>)
    ensures r.Some? ==> |r.value.0| == |names| && Distinct(r.value.0)
    ensures r.Some? ==> forall i :: 0 <= i < |names| ==> r.value.0[i] != ""
    ensures r.Some? ==> forall i :: 0 <= i < |names| && names[i] != "" ==> r.value.0[i] == names[i]
    decreases |names|
  {
    if |names| == 0 then Some(([], 1))
    else
      match AddNames(names[..|names| - 1])
      case None => None
      case Some((columns, counter)) => AddColumn(columns, counter, names[|names| - 1])
  }

  /** Without empty names the additions throw exactly on a repeated name, and
      otherwise the columns are the names themselves. */
  lemma {:induction false} AddNamesNonEmpty(names: seq<string>)
    requires forall i :: 0 <= i < |names| ==> names[i] != ""
    ensures AddNames(names).Some? <==> Distinct(names)
    ensures AddNames(names).Some? ==> AddNames(names).value.0 == names
    decreases |names|
  {
    if |names| > 0 {
      var init := names[..|names| - 1];
      AddNamesNonEmpty(init);
      assert names == init + [names[|names| - 1]];
      if Distinct(names) {
        assert Distinct(init);
      }
    }
  }

  /** A prefix of additions that succeed succeeds too. */
  lemma {:induction false} AddNamesPrefix(names: seq<string>, k: nat)
    requires k <= |names| && AddNames(names).Some?
    ensures AddNames(names[..k]).Some?
    decreases |names|
  {
    if k < |names| {
      assert names[..|names| - 1][..k] == names[..k];
      AddNamesPrefix(names[..|names| - 1], k);
    } else {
      assert names[..k] == names;
    }
  }

  /** `[{"": 1}]`: the empty name becomes "Column1". */
  lemma EmptyNameIsColumn1()
    ensures AddNames([""]) == Some((["Column1"], 2))
  {
    assert [""][..0] == [];
    assert DefaultName(1) == "Column1";
    assert AssignName([], 1) == ("Column1", 2);
  }

  /** `[{"": 1, "Column1": 2}]`: "Column1" is taken by the renamed column. */
  lemma Column1AfterEmptyName()
    ensures AddNames(["", "Column1"]).None?
  {
    assert ["", "Column1"][..1] == [""];
    EmptyNameIsColumn1();
  }

  /** `[{"Column1": 1, "": 2}]`: the empty name skips the taken "Column1". */
  lemma EmptyNameSkipsTaken()
    ensures AddNames(["Column1", ""]) == Some((["Column1", "Column2"], 3))
  {
    assert ["Column1", ""][..1] == ["Column1"];
    assert ["Column1"][..0] == [];
    assert AddNames(["Column1"]) == Some((["Column1"], 1));
    assert DefaultName(1) == "Column1";
    assert DefaultName(2) == "Column2";
    assert AssignName(["Column1"], 2) == ("Column2", 3);
    assert AssignName(["Column1"], 1) == ("Column2", 3);
    assert AddColumn(["Column1"], 1, "") == Some((["Column1"] + ["Column2"], 3));
    assert ["Column1"] + ["Column2"] == ["Column1", "Column2"];
  }

  /** A first element the table accepts: the columns of an object can all be
      added (a repeated name makes `DataTable` throw). */
  predicate Loadable(first: JsonValue) {
    !first.JObject? || AddNames(Names(first.properties)).Some?
  }

  /** The columns a first element fixes: its property names, an empty one
      renamed, or "Value". */
  function ColumnsOf(first: JsonValue): (r: seq<string>)
    requires Loadable(first)
    ensures first.JObject? ==>
      |r| == |first.properties| && Distinct(r)
      && forall i :: 0 <= i < |r| ==> r[i] != "" && (first.properties[i].name != "" ==> r[i] == first.properties[i].name)
    ensures !first.JObject? ==> r == [ValueColumn]
  {
    if first.JObject? then AddNames(Names(first.properties)).value.0 else [ValueColumn]
  }

  predicate Acceptable(elements: Option<seq<JsonValue>>) {
    elements.None? || |elements.value| == 0 || Loadable(elements.value[0])
  }

  function BlankRow(columns: seq<string>): (r: map<string, Cell>)
    ensures r.Keys == set c | c in columns
    ensures forall c :: c in r ==> r[c] == DbNull
  {
    map c | c in columns :: DbNull
  }

  /** The value written for a property: `DBNull` for null, the coerced value otherwise. */
  function PropertyCell(v: JsonValue, stringColumn: bool): Cell {
    if v.JNull? then DbNull else Store(CellOf(v), stringColumn)
  }

  /** The row after the object's properties are written in order; a property
      with no column is skipped. */
  function WriteProperties(row: map<string, Cell>, columns: seq<string>, stringColumn: bool, props: seq<Property>): (r: map<string, Cell>)
    ensures r.Keys == row.Keys + (set i | 0 <= i < |props| && props[i].name in columns :: props[i].name)
    decreases |props|
  {
    if |props| == 0 then row
    else
      var r := WriteProperties(row, columns, stringColumn, props[..|props| - 1]);
      var p := props[|props| - 1];
      if p.name in columns then r[p.name := PropertyCell(p.value, stringColumn)] else r
  }

  /** One row: an object writes its properties, anything else writes itself
      into the "Value" column when there is one. */
  function RowOf(columns: seq<string>, stringColumn: bool, element: JsonValue): map<string, Cell> {
    if element.JObject? then WriteProperties(BlankRow(columns), columns, stringColumn, element.properties)
    else if ValueColumn in columns then BlankRow(columns)[ValueColumn := Store(CellOf(element), stringColumn)]
    else BlankRow(columns)
  }

  /** The table `ConvertJsonElementsToDataTable` returns. */
  function Flatten(elements: Option<seq<JsonValue>>): (t: DataTable)
    requires Acceptable(elements)
    ensures elements.None? || |elements.value| == 0 ==> t.columns == [] && t.rows == []
    ensures elements.Some? ==> |t.rows| == |elements.value|
    ensures elements.Some? && |elements.value| > 0 ==> t.columns == ColumnsOf(elements.value[0])
  {
    if elements.None? || |elements.value| == 0 then DataTable([], false, [])
    else
      var es := elements.value;
      var columns := ColumnsOf(es[0]);
      var stringColumn := !es[0].JObject?;
      DataTable(columns, stringColumn, seq(|es|, i requires 0 <= i < |es| => RowOf(columns, stringColumn, es[i])))
  }

  /** The first loop: one column per property of the first object. */
  method AddColumns(props: seq<Property>) returns (columns: seq<string>)
    requires AddNames(Names(props)).Some?
    ensures columns == AddNames(Names(props)).value.0
  {
    columns := [];
    var counter := 1;
    var k := 0;
    while k < |props|
      invariant 0 <= k <= |props|
      invariant AddNames(Names(props[..k])) == Some((columns, counter))
    {
      var names := Names(props[..k + 1]);
      assert names[..k] == Names(props[..k]) && names[k] == props[k].name;
      AddNamesPrefix(Names(props), k + 1);
      assert Names(props)[..k + 1] == names;
      var name := props[k].name;
      if name == "" {
        var (c, next) := AssignName(columns, counter);
        columns := columns + [c];
        counter := next;
      } else {
        columns := columns + [name];
      }
      k := k + 1;
    }
    assert props[..|props|] == props;
  }

  /** The inner loop: an object's properties written into a blank row. */
  method FillObjectRow(columns: seq<string>, stringColumn: bool, props: seq<Property>) returns (row: map<string, Cell>)
    ensures row == WriteProperties(BlankRow(columns), columns, stringColumn, props)
  {
    row := BlankRow(columns);
    var k := 0;
    while k < |props|
      invariant 0 <= k <= |props|
      invariant row == WriteProperties(BlankRow(columns), columns, stringColumn, props[..k])
    {
      var p := props[k];
      if p.name in columns {
        if p.value.JNull? {
          row := row[p.name := DbNull];
        } else {
          row := row[p.name := Store(CellOf(p.value), stringColumn)];
        }
      }
      assert props[..k + 1][..k] == props[..k];
      k := k + 1;
    }
    assert props[..|props|] == props;
  }

  /** `ConvertJsonElementsToDataTable`: columns from the first element, then
      one row per element. */
  method ConvertJsonElementsToDataTable(elements: Option<seq<JsonValue>>) returns (t: DataTable)
    requires Acceptable(elements)
    ensures t == Flatten(elements)
  {
    if elements.None? || |elements.value| == 0 {
      return DataTable([], false, []);
    }
    var es := elements.value;
    var columns: seq<string>;
    var stringColumn := false;
    if es[0].JObject? {
      columns := AddColumns(es[0].properties);
    } else {
      columns := [ValueColumn];
      stringColumn := true;
    }
    var rows: seq<map<string, Cell>> := [];
    var i := 0;
    while i < |es|
      invariant 0 <= i <= |es|
      invariant |rows| == i
      invariant forall j :: 0 <= j < i ==> rows[j] == RowOf(columns, stringColumn, es[j])
    {
      var element := es[i];
      var row;
      if element.JObject? {
        row := FillObjectRow(columns, stringColumn, element.properties);
      } else {
        row := BlankRow(columns);
        if ValueColumn in columns {
          row := row[ValueColumn := Store(CellOf(element), stringColumn)];
        }
      }
      rows := rows + [row];
      i := i + 1;
    }
    t := DataTable(columns, stringColumn, rows);
  }

  // ---------------------------------------------------------------------
  // Properties

  /** Every row has exactly the table's columns as keys: keys outside the
      column set are dropped. */
  lemma RowKeys(columns: seq<string>, stringColumn: bool, element: JsonValue)
    ensures RowOf(columns, stringColumn, element).Keys == set c | c in columns
  {
  }

  /** The cell of a column in an object's row is the coerced value of the
      object's last property with that name, or `DBNull` when it has none. */
  lemma {:induction false} ObjectCell(row: map<string, Cell>, columns: seq<string>, stringColumn: bool,
                                      props: seq<Property>, c: string)
    requires c in columns && c in row
    ensures var r := WriteProperties(row, columns, stringColumn, props);
      c in r && r[c] == match LastValue(props, c)
        case None => row[c]
        case Some(v) => PropertyCell(v, stringColumn)
    decreases |props|
  {
    if |props| > 0 {
      ObjectCell(row, columns, stringColumn, props[..|props| - 1], c);
    }
  }

  /** In a flattened table, an object's cell is its last value under that
      column's name, coerced, or `DBNull` when the key is missing. */
  lemma FlattenedObjectCell(elements: seq<JsonValue>, i: nat, c: string)
    requires i < |elements| && elements[i].JObject? && Loadable(elements[0])
    requires c in ColumnsOf(elements[0])
    ensures var t := Flatten(Some(elements));
      c in t.rows[i] && t.rows[i][c] == match LastValue(elements[i].properties, c)
        case None => DbNull
        case Some(v) => PropertyCell(v, !elements[0].JObject?)
  {
    var columns := ColumnsOf(elements[0]);
    ObjectCell(BlankRow(columns), columns, !elements[0].JObject?, elements[i].properties, c);
  }

  /** A value that is not an object fills the "Value" column of a table whose
      first element was not an object, converted to text. */
  lemma FlattenedScalarCell(elements: seq<JsonValue>, i: nat)
    requires i < |elements| && !elements[i].JObject? && !elements[0].JObject?
    ensures var t := Flatten(Some(elements));
      t.columns == [ValueColumn] && t.rows[i] == map[ValueColumn := Store(CellOf(elements[i]), true)]
  {
    var t := Flatten(Some(elements));
    assert t.rows[i] == BlankRow([ValueColumn])[ValueColumn := Store(CellOf(elements[i]), true)];
  }

  /** A number that fits a `long` is stored as that `long`. */
  lemma LongCell(n: int)
    requires Int64Min <= n <= Int64Max
    ensures CellOf(JNumber(IntToString(n))) == Int64(n)
  {
    Int64RoundTrip(n);
  }

  /** A number literal that is not an optional minus sign and digits (a
      fraction, an exponent) is never stored as a `long`. */
  lemma FractionCell(literal: string)
    requires '.' in literal
    ensures CellOf(JNumber(literal)).OtherNumber?
  {
    var k :| 0 <= k < |literal| && literal[k] == '.';
    NotInt64(literal, k);
  }
}
