/** The parts of `DatabaseClient` that do not call into SQLite: the text of
    the INSERT, UPDATE and DELETE statements, the column-header list, and
    which `sqlite3_bind_*` calls are made with which values. A bind call is
    recorded as a `Binding`; preparing, stepping and finalising statements
    are calls into the C library and are not part of this model. */
module DatabaseClient {
  import opened SwiftTypes
  import opened StringOrder
  import opened Decimal
  import opened EmployeeModel

  /** A `sqlite3_bind_int` or `sqlite3_bind_text` call: the 1-based
      parameter position and the value bound there. */
  datatype Binding = BindInt(position: nat, n: int32) | BindText(position: nat, text: string)

  /** Binds `v` at `position` with the bind call of its own type. */
  function BindingOf(position: nat, v: Value): Binding {
    match v
    case IntValue(n) => BindInt(position, n)
    case TextValue(t) => BindText(position, t)
  }

  // ---------------------------------------------------------------------
  // Column headers

  /** `xs` separated by `sep`. */
  function Join(xs: seq<string>, sep: string): string {
    if |xs| == 0 then ""
    else if |xs| == 1 then xs[0]
    else Join(xs[..|xs| - 1], sep) + sep + xs[|xs| - 1]
  }

  /** Each of `xs` followed by `sep`, all run together: what the `forEach`
      in `toSQLColumnHeaders` appends. */
  function Terminated(xs: seq<string>, sep: string): string {
    if |xs| == 0 then "" else Terminated(xs[..|xs| - 1], sep) + xs[|xs| - 1] + sep
  }

  lemma {:induction false} TerminatedIsJoin(xs: seq<string>, sep: string)
    requires |xs| > 0
    ensures Terminated(xs, sep) == Join(xs, sep) + sep
    decreases |xs|
  {
    if |xs| > 1 {
      TerminatedIsJoin(xs[..|xs| - 1], sep);
    } else {
      assert xs[..0] == [];
    }
  }

  lemma TerminatedStep(xs: seq<string>, i: int, sep: string)
    requires 0 <= i < |xs|
    ensures "(" + Terminated(xs[..i + 1], sep) == "(" + Terminated(xs[..i], sep) + xs[i] + sep
  {
    assert xs[..i + 1][..i] == xs[..i];
  }

  /** Dropping the last character twice removes a trailing ", ". */
  lemma DropSeparator(s: string)
    ensures DropLast(DropLast(s + ", ")) == s
  {
    assert (s + ", ")[..|s| + 1] == s + ",";
    assert (s + ",")[..|s|] == s;
  }

  /** Trimming the loop's text and closing it gives the names joined by
      ", " in parentheses, or just ")" when there are none. */
  lemma ClosedHeaders(names: seq<string>)
    ensures |names| == 0 ==> DropLast(DropLast("(" + Terminated(names, ", "))) + ")" == ")"
    ensures |names| > 0 ==> DropLast(DropLast("(" + Terminated(names, ", "))) + ")" == "(" + Join(names, ", ") + ")"
  {
    if |names| == 0 {
      ClosedNoHeaders();
    } else {
      TerminatedIsJoin(names, ", ");
      ClosedSomeHeaders(Terminated(names, ", "), Join(names, ", "));
    }
  }

  lemma ClosedNoHeaders()
    ensures DropLast(DropLast("(" + Terminated([], ", "))) + ")" == ")"
  {
    assert "(" + Terminated([], ", ") == "(";
    assert DropLast("(") == "";
  }

  lemma ClosedSomeHeaders(terminated: string, joined: string)
    requires terminated == joined + ", "
    ensures DropLast(DropLast("(" + terminated)) + ")" == "(" + joined + ")"
  {
    assert "(" + terminated == ("(" + joined) + ", ";
    DropSeparator("(" + joined);
  }

  /** Swift's `String.dropLast()`: the text without its last character,
      and the empty text unchanged. */
  function DropLast(s: string): (r: string)
    ensures |s| == 0 ==> r == s
    ensures |s| > 0 ==> r + [s[|s| - 1]] == s
  {
    if |s| == 0 then s else s[..|s| - 1]
  }

  /** The header text of a column list: the names sorted and joined by
      ", " inside parentheses. An empty list gives just ")", because the
      first `dropLast` then removes the opening parenthesis. */
  function ColumnHeaderText(names: seq<string>): string {
    if |names| == 0 then ")" else "(" + Join(SortStrings(names), ", ") + ")"
  }

  /** `toSQLColumnHeaders(arrayOfStrings:)`: the header text of the names,
      so by `HeadersIgnoreOrder` the same for every order they come in. */
  method ToSQLColumnHeaders(arrayOfStrings: seq<string>) returns (headers: string)
    ensures headers == ColumnHeaderText(arrayOfStrings)
  {
    var sortedArray := SortStrings(arrayOfStrings);
    var stringOfHeaders := "(";
    for i := 0 to |sortedArray|
      invariant stringOfHeaders == "(" + Terminated(sortedArray[..i], ", ")
    {
      TerminatedStep(sortedArray, i, ", ");
      stringOfHeaders := stringOfHeaders + sortedArray[i] + ", ";
    }
    assert sortedArray[..|sortedArray|] == sortedArray;
    ClosedHeaders(sortedArray);
    stringOfHeaders := DropLast(DropLast(stringOfHeaders));
    stringOfHeaders := stringOfHeaders + ")";
    headers := stringOfHeaders;
  }

  /** The headers do not depend on the order the names come in. */
  lemma HeadersIgnoreOrder(a: seq<string>, b: seq<string>)
    requires multiset(a) == multiset(b)
    ensures ColumnHeaderText(a) == ColumnHeaderText(b)
  {
    assert |a| == |multiset(a)| == |multiset(b)| == |b|;
    SortIgnoresOrder(a, b);
  }

  /** The record's keys sorted: the order in which `addToDB` binds them. */
  const SortedRecordKeys: seq<string> := ["Age", "Department", "Id", "Name"]

  /** Whatever order a dictionary lists the record's four keys in, sorting
      them gives Age, Department, Id, Name. */
  lemma SortRecordKeys(keys: seq<string>)
    requires Distinct(keys) && (forall k :: k in keys <==> k in RecordKeys)
    ensures SortStrings(keys) == SortedRecordKeys
  {
    SortedRecordKeysFacts();
    DistinctSameElements(keys, SortedRecordKeys);
    SortedUnique(SortStrings(keys), SortedRecordKeys);
  }

  lemma SortedRecordKeysFacts()
    ensures Distinct(SortedRecordKeys) && Sorted(SortedRecordKeys)
    ensures forall k :: k in SortedRecordKeys <==> k in RecordKeys
  {
    var c := SortedRecordKeys;
    assert c[0][0] == 'A' && c[1][0] == 'D' && c[2][0] == 'I' && c[3][0] == 'N';
  }

  // ---------------------------------------------------------------------
  // INSERT

  /** The text `"\(v)"` that string interpolation gives a dictionary value. */
  function Describe(v: Value): (s: string)
    ensures v.TextValue? ==> s == v.text
    ensures v.IntValue? ==> ParseInt(s) == Some(v.n as int)
  {
    match v
    case IntValue(n) => ParseDecimalString(n as int); DecimalString(n as int)
    case TextValue(t) => t
  }

  /** `"\(values[key] ?? "")"`: the described value, or "" when absent. */
  function TextOf(values: map<string, Value>, key: string): (text: string)
    ensures key !in values ==> text == ""
    ensures key in values && values[key].TextValue? ==> text == values[key].text
    ensures key in values && values[key].IntValue? ==> ParseInt(text) == Some(values[key].n as int)
  {
    if key in values then Describe(values[key]) else ""
  }

  /** The four bind calls of `addToDB`: Age as an integer at 1, Department
      as text at 2, Id as an integer at 3, Name as text at 4. `as! Int32`
      traps unless Age and Id hold integers. */
  function InsertBindings(values: map<string, Value>): (binds: seq<Binding>)
    requires "Age" in values && values["Age"].IntValue?
    requires "Id" in values && values["Id"].IntValue?
    ensures |binds| == 4
    ensures forall i :: 0 <= i < 4 ==> binds[i].position == i + 1
  {
    [BindInt(1, values["Age"].n), BindText(2, TextOf(values, "Department")),
     BindInt(3, values["Id"].n), BindText(4, TextOf(values, "Name"))]
  }

  /** `addToDB(table:values:)` up to the SQLite calls: the statement text it
      prepares and the bind calls it then makes. `keys` is
      `Array(values.keys)`, the dictionary's keys in its own order. */
  method AddToDB(table: string, values: map<string, Value>, keys: seq<string>)
    returns (sql: string, binds: seq<Binding>)
    requires Distinct(keys) && (forall k :: k in keys <==> k in values)
    requires "Age" in values && values["Age"].IntValue?
    requires "Id" in values && values["Id"].IntValue?
    ensures sql == "INSERT INTO " + table + " " + ColumnHeaderText(keys) + " VALUES (?, ?, ?, ?);"
    ensures binds == InsertBindings(values)
  {
    var keysString := ToSQLColumnHeaders(keys);
    sql := "INSERT INTO " + table + " " + keysString + " VALUES (?, ?, ?, ?);";
    binds := InsertBindings(values);
  }

  /** For a record's dictionary, listed in any order, the INSERT names the
      columns (Age, Department, Id, Name), and the value bound at each
      position 1-4 is the record's value for the column named at that
      place, bound with the call of its own type. */
  lemma InsertBindsMatchHeaders(e: Employee, keys: seq<string>)
    requires e.employeeID.Some?
    requires Distinct(keys) && (forall k :: k in keys <==> k in e.ReturnDict())
    ensures SortStrings(keys) == SortedRecordKeys
    ensures ColumnHeaderText(keys) == "(" + "Age, Department, Id, Name" + ")"
    ensures forall i :: 0 <= i < 4 ==>
      InsertBindings(e.ReturnDict())[i] == BindingOf(i + 1, e.ReturnDict()[SortedRecordKeys[i]])
  {
    var d := e.ReturnDict();
    assert d.Keys == RecordKeys;
    RecordHeaderText(keys);
    RecordBindings(d);
  }

  /** The INSERT's column list for the record's keys, in any order. */
  lemma RecordHeaderText(keys: seq<string>)
    requires Distinct(keys) && (forall k :: k in keys <==> k in RecordKeys)
    ensures SortStrings(keys) == SortedRecordKeys
    ensures ColumnHeaderText(keys) == "(" + "Age, Department, Id, Name" + ")"
  {
    SortRecordKeys(keys);
    JoinSortedRecordKeys();
    assert |keys| > 0 by {
      assert "Id" in RecordKeys;
    }
  }

  /** Age and Id hold numbers and Department and Name hold text, as in the
      record's dictionary: then each position gets its column's value. */
  lemma RecordBindings(d: map<string, Value>)
    requires "Age" in d && d["Age"].IntValue? && "Id" in d && d["Id"].IntValue?
    requires "Department" in d && d["Department"].TextValue? && "Name" in d && d["Name"].TextValue?
    ensures forall i :: 0 <= i < 4 ==> InsertBindings(d)[i] == BindingOf(i + 1, d[SortedRecordKeys[i]])
  {
    var b := InsertBindings(d);
    assert b[0] == BindingOf(1, d["Age"]);
    assert b[1] == BindingOf(2, d["Department"]);
    assert b[2] == BindingOf(3, d["Id"]);
    assert b[3] == BindingOf(4, d["Name"]);
  }

  lemma JoinSortedRecordKeys()
    ensures Join(SortedRecordKeys, ", ") == "Age, Department, Id, Name"
  {
    var sep := ", ";
    assert Join(["Age"], sep) == "Age";
    JoinAppend(["Age"], "Department", sep);
    assert ["Age"] + ["Department"] == ["Age", "Department"];
    assert "Age" + sep + "Department" == "Age, Department";
    JoinAppend(["Age", "Department"], "Id", sep);
    assert ["Age", "Department"] + ["Id"] == ["Age", "Department", "Id"];
    assert "Age, Department" + sep + "Id" == "Age, Department, Id";
    JoinAppend(["Age", "Department", "Id"], "Name", sep);
    assert ["Age", "Department", "Id"] + ["Name"] == SortedRecordKeys;
    assert "Age, Department, Id" + sep + "Name" == "Age, Department, Id, Name";
  }

  lemma JoinAppend(xs: seq<string>, x: string, sep: string)
    requires |xs| > 0
    ensures Join(xs + [x], sep) == Join(xs, sep) + sep + x
  {
    assert (xs + [x])[..|xs|] == xs;
  }

  // ---------------------------------------------------------------------
  // UPDATE and DELETE

  /** Appending leaves the front of a text as it was. */
  lemma AppendKeepsFront(x: string, y: string, i: int, j: int)
    requires 0 <= i <= j <= |x|
    ensures (x + y)[i..j] == x[i..j]
  {
  }

  /** The statement text of `updateById(table:Id:setColumn:toValue:)`: the
      table follows "UPDATE ", the column follows " SET ", and the id is
      what stands between " WHERE Id = " and the closing ";". */
  function UpdateStatement(table: string, id: string, setColumn: string): (sql: string)
    ensures |sql| == |table| + |setColumn| + |id| + 31
    ensures sql[..7] == "UPDATE " && sql[7..7 + |table|] == table
    ensures sql[12 + |table|..12 + |table| + |setColumn|] == setColumn
    ensures sql[|sql| - |id| - 13..|sql| - |id| - 1] == " WHERE Id = "
    ensures sql[|sql| - |id| - 1..|sql| - 1] == id && sql[|sql| - 1] == ';'
  {
    var verb := "UPDATE " + table + " SET " + setColumn + " = (?)";
    var target := verb + " WHERE Id = " + id;
    var sql := target + ";";
    AppendKeepsFront("UPDATE " + table, " SET " + setColumn, 0, 7);
    AppendKeepsFront("UPDATE " + table, " SET " + setColumn, 7, 7 + |table|);
    assert verb == ("UPDATE " + table) + (" SET " + setColumn) + " = (?)";
    AppendKeepsFront(("UPDATE " + table) + (" SET " + setColumn), " = (?)", 0, 7 + |table|);
    AppendKeepsFront(("UPDATE " + table) + (" SET " + setColumn), " = (?)", 12 + |table|, 12 + |table| + |setColumn|);
    assert target == verb + (" WHERE Id = " + id);
    AppendKeepsFront(verb, " WHERE Id = " + id, 0, |verb|);
    AppendKeepsFront(target, ";", 0, |target|);
    sql
  }

  /** The statement text of `deleteById(table:Id:)`: the table follows
      "DELETE FROM ", and the id is what stands between " WHERE Id = " and
      the closing ";". */
  function DeleteStatement(table: string, id: string): (sql: string)
    ensures |sql| == |table| + |id| + 25
    ensures sql[..12] == "DELETE FROM " && sql[12..12 + |table|] == table
    ensures sql[|sql| - |id| - 13..|sql| - |id| - 1] == " WHERE Id = "
    ensures sql[|sql| - |id| - 1..|sql| - 1] == id && sql[|sql| - 1] == ';'
  {
    var subject := "DELETE FROM " + table;
    var target := subject + (" WHERE Id = " + id);
    var sql := target + ";";
    AppendKeepsFront(subject, " WHERE Id = " + id, 0, |subject|);
    AppendKeepsFront(target, ";", 0, |target|);
    sql
  }

  /** For one table (and one column), a statement targets one id only:
      different ids give different statement texts. */
  lemma StatementsDetermineId(table: string, setColumn: string, a: string, b: string)
    ensures DeleteStatement(table, a) == DeleteStatement(table, b) ==> a == b
    ensures UpdateStatement(table, a, setColumn) == UpdateStatement(table, b, setColumn) ==> a == b
  {
    if DeleteStatement(table, a) == DeleteStatement(table, b) {
      var start := |table| + 24;
      assert DeleteStatement(table, a)[start..start + |a|] == a;
      assert DeleteStatement(table, b)[start..start + |b|] == b;
    }
    if UpdateStatement(table, a, setColumn) == UpdateStatement(table, b, setColumn) {
      var start := |table| + |setColumn| + 30;
      assert UpdateStatement(table, a, setColumn)[start..start + |a|] == a;
      assert UpdateStatement(table, b, setColumn)[start..start + |b|] == b;
    }
  }

  /** `bindUpdateByIdInstructions(_:_:)`: the new value is bound at position 1
      as an integer exactly when `Int(value)` parses it, and as the text
      itself otherwise. `Int32(value)` traps when the parsed number does not
      fit in 32 bits, so such text is excluded. */
  function BindUpdateByIdInstructions(value: string): (b: Binding)
    requires ParseInt(value).Some? ==> InInt32(ParseInt(value).value)
    ensures b.position == 1
    ensures b.BindInt? <==> ParseInt(value).Some?
    ensures b.BindInt? ==> b.n as int == ParseInt(value).value
    ensures b.BindText? ==> b.text == value
  {
    match ParseInt(value)
    case Some(n) => BindInt(1, n as int32)
    case None => BindText(1, value)
  }

  /** A number written out in decimal is bound back as that number. */
  lemma BindUpdateOfNumber(n: int32)
    ensures BindUpdateByIdInstructions(DecimalString(n as int)) == BindInt(1, n)
  {
    ParseDecimalString(n as int);
  }

  /** Text holding a character other than a digit (or a leading sign) is
      bound as text, unchanged. */
  lemma BindUpdateOfWord(value: string, i: int)
    requires 0 <= i < |value| && !IsDigit(value[i])
    requires i > 0 || (value[0] != '-' && value[0] != '+')
    ensures BindUpdateByIdInstructions(value) == BindText(1, value)
  {
    ParseRejectsNonDigit(value, i);
  }
}
