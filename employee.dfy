/** The `Employee` record, the counter that hands out ids when a caller gives
    none, and the record's column dictionary and table schema. */
module EmployeeModel {
  import opened SwiftTypes
  import opened IncrementDecrement

  /** The two kinds of value `returnDict` puts in its `[String: Any]`:
      `Int32` numbers and text. */
  datatype Value = IntValue(n: int32) | TextValue(text: string)

  /** The column keys of `returnDict`, which are also the table's columns. */
  const RecordKeys: set<string> := {"Id", "Name", "Age", "Department"}

  /** One column definition of the table: its name and its SQL type. */
  datatype ColumnDef = ColumnDef(name: string, sqlType: string)

  /** The columns `Employee.createTableStatement` declares, in its order. */
  const EmployeeColumns: seq<ColumnDef> := [
    ColumnDef("Id", "INTEGER PRIMARY KEY NOT NULL"),
    ColumnDef("Name", "CHAR(255)"),
    ColumnDef("Age", "INTEGER"),
    ColumnDef("Department", "CHAR(255)")
  ]

  /** One definition line: a newline, the column's name and type, and a
      comma unless it is the last line. */
  function ColumnLine(c: ColumnDef, last: bool): string {
    "\n" + c.name + " " + c.sqlType + (if last then "" else ",")
  }

  /** The definition lines of `cols`, all but the last ending in a comma. */
  function ColumnLines(cols: seq<ColumnDef>): string {
    if |cols| == 0 then ""
    else ColumnLine(cols[0], |cols| == 1) + ColumnLines(cols[1..])
  }

  lemma ColumnLinesCons(c: ColumnDef, rest: seq<ColumnDef>)
    ensures ColumnLines([c] + rest) == ColumnLine(c, |rest| == 0) + ColumnLines(rest)
  {
    assert ([c] + rest)[1..] == rest;
  }

  lemma IdLine() ensures ColumnLine(EmployeeColumns[0], false) == "\nId INTEGER PRIMARY KEY NOT NULL," {}
  lemma NameLine() ensures ColumnLine(EmployeeColumns[1], false) == "\nName CHAR(255)," {}
  lemma AgeLine() ensures ColumnLine(EmployeeColumns[2], false) == "\nAge INTEGER," {}
  lemma DepartmentLine() ensures ColumnLine(EmployeeColumns[3], true) == "\nDepartment CHAR(255)" {}

  /** The definition lines of the table, one literal line at a time. */
  lemma EmployeeColumnLines()
    ensures ColumnLines(EmployeeColumns) == "\nId INTEGER PRIMARY KEY NOT NULL,"
      + "\nName CHAR(255)," + "\nAge INTEGER," + "\nDepartment CHAR(255)"
  {
    var cols := EmployeeColumns;
    ColumnLinesCons(cols[3], []);
    assert [cols[3]] + [] == cols[3..];
    DepartmentLine();
    ColumnLinesCons(cols[2], cols[3..]);
    assert [cols[2]] + cols[3..] == cols[2..];
    AgeLine();
    ColumnLinesCons(cols[1], cols[2..]);
    assert [cols[1]] + cols[2..] == cols[1..];
    NameLine();
    ColumnLinesCons(cols[0], cols[1..]);
    assert [cols[0]] + cols[1..] == cols;
    IdLine();
  }

  /** `Employee.createTableStatement`: the multi-line literal with its
      indentation stripped and no trailing newline, one column definition
      per line. */
  function CreateTableStatement(): (statement: string)
    ensures statement == "CREATE TABLE Employees(" + "\nId INTEGER PRIMARY KEY NOT NULL,"
      + "\nName CHAR(255)," + "\nAge INTEGER," + "\nDepartment CHAR(255)" + "\n);"
  {
    EmployeeColumnLines();
    "CREATE TABLE Employees(" + ColumnLines(EmployeeColumns) + "\n);"
  }

  /** The statement declares a column `c`: a line of it starts with `c`
      followed by a space and the column's type. */
  ghost predicate DeclaresColumn(statement: string, c: string) {
    exists before, after :: statement == before + "\n" + c + " " + after
  }

  lemma {:induction false} ColumnLinesDeclare(cols: seq<ColumnDef>, k: int)
    requires 0 <= k < |cols|
    ensures DeclaresColumn(ColumnLines(cols), cols[k].name)
    decreases |cols|
  {
    var head := ColumnLine(cols[0], |cols| == 1);
    assert ColumnLines(cols) == head + ColumnLines(cols[1..]);
    if k == 0 {
      var after := cols[0].sqlType + (if |cols| == 1 then "" else ",") + ColumnLines(cols[1..]);
      assert ColumnLines(cols) == "" + "\n" + cols[0].name + " " + after;
    } else {
      ColumnLinesDeclare(cols[1..], k - 1);
      var before, after :| ColumnLines(cols[1..]) == before + "\n" + cols[k].name + " " + after;
      assert ColumnLines(cols) == (head + before) + "\n" + cols[k].name + " " + after;
    }
  }

  lemma StatementDeclaresColumn(k: int)
    requires 0 <= k < |EmployeeColumns|
    ensures DeclaresColumn(CreateTableStatement(), EmployeeColumns[k].name)
  {
    var statement := "CREATE TABLE Employees(" + ColumnLines(EmployeeColumns) + "\n);";
    assert CreateTableStatement() == statement;
    ColumnLinesDeclare(EmployeeColumns, k);
    var before, after :| ColumnLines(EmployeeColumns) == before + "\n" + EmployeeColumns[k].name + " " + after;
    assert statement == ("CREATE TABLE Employees(" + before) + "\n" + EmployeeColumns[k].name + " " + (after + "\n);");
  }

  /** The table's columns are exactly the keys of the record dictionary, and
      the create statement declares each of them. */
  lemma SchemaDeclaresRecordKeys()
    ensures (set k | 0 <= k < |EmployeeColumns| :: EmployeeColumns[k].name) == RecordKeys
    ensures forall c :: c in RecordKeys ==> DeclaresColumn(CreateTableStatement(), c)
  {
    forall k | 0 <= k < |EmployeeColumns|
      ensures DeclaresColumn(CreateTableStatement(), EmployeeColumns[k].name)
    {
      StatementDeclaresColumn(k);
    }
    assert EmployeeColumns[0].name == "Id" && EmployeeColumns[1].name == "Name";
    assert EmployeeColumns[2].name == "Age" && EmployeeColumns[3].name == "Department";
  }

  /** The process-wide `Employee.employeeIDPool`, made an explicit object.
      `issued` records, for the proofs only, every id handed out so far. */
  class IdPool {
    var next: int32
    ghost var issued: set<int32>

    ghost predicate Valid()
      reads this
    {
      1 <= next && forall id :: id in issued ==> 1 <= id < next
    }

    /** The pool starts at 1. */
    constructor ()
      ensures Valid() && next == 1 && issued == {}
    {
      next := 1;
      issued := {};
    }
  }

  class Employee {
    /** Swift's `Int32!`: `None` until the initialiser sets it. */
    var employeeID: Option<int32>
    var name: string
    var department: string
    var age: int32

    /** `init(name:department:age:id:)`: the fields are stored as given; with
        an id it is used and the pool is left alone, without one the pool's
        current value becomes the id and the pool is advanced with `++`
        (which traps at `Int32.max`). */
    constructor (name: string, department: string, age: int32, id: Option<int32>, pool: IdPool)
      requires pool.Valid()
      requires id.None? ==> pool.next as int < INT32_MAX
      modifies pool
      ensures pool.Valid()
      ensures this.name == name && this.department == department && this.age == age
      ensures employeeID.Some?
      ensures id.Some? ==> employeeID == id && pool.next == old(pool.next) && pool.issued == old(pool.issued)
      ensures id.None? ==> employeeID == Some(old(pool.next))
      ensures id.None? ==> pool.next as int == old(pool.next) as int + 1
      ensures id.None? ==> employeeID.value !in old(pool.issued) && pool.issued == old(pool.issued) + {employeeID.value}
      ensures pool.next >= old(pool.next)
    {
      this.name := name;
      this.department := department;
      this.age := age;
      this.employeeID := id;
      new;
      if id.None? {
        SetID(pool.next);
        var advanced, _ := PostIncrement(pool.next);
        pool.issued := pool.issued + {pool.next};
        pool.next := advanced;
      }
    }

    /** `setID(employeeID:)`. */
    method SetID(employeeID: int32)
      modifies this`employeeID
      ensures this.employeeID == Some(employeeID)
    {
      this.employeeID := Some(employeeID);
    }

    /** `returnDict()`: the record as a column dictionary with exactly the
        four keys, each mapped to its field. It needs the id to be set, since
        the source force-unwraps it. */
    function ReturnDict(): (dict: map<string, Value>)
      reads this
      requires employeeID.Some?
      ensures dict.Keys == RecordKeys
      ensures dict["Id"] == IntValue(employeeID.value) && dict["Age"] == IntValue(age)
      ensures dict["Name"] == TextValue(name) && dict["Department"] == TextValue(department)
    {
      map["Id" := IntValue(employeeID.value), "Name" := TextValue(name),
          "Age" := IntValue(age), "Department" := TextValue(department)]
    }
  }

  /** Two records built one after the other without ids get consecutive,
      distinct ids, and the first keeps its id. */
  method CreateTwoWithoutIds(pool: IdPool, name: string, department: string, age: int32)
    returns (first: Employee, second: Employee)
    requires pool.Valid() && pool.next as int + 1 < INT32_MAX
    modifies pool
    ensures first.employeeID.Some? && second.employeeID.Some?
    ensures first.employeeID.value == old(pool.next)
    ensures second.employeeID.value as int == first.employeeID.value as int + 1
    ensures first.employeeID != second.employeeID
    ensures pool.Valid() && pool.next as int == old(pool.next) as int + 2
  {
    first := new Employee(name, department, age, None, pool);
    second := new Employee(name, department, age, None, pool);
  }
}
