# SQLiteDemo: employee records and the SQL text around them, in Dafny

SQLiteDemo is a small iOS app that keeps `Employee` records in an SQLite
table. Nearly all of it hands work to SQLite or UIKit. This project models
the logic that does not:

- **Ids for new records** (`Employee.swift`). An `Employee` is built from a
  name, a department, an age and an optional id. If the caller gives no id,
  the process-wide counter `employeeIDPool` supplies one and is then
  advanced with the app's own postfix `++` on `Int32`. Here the counter is
  a field of an explicit `IdPool` object that the constructor modifies.
  `returnDict` turns a record into a four-key column dictionary.
  `createTableStatement` is the table's schema.
- **The postfix `++`** (`IncrementDecrement.swift`). It adds one to an
  `inout Int32` with Swift's checked `+=` and returns the old value. The
  `inout` parameter is modelled as an input plus an output.
- **SQL text and bind decisions** (`DatabaseClient.swift`):
  - `toSQLColumnHeaders` sorts the column names, appends each with `", "`
    in a loop, drops the last two characters and closes the parenthesis.
    It is a method with a loop invariant.
  - The INSERT, UPDATE and DELETE statement texts.
  - The value positions that `addToDB` binds.
  - `bindUpdateByIdInstructions` binds the new value as an integer when
    Swift's `Int(_:)` parses it, and as text otherwise.

  Each `sqlite3_bind_*` call is recorded as a `Binding` value: a 1-based
  position plus an integer or a text.

Swift's library behaviour that this logic relies on is written out as
specification functions:

- `String` ordering and `sorted()` (module `StringOrder`).
- `Int(String)` and the text that interpolation gives an integer (module
  `Decimal`).
- `Int32` as a range-checked `newtype` (module `SwiftTypes`).

The main results:

- Ids from the pool are consecutive, never reused, and never decrease.
- After construction the id is always set, so the force-unwraps of
  `employeeID` cannot fail.
- The header text for a non-empty list is `"(" + sorted names joined by ", " + ")"`.
  Whatever order the dictionary lists its keys in, the header text is the same.
- For a record's dictionary, the headers are `(Age, Department, Id, Name)`.
  Bind positions 1–4 receive exactly the values of those columns, in that
  order.
- The decimal text of an `Int32` given to `bindUpdateByIdInstructions` is
  bound as that number. A larger number makes the `Int32` conversion trap,
  and the model excludes it. Text with a non-digit character other than a
  leading sign is bound as text.

Two details of the code that the model keeps:

- The code's CREATE TABLE has no `IF NOT EXISTS`.
- `addToDB` binds values in the sorted-header order (Age, Department, Id,
  Name), not in a fixed schema order.

## Model

| member | source | states |
|---|---|---|
| `IncrementDecrement.PostIncrement` | SQLiteDemo/Utils/IncrementDecrement.swift:12-15 | `x++` returns the value `x` had before; afterwards `x` is one more; the returned value is one less than the new `x`; the call requires `x < Int32.max`, since Swift's `+=` traps on overflow |
| `EmployeeModel.IdPool.constructor` | SQLiteDemo/Models/Employee.swift:19 | the id pool starts at 1 and has issued nothing |
| `EmployeeModel.Employee.constructor` | SQLiteDemo/Models/Employee.swift:28-38 | name, department and age are stored as passed; the id is always set afterwards; a given id is used and the pool is left unchanged; with no id, the record gets the pool's previous value, which was never issued before, and the pool grows by exactly one; the pool never decreases |
| `EmployeeModel.Employee.SetID` | SQLiteDemo/Models/Employee.swift:56-58 | sets the record's id to the given value |
| `EmployeeModel.Employee.ReturnDict` | SQLiteDemo/Models/Employee.swift:46-54 | the dictionary has exactly the keys Id, Name, Age and Department, each mapped to the matching field; it needs the id to be set, as the force-unwrap does |
| `EmployeeModel.CreateTwoWithoutIds` | SQLiteDemo/Models/Employee.swift:28-38 | two records built in a row without ids get distinct, consecutive ids, the first being the pool's starting value |
| `EmployeeModel.ColumnLinesDeclare` | SQLiteDemo/Models/Employee.swift:64-71 | every column in a list of column definitions starts a line of the definitions text, followed by a space |
| `EmployeeModel.CreateTableStatement` | SQLiteDemo/Models/Employee.swift:63-72 | the schema is the multi-line literal with its indentation stripped and no trailing newline: "CREATE TABLE Employees(", then one line per column (Id INTEGER PRIMARY KEY NOT NULL, Name CHAR(255), Age INTEGER, Department CHAR(255)), all but the last ending in a comma, then a line ");" |
| `EmployeeModel.SchemaDeclaresRecordKeys` | SQLiteDemo/Models/Employee.swift:46-71 | the CREATE TABLE statement's columns are exactly the keys of `returnDict`, and the statement declares each of them |
| `StringOrder.Less` | SQLiteDemo/Models/DatabaseClient.swift:138 | the `<` that `sorted()` uses on strings: a proper prefix comes first, no string is below itself, and a string below another does not start with a greater character |
| `StringOrder.LessTotal` | SQLiteDemo/Models/DatabaseClient.swift:138 | any two different strings are ordered one way or the other |
| `StringOrder.LessTransitive` | SQLiteDemo/Models/DatabaseClient.swift:138 | the string order is transitive |
| `StringOrder.SortStrings` | SQLiteDemo/Models/DatabaseClient.swift:138 | `sorted()` returns an ascending permutation of its input |
| `StringOrder.SortedUnique` | SQLiteDemo/Models/DatabaseClient.swift:138 | two ascending sequences holding the same strings are equal |
| `StringOrder.SortIgnoresOrder` | SQLiteDemo/Models/DatabaseClient.swift:138 | sorting any two permutations of the same names gives the same result |

| `Decimal.ParseInt` | SQLiteDemo/Models/DatabaseClient.swift:149 | `Int(s)` only succeeds on non-empty text, and its value fits in 64 bits |
| `Decimal.NatDigits` | SQLiteDemo/Models/DatabaseClient.swift:65-66 | the decimal text of a natural number is a non-empty run of digits that denotes that number |
| `Decimal.DecimalString` | SQLiteDemo/Models/DatabaseClient.swift:65-66 | the interpolation `"\(n)"` of an integer: digits denoting `n` when `n` is not negative, otherwise "-" followed by digits denoting `-n` |
| `Decimal.ParseDecimalString` | SQLiteDemo/Models/DatabaseClient.swift:149 | `Int("\(n)")` gives back `n` for every 64-bit `n` |
| `Decimal.ParseRejectsNonDigit` | SQLiteDemo/Models/DatabaseClient.swift:149 | text holding a character that is neither a digit nor a leading sign does not parse |
| `DatabaseClient.DropLast` | SQLiteDemo/Models/DatabaseClient.swift:143 | `dropLast()` removes exactly the last character and leaves empty text alone |
| `DatabaseClient.TerminatedIsJoin` | SQLiteDemo/Models/DatabaseClient.swift:140-143 | appending each name followed by ", " gives the names joined by ", " plus one trailing ", " |
| `DatabaseClient.DropSeparator` | SQLiteDemo/Models/DatabaseClient.swift:143 | the two `dropLast` calls remove exactly a trailing ", " |
| `DatabaseClient.ClosedHeaders` | SQLiteDemo/Models/DatabaseClient.swift:139-145 | trimming and closing the loop's text gives "(" + the names joined by ", " + ")", or just ")" when there are no names, because the first `dropLast` then removes the "(" |
| `DatabaseClient.ToSQLColumnHeaders` | SQLiteDemo/Models/DatabaseClient.swift:137-146 | the result is the header text of the names: for a non-empty list "(" + the sorted names joined by ", " + ")", for an empty list ")"; with `HeadersIgnoreOrder`, the same for every order of the names |
| `DatabaseClient.HeadersIgnoreOrder` | SQLiteDemo/Models/DatabaseClient.swift:137-146 | the header text is the same for every permutation of the names |
| `DatabaseClient.SortRecordKeys` | SQLiteDemo/Models/DatabaseClient.swift:58-59 | the record's four keys, in whatever order the dictionary lists them, sort to Age, Department, Id, Name |
| `DatabaseClient.JoinSortedRecordKeys` | SQLiteDemo/Models/DatabaseClient.swift:59 | the sorted record keys joined by ", " read "Age, Department, Id, Name" |
| `DatabaseClient.RecordHeaderText` | SQLiteDemo/Models/DatabaseClient.swift:58-60 | the INSERT's column list for the record's keys is "(Age, Department, Id, Name)" |
| `DatabaseClient.Describe` | SQLiteDemo/Models/DatabaseClient.swift:65-66 | interpolating a text value gives that text; interpolating an integer gives text that `Int(_:)` parses back to it |
| `DatabaseClient.TextOf` | SQLiteDemo/Models/DatabaseClient.swift:65-66 | `"\(values[key] ?? "")"`: "" for an absent key, the text itself for a text value, and decimal text that `Int(_:)` parses back for an integer |
| `DatabaseClient.InsertBindings` | SQLiteDemo/Models/DatabaseClient.swift:64-72 | `addToDB` makes four bind calls, at positions 1, 2, 3 and 4 |
| `DatabaseClient.AddToDB` | SQLiteDemo/Models/DatabaseClient.swift:57-72 | the prepared text is "INSERT INTO " + table + " " + the header text of the dictionary's keys + " VALUES (?, ?, ?, ?);"; the binds are Age, Department, Id and Name at positions 1 to 4; it requires "Age" and "Id" to hold `Int32` values, since the `as!` casts at lines 64 and 67 trap otherwise; the bind list describes the branch where `prepare_v2` succeeds |
| `DatabaseClient.RecordBindings` | SQLiteDemo/Models/DatabaseClient.swift:64-72 | when Age and Id hold integers and Department and Name hold text, the bind at each position has the value of the sorted key at that position, with the bind call of that value's type |
| `DatabaseClient.InsertBindsMatchHeaders` | SQLiteDemo/Models/DatabaseClient.swift:58-72 | for a record's dictionary, in any key order, the headers are (Age, Department, Id, Name), and position i receives the record's value for the i-th header |
| `DatabaseClient.UpdateStatement` | SQLiteDemo/Models/DatabaseClient.swift:104 | the UPDATE text is "UPDATE " + table + " SET " + column + " = (?) WHERE Id = " + id + ";"; the table, the column and the id can be read back at fixed offsets |
| `DatabaseClient.DeleteStatement` | SQLiteDemo/Models/DatabaseClient.swift:121 | the DELETE text is "DELETE FROM " + table + " WHERE Id = " + id + ";"; the table and the id can be read back at fixed offsets |
| `DatabaseClient.StatementsDetermineId` | SQLiteDemo/Models/DatabaseClient.swift:104-121 | for a fixed table (and column), different ids give different UPDATE and DELETE texts |
| `DatabaseClient.BindUpdateByIdInstructions` | SQLiteDemo/Models/DatabaseClient.swift:148-156 | binds at position 1; an integer bind exactly when `Int(value)` parses, with the parsed number; otherwise the value as text; requires the parsed number to fit in `Int32`, since the conversion traps otherwise |
| `DatabaseClient.BindUpdateOfNumber` | SQLiteDemo/Models/DatabaseClient.swift:149-151 | the decimal text of any `Int32` is bound as that integer |
| `DatabaseClient.BindUpdateOfWord` | SQLiteDemo/Models/DatabaseClient.swift:152-154 | text holding a non-digit character, other than a leading sign, is bound unchanged as text |

## Left out

- Every SQLite call is outside the model: `sqlite3_open`, `prepare_v2`, `bind_*`, `step`, `column_*`, `finalize`, `close` and `errmsg`. So are `openDatabase`, `createTable`, `closeDb` and `deinit`, and the success and failure branches that depend on what these calls return. The bind calls appear only as the recorded `Binding` values.
- `queryDB` reads result rows from SQLite and is not modelled. Its column order depends on the engine's column order for `SELECT *`. (It reads columns 0–3 as age, department, id and name. The CREATE statement declares them as Id, Name, Age, Department.)
- `print` logging and `printDescription` only produce output. The force-unwrap in `printDescription` is covered by the constructor's guarantee that the id is set.
- `NSString` and `utf8String` bridging: names and departments are plain strings.
- `[String: Any]` is narrowed to the two kinds of value that `returnDict` stores: `Int32` and text.
- `StringOrder.Less` compares strings one character at a time. Swift compares `String` values by Unicode canonical equivalence. The two agree on the ASCII column names used here.
- `DatabaseClient.DropLast` removes one character. Swift's `dropLast()` removes one grapheme cluster. The two agree on the ", " and "(" that it removes here.
- `Decimal.ParseInt` assumes that Swift's `Int` is 64 bits wide, as on the platforms this app targets.
- `bindUpdateByIdInstructions` takes a `String?`, but every caller passes a non-optional `String`, so the value is modelled as a string and `value!` cannot fail.
- `employeeIDPool` is a mutable static that is not safe across threads. The model has no concurrency.
- SQLiteDemo/Presenters/ViewController.swift, SQLiteDemo/Models/EmployeeCell.swift and SQLiteDemo/Employee Database/DatabaseService.swift are not part of this model. They hold UIKit glue and a second data-access class.
