/**
 * TableOperations: the operations on one table, each taking the connection
 * to use as its first argument (for dropTable, createTable and
 * deleteRecordWithPrompt, which use the object's own connection field, that
 * is the connection it was constructed with).
 *
 * The prompt-driven flows read the columns of the table with DESCRIBE and
 * walk them in order; the answers the user types are given as one optional
 * string per DESCRIBE row (None for a cancelled dialog, as for a row past the
 * end of the list), the confirmation as a boolean, and the JTable the values
 * are read from as its table model.
 */
module TableOperations {
  import opened JavaText
  import opened SqlText
  import opened Records
  import opened QueryBuilder
  import opened Connections
  import opened Statements

  // ---------------------------------------------------------------------
  // Validation
  // ---------------------------------------------------------------------

  const InvalidConnectionMessage: string := "Invalid or closed database connection"

  /** validateConnection: a null or closed connection throws. */
  function ValidateConnection(connection: Connection?): (r: Outcome)
    reads connection
    ensures r.Fail? <==> connection == null || connection.closed
    ensures r.Fail? ==> r.error == SqlError(InvalidConnectionMessage)
  {
    if connection == null || connection.IsClosed() then Fail(SqlError(InvalidConnectionMessage)) else Pass
  }

  /** An argument of validateInput: null, a String, or any other object (a map). */
  datatype Arg = NullArg | StringArg(s: string) | ObjectArg

  function OfString(s: Option<string>): Arg {
    if s.None? then NullArg else StringArg(s.value)
  }

  function OfMap(m: Option<Record>): Arg {
    if m.None? then NullArg else ObjectArg
  }

  function EmptyMessage(fieldName: string): string {
    fieldName + " cannot be null or empty"
  }

  /** validateInput: null, or a String that trims to nothing, throws; any other object passes. */
  function ValidateInput(input: Arg, fieldName: string): (r: Outcome)
    ensures r.Fail? ==> r.error == SqlError(EmptyMessage(fieldName))
  {
    if input.NullArg? || (input.StringArg? && IsBlank(input.s)) then Fail(SqlError(EmptyMessage(fieldName)))
    else Pass
  }

  /**
   * What validateInput lets through: a string argument exactly when it is
   * present and not blank (what the builders call a named table), a map
   * argument whenever it is present, even with no entries.
   */
  lemma ValidateInputPasses(s: Option<string>, m: Option<Record>, fieldName: string)
    ensures ValidateInput(OfString(s), fieldName) == Pass <==> Named(s)
    ensures ValidateInput(OfMap(m), fieldName) == Pass <==> m.Some?
    ensures ValidateInput(OfMap(Some([])), fieldName) == Pass
  {
  }

  /** Check `first`, and only when it passes, `next`. */
  function Then(first: Outcome, next: Outcome): (r: Outcome)
    ensures r.Pass? <==> first.Pass? && next.Pass?
  {
    if first.Fail? then first else next
  }

  // ---------------------------------------------------------------------
  // The validated operations
  // ---------------------------------------------------------------------

  /** The checks executeQuery runs before the statement is created. */
  function QueryChecks(connection: Connection?, query: Option<string>): Outcome
    reads connection
  {
    Then(ValidateConnection(connection), ValidateInput(OfString(query), "Query"))
  }

  /** executeQuery: both checks, then the query. */
  method ExecuteQuery(connection: Connection?, query: Option<string>) returns (r: Result<Cursor>)
    modifies connection
    ensures QueryChecks(connection, query).Fail? ==>
      r == Err(QueryChecks(connection, query).error) && (connection != null ==> connection.log == old(connection.log))
    ensures QueryChecks(connection, query).Pass? ==>
      connection != null && query.Some?
      && r == old(connection.Answer(Unbound(Query, query.value)))
      && connection.log == old(connection.log) + [Unbound(Query, query.value)]
  {
    var v := ValidateConnection(connection);
    if v.Fail? {
      return Err(v.error);
    }
    v := ValidateInput(OfString(query), "Query");
    if v.Fail? {
      return Err(v.error);
    }
    r := connection.Send(Unbound(Query, query.value));
  }

  /** The checks insertRecord runs, in order, before anything is prepared. */
  function InsertChecks(connection: Connection?, table: Option<string>, data: Option<Record>): Outcome
    reads connection
  {
    Then(ValidateConnection(connection),
      Then(ValidateInput(OfString(table), "Table"), ValidateInput(OfMap(data), "Data")))
  }

  /**
   * insertRecord: every check, and the builder's rejection of an empty map,
   * comes before the statement is prepared; then the INSERT with
   * data.values() bound from slot 1.
   */
  method InsertRecord(connection: Connection?, table: Option<string>, data: Option<Record>) returns (r: Outcome)
    modifies connection
    ensures InsertChecks(connection, table, data).Fail? ==>
      r == InsertChecks(connection, table, data) && (connection != null ==> connection.log == old(connection.log))
    ensures InsertChecks(connection, table, data).Pass? && data == Some([]) ==>
      r == Fail(IllegalArgument(NullOrEmptyData)) && connection.log == old(connection.log)
    ensures InsertChecks(connection, table, data).Pass? && data != Some([]) ==>
      connection != null && table.Some? && data.Some? && data.value != []
      && r == Done(old(connection.Answer(InsertStatement(table.value, data.value))))
      && connection.log == old(connection.log) + [InsertStatement(table.value, data.value)]
  {
    var v := ValidateConnection(connection);
    if v.Fail? {
      return v;
    }
    v := ValidateInput(OfString(table), "Table");
    if v.Fail? {
      return v;
    }
    v := ValidateInput(OfMap(data), "Data");
    if v.Fail? {
      return v;
    }
    var query := BuildInsertQuery(table, data);
    if query.Err? {
      return Fail(query.error);
    }
    var e := PrepareInsert(table.value, data.value);
    var rs := connection.Send(e);
    r := Done(rs);
  }

  function DeleteChecks(connection: Connection?, table: Option<string>, whereClause: Option<string>): Outcome
    reads connection
  {
    Then(ValidateConnection(connection),
      Then(ValidateInput(OfString(table), "Table"), ValidateInput(OfString(whereClause), "Where clause")))
  }

  /** deleteRecord: the checks, then the text of buildDeleteQuery, which then always has its WHERE. */
  method DeleteRecord(connection: Connection?, table: Option<string>, whereClause: Option<string>) returns (r: Outcome)
    modifies connection
    ensures DeleteChecks(connection, table, whereClause).Fail? ==>
      r == DeleteChecks(connection, table, whereClause) && (connection != null ==> connection.log == old(connection.log))
    ensures DeleteChecks(connection, table, whereClause).Pass? ==>
      connection != null && table.Some? && whereClause.Some?
      && var e := Unbound(Update, "DELETE FROM " + (Escape(table.value) + (" WHERE " + whereClause.value)));
      r == Done(old(connection.Answer(e))) && connection.log == old(connection.log) + [e]
  {
    var v := ValidateConnection(connection);
    if v.Fail? {
      return v;
    }
    v := ValidateInput(OfString(table), "Table");
    if v.Fail? {
      return v;
    }
    v := ValidateInput(OfString(whereClause), "Where clause");
    if v.Fail? {
      return v;
    }
    var query := BuildDeleteQuery(table, whereClause);
    var rs := connection.Send(Unbound(Update, query.value));
    r := Done(rs);
  }

  function CreateChecks(connection: Connection?, database: Option<string>, tableName: Option<string>, columns: Option<string>): Outcome
    reads connection
  {
    Then(ValidateConnection(connection),
      Then(ValidateInput(OfString(database), "Database"),
        Then(ValidateInput(OfString(tableName), "Table"), ValidateInput(OfString(columns), "Columns"))))
  }

  /**
   * createTable: the checks, then buildCreateTableQuery, which they leave
   * nothing to reject; the database name is checked but goes into no text.
   */
  method CreateTable(connection: Connection?, database: Option<string>, tableName: Option<string>, columns: Option<string>)
    returns (r: Outcome)
    modifies connection
    ensures CreateChecks(connection, database, tableName, columns).Fail? ==>
      r == CreateChecks(connection, database, tableName, columns) && (connection != null ==> connection.log == old(connection.log))
    ensures CreateChecks(connection, database, tableName, columns).Pass? ==>
      connection != null && tableName.Some? && columns.Some?
      && var e := Unbound(Update, "CREATE TABLE " + (Escape(tableName.value) + (" (" + (columns.value + ")"))));
      r == Done(old(connection.Answer(e))) && connection.log == old(connection.log) + [e]
  {
    var v := ValidateConnection(connection);
    if v.Fail? {
      return v;
    }
    v := ValidateInput(OfString(database), "Database");
    if v.Fail? {
      return v;
    }
    v := ValidateInput(OfString(tableName), "Table");
    if v.Fail? {
      return v;
    }
    v := ValidateInput(OfString(columns), "Columns");
    if v.Fail? {
      return v;
    }
    var query := BuildCreateTableQuery(tableName, columns);
    var rs := connection.Send(Unbound(Update, query.value));
    r := Done(rs);
  }

  function TableDataChecks(connection: Connection?, database: Option<string>, table: Option<string>): Outcome
    reads connection
  {
    Then(ValidateConnection(connection),
      Then(ValidateInput(OfString(database), "Database"), ValidateInput(OfString(table), "Table")))
  }

  /**
   * getTableData: the checks, then executeQuery of buildSelectQuery(table,
   * "*", null), so the star is quoted like a column name and the database
   * name goes into no text.
   */
  method GetTableData(connection: Connection?, database: Option<string>, table: Option<string>) returns (r: Result<Cursor>)
    modifies connection
    ensures TableDataChecks(connection, database, table).Fail? ==>
      r == Err(TableDataChecks(connection, database, table).error) && (connection != null ==> connection.log == old(connection.log))
    ensures TableDataChecks(connection, database, table).Pass? ==>
      connection != null && table.Some?
      && var e := Unbound(Query, "SELECT `*` FROM " + Escape(table.value));
      r == old(connection.Answer(e)) && connection.log == old(connection.log) + [e]
  {
    var v := ValidateConnection(connection);
    if v.Fail? {
      return Err(v.error);
    }
    v := ValidateInput(OfString(database), "Database");
    if v.Fail? {
      return Err(v.error);
    }
    v := ValidateInput(OfString(table), "Table");
    if v.Fail? {
      return Err(v.error);
    }
    SelectStar(table.value);
    var query := BuildSelectQuery(table, Some("*"), None).value;
    assert query[0] == 'S' && !IsSpace(query[0]);
    r := ExecuteQuery(connection, Some(query));
  }

  // ---------------------------------------------------------------------
  // What the prompt flows collect
  // ---------------------------------------------------------------------

  /** The user's answer for DESCRIBE row i. */
  function AnswerAt(answers: seq<Option<string>>, i: nat): Option<string> {
    if i < |answers| then answers[i] else None
  }

  /** `newValue != null && !newValue.trim().isEmpty()`. */
  predicate Kept(answer: Option<string>) {
    answer.Some? && !IsBlank(answer.value)
  }

  /** The map the data.put loop builds: every kept answer, keyed by its column. */
  function Collected(columns: seq<Column>, answers: seq<Option<string>>): Record
    decreases |columns|
  {
    if columns == [] then []
    else
      var n := |columns| - 1;
      var data := Collected(columns[..n], answers);
      if Kept(AnswerAt(answers, n)) then Put(data, columns[n].field, Text(AnswerAt(answers, n).value)) else data
  }

  /** The map the conditions.put loop builds: every column with the old value of its cell. */
  function Conditions(columns: seq<Column>, cells: seq<string>): Record
    requires |cells| == |columns|
    decreases |columns|
  {
    if columns == [] then []
    else
      var n := |columns| - 1;
      Put(Conditions(columns[..n], cells[..n]), columns[n].field, Text(cells[n]))
  }

  /** One more column of the data.put loop: its answer is put when kept. */
  lemma CollectedStep(columns: seq<Column>, i: nat, answers: seq<Option<string>>)
    requires i < |columns|
    ensures Collected(columns[..i + 1], answers)
         == if Kept(AnswerAt(answers, i))
            then Put(Collected(columns[..i], answers), columns[i].field, Text(AnswerAt(answers, i).value))
            else Collected(columns[..i], answers)
  {
    assert columns[..i + 1][..i] == columns[..i];
  }

  /** One more column of the conditions.put loop: its old value is put. */
  lemma ConditionsStep(columns: seq<Column>, i: nat, cells: seq<string>, v: string)
    requires i < |columns| && |cells| == i
    ensures Conditions(columns[..i + 1], cells + [v]) == Put(Conditions(columns[..i], cells), columns[i].field, Text(v))
  {
    assert columns[..i + 1][..i] == columns[..i];
    assert (cells + [v])[..i] == cells;
  }

  function Fields(columns: seq<Column>): seq<string> {
    seq(|columns|, i requires 0 <= i < |columns| => columns[i].field)
  }

  /** DESCRIBE names every column once. */
  predicate DistinctFields(columns: seq<Column>) {
    forall i, j | 0 <= i < j < |columns| :: columns[i].field != columns[j].field
  }

  lemma {:induction false} CollectedDistinct(columns: seq<Column>, answers: seq<Option<string>>)
    ensures DistinctKeys(Collected(columns, answers))
    decreases |columns|
  {
    if columns != [] {
      var n := |columns| - 1;
      CollectedDistinct(columns[..n], answers);
      if Kept(AnswerAt(answers, n)) {
        PutDistinct(Collected(columns[..n], answers), columns[n].field, Text(AnswerAt(answers, n).value));
      }
    }
  }

  /** The data map is empty exactly when no answer was kept, so only then is nothing executed. */
  lemma {:induction false} CollectedEmpty(columns: seq<Column>, answers: seq<Option<string>>)
    ensures Collected(columns, answers) == [] <==> forall i | 0 <= i < |columns| :: !Kept(AnswerAt(answers, i))
    decreases |columns|
  {
    if columns != [] {
      var n := |columns| - 1;
      CollectedEmpty(columns[..n], answers);
      var data := Collected(columns[..n], answers);
      if Kept(AnswerAt(answers, n)) {
        var k := columns[n].field;
        assert Lookup(Collected(columns, answers), k).Some?;
      } else {
        assert forall i | 0 <= i < n :: AnswerAt(answers, i) == AnswerAt(answers, i);
      }
    }
  }

  /**
   * With each column named once, the data map holds, under each column, its
   * answer exactly when that answer was kept, and nothing under any other key.
   */
  lemma {:induction false} CollectedLookup(columns: seq<Column>, answers: seq<Option<string>>, k: string)
    requires DistinctFields(columns)
    ensures k !in Fields(columns) ==> Lookup(Collected(columns, answers), k) == None
    ensures forall i | 0 <= i < |columns| && columns[i].field == k ::
      Lookup(Collected(columns, answers), k)
        == if Kept(AnswerAt(answers, i)) then Some(Text(AnswerAt(answers, i).value)) else None
    decreases |columns|
  {
    if columns != [] {
      var n := |columns| - 1;
      var prefix := columns[..n];
      assert DistinctFields(prefix);
      CollectedLookup(prefix, answers, k);
      assert Fields(columns) == Fields(prefix) + [columns[n].field];
      forall i | 0 <= i < n && columns[i].field == k
        ensures prefix[i].field == k
      {
      }
      if k == columns[n].field {
        assert k !in Fields(prefix) by {
          forall i | 0 <= i < n ensures Fields(prefix)[i] != k {
            assert columns[i].field != columns[n].field;
          }
        }
      }
    }
  }

  /**
   * With each column named once, the conditions map holds exactly the
   * described columns, each mapped to its cell's old value, whatever was
   * answered. Nothing here depends on the order of the entries.
   */
  lemma {:induction false} ConditionsAll(columns: seq<Column>, cells: seq<string>)
    requires |cells| == |columns| && DistinctFields(columns)
    ensures |Conditions(columns, cells)| == |columns|
    ensures forall k :: k in Keys(Conditions(columns, cells)) <==> k in Fields(columns)
    ensures forall i | 0 <= i < |columns| :: Lookup(Conditions(columns, cells), columns[i].field) == Some(Text(cells[i]))
    decreases |columns|
  {
    if columns != [] {
      var n := |columns| - 1;
      assert DistinctFields(columns[..n]);
      ConditionsAll(columns[..n], cells[..n]);
      var before := Conditions(columns[..n], cells[..n]);
      assert MapsOldValues(before, columns[..n], cells[..n]);
      MapsOldValuesStep(before, columns, cells);
      assert Conditions(columns, cells) == Put(before, columns[n].field, Text(cells[n]));
    }
  }

  /** The map holds exactly the described columns, each with the old value of its cell. */
  ghost predicate MapsOldValues(c: Record, columns: seq<Column>, cells: seq<string>)
    requires |cells| == |columns|
  {
    && |c| == |columns|
    && (forall k :: k in Keys(c) <==> k in Fields(columns))
    && (forall i | 0 <= i < |columns| :: Lookup(c, columns[i].field) == Some(Text(cells[i])))
  }

  /** One more conditions.put of a column not yet described keeps the map exact. */
  lemma MapsOldValuesStep(before: Record, columns: seq<Column>, cells: seq<string>)
    requires |cells| == |columns| > 0 && DistinctFields(columns)
    requires MapsOldValues(before, columns[..|columns| - 1], cells[..|columns| - 1])
    ensures MapsOldValues(Put(before, columns[|columns| - 1].field, Text(cells[|columns| - 1])), columns, cells)
  {
    var n := |columns| - 1;
    var prefix, f := columns[..n], columns[n].field;
    var after := Put(before, f, Text(cells[n]));
    assert f !in Fields(prefix) by {
      forall i | 0 <= i < n ensures Fields(prefix)[i] != f {
        assert Fields(prefix)[i] == columns[i].field;
      }
    }
    assert |after| == |columns|;
    assert Fields(columns) == Fields(prefix) + [f];
    forall k ensures k in Keys(after) <==> k in Fields(columns) {
      if k != f {
        assert Lookup(after, k) == Lookup(before, k);
      }
    }
    forall i | 0 <= i < n ensures Lookup(after, columns[i].field) == Some(Text(cells[i])) {
      assert prefix[i] == columns[i] && cells[..n][i] == cells[i];
    }
  }

  lemma {:induction false} ConditionsDistinct(columns: seq<Column>, cells: seq<string>)
    requires |cells| == |columns|
    ensures DistinctKeys(Conditions(columns, cells))
    decreases |columns|
  {
    if columns != [] {
      var n := |columns| - 1;
      ConditionsDistinct(columns[..n], cells[..n]);
      PutDistinct(Conditions(columns[..n], cells[..n]), columns[n].field, Text(cells[n]));
    }
  }

  // ---------------------------------------------------------------------
  // The loops of the prompt flows
  // ---------------------------------------------------------------------

  /** The data.put loop of insertRecordWithPrompt. */
  method CollectAnswers(columns: seq<Column>, answers: seq<Option<string>>) returns (data: Record)
    ensures data == Collected(columns, answers)
  {
    data := [];
    var i := 0;
    while i < |columns|
      invariant 0 <= i <= |columns|
      invariant data == Collected(columns[..i], answers)
    {
      CollectedStep(columns, i, answers);
      var newValue := AnswerAt(answers, i);
      if newValue.Some? && !IsBlank(newValue.value) {
        data := Put(data, columns[i].field, Text(newValue.value));
      }
      i := i + 1;
    }
    assert columns[..i] == columns;
  }

  /** A row read fails as soon as one column's read fails, and so fails as a whole. */
  lemma {:induction false} RowCellsPrefix(view: Table, row: int, columns: seq<Column>, i: nat)
    requires i <= |columns| && RowCells(view, row, columns[..i]).Err?
    ensures RowCells(view, row, columns) == RowCells(view, row, columns[..i])
    decreases |columns| - i
  {
    if i < |columns| {
      assert columns[..i + 1][..i] == columns[..i];
      RowCellsPrefix(view, row, columns, i + 1);
    } else {
      assert columns[..i] == columns;
    }
  }

  /** A column read that succeeds extends the row read so far by its cell. */
  lemma RowCellsOk(view: Table, row: int, columns: seq<Column>, i: nat, cells: seq<string>, v: string)
    requires i < |columns| && RowCells(view, row, columns[..i]) == Ok(cells)
    requires Cell(view, row, columns[i].field) == Ok(v)
    ensures RowCells(view, row, columns[..i + 1]) == Ok(cells + [v])
  {
    assert columns[..i + 1][..i] == columns[..i];
  }

  /** A column read that fails makes the whole row read fail with its error. */
  lemma RowCellsFails(view: Table, row: int, columns: seq<Column>, i: nat, cells: seq<string>, e: Error)
    requires i < |columns| && RowCells(view, row, columns[..i]) == Ok(cells)
    requires Cell(view, row, columns[i].field) == Err(e)
    ensures RowCells(view, row, columns) == Err(e)
  {
    assert columns[..i + 1][..i] == columns[..i];
    RowCellsPrefix(view, row, columns, i + 1);
  }

  /** What the loop of updateRecordWithPrompt yields: its two maps, or the first failed cell read. */
  function UpdateMaps(columns: seq<Column>, view: Table, row: int, answers: seq<Option<string>>): Result<(Record, Record)> {
    match RowCells(view, row, columns)
    case Err(e) => Err(e)
    case Ok(cells) => Ok((Collected(columns, answers), Conditions(columns, cells)))
  }

  /**
   * The loop of updateRecordWithPrompt: for each column, its index in the
   * table, the old value of its cell (both may throw), then the answer put in
   * `data` when kept, and the old value put in `conditions` always.
   */
  method CollectUpdate(columns: seq<Column>, view: Table, selectedRow: int, answers: seq<Option<string>>)
    returns (r: Result<(Record, Record)>)
    ensures r == UpdateMaps(columns, view, selectedRow, answers)
  {
    var data: Record := [];
    var conditions: Record := [];
    ghost var cells: seq<string> := [];
    var i := 0;
    while i < |columns|
      invariant 0 <= i <= |columns|
      invariant RowCells(view, selectedRow, columns[..i]) == Ok(cells)
      invariant data == Collected(columns[..i], answers)
      invariant conditions == Conditions(columns[..i], cells)
    {
      var columnName := columns[i].field;
      var columnIndex := ColumnIndex(view, columnName);
      if columnIndex.Err? {
        RowCellsFails(view, selectedRow, columns, i, cells, columnIndex.error);
        return Err(columnIndex.error);
      }
      var oldValue := CellText(view, selectedRow, columnIndex.value);
      if oldValue.Err? {
        RowCellsFails(view, selectedRow, columns, i, cells, oldValue.error);
        return Err(oldValue.error);
      }
      RowCellsOk(view, selectedRow, columns, i, cells, oldValue.value);
      CollectedStep(columns, i, answers);
      ConditionsStep(columns, i, cells, oldValue.value);
      var newValue := AnswerAt(answers, i);
      if newValue.Some? && !IsBlank(newValue.value) {
        data := Put(data, columnName, Text(newValue.value));
      }
      conditions := Put(conditions, columnName, Text(oldValue.value));
      cells := cells + [oldValue.value];
      i := i + 1;
    }
    assert columns[..i] == columns;
    r := Ok((data, conditions));
  }

  /** One condition of the delete: "`column`='value'", the value embedded as it is. */
  function Conjunct(name: string, value: string): string {
    "`" + name + "`=" + "'" + value + "'"
  }

  function Conjuncts(columns: seq<Column>, cells: seq<string>): (r: seq<string>)
    requires |cells| == |columns|
    ensures |r| == |columns|
  {
    seq(|columns|, i requires 0 <= i < |columns| => Conjunct(columns[i].field, cells[i]))
  }

  /** The WHERE text of deleteRecordWithPrompt: every column's condition, joined by " AND ". */
  function DeleteWhere(columns: seq<Column>, cells: seq<string>): string
    requires |cells| == |columns|
  {
    Join(" AND ", Conjuncts(columns, cells))
  }

  /** What the loop of deleteRecordWithPrompt yields: its WHERE text, or the first failed cell read. */
  function WhereOf(columns: seq<Column>, view: Table, row: int): Result<string> {
    match RowCells(view, row, columns)
    case Err(e) => Err(e)
    case Ok(cells) => Ok(DeleteWhere(columns, cells))
  }

  /**
   * The loop of deleteRecordWithPrompt: for each column, the old value of its
   * cell in the selected row, then " AND " unless it is the first, then its
   * condition; the char/text/date test on the type appends the same text
   * either way.
   */
  method WhereClause(columns: seq<Column>, view: Table, selectedRow: int) returns (r: Result<string>)
    ensures r == WhereOf(columns, view, selectedRow)
  {
    var whereClause := "";
    var firstWhere := true;
    ghost var cells: seq<string> := [];
    var i := 0;
    while i < |columns|
      invariant 0 <= i <= |columns|
      invariant RowCells(view, selectedRow, columns[..i]) == Ok(cells)
      invariant firstWhere <==> i == 0
      invariant whereClause == DeleteWhere(columns[..i], cells)
    {
      var columnName := columns[i].field;
      var columnType := columns[i].fieldType;
      var columnIndex := ColumnIndex(view, columnName);
      if columnIndex.Err? {
        RowCellsFails(view, selectedRow, columns, i, cells, columnIndex.error);
        return Err(columnIndex.error);
      }
      var value := CellText(view, selectedRow, columnIndex.value);
      if value.Err? {
        RowCellsFails(view, selectedRow, columns, i, cells, value.error);
        return Err(value.error);
      }
      RowCellsOk(view, selectedRow, columns, i, cells, value.value);
      ghost var before := whereClause;
      if !firstWhere {
        whereClause := whereClause + " AND ";
      }
      whereClause := whereClause + "`" + columnName + "`=" + "'";
      if Contains(columnType, "char") || Contains(columnType, "text") || Contains(columnType, "date") {
        whereClause := whereClause + value.value + "'";
      } else {
        whereClause := whereClause + value.value + "'";
      }
      firstWhere := false;
      WhereStep(columns, i, cells, value.value, before, whereClause);
      cells := cells + [value.value];
      i := i + 1;
    }
    assert columns[..i] == columns;
    r := Ok(whereClause);
  }

  /** Appending one more condition: with " AND " before it unless it is the first. */
  lemma WhereStep(columns: seq<Column>, i: nat, cells: seq<string>, value: string, before: string, after: string)
    requires i < |columns| && |cells| == i
    requires before == DeleteWhere(columns[..i], cells)
    requires after == (if i == 0 then before else before + " AND ") + "`" + columns[i].field + "`=" + "'" + value + "'"
    ensures after == DeleteWhere(columns[..i + 1], cells + [value])
  {
    var n := i;
    var parts := Conjuncts(columns[..n], cells);
    var c := Conjunct(columns[n].field, value);
    assert Conjuncts(columns[..i + 1], cells + [value]) == parts + [c];
    var head := if i == 0 then before else before + " AND ";
    assert after == head + c by {
      ConjunctAppend(head, columns[n].field, value);
    }
    if n == 0 {
      assert before == "";
      assert Join(" AND ", [c]) == c;
    } else {
      JoinSnoc(" AND ", parts, c);
    }
  }

  lemma ConjunctAppend(head: string, name: string, value: string)
    ensures head + "`" + name + "`=" + "'" + value + "'" == head + Conjunct(name, value)
  {
  }

  /** What the WHERE text of the delete should read as: each column's identifier, then its old value as a literal. */
  function ConditionMarks(columns: seq<Column>, cells: seq<string>): seq<Mark>
    requires |cells| == |columns|
    decreases |columns|
  {
    if columns == [] then [] else [Id(columns[0].field), Lit(cells[0])] + ConditionMarks(columns[1..], cells[1..])
  }

  /** No column name holds a backtick and no value a single quote. */
  predicate Unquoted(columns: seq<Column>, cells: seq<string>)
    requires |cells| == |columns|
  {
    forall i | 0 <= i < |columns| :: '`' !in columns[i].field && '\'' !in cells[i]
  }

  /** A condition built from an unquoted name and value reads as that column and that literal. */
  lemma MarksConjunct(name: string, value: string, rest: string)
    requires '`' !in name && '\'' !in value && Safe(rest)
    ensures Marks(Conjunct(name, value) + rest) == [Id(name), Lit(value)] + Marks(rest)
  {
    var lit := Quoted(value, '\'');
    var after := "=" + (lit + rest);
    assert Conjunct(name, value) + rest == Escape(name) + after by {
      assert lit == "'" + value + "'" && Escape(name) == "`" + name + "`";
      ConjunctShape(name, value, rest);
    }
    assert Marks(lit + rest) == [Lit(value)] + Marks(rest) by {
      MarksQuoted(value, '\'', rest);
    }
    assert Marks(after) == Marks(lit + rest) by {
      assert Plain("=");
      MarksPlain("=", lit + rest);
    }
    assert Marks(Escape(name) + after) == [Id(name)] + Marks(after) by {
      EscapeReadsBack(name, after);
    }
    MarksRegroup(Marks(Conjunct(name, value) + rest), [Id(name)], [Lit(value)], Marks(rest), [Id(name), Lit(value)]);
  }

  lemma ConjunctShape(name: string, value: string, rest: string)
    ensures Conjunct(name, value) + rest == ("`" + name + "`") + ("=" + (("'" + value + "'") + rest))
  {
  }

  /**
   * With nothing to break out of its quotes, the WHERE text of the delete
   * reads as every column paired with its value, in DESCRIBE order.
   */
  lemma {:induction false} MarksDeleteWhere(columns: seq<Column>, cells: seq<string>, rest: string)
    requires |cells| == |columns| && Unquoted(columns, cells) && Safe(rest)
    ensures Marks(DeleteWhere(columns, cells) + rest) == ConditionMarks(columns, cells) + Marks(rest)
    decreases |columns|
  {
    var parts := Conjuncts(columns, cells);
    if |columns| == 1 {
      MarksConjunct(columns[0].field, cells[0], rest);
    } else if |columns| > 1 {
      var tail := DeleteWhere(columns[1..], cells[1..]);
      var after := " AND " + (tail + rest);
      assert DeleteWhere(columns, cells) + rest == parts[0] + after by {
        assert parts[1..] == Conjuncts(columns[1..], cells[1..]);
        JoinCons(" AND ", parts, rest);
      }
      assert Marks(after) == Marks(tail + rest) by {
        assert Plain(" AND ");
        MarksPlain(" AND ", tail + rest);
      }
      assert Marks(parts[0] + after) == [Id(columns[0].field), Lit(cells[0])] + Marks(after) by {
        MarksConjunct(columns[0].field, cells[0], after);
      }
      assert Marks(tail + rest) == ConditionMarks(columns[1..], cells[1..]) + Marks(rest) by {
        assert Unquoted(columns[1..], cells[1..]);
        MarksDeleteWhere(columns[1..], cells[1..], rest);
      }
      MarksRegroup(Marks(DeleteWhere(columns, cells) + rest), [Id(columns[0].field), Lit(cells[0])],
        ConditionMarks(columns[1..], cells[1..]), Marks(rest), ConditionMarks(columns, cells));
    } else {
      assert DeleteWhere(columns, cells) + rest == rest;
    }
  }

  /**
   * The values go into the delete unquoted: a value that is a single quote
   * leaves a literal open, and the server reads no value at all.
   */
  lemma DeleteValueBreaksOut()
    ensures Marks(DeleteWhere([Column("a", "varchar(8)")], ["'"]))
         != ConditionMarks([Column("a", "varchar(8)")], ["'"])
  {
    var where := DeleteWhere([Column("a", "varchar(8)")], ["'"]);
    var open := "'''";
    assert where == Escape("a") + ("=" + open);
    EscapeReadsBack("a", "=" + open);
    assert Plain("=");
    MarksPlain("=", open);
    assert open[1..][2..] == [];
    assert Lex(open[1..], '\'') == None;
    assert Marks(open) == [Unterminated];
    assert Marks(where) == [Id("a"), Unterminated];
    assert ConditionMarks([Column("a", "varchar(8)")], ["'"]) == [Id("a"), Lit("'")];
  }

  /**
   * The UPDATE of the prompt flow lines up: a placeholder per kept answer,
   * then one per described column, and slot |data| + j + 1 holds the value
   * conditions maps its j-th key to, whatever order keySet() and values()
   * walk the entries in. ConditionsAll says what that value is: the old cell
   * of the column of that name.
   */
  lemma PromptUpdateAligned(table: string, columns: seq<Column>, cells: seq<string>, answers: seq<Option<string>>)
    requires |cells| == |columns| && DistinctFields(columns) && Collected(columns, answers) != []
    ensures |Conditions(columns, cells)| == |columns|
    ensures HoleCount(Marks(UpdateStatement(table, Collected(columns, answers), Conditions(columns, cells)).sql))
         == |Collected(columns, answers)| + |columns|
    ensures FillsSlots(UpdateStatement(table, Collected(columns, answers), Conditions(columns, cells)).params,
                       |Collected(columns, answers)| + |columns|)
    ensures forall j | 0 <= j < |Conditions(columns, cells)| ::
      Lookup(Conditions(columns, cells), Keys(Conditions(columns, cells))[j])
        == Some(UpdateStatement(table, Collected(columns, answers), Conditions(columns, cells)).params[|Collected(columns, answers)| + j + 1])
  {
    var data, conditions := Collected(columns, answers), Conditions(columns, cells);
    assert DistinctKeys(data) by {
      CollectedDistinct(columns, answers);
    }
    assert DistinctKeys(conditions) by {
      ConditionsDistinct(columns, cells);
    }
    assert |conditions| == |columns| by {
      ConditionsAll(columns, cells);
    }
    UpdateAligned(table, data, conditions);
  }

  /** The INSERT of the prompt flow has one placeholder per kept answer, and exactly those slots are bound. */
  lemma PromptInsertAligned(table: string, columns: seq<Column>, answers: seq<Option<string>>)
    requires Collected(columns, answers) != []
    ensures HoleCount(Marks(InsertStatement(table, Collected(columns, answers)).sql)) == |Collected(columns, answers)|
    ensures FillsSlots(InsertStatement(table, Collected(columns, answers)).params, |Collected(columns, answers)|)
  {
    CollectedDistinct(columns, answers);
    InsertAligned(table, Collected(columns, answers));
  }

  // ---------------------------------------------------------------------
  // The prompt flows
  // ---------------------------------------------------------------------

  function DescribeStatement(database: string, table: string): Executed {
    Unbound(Query, DescribeText(database, table))
  }

  /** The columns a DESCRIBE reply gives, or what stopped it. */
  function Described(r: Result<Cursor>): Result<seq<Column>> {
    if r.Err? then Err(r.error) else Describe(r.value)
  }

  /**
   * insertRecordWithPrompt: DESCRIBE the table, keep every non-blank answer
   * under its column, and insert only when something was kept.
   */
  method InsertRecordWithPrompt(connection: Connection?, database: string, table: string, answers: seq<Option<string>>)
    returns (r: Outcome)
    modifies connection
    ensures connection == null ==> r == Fail(NullPointer)
    ensures connection != null ==>
      var d := DescribeStatement(database, table);
      var columns := Described(old(connection.Answer(d)));
      var sent := old(connection.After(d));
      if columns.Err? then r == Fail(columns.error) && connection.log == sent
      else if Collected(columns.value, answers) == [] then r == Pass && connection.log == sent
      else
        var e := InsertStatement(table, Collected(columns.value, answers));
        r == Done(Received(connection.server(sent, e))) && connection.log == sent + [e]
  {
    if connection == null {
      return Fail(NullPointer);
    }
    var rs := connection.Send(DescribeStatement(database, table));
    if rs.Err? {
      return Fail(rs.error);
    }
    var columns := Describe(rs.value);
    if columns.Err? {
      return Fail(columns.error);
    }
    var data := CollectAnswers(columns.value, answers);
    if data == [] {
      return Pass;
    }
    var e := PrepareInsert(table, data);
    var sent := connection.Send(e);
    r := Done(sent);
  }

  /**
   * updateRecordWithPrompt: DESCRIBE the table, read the selected row, and
   * update only when some answer was kept, binding the data values first and
   * the condition values after them.
   */
  method UpdateRecordWithPrompt(connection: Connection?, database: string, table: string, view: Table, selectedRow: int,
                                answers: seq<Option<string>>)
    returns (r: Outcome)
    modifies connection
    ensures connection == null ==> r == Fail(NullPointer)
    ensures connection != null ==>
      var d := DescribeStatement(database, table);
      var columns := Described(old(connection.Answer(d)));
      var sent := old(connection.After(d));
      if columns.Err? then r == Fail(columns.error) && connection.log == sent
      else
        var maps := UpdateMaps(columns.value, view, selectedRow, answers);
        if maps.Err? then r == Fail(maps.error) && connection.log == sent
        else if maps.value.0 == [] then r == Pass && connection.log == sent
        else
          var e := UpdateStatement(table, maps.value.0, maps.value.1);
          r == Done(Received(connection.server(sent, e))) && connection.log == sent + [e]
  {
    if connection == null {
      return Fail(NullPointer);
    }
    var rs := connection.Send(DescribeStatement(database, table));
    if rs.Err? {
      return Fail(rs.error);
    }
    var columns := Describe(rs.value);
    if columns.Err? {
      return Fail(columns.error);
    }
    var maps := CollectUpdate(columns.value, view, selectedRow, answers);
    if maps.Err? {
      return Fail(maps.error);
    }
    var (data, conditions) := maps.value;
    if data == [] {
      return Pass;
    }
    var e := PrepareUpdate(table, data, conditions);
    var sent := connection.Send(e);
    r := Done(sent);
  }

  /** "DELETE FROM " + table + " WHERE " + whereClause: the table name as it is. */
  function DeleteText(table: string, where: string): string {
    "DELETE FROM " + (table + (" WHERE " + where))
  }

  /**
   * deleteRecordWithPrompt: DESCRIBE the table, build the condition of every
   * column from the selected row, and delete only when the user confirms.
   */
  method DeleteRecordWithPrompt(connection: Connection?, database: string, table: string, view: Table, selectedRow: int,
                                confirm: bool)
    returns (r: Outcome)
    modifies connection
    ensures connection == null ==> r == Fail(NullPointer)
    ensures connection != null ==>
      var d := DescribeStatement(database, table);
      var columns := Described(old(connection.Answer(d)));
      var sent := old(connection.After(d));
      if columns.Err? then r == Fail(columns.error) && connection.log == sent
      else
        var where := WhereOf(columns.value, view, selectedRow);
        if where.Err? then r == Fail(where.error) && connection.log == sent
        else if !confirm then r == Pass && connection.log == sent
        else
          var e := Unbound(Update, DeleteText(table, where.value));
          r == Done(Received(connection.server(sent, e))) && connection.log == sent + [e]
  {
    if connection == null {
      return Fail(NullPointer);
    }
    var rs := connection.Send(DescribeStatement(database, table));
    if rs.Err? {
      return Fail(rs.error);
    }
    var columns := Describe(rs.value);
    if columns.Err? {
      return Fail(columns.error);
    }
    var where := WhereClause(columns.value, view, selectedRow);
    if where.Err? {
      return Fail(where.error);
    }
    if !confirm {
      return Pass;
    }
    var sent := connection.Send(Unbound(Update, DeleteText(table, where.value)));
    r := Done(sent);
  }

  /** dropTable: "DROP TABLE " + database + "." + table, on the object's own connection. */
  method DropTable(connection: Connection?, database: string, table: string) returns (r: Outcome)
    modifies connection
    ensures connection == null ==> r == Fail(NullPointer)
    ensures connection != null ==> r == Done(old(connection.Answer(Unbound(Update, DropTableText(database, table)))))
    ensures connection != null ==> connection.log == old(connection.After(Unbound(Update, DropTableText(database, table))))
  {
    if connection == null {
      return Fail(NullPointer);
    }
    var rs := connection.Send(Unbound(Update, DropTableText(database, table)));
    r := Done(rs);
  }
}
