/**
 * DatabaseOperations: the statements the manager runs against the
 * connection it was constructed with. Each method takes that connection as
 * its first argument; a null one is dereferenced, so it fails with a
 * NullPointerException at the point where the Java code first uses it.
 */
module DatabaseOperations {
  import opened JavaText
  import opened Records
  import opened QueryBuilder
  import opened Connections
  import opened Statements

  /** The table a query's result becomes, or the error that stopped it. */
  function Materialised(r: Result<Cursor>): Result<Table> {
    if r.Err? then Err(r.error)
    else
      var m: Table := TableModel(r.value.labels, r.value.rows);
      Ok(m)
  }

  /** The names a listing query's result becomes: the first column, in cursor order. */
  function Listed(r: Result<Cursor>): Result<seq<string>> {
    if r.Err? then Err(r.error) else FirstColumn(r.value)
  }

  /** executeSelectQuery: the query's result set, materialised. */
  method ExecuteSelectQuery(connection: Connection?, query: string) returns (r: Result<Table>)
    modifies connection
    ensures connection == null ==> r == Err(NullPointer)
    ensures connection != null ==> r == Materialised(old(connection.Answer(Unbound(Query, query))))
    ensures connection != null ==> connection.log == old(connection.After(Unbound(Query, query)))
  {
    if connection == null {
      return Err(NullPointer);
    }
    var rs := connection.Send(Unbound(Query, query));
    if rs.Err? {
      return Err(rs.error);
    }
    var model := Materialise(rs.value);
    r := Ok(model);
  }

  /** selectRecords: buildSelectQuery, whose errors come first, then executeSelectQuery. */
  method SelectRecords(connection: Connection?, table: Option<string>, columns: Option<string>, conditions: Option<Record>)
    returns (r: Result<Table>)
    modifies connection
    ensures BuildSelectQuery(table, columns, conditions).Err? ==>
      r == Err(BuildSelectQuery(table, columns, conditions).error)
      && (connection != null ==> connection.log == old(connection.log))
    ensures BuildSelectQuery(table, columns, conditions).Ok? && connection == null ==> r == Err(NullPointer)
    ensures BuildSelectQuery(table, columns, conditions).Ok? && connection != null ==>
      var e := Unbound(Query, BuildSelectQuery(table, columns, conditions).value);
      r == Materialised(old(connection.Answer(e))) && connection.log == old(connection.After(e))
  {
    var query := BuildSelectQuery(table, columns, conditions);
    if query.Err? {
      return Err(query.error);
    }
    r := ExecuteSelectQuery(connection, query.value);
  }

  /** Reads one name per row from the first column, in cursor order, without filtering. */
  method FirstCells(c: Cursor) returns (r: Result<seq<string>>)
    ensures r == FirstColumn(c)
  {
    var names: seq<string> := [];
    var n := 0;
    while n < |c.rows|
      invariant 0 <= n <= |c.rows|
      invariant n > 0 ==> c.labels != []
      invariant |names| == n && forall k | 0 <= k < n :: |c.rows[k]| > 0 && names[k] == Render(c.rows[k][0])
    {
      if |c.labels| == 0 {
        return Err(SqlError(NoColumnMessage));
      }
      names := names + [Render(c.rows[n][0])];
      n := n + 1;
    }
    assert FirstColumn(c).Ok?;
    assert names == FirstColumn(c).value;
    r := Ok(names);
  }

  /** getDatabases: SHOW DATABASES, one name per row. */
  method GetDatabases(connection: Connection?) returns (r: Result<seq<string>>)
    modifies connection
    ensures connection == null ==> r == Err(NullPointer)
    ensures connection != null ==> r == Listed(old(connection.Answer(Unbound(Query, ShowDatabases))))
    ensures connection != null ==> connection.log == old(connection.After(Unbound(Query, ShowDatabases)))
  {
    if connection == null {
      return Err(NullPointer);
    }
    var rs := connection.Send(Unbound(Query, ShowDatabases));
    if rs.Err? {
      return Err(rs.error);
    }
    r := FirstCells(rs.value);
  }

  /** getTables: the tables of one schema, which is bound as parameter 1; one name per row. */
  method GetTables(connection: Connection?, database: Option<string>) returns (r: Result<seq<string>>)
    modifies connection
    ensures connection == null ==> r == Err(NullPointer)
    ensures connection != null ==> r == Listed(old(connection.Answer(TablesStatement(database))))
    ensures connection != null ==> connection.log == old(connection.After(TablesStatement(database)))
  {
    if connection == null {
      return Err(NullPointer);
    }
    var rs := connection.Send(TablesStatement(database));
    if rs.Err? {
      return Err(rs.error);
    }
    r := FirstCells(rs.value);
  }

  /** getTableData: the whole table, named "database.table" without quoting. */
  method GetTableData(connection: Connection?, database: string, table: string) returns (r: Result<Cursor>)
    modifies connection
    ensures connection == null ==> r == Err(NullPointer)
    ensures connection != null ==> r == old(connection.Answer(Unbound(Query, TableDataText(database, table))))
    ensures connection != null ==> connection.log == old(connection.After(Unbound(Query, TableDataText(database, table))))
  {
    if connection == null {
      return Err(NullPointer);
    }
    r := connection.Send(Unbound(Query, TableDataText(database, table)));
  }

  /** Runs a statement that returns no rows through executeUpdate. */
  method RunUpdate(connection: Connection?, sql: string) returns (r: Outcome)
    modifies connection
    ensures connection == null ==> r == Fail(NullPointer)
    ensures connection != null ==> r == Done(old(connection.Answer(Unbound(Update, sql))))
    ensures connection != null ==> connection.log == old(connection.After(Unbound(Update, sql)))
  {
    if connection == null {
      return Fail(NullPointer);
    }
    var rs := connection.Send(Unbound(Update, sql));
    r := Done(rs);
  }

  /** createDatabase: "CREATE DATABASE " + name. */
  method CreateDatabase(connection: Connection?, name: string) returns (r: Outcome)
    modifies connection
    ensures connection == null ==> r == Fail(NullPointer)
    ensures connection != null ==> r == Done(old(connection.Answer(Unbound(Update, CreateDatabaseText(name)))))
    ensures connection != null ==> connection.log == old(connection.After(Unbound(Update, CreateDatabaseText(name))))
  {
    r := RunUpdate(connection, CreateDatabaseText(name));
  }

  /** createTable: "CREATE TABLE " + name + " (" + columns + ")". */
  method CreateTable(connection: Connection?, name: string, columns: string) returns (r: Outcome)
    modifies connection
    ensures connection == null ==> r == Fail(NullPointer)
    ensures connection != null ==> r == Done(old(connection.Answer(Unbound(Update, CreateTableText(name, columns)))))
    ensures connection != null ==> connection.log == old(connection.After(Unbound(Update, CreateTableText(name, columns))))
  {
    r := RunUpdate(connection, CreateTableText(name, columns));
  }

  /** dropTable: "DROP TABLE " + database + "." + table. */
  method DropTable(connection: Connection?, database: string, table: string) returns (r: Outcome)
    modifies connection
    ensures connection == null ==> r == Fail(NullPointer)
    ensures connection != null ==> r == Done(old(connection.Answer(Unbound(Update, DropTableText(database, table)))))
    ensures connection != null ==> connection.log == old(connection.After(Unbound(Update, DropTableText(database, table))))
  {
    r := RunUpdate(connection, DropTableText(database, table));
  }

  /**
   * insertRecord: buildInsertQuery, whose rejection comes before the
   * connection is touched; then the INSERT with data.values() bound from slot 1.
   */
  method InsertRecord(connection: Connection?, table: Option<string>, data: Option<Record>) returns (r: Outcome)
    modifies connection
    ensures BuildInsertQuery(table, data).Err? ==>
      r == Fail(IllegalArgument(NullOrEmptyData)) && (connection != null ==> connection.log == old(connection.log))
    ensures BuildInsertQuery(table, data).Ok? && connection == null ==> r == Fail(NullPointer)
    ensures BuildInsertQuery(table, data).Ok? && connection != null ==>
      var e := InsertStatement(table.value, data.value);
      r == Done(old(connection.Answer(e))) && connection.log == old(connection.After(e))
  {
    var query := BuildInsertQuery(table, data);
    if query.Err? {
      return Fail(query.error);
    }
    if connection == null {
      return Fail(NullPointer);
    }
    var e := PrepareInsert(table.value, data.value);
    var rs := connection.Send(e);
    r := Done(rs);
  }

  /**
   * updateRecord: buildUpdateQuery first; then prepareStatement, which fails on
   * a closed connection; then data.values() is bound, and null conditions
   * throw when their values() is taken, before anything is sent.
   */
  method UpdateRecord(connection: Connection?, table: Option<string>, data: Option<Record>, conditions: Option<Record>)
    returns (r: Outcome)
    modifies connection
    ensures BuildUpdateQuery(table, data, conditions).Err? ==>
      r == Fail(IllegalArgument(NullOrEmptyData)) && (connection != null ==> connection.log == old(connection.log))
    ensures BuildUpdateQuery(table, data, conditions).Ok? && connection == null ==> r == Fail(NullPointer)
    ensures BuildUpdateQuery(table, data, conditions).Ok? && connection != null && connection.closed ==>
      r == Fail(SqlError(ClosedMessage)) && connection.log == old(connection.log)
    ensures BuildUpdateQuery(table, data, conditions).Ok? && connection != null && !connection.closed && conditions.None? ==>
      r == Fail(NullPointer) && connection.log == old(connection.log)
    ensures BuildUpdateQuery(table, data, conditions).Ok? && connection != null && conditions.Some? ==>
      var e := UpdateStatement(table.value, data.value, conditions.value);
      r == Done(old(connection.Answer(e))) && connection.log == old(connection.After(e))
  {
    var query := BuildUpdateQuery(table, data, conditions);
    if query.Err? {
      return Fail(query.error);
    }
    if connection == null {
      return Fail(NullPointer);
    }
    if connection.closed {
      return Fail(SqlError(ClosedMessage));
    }
    if conditions.None? {
      return Fail(NullPointer);
    }
    var e := PrepareUpdate(table.value, data.value, conditions.value);
    var rs := connection.Send(e);
    r := Done(rs);
  }

  /** deleteRecord: exactly the text of buildDeleteQuery(table, where). */
  method DeleteRecord(connection: Connection?, table: Option<string>, where: Option<string>) returns (r: Outcome)
    modifies connection
    ensures BuildDeleteQuery(table, where).Err? ==>
      r == Fail(IllegalArgument(NullOrEmptyTable)) && (connection != null ==> connection.log == old(connection.log))
    ensures BuildDeleteQuery(table, where).Ok? && connection == null ==> r == Fail(NullPointer)
    ensures BuildDeleteQuery(table, where).Ok? && connection != null ==>
      var e := Unbound(Update, BuildDeleteQuery(table, where).value);
      r == Done(old(connection.Answer(e))) && connection.log == old(connection.After(e))
  {
    var query := BuildDeleteQuery(table, where);
    if query.Err? {
      return Fail(query.error);
    }
    r := RunUpdate(connection, query.value);
  }
}
