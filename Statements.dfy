/**
 * The statements TableOperations and DatabaseOperations send: the prepared
 * INSERT and UPDATE with the values the binding loops put in their slots,
 * and the statements whose text is plain concatenation.
 *
 * The point of the prepared ones is alignment: the builder and the binding
 * loops walk the same map, so the i-th placeholder of the text belongs to
 * the i-th column named and slot i holds that column's value.
 */
module Statements {
  import opened JavaText
  import opened SqlText
  import opened Records
  import opened QueryBuilder
  import opened Connections

  /** The slots bound are exactly 1 .. n. */
  ghost predicate FillsSlots(params: map<int, Value>, n: nat) {
    forall j :: j in params <==> 1 <= j <= n
  }

  lemma SlotsRange(values: seq<Value>)
    ensures FillsSlots(Slots(values, 1), |values|)
    ensures forall j | 0 <= j < |values| :: Slots(values, 1)[j + 1] == values[j]
  {
    forall j ensures j in Slots(values, 1) <==> 1 <= j <= |values| {
      SlotsAt(values, 1, j);
    }
    forall j | 0 <= j < |values| ensures Slots(values, 1)[j + 1] == values[j] {
      SlotsAt(values, 1, j + 1);
    }
  }

  /** Binding into a fresh statement leaves exactly the slots bound. */
  lemma NoneBefore(slots: map<int, Value>)
    ensures map[] + slots == slots
  {
  }

  // ---------------------------------------------------------------------
  // Prepared statements
  // ---------------------------------------------------------------------

  /** The INSERT of `data` into `table`, with data.values() bound from slot 1. */
  function InsertStatement(table: string, data: Record): Executed
    requires data != []
  {
    Executed(Update, BuildInsertQuery(Some(table), Some(data)).value, Slots(Vals(data), 1))
  }

  /** The UPDATE of `table`, with data.values() bound from slot 1 and conditions.values() right after. */
  function UpdateStatement(table: string, data: Record, conditions: Record): Executed
    requires data != []
  {
    Executed(Update, BuildUpdateQuery(Some(table), Some(data), Some(conditions)).value,
      Slots(Vals(data) + Vals(conditions), 1))
  }

  /** prepareStatement(buildInsertQuery(table, data)) and its binding loop. */
  method PrepareInsert(table: string, data: Record) returns (e: Executed)
    requires data != []
    ensures e == InsertStatement(table, data)
  {
    var query := BuildInsertQuery(Some(table), Some(data)).value;
    var params, paramIndex := Bind(map[], 1, Vals(data));
    NoneBefore(Slots(Vals(data), 1));
    e := Executed(Update, query, params);
  }

  /**
   * prepareStatement(buildUpdateQuery(table, data, conditions)) and its two
   * binding loops, the second continuing from the index the first stopped at.
   */
  method PrepareUpdate(table: string, data: Record, conditions: Record) returns (e: Executed)
    requires data != []
    ensures e == UpdateStatement(table, data, conditions)
  {
    var query := BuildUpdateQuery(Some(table), Some(data), Some(conditions)).value;
    var params, paramIndex := Bind(map[], 1, Vals(data));
    params, paramIndex := Bind(params, paramIndex, Vals(conditions));
    SlotsAppend(Vals(data), Vals(conditions), 1);
    NoneBefore(Slots(Vals(data), 1));
    e := Executed(Update, query, params);
  }

  /**
   * An INSERT's placeholders and slots line up: the text names the table,
   * then the columns in the map's order, then one placeholder per column; the
   * slots bound are exactly 1 .. n; and slot j holds the map's value for the
   * j-th column named.
   */
  lemma InsertAligned(table: string, data: Record)
    requires data != [] && DistinctKeys(data)
    ensures Marks(InsertStatement(table, data).sql) == [Id(table)] + Ids(Keys(data)) + Holes(|data|)
    ensures HoleCount(Marks(InsertStatement(table, data).sql)) == |data|
    ensures FillsSlots(InsertStatement(table, data).params, |data|)
    ensures forall j | 0 <= j < |data| ::
      Lookup(data, Keys(data)[j]) == Some(InsertStatement(table, data).params[j + 1])
  {
    InsertQueryMarks(table, data);
    InsertQueryHoles(table, data);
    SlotsRange(Vals(data));
    forall j | 0 <= j < |data|
      ensures Lookup(data, Keys(data)[j]) == Some(InsertStatement(table, data).params[j + 1])
    {
      LookupAt(data, j);
    }
  }

  /**
   * An UPDATE's placeholders and slots line up: one placeholder after each
   * data column, then one after each condition column; the slots bound are
   * exactly 1 .. |data| + |conditions|; slot j holds the value of the j-th
   * data column, and slot |data| + j the value of the j-th condition column.
   */
  lemma UpdateAligned(table: string, data: Record, conditions: Record)
    requires data != [] && DistinctKeys(data) && DistinctKeys(conditions)
    ensures Marks(UpdateStatement(table, data, conditions).sql)
         == [Id(table)] + Pairs(Keys(data)) + Pairs(Keys(conditions))
    ensures HoleCount(Marks(UpdateStatement(table, data, conditions).sql)) == |data| + |conditions|
    ensures FillsSlots(UpdateStatement(table, data, conditions).params, |data| + |conditions|)
    ensures forall j | 0 <= j < |data| ::
      Lookup(data, Keys(data)[j]) == Some(UpdateStatement(table, data, conditions).params[j + 1])
    ensures forall j | 0 <= j < |conditions| ::
      Lookup(conditions, Keys(conditions)[j]) == Some(UpdateStatement(table, data, conditions).params[|data| + j + 1])
  {
    var e := UpdateStatement(table, data, conditions);
    assert Marks(e.sql) == [Id(table)] + Pairs(Keys(data)) + Pairs(Keys(conditions))
        && HoleCount(Marks(e.sql)) == |data| + |conditions| by {
      assert WhereEntries(Some(conditions)) == conditions;
      UpdateQueryMarks(table, data, Some(conditions));
    }
    var values := Vals(data) + Vals(conditions);
    assert e.params == Slots(values, 1);
    assert FillsSlots(e.params, |values|) && forall j | 0 <= j < |values| :: e.params[j + 1] == values[j] by {
      SlotsRange(values);
    }
    forall j | 0 <= j < |data|
      ensures Lookup(data, Keys(data)[j]) == Some(e.params[j + 1])
    {
      LookupAt(data, j);
      assert values[j] == Vals(data)[j];
    }
    forall j | 0 <= j < |conditions|
      ensures Lookup(conditions, Keys(conditions)[j]) == Some(e.params[|data| + j + 1])
    {
      LookupAt(conditions, j);
      assert values[|data| + j] == Vals(conditions)[j];
    }
  }

  // ---------------------------------------------------------------------
  // Statements built by plain concatenation: nothing in them is quoted
  // ---------------------------------------------------------------------

  /** getTables: the schema is the only placeholder, and setString(1, database) binds it. */
  const TablesQuery: string := "SELECT table_name" + " FROM information_schema.tables" + " WHERE table_schema = " + "?"

  /** setString(1, null) binds SQL NULL. */
  function TablesStatement(database: Option<string>): Executed {
    Executed(Query, TablesQuery, map[1 := if database.None? then Null else Text(database.value)])
  }

  /** The tables query has exactly one placeholder, the one slot getTables binds. */
  lemma TablesAligned(database: Option<string>)
    ensures Marks(TablesStatement(database).sql) == [Hole]
    ensures FillsSlots(TablesStatement(database).params, 1)
  {
    var prefix := TablesWords();
    assert TablesQuery == prefix + "?";
    MarksPlain(prefix, "?");
    MarksHole([]);
    assert "?" + [] == "?";
  }

  lemma TablesWords() returns (prefix: string)
    ensures Plain(prefix) && TablesQuery == prefix + "?"
  {
    var a, b, c := "SELECT table_name", " FROM information_schema.tables", " WHERE table_schema = ";
    assert Plain(a);
    assert Plain(b);
    assert Plain(c);
    PlainAppend(a, b);
    PlainAppend(a + b, c);
    prefix := a + b + c;
  }

  const ShowDatabases: string := "SHOW DATABASES"

  /** "DESCRIBE " + database + "." + table. */
  function DescribeText(database: string, table: string): string {
    "DESCRIBE " + (database + ("." + table))
  }

  /** DatabaseOperations.getTableData: "SELECT * FROM " + database + "." + tableName. */
  function TableDataText(database: string, table: string): string {
    "SELECT * FROM " + (database + ("." + table))
  }

  /** "CREATE DATABASE " + name. */
  function CreateDatabaseText(name: string): string {
    "CREATE DATABASE " + name
  }

  /** DatabaseOperations.createTable: "CREATE TABLE " + name + " (" + columns + ")". */
  function CreateTableText(name: string, columns: string): string {
    "CREATE TABLE " + (name + (" (" + (columns + ")")))
  }

  /** Both dropTable methods: "DROP TABLE " + database + "." + table. */
  function DropTableText(database: string, table: string): string {
    "DROP TABLE " + (database + ("." + table))
  }

  /** The qualified name as written: database + "." + table. */
  function Qualified(database: string, table: string): string {
    database + ("." + table)
  }

  /**
   * The names go in verbatim: the server reads in these statements exactly
   * what it reads in the caller's strings, and nothing is quoted for them.
   */
  lemma VerbatimMarks(database: string, table: string, name: string, columns: string)
    ensures Marks(DescribeText(database, table)) == Marks(Qualified(database, table))
    ensures Marks(TableDataText(database, table)) == Marks(Qualified(database, table))
    ensures Marks(DropTableText(database, table)) == Marks(Qualified(database, table))
    ensures Marks(CreateDatabaseText(name)) == Marks(name)
    ensures Marks(CreateTableText(name, columns)) == Marks(name + (" (" + columns))
  {
    assert Plain("DESCRIBE ") && Plain("SELECT * FROM ") && Plain("DROP TABLE ");
    assert Plain("CREATE DATABASE ") && Plain("CREATE TABLE ") && Plain(")");
    MarksPlain("DESCRIBE ", Qualified(database, table));
    MarksPlain("SELECT * FROM ", Qualified(database, table));
    MarksPlain("DROP TABLE ", Qualified(database, table));
    MarksPlain("CREATE DATABASE ", name);
    MarksPlain("CREATE TABLE ", name + (" (" + (columns + ")")));
    MarksPlainSuffix(name + (" (" + columns), ")");
    assert name + (" (" + (columns + ")")) == name + (" (" + columns) + ")";
  }

  /**
   * Unlike buildDropTableQuery, which reads as the table identifier whatever
   * it holds, the concatenated DROP TABLE reads as nothing at all for names
   * without quotes or placeholders: they are bare words.
   */
  lemma DropTableUnescaped(database: string, table: string)
    requires Plain(database) && Plain(table) && !IsBlank(table)
    ensures Marks(DropTableText(database, table)) == []
    ensures Marks(BuildDropTableQuery(Some(table)).value) == [Id(table)]
  {
    VerbatimMarks(database, table, [], []);
    assert Plain(".");
    assert Plain(Qualified(database, table)) by {
      var q := Qualified(database, table);
      forall i | 0 <= i < |q| ensures !IsQuote(q[i]) && q[i] != '?' {
        if i < |database| { assert q[i] == database[i]; }
        else if i == |database| { assert q[i] == '.'; }
        else { assert q[i] == table[i - |database| - 1]; }
      }
    }
    MarksPlain(Qualified(database, table), []);
    assert Qualified(database, table) + [] == Qualified(database, table);
    DropTableQueryMarks(table);
  }
}
