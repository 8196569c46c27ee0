/**
 * DatabaseManager: the session state of the main window and the rules it
 * applies before delegating to the operations.
 *
 * Of the window only the state the rules read or write is kept: the
 * database currently in use, the items of the database and table lists,
 * the database tree, and the model of the table on display. What the user
 * picks or types (a selected table, a selected row, the answers of a
 * dialog, a confirmation) is given as arguments; None stands for a null.
 */
module DatabaseManager {
  import opened JavaText
  import opened SqlText
  import opened Records
  import opened QueryBuilder
  import opened Connections
  import opened Statements
  import DbOps = DatabaseOperations
  import TableOps = TableOperations

  // ---------------------------------------------------------------------
  // The system-database filter
  // ---------------------------------------------------------------------

  /** SYSTEM_DATABASES. */
  const SystemDatabases: set<string> := {"information_schema", "mysql", "performance_schema", "sys"}

  /** The names loadDatabases and loadDatabaseTree show: every listed name that is not a system database, in order. */
  function VisibleDatabases(names: seq<string>): (r: seq<string>)
    ensures |r| <= |names|
    ensures forall i | 0 <= i < |r| :: r[i] !in SystemDatabases
    decreases |names|
  {
    if names == [] then []
    else
      var n := |names| - 1;
      VisibleDatabases(names[..n]) + (if names[n] in SystemDatabases then [] else [names[n]])
  }

  /** A name is shown exactly when it was listed and is not a system database. */
  lemma {:induction false} VisibleMembers(names: seq<string>)
    ensures forall x :: x in VisibleDatabases(names) <==> x in names && x !in SystemDatabases
    decreases |names|
  {
    if names != [] {
      var n := |names| - 1;
      VisibleMembers(names[..n]);
      assert names == names[..n] + [names[n]];
    }
  }

  /** Filtering a concatenation filters each part: nothing moves across the parts. */
  lemma {:induction false} VisibleAppend(a: seq<string>, b: seq<string>)
    ensures VisibleDatabases(a + b) == VisibleDatabases(a) + VisibleDatabases(b)
    decreases |b|
  {
    if b == [] {
      assert a + b == a;
    } else {
      var n := |b| - 1;
      assert (a + b)[..|a + b| - 1] == a + b[..n];
      VisibleAppend(a, b[..n]);
    }
  }

  /** The filter keeps the list as it is exactly when no system database is in it. */
  lemma VisibleIdentity(names: seq<string>)
    ensures VisibleDatabases(names) == names <==> forall i | 0 <= i < |names| :: names[i] !in SystemDatabases
  {
    VisibleMembers(names);
    if forall i | 0 <= i < |names| :: names[i] !in SystemDatabases {
      VisibleUser(names);
    }
  }

  lemma {:induction false} VisibleUser(names: seq<string>)
    requires forall i | 0 <= i < |names| :: names[i] !in SystemDatabases
    ensures VisibleDatabases(names) == names
    decreases |names|
  {
    if names != [] {
      var n := |names| - 1;
      VisibleUser(names[..n]);
      assert names == names[..n] + [names[n]];
    }
  }

  /** Two shown names keep their relative order: the earlier listed is shown earlier. */
  lemma VisibleOrder(names: seq<string>, i: nat, j: nat) returns (k1: nat, k2: nat)
    requires i < j < |names| && names[i] !in SystemDatabases && names[j] !in SystemDatabases
    ensures k1 < k2 < |VisibleDatabases(names)|
    ensures VisibleDatabases(names)[k1] == names[i] && VisibleDatabases(names)[k2] == names[j]
  {
    var a, b, c := names[..i], names[i + 1..j], names[j + 1..];
    assert names == a + [names[i]] + b + [names[j]] + c;
    VisibleAppend(a + [names[i]] + b + [names[j]], c);
    VisibleAppend(a + [names[i]] + b, [names[j]]);
    VisibleAppend(a + [names[i]], b);
    VisibleAppend(a, [names[i]]);
    assert VisibleDatabases([names[i]]) == [names[i]];
    assert VisibleDatabases([names[j]]) == [names[j]];
    k1 := |VisibleDatabases(a)|;
    k2 := |VisibleDatabases(a + [names[i]] + b)|;
  }

  // ---------------------------------------------------------------------
  // New database names
  // ---------------------------------------------------------------------

  /** btnNew's test before createDatabase: present, not blank, and matching ^[a-zA-Z0-9_]+$. */
  predicate NameAccepted(name: Option<string>): (b: bool)
    ensures b ==> name.Some? && name.value != []
  {
    name.Some? && !IsBlank(name.value) && MatchesWordPattern(name.value)
  }

  /** The blank test is subsumed: a name is accepted exactly when it matches the pattern. */
  lemma NameAcceptedIff(name: Option<string>)
    ensures NameAccepted(name) <==> name.Some? && MatchesWordPattern(name.value)
  {
    if name.Some? && MatchesWordPattern(name.value) {
      assert !IsSpace(name.value[0]);
    }
  }

  /** What createDatabase sends for an accepted name reads as the bare name and nothing more. */
  lemma AcceptedNamePlain(name: Option<string>)
    requires NameAccepted(name)
    ensures Plain(name.value) && !IsBlank(name.value)
  {
    forall i | 0 <= i < |name.value| ensures !IsQuote(name.value[i]) && name.value[i] != '?' {
      assert IsWordChar(name.value[i]);
    }
  }

  // ---------------------------------------------------------------------
  // The database tree
  // ---------------------------------------------------------------------

  /** A database node of the tree with its table children. */
  datatype DatabaseNode = DatabaseNode(name: string, tables: seq<string>)

  function NodeNames(nodes: seq<DatabaseNode>): seq<string> {
    seq(|nodes|, k requires 0 <= k < |nodes| => nodes[k].name)
  }

  /** Where the loop of loadDatabaseTree stands: the nodes under the root, the statements sent, and whether getTables threw. */
  datatype Walk = Walk(nodes: seq<DatabaseNode>, log: seq<Executed>, failed: bool)

  /**
   * The loop of loadDatabaseTree over the listed names, sending from `log`:
   * each shown database gets its node before getTables runs, then its tables
   * in order; a failing getTables leaves its node childless and ends the walk.
   */
  function TreeWalk(closed: bool, server: Server, log: seq<Executed>, names: seq<string>): (r: Walk)
    ensures r.failed ==> r.nodes != []
    decreases |names|
  {
    if names == [] then Walk([], log, false)
    else
      var w := TreeWalk(closed, server, log, names[..|names| - 1]);
      var name := names[|names| - 1];
      if w.failed || name in SystemDatabases then w
      else
        var e := TablesStatement(Some(name));
        var tables := DbOps.Listed(AnswerAfter(closed, server, w.log, e));
        if tables.Err? then Walk(w.nodes + [DatabaseNode(name, [])], LogAfter(closed, w.log, e), true)
        else Walk(w.nodes + [DatabaseNode(name, tables.value)], LogAfter(closed, w.log, e), false)
  }

  /** One getTables statement per shown database, in order. */
  function TablesStatements(names: seq<string>): (r: seq<Executed>)
    ensures |r| == |names|
  {
    seq(|names|, i requires 0 <= i < |names| => TablesStatement(Some(names[i])))
  }

  /**
   * The tree shows a prefix of the filtered list, all of it unless getTables
   * threw; no node is a system database; on an open connection the walk
   * sends one getTables per shown database, in order, and on a closed one
   * nothing, stopping at the first shown database.
   */
  lemma {:induction false} TreeWalkShape(closed: bool, server: Server, log: seq<Executed>, names: seq<string>)
    ensures NodeNames(TreeWalk(closed, server, log, names).nodes) <= VisibleDatabases(names)
    ensures !TreeWalk(closed, server, log, names).failed ==>
      NodeNames(TreeWalk(closed, server, log, names).nodes) == VisibleDatabases(names)
    ensures forall k | 0 <= k < |TreeWalk(closed, server, log, names).nodes| ::
      TreeWalk(closed, server, log, names).nodes[k].name !in SystemDatabases
    ensures log <= TreeWalk(closed, server, log, names).log
    ensures closed ==> TreeWalk(closed, server, log, names).log == log && |TreeWalk(closed, server, log, names).nodes| <= 1
    ensures closed && TreeWalk(closed, server, log, names).nodes != [] ==> TreeWalk(closed, server, log, names).failed
    ensures !closed && !TreeWalk(closed, server, log, names).failed ==>
      TreeWalk(closed, server, log, names).log == log + TablesStatements(VisibleDatabases(names))
    decreases |names|
  {
    if names != [] {
      var n := |names| - 1;
      var prefix := names[..n];
      TreeWalkShape(closed, server, log, prefix);
      var w := TreeWalk(closed, server, log, prefix);
      var name := names[n];
      assert NodeNames(w.nodes) <= VisibleDatabases(prefix);
      if !w.failed && name !in SystemDatabases {
        var w' := TreeWalk(closed, server, log, names);
        assert NodeNames(w'.nodes) == NodeNames(w.nodes) + [name];
        if !closed && !w'.failed {
          assert TablesStatements(VisibleDatabases(names))
              == TablesStatements(VisibleDatabases(prefix)) + [TablesStatement(Some(name))];
        }
      }
    }
  }

  /**
   * The k-th node of the tree is the k-th shown database, and the tables
   * query for it, asked after those of the databases before it, answered
   * its children in returned order; a failing node instead got an error and
   * has no children.
   */
  ghost predicate NodeListed(server: Server, log: seq<Executed>, shown: seq<string>, k: nat, node: DatabaseNode, failing: bool)
    requires k < |shown|
  {
    var listed := DbOps.Listed(Received(server(log + TablesStatements(shown[..k]), TablesStatement(Some(shown[k])))));
    node.name == shown[k] && if failing then listed.Err? && node.tables == [] else listed == Ok(node.tables)
  }

  /**
   * On an open connection every node's children are its database's tables,
   * in returned order; the walk keeps every shown database unless a
   * getTables call throws, and then the last node is the failing database.
   */
  lemma {:induction false} TreeWalkChildren(server: Server, log: seq<Executed>, names: seq<string>)
    ensures var w := TreeWalk(false, server, log, names); var shown := VisibleDatabases(names);
      |w.nodes| <= |shown| && (!w.failed ==> |w.nodes| == |shown|)
      && forall k | 0 <= k < |w.nodes| :: NodeListed(server, log, shown, k, w.nodes[k], w.failed && k == |w.nodes| - 1)
    decreases |names|
  {
    if names != [] {
      var n := |names| - 1;
      var prefix, name := names[..n], names[n];
      TreeWalkChildren(server, log, prefix);
      var w := TreeWalk(false, server, log, prefix);
      var w' := TreeWalk(false, server, log, names);
      assert names == prefix + [name];
      VisibleAppend(prefix, [name]);
      var sp := VisibleDatabases(prefix);
      var s := VisibleDatabases(names);
      assert s == sp + VisibleDatabases([name]);
      if w.failed || name in SystemDatabases {
        assert w' == w;
        forall k | 0 <= k < |w.nodes|
          ensures NodeListed(server, log, s, k, w.nodes[k], w.failed && k == |w.nodes| - 1)
        {
          assert s[..k] == sp[..k] && s[k] == sp[k];
        }
      } else {
        TreeWalkShape(false, server, log, prefix);
        assert s == sp + [name] && s[..|sp|] == sp;
        forall k | 0 <= k < |w'.nodes|
          ensures NodeListed(server, log, s, k, w'.nodes[k], w'.failed && k == |w'.nodes| - 1)
        {
          if k < |w.nodes| {
            assert s[..k] == sp[..k] && s[k] == sp[k] && w'.nodes[k] == w.nodes[k];
          }
        }
      }
    }
  }

  /** Once getTables has thrown, the rest of the list changes nothing. */
  lemma {:induction false} TreeWalkStops(closed: bool, server: Server, log: seq<Executed>, names: seq<string>, i: nat)
    requires i <= |names| && TreeWalk(closed, server, log, names[..i]).failed
    ensures TreeWalk(closed, server, log, names) == TreeWalk(closed, server, log, names[..i])
    decreases |names| - i
  {
    if i < |names| {
      assert names[..i + 1][..i] == names[..i];
      TreeWalkStops(closed, server, log, names, i + 1);
    } else {
      assert names[..i] == names;
    }
  }

  // ---------------------------------------------------------------------
  // Other statements the window sends
  // ---------------------------------------------------------------------

  /** handleDatabaseSelection: "USE " + database. */
  function UseText(database: string): string {
    "USE " + database
  }

  /** btnSelect: "SELECT " + columns + " FROM " + escapeTableName(table), the columns as typed. */
  function BrowseText(columns: string, table: string): string {
    "SELECT " + (columns + (" FROM " + Escape(table)))
  }

  /** The table list loadTables leaves, and the log after it: cleared first, refilled by getTables. */
  function LoadedTables(closed: bool, server: Server, log: seq<Executed>, database: Option<string>): (seq<string>, seq<Executed>) {
    if database.None? || IsBlank(database.value) then ([], log)
    else
      var listed := DbOps.Listed(AnswerAfter(closed, server, log, TablesStatement(database)));
      (if listed.Ok? then listed.value else [], LogAfter(closed, log, TablesStatement(database)))
  }

  /** A blank database clears the table list and sends nothing; otherwise exactly one getTables is sent, on an open connection. */
  lemma LoadedTablesSends(closed: bool, server: Server, log: seq<Executed>, database: Option<string>)
    ensures database.None? || IsBlank(database.value) ==> LoadedTables(closed, server, log, database) == ([], log)
    ensures database.Some? && !IsBlank(database.value) && !closed ==>
      LoadedTables(closed, server, log, database).1 == log + [TablesStatement(database)]
    ensures closed ==> LoadedTables(closed, server, log, database) == ([], log)
  {
  }

  // ---------------------------------------------------------------------
  // The window
  // ---------------------------------------------------------------------

  /** What the window may show: a non-empty database in use, and no system database listed or in the tree. */
  ghost predicate Shown(currentDatabase: Option<string>, databases: seq<string>, tree: seq<DatabaseNode>) {
    (currentDatabase.Some? ==> currentDatabase.value != [])
    && (forall i | 0 <= i < |databases| :: databases[i] !in SystemDatabases)
    && (forall k | 0 <= k < |tree| :: tree[k].name !in SystemDatabases)
  }

  class Manager {
    const connection: Connection
    /** currentDatabase: set only by a successful USE. */
    var currentDatabase: Option<string>
    /** The items of comboboxDB. */
    var databases: seq<string>
    /** The items of comboboxTableDB. */
    var tables: seq<string>
    /** The database nodes under the root of DBTree. */
    var tree: seq<DatabaseNode>
    /** The model of tblDB. */
    var view: Table

    /** The database in use is never empty, and no system database is ever listed or in the tree. */
    ghost predicate Valid()
      reads this
    {
      Shown(currentDatabase, databases, tree)
    }

    /** The logged-in window: no database in use, then loadDatabases and loadDatabaseTree. */
    constructor (connection: Connection)
      modifies connection
      ensures Valid() && this.connection == connection && currentDatabase.None?
      ensures !connection.closed ==> old(connection.log) + [Unbound(Query, ShowDatabases)] <= connection.log
    {
      this.connection := connection;
      currentDatabase := None;
      databases := [];
      tables := [];
      tree := [];
      view := TableModel([], []);
      new;
      LoadDatabases();
      LoadDatabaseTree();
    }

    /** loadDatabases: getDatabases, then the list is cleared and refilled with the shown names; a failure leaves it as it was. */
    method LoadDatabases()
      requires Valid()
      modifies this`databases, connection
      ensures Valid()
      ensures var listed := old(DbOps.Listed(connection.Answer(Unbound(Query, ShowDatabases))));
        databases == (if listed.Ok? then VisibleDatabases(listed.value) else old(databases))
      ensures connection.log == old(connection.After(Unbound(Query, ShowDatabases)))
    {
      var names := DbOps.GetDatabases(connection);
      if names.Err? {
        return;
      }
      databases := [];
      VisibleMembers(names.value);
      databases := VisibleDatabases(names.value);
    }

    /** loadTables: the table list is cleared, and refilled by getTables unless the database is blank. */
    method LoadTables(database: Option<string>)
      modifies this`tables, connection
      ensures (tables, connection.log) == old(LoadedTables(connection.closed, connection.server, connection.log, database))
    {
      tables := [];
      if database.None? || IsBlank(database.value) {
        return;
      }
      var listed := DbOps.GetTables(connection, database);
      if listed.Ok? {
        tables := listed.value;
      }
    }

    /** getTables of the window: a blank database gives no tables without asking the server. */
    method ListTables(database: Option<string>) returns (r: Result<seq<string>>)
      modifies connection
      ensures database.None? || IsBlank(database.value) ==> r == Ok([]) && connection.log == old(connection.log)
      ensures database.Some? && !IsBlank(database.value) ==>
        r == old(DbOps.Listed(connection.Answer(TablesStatement(database))))
        && connection.log == old(connection.After(TablesStatement(database)))
    {
      if database.None? || IsBlank(database.value) {
        return Ok([]);
      }
      r := DbOps.GetTables(connection, database);
    }

    /** loadTableData: with a database in use, the table's rows become the model on display. */
    method LoadTableData(tableName: string)
      modifies this`view, connection
      ensures currentDatabase.None? ==> view == old(view) && connection.log == old(connection.log)
      ensures currentDatabase.Some? ==>
        var e := Unbound(Query, TableDataText(currentDatabase.value, tableName));
        var m := DbOps.Materialised(old(connection.Answer(e)));
        view == (if m.Ok? then m.value else old(view)) && connection.log == old(connection.After(e))
    {
      if currentDatabase.None? {
        return;
      }
      var rs := DbOps.GetTableData(connection, currentDatabase.value, tableName);
      if rs.Err? {
        return;
      }
      view := Materialise(rs.value);
    }

    /**
     * loadDatabaseTree: the root gets a node per shown database, each with
     * its tables; when getDatabases or a getTables throws, the tree built so
     * far is the one shown.
     */
    method LoadDatabaseTree()
      requires Valid()
      modifies this`tree, connection
      ensures Valid()
      ensures var listed := old(DbOps.Listed(connection.Answer(Unbound(Query, ShowDatabases))));
        var sent := old(connection.After(Unbound(Query, ShowDatabases)));
        if listed.Err? then tree == [] && connection.log == sent
        else
          (tree == TreeWalk(connection.closed, connection.server, sent, listed.value).nodes
           && connection.log == TreeWalk(connection.closed, connection.server, sent, listed.value).log)
      ensures old(connection.log) <= connection.log
    {
      var root: seq<DatabaseNode> := [];
      var databases := DbOps.GetDatabases(connection);
      if databases.Ok? {
        var names := databases.value;
        ghost var sent := connection.log;
        var failed := false;
        var i := 0;
        while i < |names| && !failed
          invariant 0 <= i <= |names|
          invariant TreeWalk(connection.closed, connection.server, sent, names[..i]) == Walk(root, connection.log, failed)
        {
          assert names[..i + 1][..i] == names[..i];
          var dbName := names[i];
          if dbName !in SystemDatabases {
            root := root + [DatabaseNode(dbName, [])];
            var listed := DbOps.GetTables(connection, Some(dbName));
            if listed.Err? {
              failed := true;
            } else {
              root := root[|root| - 1 := DatabaseNode(dbName, listed.value)];
            }
          }
          i := i + 1;
        }
        if failed {
          TreeWalkStops(connection.closed, connection.server, sent, names, i);
        } else {
          assert names[..i] == names;
        }
        assert (forall k | 0 <= k < |root| :: root[k].name !in SystemDatabases) && sent <= connection.log by {
          TreeWalkShape(connection.closed, connection.server, sent, names);
        }
      }
      tree := root;
    }

    /**
     * handleDatabaseSelection: for a non-empty name, USE it; only when that
     * succeeds does it become the database in use, and its tables are loaded.
     */
    method HandleDatabaseSelection(database: Option<string>)
      requires Valid()
      modifies this`currentDatabase, this`tables, connection
      ensures Valid()
      ensures database.None? || database.value == [] ==>
        currentDatabase == old(currentDatabase) && tables == old(tables) && connection.log == old(connection.log)
      ensures database.Some? && database.value != [] ==>
        var use := Unbound(Execute, UseText(database.value));
        if old(connection.Answer(use)).Err? then
          currentDatabase == old(currentDatabase) && tables == old(tables) && connection.log == old(connection.After(use))
        else
          currentDatabase == database
          && (tables, connection.log) == LoadedTables(connection.closed, connection.server, old(connection.After(use)), database)
    {
      if database.Some? && database.value != [] {
        var r := connection.Send(Unbound(Execute, UseText(database.value)));
        if r.Ok? {
          currentDatabase := database;
          LoadTables(database);
        }
      }
    }

    /** btnNew: an accepted name is created, then the database list is reloaded; any other name sends nothing. */
    method OnNew(dbName: Option<string>)
      requires Valid()
      modifies this`databases, connection
      ensures Valid()
      ensures !NameAccepted(dbName) ==> databases == old(databases) && connection.log == old(connection.log)
      ensures NameAccepted(dbName) && !connection.closed ==>
        old(connection.log) + [Unbound(Update, CreateDatabaseText(dbName.value))] <= connection.log
      ensures connection.closed ==> databases == old(databases) && connection.log == old(connection.log)
    {
      if dbName.Some? && !IsBlank(dbName.value) {
        if !MatchesWordPattern(dbName.value) {
          return;
        }
        var r := DbOps.CreateDatabase(connection, dbName.value);
        if r.Fail? {
          return;
        }
        LoadDatabases();
      }
    }

    /** btnUpdate: a database in use, a selected table and a selected row, then the update prompt and a reload. */
    method OnUpdate(selectedTable: Option<string>, selectedRow: int, answers: seq<Option<string>>)
      requires Valid()
      modifies this`view, connection
      ensures Valid()
      ensures currentDatabase.None? || selectedTable.None? || selectedRow == -1 ==>
        view == old(view) && connection.log == old(connection.log)
      ensures currentDatabase.Some? && selectedTable.Some? && selectedRow != -1 && !connection.closed ==>
        old(connection.log) + [TableOps.DescribeStatement(currentDatabase.value, selectedTable.value)] <= connection.log
    {
      if currentDatabase.None? || selectedTable.None? || selectedRow == -1 {
        return;
      }
      var r := TableOps.UpdateRecordWithPrompt(connection, currentDatabase.value, selectedTable.value, view, selectedRow, answers);
      if r.Pass? {
        LoadTableData(selectedTable.value);
      }
    }

    /**
     * btnSelect: a database in use with at least one table, then the typed
     * columns of the chosen table; the display changes only when both were
     * given and the query succeeded.
     */
    method OnSelect(table: Option<string>, columns: Option<string>)
      requires Valid()
      modifies this`view, connection
      ensures Valid()
      ensures currentDatabase.None? ==> view == old(view) && connection.log == old(connection.log)
      ensures currentDatabase.Some? && !IsBlank(currentDatabase.value) && !connection.closed ==>
        old(connection.log) + [TablesStatement(currentDatabase)] <= connection.log
      ensures view != old(view) ==>
        currentDatabase.Some? && table.Some? && !IsBlank(table.value) && columns.Some? && !IsBlank(columns.value)
        && |connection.log| > 0 && connection.log[|connection.log| - 1] == Unbound(Query, BrowseText(columns.value, table.value))
    {
      if currentDatabase.None? {
        return;
      }
      var listed := ListTables(currentDatabase);
      if listed.Err? || listed.value == [] {
        return;
      }
      if table.Some? && !IsBlank(table.value) && columns.Some? && !IsBlank(columns.value) {
        Browse(table.value, columns.value);
      }
    }

    /** The query of btnSelect: its result, when there is one, becomes the model on display. */
    method Browse(table: string, columns: string)
      modifies this`view, connection
      ensures var e := Unbound(Query, BrowseText(columns, table));
        var m := DbOps.Materialised(old(connection.Answer(e)));
        view == (if m.Ok? then m.value else old(view)) && connection.log == old(connection.After(e))
      ensures view != old(view) ==>
        !connection.closed && |connection.log| > 0
        && connection.log[|connection.log| - 1] == Unbound(Query, BrowseText(columns, table))
    {
      var m := DbOps.ExecuteSelectQuery(connection, BrowseText(columns, table));
      if m.Ok? {
        view := m.value;
      }
    }

    /** btnInsert: a database in use and a selected table, then the insert prompt and a reload. */
    method OnInsert(selectedTable: Option<string>, answers: seq<Option<string>>)
      requires Valid()
      modifies this`view, connection
      ensures Valid()
      ensures currentDatabase.None? || selectedTable.None? ==> view == old(view) && connection.log == old(connection.log)
      ensures currentDatabase.Some? && selectedTable.Some? && !connection.closed ==>
        old(connection.log) + [TableOps.DescribeStatement(currentDatabase.value, selectedTable.value)] <= connection.log
    {
      if currentDatabase.None? || selectedTable.None? {
        return;
      }
      var r := TableOps.InsertRecordWithPrompt(connection, currentDatabase.value, selectedTable.value, answers);
      if r.Pass? {
        LoadTableData(selectedTable.value);
      }
    }

    /** btnCreate: a database in use, a table name and columns that are not blank, then createTable and a reload of the tables. */
    method OnCreate(tableName: Option<string>, columns: Option<string>)
      requires Valid()
      modifies this`tables, connection
      ensures Valid()
      ensures currentDatabase.None? || !Named(tableName) || !Named(columns) ==>
        tables == old(tables) && connection.log == old(connection.log)
      ensures currentDatabase.Some? && !IsBlank(currentDatabase.value) && Named(tableName) && Named(columns) && !connection.closed ==>
        old(connection.log) + [Unbound(Update, "CREATE TABLE " + (Escape(tableName.value) + (" (" + (columns.value + ")"))))]
          <= connection.log
    {
      if currentDatabase.None? {
        return;
      }
      if tableName.None? || IsBlank(tableName.value) {
        return;
      }
      if columns.None? || IsBlank(columns.value) {
        return;
      }
      var r := TableOps.CreateTable(connection, currentDatabase, tableName, columns);
      if r.Pass? {
        LoadTables(currentDatabase);
      }
    }

    /** btnDelete: a database in use, a selected table and a selected row, then the delete prompt and a reload. */
    method OnDelete(selectedTable: Option<string>, selectedRow: int, confirm: bool)
      requires Valid()
      modifies this`view, connection
      ensures Valid()
      ensures currentDatabase.None? || selectedTable.None? || selectedRow == -1 ==>
        view == old(view) && connection.log == old(connection.log)
      ensures currentDatabase.Some? && selectedTable.Some? && selectedRow != -1 && !connection.closed ==>
        old(connection.log) + [TableOps.DescribeStatement(currentDatabase.value, selectedTable.value)] <= connection.log
    {
      if currentDatabase.None? || selectedTable.None? || selectedRow == -1 {
        return;
      }
      var r := TableOps.DeleteRecordWithPrompt(connection, currentDatabase.value, selectedTable.value, view, selectedRow, confirm);
      if r.Pass? {
        LoadTableData(selectedTable.value);
      }
    }

    /** btnDrop: a database in use, a selected table and a confirmation, then dropTable and a reload of the tables. */
    method OnDrop(selectedTable: Option<string>, confirm: bool)
      requires Valid()
      modifies this`tables, connection
      ensures Valid()
      ensures currentDatabase.None? || selectedTable.None? || !confirm ==>
        tables == old(tables) && connection.log == old(connection.log)
      ensures currentDatabase.Some? && selectedTable.Some? && confirm && !connection.closed ==>
        old(connection.log) + [Unbound(Update, DropTableText(currentDatabase.value, selectedTable.value))] <= connection.log
    {
      if currentDatabase.None? || selectedTable.None? {
        return;
      }
      if confirm {
        var r := TableOps.DropTable(connection, currentDatabase.value, selectedTable.value);
        if r.Pass? {
          LoadTables(currentDatabase);
        }
      }
    }
  }
}
