# Simple Database Manager: the SQL layer, modelled in Dafny

Simple Database Manager is a desktop MySQL client written in Java and Swing.
This project models the layer underneath the window. That layer turns the table, columns and
values the user picks into SQL text and parameter lists, and sends them over one JDBC connection.

- `QueryBuilder` quotes identifiers with backticks and formats literal values.
  It builds the INSERT, UPDATE, SELECT, DELETE, CREATE TABLE and DROP TABLE texts.
- `TableOperations` validates its arguments. Its prompt-driven insert, update and delete flows
  walk the DESCRIBE rows of a table. They collect a data map, a conditions map or a WHERE text, then bind
  the values to the placeholders in the order the maps give them.
- `DatabaseOperations` lists databases and tables, materialises a result set into a table model,
  and sends the prepared INSERT and UPDATE and the concatenated DESCRIBE, SELECT, CREATE and DROP texts.
- `DatabaseManager`, the window, is modelled only as far as its rules go:
  - system databases are hidden from the list and the tree, in order;
  - a new database name must match `^[a-zA-Z0-9_]+$`;
  - `currentDatabase` changes only after a successful `USE`;
  - the update, select, insert, create, delete and drop handlers are guarded on it;
    update, insert, delete and drop also on a selected table, and update and delete also on a selected row.

The Dafny modules follow the program:

| module | what it holds |
|---|---|
| `JavaText` | null as `Option`, the exceptions as `Error`, and the library calls the code uses: `trim`, `isEmpty`, `replace`, `split(",")`, `contains`, `Integer.toString`, joining, the one regex |
| `SqlText` | `Marks(s)`: how a MySQL server reads the built text, as the list of back-quoted identifiers, quoted literals and `?` placeholders outside quotes |
| `Records` | `Map<String, Object>` as a sequence of entries with distinct keys. `put` replaces in place or appends, and `keySet()`/`values()` walk the same order |
| `QueryBuilder` | the builders, each as a function with its error cases, and lemmas that state what the server reads in each text |
| `Connections` | the JDBC connection as a class whose `log` records every statement sent, with its bound parameters; the server's answers are an abstract function of the log. Result sets are rectangular cursors; the JTable is a table model |
| `Statements` | the prepared INSERT and UPDATE with their binding loops, the concatenated texts, and the alignment of placeholders with slots |
| `TableOperations`, `DatabaseOperations` | the two Java classes, method by method; loops are `while` loops over the DESCRIBE rows with their invariants |
| `DatabaseManager` | the window's state (`currentDatabase`, the combo-box items, the tree, the table view) as a class, and the handlers |

The central result is **alignment**, proved for any map order:
- A prepared INSERT reads as `` `t` ``, then the columns in the map's order, then exactly one `?` per column.
- Slot j holds the value of the j-th column named.
- In an UPDATE, the data columns come first, each followed by its `?`, then the condition columns.
- The slots are exactly 1 .. |data| + |conditions|, with no gap where the second binding loop continues after the first.

The prompt flows are proved against functions of their inputs: `Collected`, `Conditions`, `RowCells` and `DeleteWhere`. Lemmas about those functions give the promised behaviour:
- only kept answers enter `data`, and nothing is sent when none is kept;
- every column's old value enters `conditions`;
- the WHERE text is the conditions joined by `" AND "`.

## Model

| member | source | states |
|---|---|---|
| `QueryBuilder.Escape` | src/helloswing/QueryBuilder.java:23-29 | The escaped name starts and ends with a backtick. A name without backticks comes out as `` "`" + name + "`" ``. Table and column names share this one function. |
| `QueryBuilder.EscapeCounts` | src/helloswing/QueryBuilder.java:24 | Every backtick in the name becomes two, plus the two enclosing ones: the length grows by the number of backticks plus 2, and the count of backticks becomes 2k + 2. |
| `QueryBuilder.EscapeReadsBack` | src/helloswing/QueryBuilder.java:24 | The server reads an escaped name, whatever it holds, as exactly that one identifier, and then reads on as it would without it. |
| `QueryBuilder.EscapeInjective` | src/helloswing/QueryBuilder.java:23-29 | Different names are escaped to different texts. |
| `QueryBuilder.FormatValue` | src/helloswing/QueryBuilder.java:10-21 | null, a number or a Boolean gives a bare token. Any other value gives a quoted string: the result starts with a quote exactly for text values. |
| `QueryBuilder.FormatValueReadsBack` | src/helloswing/QueryBuilder.java:10-21 | Reading the literal back recovers the value: `NULL`, an integer's digits, `true`/`false`, and the quoted text with `''` read as `'`. |
| `QueryBuilder.MarksFormatValue` | src/helloswing/QueryBuilder.java:20 | The server reads a formatted text value as one string literal holding the value, and a null, number or Boolean as no token. |
| `QueryBuilder.MarksEscapeAll` | src/helloswing/QueryBuilder.java:35-40 | A list of escaped names joined by a plain separator reads as those identifiers, in order. |
| `QueryBuilder.MarksPlaceholders` | src/helloswing/QueryBuilder.java:36-39 | n `?` joined by `", "` read as exactly n placeholders. |
| `QueryBuilder.MarksAssignments` | src/helloswing/QueryBuilder.java:49 | Each key's `` `k` = ? `` in the join reads as that identifier followed by one placeholder, in key order. |
| `QueryBuilder.MarksEqualities` | src/helloswing/QueryBuilder.java:67 | Each `` `k` = value `` in the join reads as that identifier followed by the value's literal, in entry order. |
| `QueryBuilder.PairsHoles` | src/helloswing/QueryBuilder.java:49-53 | n assignments carry exactly n placeholders. |
| `QueryBuilder.BuildInsertQuery` | src/helloswing/QueryBuilder.java:31-34 | Fails with the IllegalArgumentException exactly when the table is null or the data is null or empty. A blank table name is accepted. |
| `QueryBuilder.InsertQueryMarks` | src/helloswing/QueryBuilder.java:35-42 | The INSERT reads as the table, then the columns in map order, then one placeholder per entry. |
| `QueryBuilder.InsertQueryHoles` | src/helloswing/QueryBuilder.java:35-42 | The INSERT has exactly \|data\| placeholders. |
| `QueryBuilder.MarksInsertText` | src/helloswing/QueryBuilder.java:41 | The formatted `INSERT INTO t (cols) VALUES (?, ...)` reads as the table, the columns and the placeholders. |
| `QueryBuilder.BuildUpdateQuery` | src/helloswing/QueryBuilder.java:45-48 | Fails exactly as the INSERT builder does; the conditions may be null. |
| `QueryBuilder.MarksUpdateWhere` | src/helloswing/QueryBuilder.java:51-54 | The WHERE part is empty for no conditions. Otherwise it reads as each condition key followed by its placeholder. |
| `QueryBuilder.UpdateQueryMarks` | src/helloswing/QueryBuilder.java:45-55 | The UPDATE reads as the table, each data key with its `?`, then each condition key with its `?`. A null or empty condition map gives no WHERE. The placeholder count is \|data\| + \|conditions\|. |
| `QueryBuilder.MarksUpdateText` | src/helloswing/QueryBuilder.java:49-54 | The text `UPDATE t SET ... WHERE ...` reads as the table followed by the two assignment lists. |
| `QueryBuilder.BuildSelectQuery` | src/helloswing/QueryBuilder.java:58-61 | Fails with the IllegalArgumentException exactly on a null or blank table. With a table, a null column string throws NullPointerException at `split`. |
| `QueryBuilder.SelectQueryMarks` | src/helloswing/QueryBuilder.java:62-70 | The SELECT reads as each split-and-trimmed column piece, escaped, then the table, then each condition's identifier and literal. It has no placeholders and no WHERE for null or empty conditions. |
| `QueryBuilder.MarksSelectText` | src/helloswing/QueryBuilder.java:64-69 | The assembled SELECT text reads as the columns, the table and the conditions, in that order. |
| `QueryBuilder.SelectStar` | src/helloswing/QueryBuilder.java:63-65 | A `*` column list is escaped like a name: ``SELECT `*` FROM `t` ``. |
| `QueryBuilder.BuildDeleteQuery` | src/helloswing/QueryBuilder.java:73-76 | Fails exactly on a null or blank table. |
| `QueryBuilder.DeleteQueryMarks` | src/helloswing/QueryBuilder.java:77-81 | The DELETE reads as the table and then exactly what the WHERE text reads as, appended verbatim only when non-blank. Otherwise it is ``DELETE FROM `t` `` with no condition. |
| `QueryBuilder.BuildCreateTableQuery` | src/helloswing/QueryBuilder.java:84-90 | Fails exactly on a blank table name or blank columns, with the table's error first. |
| `QueryBuilder.CreateTableQueryMarks` | src/helloswing/QueryBuilder.java:91 | The CREATE TABLE reads as the table and then whatever the column text, copied verbatim, reads as. |
| `QueryBuilder.BuildDropTableQuery` | src/helloswing/QueryBuilder.java:94-97 | Fails exactly on a null or blank name. |
| `QueryBuilder.DropTableQueryMarks` | src/helloswing/QueryBuilder.java:98 | The DROP TABLE reads as exactly the one table. |
| `JavaText.Trim` | src/helloswing/QueryBuilder.java:59 | `trim()` is empty exactly when every character is at most U+0020. What is left starts and ends with a non-blank character. |
| `JavaText.TrimIsInfix` | src/helloswing/QueryBuilder.java:64 | `trim()` cuts only blanks, and only at the two ends: the result is a slice of the input with blanks on either side. |
| `JavaText.Doubled` | src/helloswing/QueryBuilder.java:20 | `replace(c, cc)` leaves a string without `c` unchanged. |
| `JavaText.DoubledCounts` | src/helloswing/QueryBuilder.java:20 | `replace(c, cc)` adds one character per occurrence of `c` and doubles its count. |
| `JavaText.SplitAllJoin` | src/helloswing/QueryBuilder.java:63 | The comma pieces joined back with `,` give the input. |
| `JavaText.SplitAllCount` | src/helloswing/QueryBuilder.java:63 | There is one piece more than there are commas. |
| `JavaText.SplitPieces` | src/helloswing/QueryBuilder.java:63 | `split(",")` gives the comma pieces with the trailing empty ones dropped; a string without a comma is its only piece. |
| `JavaText.IntToString` | src/helloswing/QueryBuilder.java:14-15 | `Integer.toString` gives a non-empty text of digits and a minus sign. |
| `JavaText.SplitAll` | src/helloswing/QueryBuilder.java:63 | Cutting at every comma gives at least one piece, and no piece holds a comma. |
| `JavaText.Split` | src/helloswing/QueryBuilder.java:63 | `split(",")` gives comma-free pieces, at most one per comma-separated piece of the input. |
| `JavaText.ParseIntToString` | src/helloswing/QueryBuilder.java:14-15 | `Integer.toString` is read back as the same integer. |
| `JavaText.Contains` | src/helloswing/TableOperations.java:103 | `contains` holds only when the part fits in the text, and always for the empty part. |
| `JavaText.MatchesWordPattern` | src/helloswing/DatabaseManager.java:558-560 | A name matching `^[a-zA-Z0-9_]+$` is non-empty and holds no quote, backtick or space. |
| `SqlText.LexDoubled` | src/helloswing/QueryBuilder.java:24 | After an opening quote, a body with every quote doubled and one closing quote is read as the original body, and the token ends exactly at the closing quote. |
| `SqlText.MarksQuoted` | src/helloswing/QueryBuilder.java:20 | A quoted, quote-doubled text is read as one token holding the text. |
| `SqlText.MarksPlainSuffix` | src/helloswing/QueryBuilder.java:91 | Text with no quotes and no `?`, appended after anything, is read as nothing. |
| `Records.Put` | src/helloswing/TableOperations.java:64 | `put` maps the key to the new value and changes no other key. An existing key keeps its place in the order; a new key is appended. |
| `Records.Lookup` | src/helloswing/TableOperations.java:57 | The mapping the `HashMap` holds, its content apart from order: a key has a value exactly when it is in `keySet()`, and that value is the key's entry. |
| `Records.PutDistinct` | src/helloswing/TableOperations.java:130-132 | Keys stay distinct across `put`. |
| `Records.LookupAt` | src/helloswing/TableOperations.java:47 | With distinct keys, the j-th key of `keySet()` maps to the j-th value of `values()`. |
| `Records.SlotsAt` | src/helloswing/TableOperations.java:46-49 | Binding from index `start` fills exactly slots start .. start + n - 1, slot j with value j - start. |
| `Records.SlotsAppend` | src/helloswing/TableOperations.java:137-143 | Two binding loops in a row, the second starting where the first stopped, bind what one loop over both lists binds. |
| `Connections.Connection.Send` | src/helloswing/DatabaseOperations.java:23-24 | A statement is refused unsent on a closed connection. Otherwise it is appended to the log and answered by the server given what came before. |
| `Connections.Connection.constructor` | src/helloswing/ConnectSQL.java:13 | The connection `DriverManager.getConnection` returns starts with nothing sent, and stays open or closed for its whole life. |
| `Connections.Bind` | src/helloswing/TableOperations.java:46-49 | The `paramIndex++` loop binds value i at slot start + i and returns the next free index. |
| `Connections.Materialise` | src/helloswing/TableOperations.java:174-190 | The table model has the metadata's column names in order and one row per cursor row, in cursor order, cell for cell. |
| `Connections.FirstColumn` | src/helloswing/DatabaseOperations.java:51-53 | One name per row, the first column's text, in cursor order, no filtering. It fails only if there are rows but no column. |
| `Connections.Render` | src/helloswing/DatabaseOperations.java:52 | `getString`/`toString` of a cell: an integer's text parses back to the integer, and a text cell is its own text. |
| `Connections.Describe` | src/helloswing/TableOperations.java:58-60 | One column descriptor per DESCRIBE row. It fails exactly when there is a row and the `Field` or `Type` label is missing. |
| `Connections.ColumnIndex` | src/helloswing/TableOperations.java:97 | `getColumnIndex` finds the column of that name, and throws exactly when there is none. |
| `Connections.IndexOf` | src/helloswing/TableOperations.java:97 | The first index holding the name, and none exactly when the name is absent. |
| `Connections.CellText` | src/helloswing/TableOperations.java:98 | `getValueAt(row, col).toString()` throws exactly for a row out of range or a null cell. |
| `Connections.RowCellsAt` | src/helloswing/TableOperations.java:94-98 | When the row read succeeds, its i-th cell is the cell of the i-th described column. |
| `Connections.RowCells` | src/helloswing/TableOperations.java:94-98 | Reading a row, column by column in DESCRIBE order, gives one cell per column or the first failure. |
| `Connections.RowCellsOutOfRange` | src/helloswing/TableOperations.java:98 | With no selected row in range, the read succeeds only for a table with no columns. |
| `Connections.RowCellsFirstFails` | src/helloswing/TableOperations.java:94-98 | A failing first column makes the whole read fail. |
| `Statements.PrepareInsert` | src/helloswing/TableOperations.java:68-74 | Prepares the INSERT of `buildInsertQuery` and binds `data.values()` from slot 1. |
| `Statements.SlotsRange` | src/helloswing/TableOperations.java:46-49 | Binding from slot 1 fills exactly slots 1 .. n, slot j + 1 with the j-th value. |
| `Statements.PrepareUpdate` | src/helloswing/TableOperations.java:135-144 | Prepares the UPDATE and binds `data.values()` from slot 1, then `conditions.values()` from where that stopped. |
| `Statements.InsertAligned` | src/helloswing/TableOperations.java:44-50 | The INSERT names the columns in map order, with exactly \|data\| placeholders and slots 1 .. \|data\|. Slot j holds the map's value for the j-th column named. |
| `Statements.UpdateAligned` | src/helloswing/DatabaseOperations.java:126-135 | The UPDATE reads as the data columns, then the condition columns, each followed by its `?`. Slots are exactly 1 .. \|data\| + \|conditions\|. Slot j holds the j-th data value and slot \|data\| + j the j-th condition value. |
| `Statements.TablesAligned` | src/helloswing/DatabaseOperations.java:60-62 | The tables query has one placeholder, and `setString(1, database)` fills exactly that slot. |
| `Statements.VerbatimMarks` | src/helloswing/DatabaseOperations.java:72-95 | DESCRIBE, `SELECT * FROM`, DROP TABLE, CREATE DATABASE and CREATE TABLE by concatenation read exactly as the caller's strings do. Nothing in them is quoted. |
| `Statements.DropTableUnescaped` | src/helloswing/DatabaseOperations.java:90-95 | For plain names, the concatenated DROP TABLE reads as no identifier at all. `buildDropTableQuery` reads as the one table. |
| `TableOperations.ValidateConnection` | src/helloswing/TableOperations.java:18-22 | Throws "Invalid or closed database connection" exactly on a null or closed connection. |
| `TableOperations.ValidateInput` | src/helloswing/TableOperations.java:24-28 | A failure carries "`field` cannot be null or empty". |
| `TableOperations.ValidateInputPasses` | src/helloswing/TableOperations.java:24-28 | A string passes exactly when non-null and not blank. A map passes whenever non-null, even when empty. |
| `TableOperations.Then` | src/helloswing/TableOperations.java:41-43 | A chain of checks passes exactly when every one does; the first failure is reported. |
| `TableOperations.ExecuteQuery` | src/helloswing/TableOperations.java:30-38 | Both checks come first and send nothing on failure. Then the query is sent and its result returned. |
| `TableOperations.InsertRecord` | src/helloswing/TableOperations.java:40-52 | All three checks run before anything is prepared. An empty map passes them and is rejected by the builder. Otherwise the aligned INSERT is sent. |
| `TableOperations.DeleteRecord` | src/helloswing/TableOperations.java:79-87 | The checks come first. The DELETE sent is the builder's, with the non-blank WHERE text appended. |
| `TableOperations.CreateTable` | src/helloswing/TableOperations.java:155-164 | The connection check and the three input checks come first, in order. Then the escaped CREATE TABLE is sent. |
| `TableOperations.GetTableData` | src/helloswing/TableOperations.java:166-172 | The checks, then ``SELECT `*` FROM `t` `` through executeQuery. The database is validated but not used. |
| `TableOperations.CollectAnswers` | src/helloswing/TableOperations.java:57-66 | The data.put loop builds `Collected`: every kept answer, keyed by its column. |
| `TableOperations.CollectedEmpty` | src/helloswing/TableOperations.java:63-67 | The map is empty exactly when no answer was kept, that is, none is both non-null and non-blank. |
| `TableOperations.CollectedLookup` | src/helloswing/TableOperations.java:63-65 | With distinct column names, a column maps to its answer exactly when that answer is kept. A name not described is absent. |
| `TableOperations.CollectedDistinct` | src/helloswing/TableOperations.java:63-65 | The collected map has distinct keys. |
| `TableOperations.ConditionsAll` | src/helloswing/TableOperations.java:121-133 | With each column described once, `conditions` has one entry per described column and no other key. Each column's name maps to the old value of its cell, answered or not. No claim is made about the order of the entries. |
| `TableOperations.ConditionsDistinct` | src/helloswing/TableOperations.java:132 | The conditions map has distinct keys, so each column's old value is bound once. |
| `TableOperations.CollectUpdate` | src/helloswing/TableOperations.java:122-133 | The loop of updateRecordWithPrompt gives `Collected` and `Conditions` of the row's cells, or the first failed cell read. |
| `TableOperations.WhereClause` | src/helloswing/TableOperations.java:92-109 | The delete loop builds `` `col`='value' `` for every column, joined by `" AND "`, with no leading separator, or fails with the first failed cell read. Both branches of the char/text/date test give the same text. |
| `TableOperations.WhereStep` | src/helloswing/TableOperations.java:99-108 | One iteration appends " AND " unless it is the first, then the next condition. |
| `TableOperations.MarksDeleteWhere` | src/helloswing/TableOperations.java:102-107 | When no name holds a backtick and no value a single quote, the WHERE text reads as each column's identifier followed by its old value as a literal. |
| `TableOperations.DeleteValueBreaksOut` | src/helloswing/TableOperations.java:102-107 | Values are embedded unescaped. A single quote in an old value changes what the server reads. |
| `TableOperations.PromptInsertAligned` | src/helloswing/TableOperations.java:67-75 | The prompted INSERT has one placeholder per kept answer and binds exactly those slots. |
| `TableOperations.PromptUpdateAligned` | src/helloswing/TableOperations.java:134-144 | The prompted UPDATE has \|data\| + \|columns\| placeholders and exactly that many slots. Slot \|data\| + j + 1 holds the value `conditions` maps its j-th key to, for whatever order `keySet()` and `values()` share; by `ConditionsAll`, that is the old cell of the column of that name. |
| `TableOperations.InsertRecordWithPrompt` | src/helloswing/TableOperations.java:54-77 | DESCRIBE first, with no check of the connection. Nothing more is sent when the description fails or no answer is kept. Otherwise exactly the INSERT of the collected map is sent. |
| `TableOperations.UpdateRecordWithPrompt` | src/helloswing/TableOperations.java:117-147 | DESCRIBE, then the row's cells. Nothing more is sent on a failed read or when `data` is empty. Otherwise exactly the UPDATE of the two maps is sent. |
| `TableOperations.DeleteRecordWithPrompt` | src/helloswing/TableOperations.java:89-115 | DESCRIBE, then the WHERE text from the row's cells. `DELETE FROM table WHERE ...`, with the table unescaped, is sent only when the confirmation is YES. |
| `TableOperations.DropTable` | src/helloswing/TableOperations.java:149-153 | Sends `DROP TABLE database.table` by concatenation. |
| `DatabaseOperations.ExecuteSelectQuery` | src/helloswing/DatabaseOperations.java:22-40 | Sends the query with no check, and materialises its result in metadata and cursor order. |
| `DatabaseOperations.SelectRecords` | src/helloswing/DatabaseOperations.java:42-45 | Exactly `executeSelectQuery(buildSelectQuery(...))`: the builder's errors come first and send nothing. |
| `DatabaseOperations.FirstCells` | src/helloswing/DatabaseOperations.java:51-53 | The `rs.next()` loop collects `FirstColumn`: one name per row, in order. |
| `DatabaseOperations.GetDatabases` | src/helloswing/DatabaseOperations.java:47-56 | Sends SHOW DATABASES and returns its first column, unfiltered. |
| `DatabaseOperations.GetTables` | src/helloswing/DatabaseOperations.java:58-70 | Sends the information_schema query with the schema bound as parameter 1 (NULL for null), and returns its first column. |
| `DatabaseOperations.GetTableData` | src/helloswing/DatabaseOperations.java:72-76 | Sends `"SELECT * FROM " + db + "." + t` and returns its cursor. |
| `DatabaseOperations.CreateDatabase` | src/helloswing/DatabaseOperations.java:78-82 | Sends `"CREATE DATABASE " + name`. |
| `DatabaseOperations.CreateTable` | src/helloswing/DatabaseOperations.java:84-88 | Sends `"CREATE TABLE " + name + " (" + columns + ")"`. |
| `DatabaseOperations.DropTable` | src/helloswing/DatabaseOperations.java:90-95 | Sends `"DROP TABLE " + db + "." + t`. |
| `DatabaseOperations.InsertRecord` | src/helloswing/DatabaseOperations.java:114-123 | The builder's rejection comes before the connection is touched. Then the aligned INSERT is sent. |
| `DatabaseOperations.UpdateRecord` | src/helloswing/DatabaseOperations.java:125-137 | The order of failure is the builder, a NullPointerException for a null connection, `prepareStatement` on a closed connection, then null conditions at `values()` with nothing sent. Otherwise the aligned UPDATE is sent. |
| `DatabaseOperations.DeleteRecord` | src/helloswing/DatabaseOperations.java:139-144 | Sends exactly the text of `buildDeleteQuery(table, where)`. |
| `DatabaseOperations.RunUpdate` | src/helloswing/DatabaseOperations.java:78-82 | `executeUpdate` on a statement with no parameters: NullPointerException for a null connection, otherwise the statement is sent and its outcome returned. |
| `DatabaseManager.VisibleMembers` | src/helloswing/DatabaseConstants.java:48-50 | A database is shown exactly when it is listed and is none of information_schema, mysql, performance_schema or sys. |
| `DatabaseManager.VisibleDatabases` | src/helloswing/DatabaseManager.java:52-54 | The filtered list is no longer than the listed one and holds no system database. |
| `DatabaseManager.VisibleOrder` | src/helloswing/DatabaseManager.java:52-54 | Two shown databases keep their relative order. |
| `DatabaseManager.VisibleAppend` | src/helloswing/DatabaseManager.java:52-54 | The filter works element by element: filtering a concatenation concatenates the filtered parts. |
| `DatabaseManager.VisibleIdentity` | src/helloswing/DatabaseManager.java:52-54 | The list is shown unchanged exactly when it holds no system database. |
| `DatabaseManager.VisibleUser` | src/helloswing/DatabaseManager.java:52-54 | A list holding no system database is shown unchanged. |
| `DatabaseManager.NameAcceptedIff` | src/helloswing/DatabaseManager.java:558-560 | A new name is accepted exactly when it is non-null and matches `^[a-zA-Z0-9_]+$`; the blank test adds nothing. |
| `DatabaseManager.NameAccepted` | src/helloswing/DatabaseManager.java:558-560 | An accepted name is present and non-empty. |
| `DatabaseManager.AcceptedNamePlain` | src/helloswing/DatabaseManager.java:558-565 | An accepted name holds no quote and no `?`, so the unescaped CREATE DATABASE reads it as a bare word. |
| `DatabaseManager.TreeWalkShape` | src/helloswing/DatabaseManager.java:127-135 | The tree's databases are the filtered list, in order, or a prefix of it when a getTables call throws. It holds no system database. It sends one tables query per shown database, in order, and nothing on a closed connection. |
| `DatabaseManager.TreeWalk` | src/helloswing/DatabaseManager.java:127-135 | A walk that stops on a failing getTables has built at least one node; `TreeWalkChildren` states that the last one is the failing database. |
| `DatabaseManager.TreeWalkChildren` | src/helloswing/DatabaseManager.java:127-135 | On an open connection the k-th node is the k-th shown database, and its children are exactly the tables the tables query for it returned, in order, that query being sent after those for the databases before it. Unless a getTables call throws, every shown database has its node; when one throws, the last node is that database, with no children. |
| `DatabaseManager.TreeWalkStops` | src/helloswing/DatabaseManager.java:125-139 | Once a getTables call throws, the rest of the list is not visited. |
| `DatabaseManager.TablesStatements` | src/helloswing/DatabaseManager.java:127-135 | One tables query per database walked. |
| `DatabaseManager.LoadedTablesSends` | src/helloswing/DatabaseManager.java:64-82 | A null or blank database sends nothing and empties the list. Otherwise exactly the tables query is sent. |
| `DatabaseManager.Manager.constructor` | src/helloswing/DatabaseManager.java:29-46 | Starts with no database in use and runs loadDatabases then loadDatabaseTree. SHOW DATABASES is the first statement sent. |
| `DatabaseManager.Manager.LoadDatabases` | src/helloswing/DatabaseManager.java:48-62 | The combo box becomes the filtered list on success and is kept on failure. |
| `DatabaseManager.Manager.LoadTables` | src/helloswing/DatabaseManager.java:64-82 | The table list and the log become what `LoadedTables` gives. |
| `DatabaseManager.Manager.ListTables` | src/helloswing/DatabaseManager.java:84-98 | An empty list for a null or blank database, with nothing sent. Otherwise getTables' result or exception. |
| `DatabaseManager.Manager.LoadTableData` | src/helloswing/DatabaseManager.java:100-121 | With no database in use nothing happens. Otherwise the table's data replaces the view on success. |
| `DatabaseManager.Manager.LoadDatabaseTree` | src/helloswing/DatabaseManager.java:123-141 | The tree is empty when the listing fails. Otherwise it is what the walk over the listed databases builds, kept even when the walk stops early. |
| `DatabaseManager.Manager.HandleDatabaseSelection` | src/helloswing/DatabaseManager.java:143-157 | `currentDatabase` changes only when `USE` succeeds, and then to the selected name. A null or empty name, or a failed `USE`, leaves it and the table list unchanged. |
| `DatabaseManager.Manager.OnNew` | src/helloswing/DatabaseManager.java:556-574 | A name that is not accepted sends nothing. An accepted one sends `CREATE DATABASE`. |
| `DatabaseManager.Manager.OnUpdate` | src/helloswing/DatabaseManager.java:576-602 | Nothing happens without a database, a table and a selected row. Otherwise the DESCRIBE of the update flow is sent first. |
| `DatabaseManager.Manager.OnSelect` | src/helloswing/DatabaseManager.java:631-664 | Nothing happens without a database. The view changes only through the browse query of a non-blank table and column list. |
| `DatabaseManager.Manager.Browse` | src/helloswing/DatabaseManager.java:652-658 | Sends `"SELECT " + columns + " FROM " + escapeTableName(table)` and shows its result when it succeeds. |
| `DatabaseManager.Manager.OnInsert` | src/helloswing/DatabaseManager.java:666-685 | Nothing happens without a database and a table. Otherwise the DESCRIBE of the insert flow is sent first. |
| `DatabaseManager.Manager.OnCreate` | src/helloswing/DatabaseManager.java:687-712 | Nothing happens without a database and a non-blank name and column list. Otherwise the escaped CREATE TABLE is sent. |
| `DatabaseManager.Manager.OnDelete` | src/helloswing/DatabaseManager.java:714-738 | Nothing happens without a database, a table and a selected row. Otherwise the DESCRIBE of the delete flow is sent first. |
| `DatabaseManager.Manager.OnDrop` | src/helloswing/DatabaseManager.java:740-762 | Nothing is sent without a database, a table and a YES. Otherwise `DROP TABLE db.t` is sent. |

## Left out

- The window itself is not modelled: Swing components, listeners, dialogs, status logging and `showTables`/`closeDatabase`, which write to a text document. Dialog answers and confirmations are inputs: one optional string per DESCRIBE row, and a boolean.
- Apart from the connection `DriverManager.getConnection` returns (`Connections.Connection.constructor`), `ConnectSQL.java` is not part of this model: driver loading, the URL, the credentials and the network are left out. The connection is given, open or closed for its whole life; closing it is not modelled.
- The server is abstract: a function from the statements already sent and the one being sent to a result set or a refusal. SQL is not executed.
- Closing `Statement`/`ResultSet` objects and the scroll-insensitive, read-only cursor flags are left out; they change nothing the core computes.
- `HashMap` iteration order is not modelled. A map is a sequence of distinct-key entries that `keySet()` and `values()` walk in one shared order. The alignment lemmas (`InsertAligned`, `UpdateAligned`, `PromptInsertAligned`, `PromptUpdateAligned`) and the map lemmas (`CollectedLookup`, `ConditionsAll`) are stated through `Keys` and `Lookup` and hold for any such order.
- `Records.Put`: places a new key last, where Java's `HashMap` places it by its hash. The exact text and slots of the statements the prompt flows send follow this order; the lemmas named above do not depend on it.
- Floating-point numbers are left out of `Value` (null, integer, Boolean, text). Any other object is text through its `toString`.
- `setObject`'s conversions are not modelled: a slot holds a `Value`.
- The lexer follows the quote-doubling rule only. MySQL's default mode also reads a backslash escape inside literals, which `formatValue` does not guard against.
- A SQL NULL read with `getString` is rendered as the empty string rather than as Java null.
- Concatenating a Java null into a text (`"USE " + null`) is not modelled, because callers never pass one: the table combo box is guarded, and `currentDatabase` is never null where it is used.
- A null connection handed to the window is not modelled. `TableOperations` and `DatabaseOperations` methods take `Connection?` and model the NullPointerException of a null one.
- Runtime exceptions that escape a handler (a missing column in the JTable, a row out of range) end that handler. The model returns the error and applies no later statement.
- The `isLogin == false` branch of the constructor, which opens the login window, is not modelled.
- The selection cascade is not modelled. The first `comboboxDB.addItem` in `loadDatabases` (DatabaseManager.java:54) selects that item. Its listener then runs `handleDatabaseSelection` on the first shown database. The model starts with no database in use, and `currentDatabase` changes only through `HandleDatabaseSelection`.
- The combo box of the window passes its own connection to `insertRecordWithPrompt`. The Java call at DatabaseManager.java:677 has three arguments while the method takes four; the model passes the window's connection as the first.
- `deleteRecordWithPrompt`, `dropTable` and `createTable` of TableOperations use the connection the object holds. The model passes that connection as a parameter, the same one the window holds.
- Converting JTable view columns to model columns is left out: the view is the model.
- `DatabaseManager.Manager.OnUpdate`: states the guards and that the DESCRIBE is the first statement sent, not every later statement (the update and the reload), since those follow from `TableOperations.UpdateRecordWithPrompt` and `LoadTableData`.
- `DatabaseManager.Manager.OnInsert`: states the guards and the first statement sent, not the full log, for the same reason.
- `DatabaseManager.Manager.OnDelete`: states the guards and the first statement sent, not the full log, for the same reason.
- `DatabaseManager.Manager.OnCreate`: states the guards and the CREATE TABLE sent, not the table list reloaded after it.
- `DatabaseManager.Manager.OnDrop`: states the guards and the DROP TABLE sent, not the table list reloaded after it.
- `DatabaseManager.Manager.OnNew`: states the guard and the CREATE DATABASE sent, not the database list reloaded after it.
- `DatabaseManager.Manager.OnSelect`: states the guard, the tables query and that only the browse query changes the view. The table-and-columns dialog is an input.
- `DatabaseManager.Manager.constructor`: states that SHOW DATABASES is sent first and the invariant holds, not the full log of the two loads.
