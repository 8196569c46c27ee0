/**
 * What the core sees of JDBC and of the Swing table it reads cells from.
 *
 * A connection is an append-only log of the statements sent through it,
 * each with its kind (executeQuery, executeUpdate or execute), its text and
 * the values bound to its placeholders. What the server answers is left
 * abstract: a fixed function of the statements already sent and the one
 * being sent, which either returns a result set or refuses with a message.
 * A closed connection refuses everything before anything is sent.
 */
module Connections {
  import opened JavaText
  import opened Records

  /** Which Statement method sends the text. */
  datatype Kind = Query | Update | Execute

  /** One statement sent to the server, with setObject(i, v) for every bound slot i. */
  datatype Executed = Executed(kind: Kind, sql: string, params: map<int, Value>)

  /** Every row has one cell per column. */
  predicate Rectangular(labels: seq<string>, rows: seq<seq<Value>>) {
    forall i | 0 <= i < |rows| :: |rows[i]| == |labels|
  }

  /** A result set: the column labels of its metadata and its rows in cursor order. */
  datatype Rows = Rows(labels: seq<string>, rows: seq<seq<Value>>)

  type Cursor = c: Rows | Rectangular(c.labels, c.rows) witness Rows([], [])

  datatype Reply = Accepted(cursor: Cursor) | Refused(message: string)

  /** The server: its reply to a statement, given the statements sent before it. */
  type Server = (seq<Executed>, Executed) -> Reply

  const ClosedMessage: string := "No operations allowed after connection closed."

  /** A statement with no placeholders bound. */
  function Unbound(kind: Kind, sql: string): Executed {
    Executed(kind, sql, map[])
  }

  /** A server reply as the Java caller sees it: a result, or an SQLException. */
  function Received(reply: Reply): Result<Cursor> {
    match reply
    case Accepted(c) => Ok(c)
    case Refused(m) => Err(SqlError(m))
  }

  /** A result whose cursor is not used, as the outcome of a call that returns nothing. */
  function Done(r: Result<Cursor>): Outcome {
    if r.Ok? then Pass else Fail(r.error)
  }

  /** What sending `e` after the statements `log` yields: refused unsent when closed, else the server's reply. */
  function AnswerAfter(closed: bool, server: Server, log: seq<Executed>, e: Executed): Result<Cursor> {
    if closed then Err(SqlError(ClosedMessage)) else Received(server(log, e))
  }

  /** The log after sending `e`: a closed connection sends nothing. */
  function LogAfter(closed: bool, log: seq<Executed>, e: Executed): seq<Executed> {
    if closed then log else log + [e]
  }

  /**
   * A connection, open or closed for its whole life: closing is done by the
   * code that hands the connection over, never by the core.
   */
  class Connection {
    const closed: bool
    var log: seq<Executed>
    const server: Server

    constructor (server: Server, closed: bool)
      ensures this.closed == closed && log == [] && this.server == server
    {
      this.server := server;
      this.closed := closed;
      log := [];
    }

    /** isClosed() */
    predicate IsClosed()
      reads this
    {
      closed
    }

    /** What sending `e` now yields. */
    function Answer(e: Executed): Result<Cursor>
      reads this
    {
      AnswerAfter(closed, server, log, e)
    }

    /** The log after sending `e` now. */
    function After(e: Executed): seq<Executed>
      reads this
    {
      LogAfter(closed, log, e)
    }

    /** createStatement / prepareStatement followed by one execute call. */
    method Send(e: Executed) returns (r: Result<Cursor>)
      modifies this`log
      ensures r == old(Answer(e))
      ensures log == old(After(e))
    {
      if closed {
        r := Err(SqlError(ClosedMessage));
      } else {
        r := Received(server(log, e));
        log := log + [e];
      }
    }
  }

  // ---------------------------------------------------------------------
  // Positional binding: for (Object v : values) pstmt.setObject(paramIndex++, v)
  // ---------------------------------------------------------------------

  /**
   * Binds `values` one after the other from slot `start`, on top of the
   * slots already bound: the slots filled are exactly start .. start+|values|-1,
   * in order, and the index returned is the next free one.
   */
  method Bind(params: map<int, Value>, start: int, values: seq<Value>) returns (bound: map<int, Value>, next: int)
    ensures bound == params + Slots(values, start)
    ensures next == start + |values|
  {
    bound, next := params, start;
    var i := 0;
    while i < |values|
      invariant 0 <= i <= |values| && next == start + i
      invariant bound == params + Slots(values[..i], start)
    {
      SlotsAppend(values[..i], [values[i]], start);
      assert values[..i] + [values[i]] == values[..i + 1];
      assert Slots([values[i]], next) == map[next := values[i]];
      bound := bound[next := values[i]];
      next := next + 1;
      i := i + 1;
    }
    assert values[..i] == values;
  }

  // ---------------------------------------------------------------------
  // Reading cells
  // ---------------------------------------------------------------------

  /**
   * A non-null cell as text: Integer.toString, Boolean.toString, or the
   * string itself; getString reads a NULL cell as empty text here.
   */
  function Render(v: Value): (r: string)
    ensures v.Int? ==> ParseInt(r) == Some(v.i)
    ensures v.Text? ==> r == v.s
  {
    match v
    case Null => ""
    case Int(i) => ParseIntToString(i); IntToString(i)
    case Bool(b) => if b then "true" else "false"
    case Text(s) => s
  }

  const NoColumnMessage: string := "Column Index out of range, 0 > 0."

  /** One rs.getString(1) per row: the first cell of every row, in cursor order. */
  function FirstColumn(c: Cursor): (r: Result<seq<string>>)
    ensures r.Err? <==> c.rows != [] && c.labels == []
    ensures r.Ok? ==> |r.value| == |c.rows|
    ensures r.Ok? ==> forall i | 0 <= i < |c.rows| :: |c.rows[i]| > 0 && r.value[i] == Render(c.rows[i][0])
  {
    if c.rows != [] && c.labels == [] then Err(SqlError(NoColumnMessage))
    else Ok(seq(|c.rows|, i requires 0 <= i < |c.rows| => Render(c.rows[i][0])))
  }

  /** A row of DESCRIBE: the Field and Type cells. */
  datatype Column = Column(field: string, fieldType: string)

  /** The first position of `name` among `names`. */
  function IndexOf(names: seq<string>, name: string): (r: Option<nat>)
    ensures r.None? <==> name !in names
    ensures r.Some? ==> r.value < |names| && names[r.value] == name
    ensures r.Some? ==> name !in names[..r.value]
  {
    if names == [] then None
    else if names[0] == name then Some(0)
    else
      match IndexOf(names[1..], name)
      case None => None
      case Some(j) =>
        assert names[..j + 1] == [names[0]] + names[1..][..j];
        Some(j + 1)
  }

  function NoLabelMessage(name: string): string {
    "Column '" + name + "' not found."
  }

  /**
   * rs.getString("Field") and rs.getString("Type") on every row of a
   * DESCRIBE result: a missing label fails on the first row, so only when
   * there is a row.
   */
  function Describe(c: Cursor): (r: Result<seq<Column>>)
    ensures c.rows == [] ==> r == Ok([])
    ensures r.Err? <==> c.rows != [] && ("Field" !in c.labels || "Type" !in c.labels)
    ensures r.Ok? ==> |r.value| == |c.rows|
  {
    if c.rows == [] then Ok([])
    else
      match (IndexOf(c.labels, "Field"), IndexOf(c.labels, "Type"))
      case (None, _) => Err(SqlError(NoLabelMessage("Field")))
      case (_, None) => Err(SqlError(NoLabelMessage("Type")))
      case (Some(f), Some(t)) =>
        Ok(seq(|c.rows|, i requires 0 <= i < |c.rows| => Column(Render(c.rows[i][f]), Render(c.rows[i][t]))))
  }

  // ---------------------------------------------------------------------
  // DefaultTableModel, and the JTable that shows one
  // ---------------------------------------------------------------------

  datatype TableModel = TableModel(columnNames: seq<string>, rows: seq<seq<Value>>)

  /** A DefaultTableModel pads every row to the column count, so a table is always rectangular. */
  type Table = m: TableModel | Rectangular(m.columnNames, m.rows) witness TableModel([], [])

  /**
   * createTableModel / the body of executeSelectQuery: the column names in
   * metadata order 1..columnCount, then one row per cursor row, in cursor
   * order, each filled cell by cell into an array of columnCount cells.
   */
  method Materialise(c: Cursor) returns (m: Table)
    ensures m.columnNames == c.labels
    ensures m.rows == c.rows
  {
    var columnCount := |c.labels|;
    var columnNames := new string[columnCount](_ => "");
    for i := 0 to columnCount
      invariant forall k | 0 <= k < i :: columnNames[k] == c.labels[k]
    {
      columnNames[i] := c.labels[i];
    }
    var names := columnNames[..];
    assert names == c.labels;
    var rows: seq<seq<Value>> := [];
    for n := 0 to |c.rows|
      invariant rows == c.rows[..n]
    {
      var row := new Value[columnCount](_ => Null);
      for i := 0 to columnCount
        invariant forall k | 0 <= k < i :: row[k] == c.rows[n][k]
      {
        row[i] := c.rows[n][i];
      }
      assert row[..] == c.rows[n];
      rows := rows + [row[..]];
      assert c.rows[..n + 1] == c.rows[..n] + [c.rows[n]];
    }
    assert c.rows[..|c.rows|] == c.rows;
    m := TableModel(names, rows);
  }

  const NoIdentifierMessage: string := "Identifier not found"

  /** tblDB.getColumnModel().getColumnIndex(name): the first column with that name. */
  function ColumnIndex(view: Table, name: string): (r: Result<nat>)
    ensures r.Err? <==> name !in view.columnNames
    ensures r.Err? ==> r.error == IllegalArgument(NoIdentifierMessage)
    ensures r.Ok? ==> r.value < |view.columnNames| && view.columnNames[r.value] == name
  {
    match IndexOf(view.columnNames, name)
    case None => Err(IllegalArgument(NoIdentifierMessage))
    case Some(j) => Ok(j)
  }

  /** tblDB.getValueAt(row, column).toString(): no such row, or a null cell, throws. */
  function CellText(view: Table, row: int, column: nat): (r: Result<string>)
    requires column < |view.columnNames|
    ensures r.Err? <==> row < 0 || row >= |view.rows| || view.rows[row][column].Null?
    ensures (row < 0 || row >= |view.rows|) ==> r == Err(IndexOutOfBounds)
  {
    if row < 0 || row >= |view.rows| then Err(IndexOutOfBounds)
    else if view.rows[row][column].Null? then Err(NullPointer)
    else Ok(Render(view.rows[row][column]))
  }

  /** The text of the cell of `row` under the column named `name`. */
  function Cell(view: Table, row: int, name: string): Result<string> {
    match ColumnIndex(view, name)
    case Err(e) => Err(e)
    case Ok(j) => CellText(view, row, j)
  }

  /**
   * The cells of one table row under each described column, in order, or the
   * first failure.
   */
  function RowCells(view: Table, row: int, columns: seq<Column>): (r: Result<seq<string>>)
    ensures r.Ok? ==> |r.value| == |columns|
    decreases |columns|
  {
    if columns == [] then Ok([])
    else
      match RowCells(view, row, columns[..|columns| - 1])
      case Err(e) => Err(e)
      case Ok(cells) =>
        match Cell(view, row, columns[|columns| - 1].field)
        case Err(e) => Err(e)
        case Ok(v) => Ok(cells + [v])
  }

  /** A row read in full gives, under each column, the cell that column names. */
  lemma {:induction false} RowCellsAt(view: Table, row: int, columns: seq<Column>, i: nat)
    requires RowCells(view, row, columns).Ok? && i < |columns|
    ensures Cell(view, row, columns[i].field) == Ok(RowCells(view, row, columns).value[i])
    decreases |columns|
  {
    if i < |columns| - 1 {
      RowCellsAt(view, row, columns[..|columns| - 1], i);
    }
  }

  /** A row out of range fails on the first described column, whatever that column is. */
  lemma RowCellsOutOfRange(view: Table, row: int, columns: seq<Column>)
    requires row < 0 || row >= |view.rows|
    ensures RowCells(view, row, columns).Ok? <==> columns == []
  {
    if columns != [] {
      RowCellsFirstFails(view, row, columns);
    }
  }

  lemma {:induction false} RowCellsFirstFails(view: Table, row: int, columns: seq<Column>)
    requires columns != [] && Cell(view, row, columns[0].field).Err?
    ensures RowCells(view, row, columns).Err?
    decreases |columns|
  {
    if |columns| > 1 {
      assert columns[..|columns| - 1][0] == columns[0];
      RowCellsFirstFails(view, row, columns[..|columns| - 1]);
    }
  }
}
