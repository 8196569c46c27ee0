/**
 * QueryBuilder: the SQL text of INSERT, UPDATE, SELECT, DELETE, CREATE TABLE
 * and DROP TABLE statements for any table and columns, with identifiers
 * quoted in backticks and values either left to `?` placeholders or embedded
 * as SQL literals.
 *
 * Every builder is total: a rejected argument is an `Err`, standing for the
 * exception the Java method throws. What each statement says is stated
 * through `Marks` (SqlText): the identifiers, literals and placeholders a
 * MySQL server reads in it, in order.
 */
module QueryBuilder {
  import opened JavaText
  import opened SqlText
  import opened Records

  const NullOrEmptyData: string := "Table name and data cannot be null or empty"
  const NullOrEmptyTable: string := "Table name cannot be null or empty"
  const NullOrEmptyColumns: string := "Columns cannot be null or empty"

  // ---------------------------------------------------------------------
  // Identifiers and literals
  // ---------------------------------------------------------------------

  /**
   * escapeTableName(t) and escapeColumnName(c), whose bodies are the same:
   * each backtick doubled and the whole wrapped in backticks.
   */
  function Escape(name: string): (r: string)
    ensures |r| >= 2 && r[0] == '`' && r[|r| - 1] == '`'
    ensures '`' !in name ==> r == "`" + name + "`"
  {
    Quoted(name, '`')
  }

  /** Each backtick of the name turns into two, and two more enclose it. */
  lemma EscapeCounts(name: string)
    ensures |Escape(name)| == |name| + Occurrences(name, '`') + 2
    ensures Occurrences(Escape(name), '`') == 2 * Occurrences(name, '`') + 2
  {
    DoubledCounts(name, '`');
    assert multiset(Escape(name)) == multiset("`") + multiset(Doubled(name, '`')) + multiset("`");
  }

  /** The server reads an escaped name as exactly that identifier. */
  lemma EscapeReadsBack(name: string, rest: string)
    requires Safe(rest)
    ensures Marks(Escape(name) + rest) == [Id(name)] + Marks(rest)
  {
    MarksQuoted(name, '`', rest);
  }

  /** Different names never escape to the same text. */
  lemma EscapeInjective(a: string, b: string)
    ensures Escape(a) == Escape(b) ==> a == b
  {
    EscapeReadsBack(a, []);
    EscapeReadsBack(b, []);
    assert Escape(a) + [] == Escape(a) && Escape(b) + [] == Escape(b);
    if Escape(a) == Escape(b) {
      assert [Id(a)] + Marks([]) == [Id(b)] + Marks([]);
      assert Id(a) == ([Id(a)] + Marks([]))[0];
    }
  }

  /** formatValue: the SQL literal a value is embedded as. */
  function FormatValue(v: Value): (r: string)
    ensures |r| > 0
    ensures IsQuote(r[0]) <==> v.Text?
  {
    match v
    case Null => "NULL"
    case Int(i) => IntToString(i)
    case Bool(b) => if b then "true" else "false"
    case Text(s) => Quoted(s, '\'')
  }

  /** How a server reads back one literal written by FormatValue. */
  function ReadLiteral(t: string): Option<Value> {
    if t == "NULL" then Some(Null)
    else if t == "true" then Some(Bool(true))
    else if t == "false" then Some(Bool(false))
    else if |t| > 0 && t[0] == '\'' then
      match Lex(t[1..], '\'')
      case Some(p) => if 1 + p.1 == |t| then Some(Text(p.0)) else None
      case None => None
    else
      match ParseInt(t)
      case Some(i) => Some(Int(i))
      case None => None
  }

  /** Reading a formatted literal gives back the value: nothing is lost or confused. */
  lemma FormatValueReadsBack(v: Value)
    ensures ReadLiteral(FormatValue(v)) == Some(v)
  {
    var t := FormatValue(v);
    match v
    case Null =>
    case Bool(b) =>
    case Int(i) =>
      assert t[0] == '-' || IsDigit(t[0]);
      assert t != "NULL" && t != "true" && t != "false" by {
        assert t[0] != 'N' && t[0] != 't' && t[0] != 'f';
      }
      ParseIntToString(i);
    case Text(s) =>
      assert t[1..] == Doubled(s, '\'') + ['\''] + [];
      LexDoubled(s, '\'', []);
  }

  /** The marks a value's literal contributes: one string literal for text, none otherwise. */
  function ValueMarks(v: Value): seq<Mark> {
    if v.Text? then [Lit(v.s)] else []
  }

  /** A literal is read as its value's marks and ends cleanly before what follows. */
  lemma MarksFormatValue(v: Value, rest: string)
    requires Safe(rest)
    ensures Marks(FormatValue(v) + rest) == ValueMarks(v) + Marks(rest)
  {
    match v
    case Text(s) => MarksQuoted(s, '\'', rest);
    case Int(i) =>
      var t := IntToString(i);
      assert Plain(t) by {
        forall k | 0 <= k < |t| ensures !IsQuote(t[k]) && t[k] != '?' {
          assert IsDigit(t[k]) || t[k] == '-';
        }
      }
      MarksPlain(t, rest);
    case Null =>
      LiteralWords();
      MarksPlain("NULL", rest);
    case Bool(b) =>
      LiteralWords();
      MarksPlain(if b then "true" else "false", rest);
  }

  // ---------------------------------------------------------------------
  // The pieces the builders join
  // ---------------------------------------------------------------------

  /** Each name escaped (the `map(escapeColumnName)` of the streams). */
  function EscapeAll(names: seq<string>): (r: seq<string>)
    ensures |r| == |names|
  {
    if names == [] then [] else [Escape(names[0])] + EscapeAll(names[1..])
  }

  /** `n` placeholders. */
  function Placeholders(n: nat): (r: seq<string>)
    ensures |r| == n
  {
    if n == 0 then [] else ["?"] + Placeholders(n - 1)
  }

  /** "`k` = ?" for each key. */
  function Assignments(keys: seq<string>): (r: seq<string>)
    ensures |r| == |keys|
  {
    if keys == [] then [] else [Escape(keys[0]) + " = ?"] + Assignments(keys[1..])
  }

  /** "`k` = literal": one condition of a SELECT. */
  function Equality(e: Entry): string {
    Escape(e.key) + (" = " + FormatValue(e.value))
  }

  /** The conditions of a SELECT, one per entry. */
  function Equalities(r: Record): (r': seq<string>)
    ensures |r'| == |r|
  {
    if r == [] then [] else [Equality(r[0])] + Equalities(r[1..])
  }

  /** Each piece trimmed. */
  function TrimAll(parts: seq<string>): (r: seq<string>)
    ensures |r| == |parts|
  {
    if parts == [] then [] else [Trim(parts[0])] + TrimAll(parts[1..])
  }

  function Ids(names: seq<string>): seq<Mark> {
    if names == [] then [] else [Id(names[0])] + Ids(names[1..])
  }

  function Holes(n: nat): seq<Mark> {
    if n == 0 then [] else [Hole] + Holes(n - 1)
  }

  /** Each key's identifier followed by its placeholder. */
  function Pairs(keys: seq<string>): seq<Mark> {
    if keys == [] then [] else [Id(keys[0]), Hole] + Pairs(keys[1..])
  }

  function EqualityMarks(r: Record): seq<Mark> {
    if r == [] then [] else [Id(r[0].key)] + ValueMarks(r[0].value) + EqualityMarks(r[1..])
  }

  function HoleCount(ms: seq<Mark>): nat {
    multiset(ms)[Hole]
  }

  /** The fixed words between the pieces of the statements: none opens a token. */
  // The fixed words of each builder hold no quote and no placeholder.

  lemma LiteralWords()
    ensures Plain("NULL") && Plain("true") && Plain("false")
  {
  }

  lemma SelectWords()
    ensures Plain(" WHERE ") && Plain(" FROM ") && Plain("SELECT ") && Separator(", ") && Separator(" AND ")
  {
  }

  lemma DeleteWords()
    ensures Plain(" WHERE ") && Plain("DELETE FROM ")
  {
  }

  lemma CreateWords()
    ensures Plain(")") && Plain(" (") && Plain("CREATE TABLE ")
  {
  }

  lemma DropWords()
    ensures Plain("DROP TABLE ")
  {
  }

  /** Separators of the joins: plain text that cannot open or continue a token. */
  predicate Separator(sep: string) {
    sep != [] && Plain(sep)
  }

  lemma {:induction false} MarksEscapeAll(names: seq<string>, sep: string, rest: string)
    requires Separator(sep) && Safe(rest)
    ensures Marks(Join(sep, EscapeAll(names)) + rest) == Ids(names) + Marks(rest)
  {
    if |names| == 1 {
      assert Join(sep, EscapeAll(names)) == Escape(names[0]);
      assert Ids(names) == [Id(names[0])] by {
        assert names[1..] == [];
      }
      EscapeReadsBack(names[0], rest);
    } else if |names| > 1 {
      MarksEscapeAll(names[1..], sep, rest);
      MarksEscapeAllCons(names, sep, rest);
    } else {
      assert Join(sep, EscapeAll(names)) + rest == rest;
      assert Ids(names) == [];
    }
  }

  /** The step of MarksEscapeAll: the first name, the separator, then the rest as already read. */
  lemma MarksEscapeAllCons(names: seq<string>, sep: string, rest: string)
    requires |names| > 1 && Separator(sep) && Safe(rest)
    requires Marks(Join(sep, EscapeAll(names[1..])) + rest) == Ids(names[1..]) + Marks(rest)
    ensures Marks(Join(sep, EscapeAll(names)) + rest) == Ids(names) + Marks(rest)
  {
    var parts := EscapeAll(names);
    assert parts[0] == Escape(names[0]) && parts[1..] == EscapeAll(names[1..]);
    var tail := Join(sep, EscapeAll(names[1..]));
    var after := sep + (tail + rest);
    JoinCons(sep, parts, rest);
    assert Marks(Escape(names[0]) + after) == [Id(names[0])] + Marks(after) by {
      assert after[0] == sep[0];
      EscapeReadsBack(names[0], after);
    }
    assert Marks(after) == Marks(tail + rest) by {
      MarksPlain(sep, tail + rest);
    }
    MarksRegroup(Marks(Join(sep, EscapeAll(names)) + rest), [Id(names[0])], Ids(names[1..]), Marks(rest), Ids(names));
  }

  lemma {:induction false} MarksPlaceholders(n: nat, rest: string)
    ensures Marks(Join(", ", Placeholders(n)) + rest) == Holes(n) + Marks(rest)
  {
    if n == 1 {
      MarksHole(rest);
    } else if n > 1 {
      var tail := Join(", ", Placeholders(n - 1));
      var after := ", " + (tail + rest);
      assert Join(", ", Placeholders(n)) + rest == "?" + after;
      assert Marks("?" + after) == [Hole] + Marks(after) by {
        MarksHole(after);
      }
      assert Marks(after) == Marks(tail + rest) by {
        assert Plain(", ");
        MarksPlain(", ", tail + rest);
      }
      assert Marks(tail + rest) == Holes(n - 1) + Marks(rest) by {
        MarksPlaceholders(n - 1, rest);
      }
      MarksRegroup(Marks(Join(", ", Placeholders(n)) + rest), [Hole], Holes(n - 1), Marks(rest), Holes(n));
    } else if n == 0 {
      assert Join(", ", Placeholders(n)) + rest == rest;
    }
  }

  /** "`k` = ?" is read as the key and its placeholder. */
  lemma MarksAssignment(key: string, rest: string)
    ensures Marks(Escape(key) + " = ?" + rest) == [Id(key), Hole] + Marks(rest)
  {
    var after := " = " + ("?" + rest);
    assert Escape(key) + " = ?" + rest == Escape(key) + after;
    assert Marks(Escape(key) + after) == [Id(key)] + Marks(after) by {
      EscapeReadsBack(key, after);
    }
    assert Marks(after) == Marks("?" + rest) by {
      assert Plain(" = ");
      MarksPlain(" = ", "?" + rest);
    }
    assert Marks("?" + rest) == [Hole] + Marks(rest) by {
      MarksHole(rest);
    }
    MarksRegroup(Marks(Escape(key) + " = ?" + rest), [Id(key)], [Hole], Marks(rest), [Id(key), Hole]);
  }

  lemma {:induction false} MarksAssignments(keys: seq<string>, sep: string, rest: string)
    requires Separator(sep)
    ensures Marks(Join(sep, Assignments(keys)) + rest) == Pairs(keys) + Marks(rest)
  {
    if |keys| == 1 {
      MarksAssignment(keys[0], rest);
    } else if |keys| > 1 {
      var tail := Join(sep, Assignments(keys[1..]));
      var after := sep + (tail + rest);
      assert Join(sep, Assignments(keys)) + rest == Escape(keys[0]) + " = ?" + after by {
        JoinCons(sep, Assignments(keys), rest);
      }
      assert Marks(Escape(keys[0]) + " = ?" + after) == [Id(keys[0]), Hole] + Marks(after) by {
        MarksAssignment(keys[0], after);
      }
      assert Marks(after) == Marks(tail + rest) by {
        MarksPlain(sep, tail + rest);
      }
      assert Marks(tail + rest) == Pairs(keys[1..]) + Marks(rest) by {
        MarksAssignments(keys[1..], sep, rest);
      }
      MarksRegroup(Marks(Join(sep, Assignments(keys)) + rest), [Id(keys[0]), Hole], Pairs(keys[1..]), Marks(rest), Pairs(keys));
    } else {
      assert Join(sep, Assignments(keys)) + rest == rest;
    }
  }

  /** "`k` = literal" is read as the key and the literal's marks. */
  lemma MarksEquality(e: Entry, rest: string)
    requires Safe(rest)
    ensures Marks(Equality(e) + rest) == [Id(e.key)] + ValueMarks(e.value) + Marks(rest)
  {
    var lit := FormatValue(e.value);
    var after := " = " + (lit + rest);
    assert Equality(e) + rest == Escape(e.key) + after;
    assert Marks(Escape(e.key) + after) == [Id(e.key)] + Marks(after) by {
      EscapeReadsBack(e.key, after);
    }
    assert Marks(after) == Marks(lit + rest) by {
      assert Plain(" = ");
      MarksPlain(" = ", lit + rest);
    }
    assert Marks(lit + rest) == ValueMarks(e.value) + Marks(rest) by {
      MarksFormatValue(e.value, rest);
    }
    MarksRegroup(Marks(Equality(e) + rest), [Id(e.key)], ValueMarks(e.value), Marks(rest), [Id(e.key)] + ValueMarks(e.value));
  }

  lemma {:induction false} MarksEqualities(r: Record, sep: string, rest: string)
    requires Separator(sep) && Safe(rest)
    ensures Marks(Join(sep, Equalities(r)) + rest) == EqualityMarks(r) + Marks(rest)
  {
    if |r| == 1 {
      assert Join(sep, Equalities(r)) == Equality(r[0]);
      assert EqualityMarks(r) == [Id(r[0].key)] + ValueMarks(r[0].value) by {
        assert r[1..] == [];
      }
      MarksEquality(r[0], rest);
    } else if |r| > 1 {
      MarksEqualities(r[1..], sep, rest);
      MarksEqualitiesCons(r, sep, rest);
    } else {
      assert Join(sep, Equalities(r)) + rest == rest;
      assert EqualityMarks(r) == [];
    }
  }

  /** The step of MarksEqualities: the first condition, the separator, then the rest as already read. */
  lemma MarksEqualitiesCons(r: Record, sep: string, rest: string)
    requires |r| > 1 && Separator(sep) && Safe(rest)
    requires Marks(Join(sep, Equalities(r[1..])) + rest) == EqualityMarks(r[1..]) + Marks(rest)
    ensures Marks(Join(sep, Equalities(r)) + rest) == EqualityMarks(r) + Marks(rest)
  {
    var parts := Equalities(r);
    assert parts[0] == Equality(r[0]) && parts[1..] == Equalities(r[1..]);
    var tail := Join(sep, Equalities(r[1..]));
    var text := Join(sep, parts) + rest;
    JoinCons(sep, parts, rest);
    assert text == Equality(r[0]) + (sep + (tail + rest));
    MarksEqualitiesStep(r[0], sep, tail, rest);
    var head := [Id(r[0].key)] + ValueMarks(r[0].value);
    MarksRegroup(Marks(text), head, EqualityMarks(r[1..]), Marks(rest), EqualityMarks(r));
  }

  lemma MarksRegroup(whole: seq<Mark>, head: seq<Mark>, body: seq<Mark>, tail: seq<Mark>, all: seq<Mark>)
    requires whole == head + (body + tail) && all == head + body
    ensures whole == all + tail
  {
  }

  lemma MarksEqualitiesStep(e: Entry, sep: string, tail: string, rest: string)
    requires Separator(sep)
    ensures Marks(Equality(e) + (sep + (tail + rest))) == [Id(e.key)] + ValueMarks(e.value) + Marks(tail + rest)
  {
    assert (sep + (tail + rest))[0] == sep[0];
    MarksEquality(e, sep + (tail + rest));
    MarksPlain(sep, tail + rest);
  }

  lemma {:induction false} PairsHoles(keys: seq<string>)
    ensures |Pairs(keys)| == 2 * |keys| && HoleCount(Pairs(keys)) == |keys|
  {
    if keys != [] {
      PairsHoles(keys[1..]);
      assert multiset(Pairs(keys)) == multiset([Id(keys[0]), Hole]) + multiset(Pairs(keys[1..]));
    }
  }

  lemma {:induction false} HolesCount(n: nat)
    ensures |Holes(n)| == n && HoleCount(Holes(n)) == n
  {
    if n > 0 {
      HolesCount(n - 1);
      assert multiset(Holes(n)) == multiset([Hole]) + multiset(Holes(n - 1));
    }
  }

  lemma {:induction false} IdsFree(names: seq<string>)
    ensures |Ids(names)| == |names| && HoleCount(Ids(names)) == 0
    ensures forall i | 0 <= i < |names| :: Ids(names)[i] == Id(names[i])
  {
    if names != [] {
      IdsFree(names[1..]);
      assert multiset(Ids(names)) == multiset([Id(names[0])]) + multiset(Ids(names[1..]));
    }
  }

  lemma {:induction false} EqualityMarksFree(r: Record)
    ensures HoleCount(EqualityMarks(r)) == 0
  {
    if r != [] {
      EqualityMarksFree(r[1..]);
      var head := [Id(r[0].key)] + ValueMarks(r[0].value);
      assert multiset(EqualityMarks(r)) == multiset(head) + multiset(EqualityMarks(r[1..]));
    }
  }

  lemma HoleCountAppend(a: seq<Mark>, b: seq<Mark>)
    ensures HoleCount(a + b) == HoleCount(a) + HoleCount(b)
  {
    assert multiset(a + b) == multiset(a) + multiset(b);
  }

  // ---------------------------------------------------------------------
  // The builders
  // ---------------------------------------------------------------------

  /** A map argument that is present and has at least one entry. */
  predicate NonEmpty(m: Option<Record>) {
    m.Some? && m.value != []
  }

  /** A table-name argument that is present and not blank. */
  predicate Named(t: Option<string>) {
    t.Some? && !IsBlank(t.value)
  }

  /** buildInsertQuery. */
  function BuildInsertQuery(table: Option<string>, data: Option<Record>): (r: Result<string>)
    ensures r.Err? <==> table.None? || !NonEmpty(data)
    ensures r.Err? ==> r.error == IllegalArgument(NullOrEmptyData)
  {
    if table.None? || !NonEmpty(data) then Err(IllegalArgument(NullOrEmptyData))
    else Ok(InsertText(table.value, Keys(data.value), |data.value|))
  }

  /** String.format("INSERT INTO %s %s VALUES %s", `t`, (`c1`, ...), (?, ...)). */
  function InsertText(table: string, keys: seq<string>, n: nat): string {
    "INSERT INTO " + (Escape(table) + (" (" + (Join(", ", EscapeAll(keys))
      + (") VALUES (" + (Join(", ", Placeholders(n)) + ")")))))
  }

  /**
   * An INSERT names the table, then every column in the map's order, then
   * exactly one placeholder per column.
   */
  lemma InsertQueryMarks(table: string, data: Record)
    requires data != []
    ensures Marks(BuildInsertQuery(Some(table), Some(data)).value)
         == [Id(table)] + Ids(Keys(data)) + Holes(|data|)
  {
    assert BuildInsertQuery(Some(table), Some(data)) == Ok(InsertText(table, Keys(data), |data|));
    MarksInsertText(table, Keys(data), |data|);
  }

  /** ... and so it holds exactly one placeholder per column. */
  lemma InsertQueryHoles(table: string, data: Record)
    requires data != []
    ensures HoleCount(Marks(BuildInsertQuery(Some(table), Some(data)).value)) == |data|
  {
    assert BuildInsertQuery(Some(table), Some(data)) == Ok(InsertText(table, Keys(data), |data|));
    MarksInsertText(table, Keys(data), |data|);
    InsertHoles(table, Keys(data), |data|);
  }

  lemma InsertHoles(table: string, keys: seq<string>, n: nat)
    ensures HoleCount([Id(table)] + Ids(keys) + Holes(n)) == n
  {
    HoleCountAppend([Id(table)] + Ids(keys), Holes(n));
    HoleCountAppend([Id(table)], Ids(keys));
    IdsFree(keys);
    HolesCount(n);
  }

  lemma MarksInsertText(table: string, keys: seq<string>, n: nat)
    ensures Marks(InsertText(table, keys, n)) == [Id(table)] + Ids(keys) + Holes(n)
  {
    var holes := Join(", ", Placeholders(n)) + ")";
    var values := ") VALUES (" + holes;
    assert Marks(values) == Holes(n) by {
      assert Plain(")") && Plain(") VALUES (");
      MarksPlaceholders(n, ")");
      MarksPlain(")", []);
      assert ")" + [] == ")";
      MarksPlain(") VALUES (", holes);
    }
    assert Marks(InsertText(table, keys, n)) == [Id(table)] + Ids(keys) + Marks(values) by {
      assert Plain("INSERT INTO ") && Plain(" (");
      MarksAfterTable("INSERT INTO ", table, " (", keys, values);
    }
  }

  /** `prefix` `t` `infix` `c1`, ..., `cn` `rest`, for plain prefix and infix. */
  lemma MarksAfterTable(prefix: string, table: string, infix: string, names: seq<string>, rest: string)
    requires Plain(prefix) && Separator(infix) && Safe(rest)
    ensures Marks(prefix + (Escape(table) + (infix + (Join(", ", EscapeAll(names)) + rest))))
         == [Id(table)] + Ids(names) + Marks(rest)
  {
    var cs := Join(", ", EscapeAll(names));
    assert Marks(cs + rest) == Ids(names) + Marks(rest) by {
      assert Plain(", ");
      MarksEscapeAll(names, ", ", rest);
    }
    MarksAfterName(prefix, table, infix, cs + rest);
    MarksRegroup(Marks(prefix + (Escape(table) + (infix + (cs + rest)))), [Id(table)], Ids(names), Marks(rest),
      [Id(table)] + Ids(names));
  }

  /** `prefix` `t` `infix` `body`, for plain prefix and infix: the table, then what the body reads as. */
  lemma MarksAfterName(prefix: string, table: string, infix: string, body: string)
    requires Plain(prefix) && Separator(infix)
    ensures Marks(prefix + (Escape(table) + (infix + body))) == [Id(table)] + Marks(body)
  {
    var after := infix + body;
    assert Marks(after) == Marks(body) by {
      MarksPlain(infix, body);
    }
    assert Marks(Escape(table) + after) == [Id(table)] + Marks(after) by {
      assert after[0] == infix[0];
      EscapeReadsBack(table, after);
    }
    MarksPlain(prefix, Escape(table) + after);
  }

  /** The conditions buildUpdateQuery and buildSelectQuery turn into a WHERE clause: none when null or empty. */
  function WhereEntries(conditions: Option<Record>): Record {
    if NonEmpty(conditions) then conditions.value else []
  }

  /** buildUpdateQuery. */
  function BuildUpdateQuery(table: Option<string>, data: Option<Record>, conditions: Option<Record>): (r: Result<string>)
    ensures r.Err? <==> table.None? || !NonEmpty(data)
    ensures r.Err? ==> r.error == IllegalArgument(NullOrEmptyData)
  {
    if table.None? || !NonEmpty(data) then Err(IllegalArgument(NullOrEmptyData))
    else Ok(UpdateText(table.value, Keys(data.value), Keys(WhereEntries(conditions))))
  }

  /** "UPDATE `t` SET `k` = ?, ..." and, for conditions, " WHERE `c` = ? AND ...". */
  function UpdateText(table: string, keys: seq<string>, conditionKeys: seq<string>): string {
    "UPDATE " + (Escape(table) + (" SET " + (Join(", ", Assignments(keys)) + UpdateWhere(conditionKeys))))
  }

  /** The WHERE clause of buildUpdateQuery: none without conditions. */
  function UpdateWhere(conditionKeys: seq<string>): string {
    if conditionKeys == [] then "" else " WHERE " + Join(" AND ", Assignments(conditionKeys))
  }

  lemma MarksUpdateWhere(conditionKeys: seq<string>)
    ensures Marks(UpdateWhere(conditionKeys)) == Pairs(conditionKeys)
  {
    if conditionKeys != [] {
      var wc := Join(" AND ", Assignments(conditionKeys));
      assert Marks(wc + []) == Pairs(conditionKeys) + Marks([]) by {
        assert Plain(" AND ");
        MarksAssignments(conditionKeys, " AND ", []);
      }
      assert Marks(" WHERE " + (wc + [])) == Marks(wc + []) by {
        assert Plain(" WHERE ");
        MarksPlain(" WHERE ", wc + []);
      }
      assert wc + [] == wc;
      MarksRegroup(Marks(UpdateWhere(conditionKeys)), [], Pairs(conditionKeys), Marks([]), Pairs(conditionKeys));
    }
  }

  /**
   * An UPDATE names the table, then each data column with its placeholder,
   * then (only when there are conditions) each condition column with its
   * placeholder: |data| + |conditions| placeholders in all.
   */
  lemma UpdateQueryMarks(table: string, data: Record, conditions: Option<Record>)
    requires data != []
    ensures Marks(BuildUpdateQuery(Some(table), Some(data), conditions).value)
         == [Id(table)] + Pairs(Keys(data)) + Pairs(Keys(WhereEntries(conditions)))
    ensures HoleCount(Marks(BuildUpdateQuery(Some(table), Some(data), conditions).value))
         == |data| + |WhereEntries(conditions)|
  {
    var ck := Keys(WhereEntries(conditions));
    var m := [Id(table)] + Pairs(Keys(data)) + Pairs(ck);
    assert Marks(BuildUpdateQuery(Some(table), Some(data), conditions).value) == m by {
      MarksUpdateText(table, Keys(data), ck);
    }
    assert HoleCount(m) == |data| + |WhereEntries(conditions)| by {
      HoleCountAppend([Id(table)] + Pairs(Keys(data)), Pairs(ck));
      HoleCountAppend([Id(table)], Pairs(Keys(data)));
      PairsHoles(Keys(data));
      PairsHoles(ck);
    }
  }

  lemma MarksUpdateText(table: string, keys: seq<string>, conditionKeys: seq<string>)
    ensures Marks(UpdateText(table, keys, conditionKeys)) == [Id(table)] + Pairs(keys) + Pairs(conditionKeys)
  {
    var where := UpdateWhere(conditionKeys);
    var sc := Join(", ", Assignments(keys));
    assert Marks(sc + where) == Pairs(keys) + Pairs(conditionKeys) by {
      assert Plain(", ");
      MarksAssignments(keys, ", ", where);
      MarksUpdateWhere(conditionKeys);
    }
    assert Plain("UPDATE ") && Plain(" SET ");
    MarksAfterName("UPDATE ", table, " SET ", sc + where);
    MarksRegroup(Marks(UpdateText(table, keys, conditionKeys)), [Id(table)], Pairs(keys), Pairs(conditionKeys),
      [Id(table)] + Pairs(keys));
  }


  /** The column list of a SELECT: `columns.split(",")`, each piece trimmed. */
  function SelectedColumns(columns: string): seq<string> {
    TrimAll(Split(columns))
  }

  /** buildSelectQuery. */
  function BuildSelectQuery(table: Option<string>, columns: Option<string>, conditions: Option<Record>): (r: Result<string>)
    ensures r.Err? <==> !Named(table) || columns.None?
    ensures !Named(table) ==> r == Err(IllegalArgument(NullOrEmptyTable))
    ensures Named(table) && columns.None? ==> r == Err(NullPointer)
  {
    if !Named(table) then Err(IllegalArgument(NullOrEmptyTable))
    else if columns.None? then Err(NullPointer)
    else Ok(SelectText(table.value, SelectedColumns(columns.value), WhereEntries(conditions)))
  }

  /** "SELECT `c1`, ... FROM `t`" and, for conditions, " WHERE `k` = literal AND ...". */
  function SelectText(table: string, columns: seq<string>, conditions: Record): string {
    var where := if conditions == [] then "" else " WHERE " + Join(" AND ", Equalities(conditions));
    "SELECT " + (Join(", ", EscapeAll(columns)) + (" FROM " + (Escape(table) + where)))
  }

  /**
   * A SELECT names each trimmed column piece, then the table, then each
   * condition column with its embedded literal; it has no placeholder.
   */
  lemma SelectQueryMarks(table: string, columns: string, conditions: Option<Record>)
    requires !IsBlank(table)
    ensures Marks(BuildSelectQuery(Some(table), Some(columns), conditions).value)
         == Ids(SelectedColumns(columns)) + [Id(table)] + EqualityMarks(WhereEntries(conditions))
    ensures HoleCount(Marks(BuildSelectQuery(Some(table), Some(columns), conditions).value)) == 0
  {
    var cs := SelectedColumns(columns);
    var w := WhereEntries(conditions);
    MarksSelectText(table, cs, w);
    HoleCountAppend(Ids(cs) + [Id(table)], EqualityMarks(w));
    HoleCountAppend(Ids(cs), [Id(table)]);
    IdsFree(cs);
    EqualityMarksFree(w);
  }

  lemma MarksSelectText(table: string, columns: seq<string>, conditions: Record)
    ensures Marks(SelectText(table, columns, conditions)) == Ids(columns) + [Id(table)] + EqualityMarks(conditions)
  {
    SelectWords();
    var where := if conditions == [] then "" else " WHERE " + Join(" AND ", Equalities(conditions));
    var ec := Join(", ", EscapeAll(columns));
    if conditions == [] {
      assert Marks(where) == [] && EqualityMarks(conditions) == [];
    } else {
      var wc := Join(" AND ", Equalities(conditions));
      MarksEqualities(conditions, " AND ", []);
      assert wc + [] == wc;
      MarksPlain(" WHERE ", wc);
    }
    EscapeReadsBack(table, where);
    MarksPlain(" FROM ", Escape(table) + where);
    MarksEscapeAll(columns, ", ", " FROM " + (Escape(table) + where));
    MarksPlain("SELECT ", ec + (" FROM " + (Escape(table) + where)));
  }

  /** A `*` column list is escaped like a name: SELECT `*` FROM `t`. */
  lemma SelectStar(table: string)
    requires !IsBlank(table)
    ensures BuildSelectQuery(Some(table), Some("*"), None) == Ok("SELECT `*` FROM " + Escape(table))
  {
    assert ',' !in "*";
    assert Split("*") == ["*"];
    assert TrimStart("*") == "*";
    assert TrimEnd("*") == "*";
    assert SelectedColumns("*") == ["*"];
    assert Escape("*") == "`*`";
    assert Join(", ", EscapeAll(["*"])) == "`*`";
    assert WhereEntries(None) == [];
    assert Escape(table) + "" == Escape(table);
    assert SelectText(table, ["*"], []) == "SELECT " + ("`*`" + (" FROM " + Escape(table)));
    assert "SELECT " + ("`*`" + (" FROM " + Escape(table))) == "SELECT `*` FROM " + Escape(table);
    assert Named(Some(table));
  }

  /** Whether buildDeleteQuery appends the WHERE text: only when it is present and not blank. */
  predicate HasClause(where: Option<string>) {
    where.Some? && !IsBlank(where.value)
  }

  /** buildDeleteQuery. */
  function BuildDeleteQuery(table: Option<string>, where: Option<string>): (r: Result<string>)
    ensures r.Err? <==> !Named(table)
    ensures r.Err? ==> r.error == IllegalArgument(NullOrEmptyTable)
  {
    if !Named(table) then Err(IllegalArgument(NullOrEmptyTable))
    else if HasClause(where) then Ok("DELETE FROM " + (Escape(table.value) + (" WHERE " + where.value)))
    else Ok("DELETE FROM " + Escape(table.value))
  }

  /**
   * A DELETE names the table and then reads exactly as the WHERE text does on
   * its own: the text is appended verbatim, and only when it is not blank.
   */
  lemma DeleteQueryMarks(table: string, where: Option<string>)
    requires !IsBlank(table)
    ensures Marks(BuildDeleteQuery(Some(table), where).value)
         == [Id(table)] + (if HasClause(where) then Marks(where.value) else [])
    ensures !HasClause(where) ==> BuildDeleteQuery(Some(table), where).value == "DELETE FROM " + Escape(table)
  {
    DeleteWords();
    if HasClause(where) {
      MarksPlain(" WHERE ", where.value);
      EscapeReadsBack(table, " WHERE " + where.value);
      MarksPlain("DELETE FROM ", Escape(table) + (" WHERE " + where.value));
    } else {
      EscapeReadsBack(table, []);
      assert Escape(table) + [] == Escape(table);
      MarksPlain("DELETE FROM ", Escape(table));
    }
  }

  /** buildCreateTableQuery. */
  function BuildCreateTableQuery(tableName: Option<string>, columns: Option<string>): (r: Result<string>)
    ensures r.Err? <==> !Named(tableName) || !Named(columns)
    ensures !Named(tableName) ==> r == Err(IllegalArgument(NullOrEmptyTable))
    ensures Named(tableName) && !Named(columns) ==> r == Err(IllegalArgument(NullOrEmptyColumns))
  {
    if !Named(tableName) then Err(IllegalArgument(NullOrEmptyTable))
    else if !Named(columns) then Err(IllegalArgument(NullOrEmptyColumns))
    else Ok("CREATE TABLE " + (Escape(tableName.value) + (" (" + (columns.value + ")"))))
  }

  /** A CREATE TABLE names the table and then reads as the column text does on its own. */
  lemma CreateTableQueryMarks(tableName: string, columns: string)
    requires !IsBlank(tableName) && !IsBlank(columns)
    ensures Marks(BuildCreateTableQuery(Some(tableName), Some(columns)).value)
         == [Id(tableName)] + Marks(columns)
  {
    CreateWords();
    MarksPlainSuffix(columns, ")");
    MarksPlain(" (", columns + ")");
    EscapeReadsBack(tableName, " (" + (columns + ")"));
    MarksPlain("CREATE TABLE ", Escape(tableName) + (" (" + (columns + ")")));
  }

  /** buildDropTableQuery. */
  function BuildDropTableQuery(tableName: Option<string>): (r: Result<string>)
    ensures r.Err? <==> !Named(tableName)
    ensures r.Err? ==> r.error == IllegalArgument(NullOrEmptyTable)
  {
    if !Named(tableName) then Err(IllegalArgument(NullOrEmptyTable))
    else Ok("DROP TABLE " + Escape(tableName.value))
  }

  /** A DROP TABLE names exactly the one table. */
  lemma DropTableQueryMarks(tableName: string)
    requires !IsBlank(tableName)
    ensures Marks(BuildDropTableQuery(Some(tableName)).value) == [Id(tableName)]
  {
    DropWords();
    MarksPlain("DROP TABLE ", Escape(tableName));
    EscapeReadsBack(tableName, []);
    assert Escape(tableName) + [] == Escape(tableName);
  }
}
