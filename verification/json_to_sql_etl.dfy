/** The extract-transform-load step that turns an action pack's data file
    into SQL: each item of the file names a CRUD kind, a table, its columns
    and rows of values; every "insert" item yields one INSERT statement per
    row, and a "select", "update" or "delete" item makes the result null. */
module JsonToSqlEtl {
  import opened JavaLang
  import opened SqlText

  /** One element of the file's "items" array: meta.crud, meta.table,
      columns and values. */
  datatype Item = Item(crud: string, table: string, columns: seq<string>, values: seq<seq<string>>)

  /** The text appended before the column list. */
  function InsertOpen(table: string): string
  {
    "INSERT INTO " + table + " ("
  }

  /** removeTrailingComma: delete the last ',' of the builder's text, in
      place; with no comma it throws and leaves the text as it was. */
  method RemoveTrailingComma(target: StringBuilder) returns (outcome: Outcome)
    modifies target
    ensures DeleteLastComma(old(target.text)).Ok? ==>
              outcome == Pass && target.text == DeleteLastComma(old(target.text)).value
    ensures DeleteLastComma(old(target.text)).Throw? ==>
              outcome == Fail(StringIndexOutOfBounds(-1)) && target.text == old(target.text)
  {
    var index := LastIndexOf(target.text, ',');
    outcome := target.DeleteCharAt(index);
  }

  /** The front of every statement of an item: "INSERT INTO table (", the
      quoted columns with the last ',' deleted, then ") values (". */
  function Beginning(table: string, columns: seq<string>): (r: Result<string>)
    ensures columns != [] ==> r.Ok?
    ensures r.Throw? ==> r.exception == StringIndexOutOfBounds(-1)
    ensures r.Ok? ==> |r.value| >= 10 && r.value[|r.value| - 10..] == ") values ("
  {
    assert columns != [] ==> DeleteLastComma(InsertOpen(table) + QuotedList(columns)).Ok? by {
      if columns != [] {
        DeleteTrailingComma(InsertOpen(table), columns);
      }
    }
    match DeleteLastComma(InsertOpen(table) + QuotedList(columns))
    case Throw(e) => Throw(e)
    case Ok(s) =>
      EndsWith(s, ") values (");
      Ok(s + ") values (")
  }

  /** A text followed by a tail ends with that tail. */
  lemma EndsWith(s: string, tail: string)
    ensures (s + tail)[|s + tail| - |tail|..] == tail
  {
    assert |s + tail| - |tail| == |s|;
  }

  /** With columns, the beginning holds them quoted and joined by commas. */
  lemma BeginningWithColumns(table: string, columns: seq<string>)
    requires columns != []
    ensures Beginning(table, columns) == Ok(InsertOpen(table) + JoinQuoted(columns) + ") values (")
  {
    DeleteTrailingComma(InsertOpen(table), columns);
  }

  /** With no columns the comma deleted is the table name's last one, and a
      name without a comma throws. */
  lemma BeginningWithoutColumns(table: string)
    ensures Beginning(table, []).Ok? <==> ',' in table
    ensures Beginning(table, []).Throw? ==> Beginning(table, []).exception == StringIndexOutOfBounds(-1)
  {
    var open := InsertOpen(table);
    assert open + QuotedList([]) == open;
    InsertOpenComma(table);
    var d := DeleteLastComma(open);
    assert Beginning(table, []).Ok? <==> d.Ok?;
  }

  /** The fixed text around the table name holds no comma. */
  lemma InsertOpenComma(table: string)
    ensures ',' in InsertOpen(table) <==> ',' in table
  {
    var into, paren := "INSERT INTO ", " (";
    assert ',' !in into && ',' !in paren;
    assert InsertOpen(table) == into + table + paren;
  }

  /** The middle of one row's statement: its quoted values joined by
      commas; an empty row throws. */
  function Middle(row: seq<string>): (r: Result<string>)
    ensures r.Ok? <==> row != []
    ensures r.Throw? ==> r.exception == StringIndexOutOfBounds(-1)
    ensures r.Ok? ==> r.value == JoinQuoted(row)
  {
    if row != [] then
      DeleteTrailingComma("", row);
      assert "" + QuotedList(row) == QuotedList(row);
      DeleteLastComma(QuotedList(row))
    else
      DeleteLastComma(QuotedList(row))
  }

  /** One row's statement: the beginning, the row's values, then ");". */
  function RowStatement(beginning: string, values: string): string
  {
    beginning + values + ");"
  }

  /** One statement per row, in row order, or the exception of the first
      empty row. */
  function RowsText(beginning: string, rows: seq<seq<string>>): (r: Result<seq<string>>)
    ensures r.Ok? <==> [] !in rows
    ensures r.Throw? ==> r.exception == StringIndexOutOfBounds(-1)
    ensures r.Ok? ==> |r.value| == |rows|
  {
    if rows == [] then Ok([])
    else
      var init := rows[..|rows| - 1];
      assert rows == init + [rows[|rows| - 1]];
      match RowsText(beginning, init)
      case Throw(e) => Throw(e)
      case Ok(ss) =>
        match Middle(rows[|rows| - 1])
        case Throw(e) => Throw(e)
        case Ok(m) => Ok(ss + [RowStatement(beginning, m)])
  }

  /** When no row is empty: one statement per row, in row order, each the
      beginning, the row's quoted values joined by commas, and ");". */
  lemma {:induction false} RowsShape(beginning: string, rows: seq<seq<string>>)
    requires [] !in rows
    ensures RowsText(beginning, rows).Ok?
    ensures |RowsText(beginning, rows).value| == |rows|
    ensures forall i :: 0 <= i < |rows| ==> RowsText(beginning, rows).value[i] == RowStatement(beginning, JoinQuoted(rows[i]))
  {
    if rows != [] {
      var init := rows[..|rows| - 1];
      assert rows == init + [rows[|rows| - 1]];
      RowsShape(beginning, init);
      var ss := RowsText(beginning, init).value;
      var statements := ss + [RowStatement(beginning, Middle(rows[|rows| - 1]).value)];
      assert RowsText(beginning, rows).value == statements;
      forall i | 0 <= i < |rows| ensures statements[i] == RowStatement(beginning, JoinQuoted(rows[i])) {
        if i < |init| {
          assert statements[i] == ss[i] && init[i] == rows[i];
        } else {
          assert rows[i] in rows;
        }
      }
    }
  }

  /** The statements parseInsertStatements returns for an item, or the
      exception it throws. */
  function InsertStatementsText(item: Item): (r: Result<seq<string>>)
    ensures r.Ok? <==> Beginning(item.table, item.columns).Ok? && [] !in item.values
    ensures r.Throw? ==> r.exception == StringIndexOutOfBounds(-1)
    ensures r.Ok? ==> |r.value| == |item.values|
  {
    match Beginning(item.table, item.columns)
    case Throw(e) => Throw(e)
    case Ok(b) => RowsText(b, item.values)
  }

  /** parseInsertStatements: build the shared beginning once, then one
      statement per row of values. */
  method ParseInsertStatements(item: Item) returns (r: Result<seq<string>>)
    ensures r == InsertStatementsText(item)
  {
    var start := BuildBeginning(item.table, item.columns);
    if start.Throw? {
      return Throw(start.exception);
    }
    r := BuildRows(start.value, item.values);
  }

  /** The loop over the rows of values: one statement per row, or the
      exception of the first empty row. */
  method BuildRows(beginning: string, rows: seq<seq<string>>) returns (r: Result<seq<string>>)
    ensures r == RowsText(beginning, rows)
  {
    var statements: seq<string> := [];
    var i := 0;
    assert rows[..0] == [];
    while i < |rows|
      invariant 0 <= i <= |rows|
      invariant RowsText(beginning, rows[..i]) == Ok(statements)
    {
      var middle := BuildMiddle(rows[i]);
      if middle.Throw? {
        assert rows[i] in rows;
        return Throw(middle.exception);
      }
      var statement := beginning + middle.value + ");";
      assert statement == RowStatement(beginning, middle.value);
      NextRow(beginning, rows, i);
      statements := statements + [statement];
      i := i + 1;
    }
    assert rows[..i] == rows;
    r := Ok(statements);
  }

  /** The front end of parseInsertStatements' statements. */
  method BuildBeginning(table: string, columns: seq<string>) returns (r: Result<string>)
    ensures r == Beginning(table, columns)
  {
    var start := new StringBuilder();
    start.Append("INSERT INTO " + table + " (");
    AppendValues(start, columns);
    assert start.text == InsertOpen(table) + QuotedList(columns);
    var outcome := RemoveTrailingComma(start);
    if outcome.Fail? {
      return Throw(outcome.exception);
    }
    start.Append(") values (");
    r := Ok(start.text);
  }

  /** The middle of one row's statement. */
  method BuildMiddle(row: seq<string>) returns (r: Result<string>)
    ensures r == Middle(row)
  {
    var middle := new StringBuilder();
    AppendValues(middle, row);
    assert middle.text == QuotedList(row);
    var outcome := RemoveTrailingComma(middle);
    if outcome.Fail? {
      return Throw(outcome.exception);
    }
    r := Ok(middle.text);
  }

  /** The loop step: one more non-empty row adds its statement at the end. */
  lemma NextRow(beginning: string, rows: seq<seq<string>>, i: int)
    requires 0 <= i < |rows| && RowsText(beginning, rows[..i]).Ok? && rows[i] != []
    ensures RowsText(beginning, rows[..i + 1]) ==
              Ok(RowsText(beginning, rows[..i]).value + [RowStatement(beginning, Middle(rows[i]).value)])
  {
    assert rows[..i + 1][..i] == rows[..i];
  }

  /** An item whose columns and rows are all non-empty: one statement per
      row, each the shared beginning, the row's values and ");". */
  lemma InsertShape(item: Item)
    requires item.columns != [] && [] !in item.values
    ensures InsertStatementsText(item).Ok?
    ensures |InsertStatementsText(item).value| == |item.values|
    ensures forall i :: 0 <= i < |item.values| ==>
              InsertStatementsText(item).value[i] ==
                InsertOpen(item.table) + JoinQuoted(item.columns) + ") values (" + JoinQuoted(item.values[i]) + ");"
  {
    BeginningWithColumns(item.table, item.columns);
    var b := Beginning(item.table, item.columns).value;
    RowsShape(b, item.values);
  }

  // ================= The whole file =================

  /** The CRUD kinds that make parseSqlFromFile return null. */
  predicate Nulls(item: Item)
  {
    item.crud == "select" || item.crud == "update" || item.crud == "delete"
  }

  /** The three nulling kinds differ from "insert" in their first letter. */
  lemma NullingIsNotInsert(item: Item)
    ensures Nulls(item) ==> item.crud != "insert"
  {
    assert "insert"[0] == 'i';
    assert "select"[0] == 's' && "update"[0] == 'u' && "delete"[0] == 'd';
  }

  /** One turn of parseSqlFromFile's loop. An insert item's statements are
      built before they are added, so their exception wins over the
      NullPointerException of adding to a null list. */
  function Step(statements: Option<seq<string>>, item: Item): (r: Result<Option<seq<string>>>)
    ensures item.crud == "insert" ==> (r.Ok? <==> statements.Some? && InsertStatementsText(item).Ok?)
    ensures r.Ok? ==> (r.value.None? <==> Nulls(item) || statements.None?)
    ensures item.crud == "insert" && InsertStatementsText(item).Throw? ==> r == Throw(InsertStatementsText(item).exception)
    ensures r.Ok? && r.value.Some? ==> statements.Some? && statements.value <= r.value.value
    ensures Nulls(item) ==> r == Ok(None)
    ensures item.crud != "insert" && !Nulls(item) ==> r == Ok(statements)
  {
    NullingIsNotInsert(item);
    if item.crud == "insert" then
      match InsertStatementsText(item)
      case Throw(e) => Throw(e)
      case Ok(ss) => if statements.None? then Throw(NullPointer) else Ok(Some(statements.value + ss))
    else if Nulls(item) then Ok(None)
    else Ok(statements)
  }

  /** What parseSqlFromFile returns for the items (None is null), or the
      exception it throws. */
  function ParseSqlText(items: seq<Item>): (r: Result<Option<seq<string>>>)
    ensures r.Throw? ==> r.exception == NullPointer || r.exception == StringIndexOutOfBounds(-1)
  {
    if items == [] then Ok(Some([]))
    else
      match ParseSqlText(items[..|items| - 1])
      case Throw(e) => Throw(e)
      case Ok(statements) => Step(statements, items[|items| - 1])
  }

  /** parseSqlFromFile: walk the items in order. */
  method ParseSqlFromFile(items: seq<Item>) returns (r: Result<Option<seq<string>>>)
    ensures r == ParseSqlText(items)
  {
    var statements: Option<seq<string>> := Some([]);
    var i := 0;
    while i < |items|
      invariant 0 <= i <= |items|
      invariant ParseSqlText(items[..i]) == Ok(statements)
    {
      NextItem(items, i);
      ghost var step := Step(statements, items[i]);
      var crud := items[i].crud;
      if crud == "insert" {
        var parsed := ParseInsertStatements(items[i]);
        if parsed.Throw? {
          ThrowPersists(items, i + 1);
          return Throw(parsed.exception);
        }
        if statements.None? {
          ThrowPersists(items, i + 1);
          return Throw(NullPointer);
        }
        statements := Some(statements.value + parsed.value);
      } else if crud == "select" {
        statements := None;
      } else if crud == "update" {
        statements := None;
      } else if crud == "delete" {
        statements := None;
      }
      assert step == Ok(statements);
      i := i + 1;
    }
    assert items[..i] == items;
    r := Ok(statements);
  }

  /** The loop step: one more item is one more Step. */
  lemma NextItem(items: seq<Item>, i: int)
    requires 0 <= i < |items| && ParseSqlText(items[..i]).Ok?
    ensures ParseSqlText(items[..i + 1]) == Step(ParseSqlText(items[..i]).value, items[i])
  {
    assert items[..i + 1][..i] == items[..i];
  }

  /** Once a prefix of the items throws, so does the whole file, with the
      same exception. */
  lemma {:induction false} ThrowPersists(items: seq<Item>, i: int)
    requires 0 <= i <= |items| && ParseSqlText(items[..i]).Throw?
    ensures ParseSqlText(items) == ParseSqlText(items[..i])
    decreases |items| - i
  {
    if i < |items| {
      assert items[..i + 1][..i] == items[..i];
      ThrowPersists(items, i + 1);
    } else {
      assert items[..i] == items;
    }
  }

  /** The result is null exactly when some item is a select, update or
      delete. */
  lemma {:induction false} NullIffNullingItem(items: seq<Item>)
    requires ParseSqlText(items).Ok?
    ensures ParseSqlText(items).value.None? <==> exists i :: 0 <= i < |items| && Nulls(items[i])
  {
    if items != [] {
      var init, last := items[..|items| - 1], items[|items| - 1];
      assert ParseSqlText(init).Ok?;
      NullIffNullingItem(init);
      var prev := ParseSqlText(init).value;
      assert ParseSqlText(items) == Step(prev, last);
      assert ParseSqlText(items).value.None? <==> Nulls(last) || prev.None?;
      if Nulls(last) {
        assert Nulls(items[|items| - 1]);
      } else {
        if prev.None? {
          var i :| 0 <= i < |init| && Nulls(init[i]);
          assert init[i] == items[i];
        }
        if exists i :: 0 <= i < |items| && Nulls(items[i]) {
          var i :| 0 <= i < |items| && Nulls(items[i]);
          assert i != |items| - 1;
          assert init[i] == items[i];
        }
      }
    }
  }

  /** A file that parses never has an insert item after a select, update
      or delete item: that insert would add to a null list. */
  lemma {:induction false} NoInsertAfterNulling(items: seq<Item>)
    requires ParseSqlText(items).Ok?
    ensures forall i, j :: 0 <= i < j < |items| && Nulls(items[i]) ==> items[j].crud != "insert"
  {
    if items != [] {
      var init := items[..|items| - 1];
      NoInsertAfterNulling(init);
      NullIffNullingItem(init);
      assert forall i :: 0 <= i < |init| ==> init[i] == items[i];
    }
  }

  /** The number of value rows of the insert items. */
  function InsertRowCount(items: seq<Item>): nat
  {
    if items == [] then 0
    else InsertRowCount(items[..|items| - 1]) + (if items[|items| - 1].crud == "insert" then |items[|items| - 1].values| else 0)
  }

  /** A file that yields a list yields one statement per value row of its
      insert items. */
  lemma {:induction false} StatementCount(items: seq<Item>)
    requires ParseSqlText(items).Ok? && ParseSqlText(items).value.Some?
    ensures |ParseSqlText(items).value.value| == InsertRowCount(items)
  {
    if items != [] {
      var init := items[..|items| - 1];
      var last := items[|items| - 1];
      var before := ParseSqlText(init);
      assert before.Ok? && ParseSqlText(items) == Step(before.value, last);
      assert before.value.Some?;
      StatementCount(init);
      if last.crud == "insert" {
        var ss := InsertStatementsText(last).value;
        assert ParseSqlText(items).value.value == before.value.value + ss;
        var b := Beginning(last.table, last.columns);
        assert b.Ok? && RowsText(b.value, last.values) == Ok(ss);
        assert |ss| == |last.values|;
      } else {
        assert ParseSqlText(items).value.value == before.value.value;
      }
    }
  }

  /** The lists of a sequence joined end to end, in order. */
  function Flatten(parts: seq<seq<string>>): (r: seq<string>)
  {
    if parts == [] then [] else Flatten(parts[..|parts| - 1]) + parts[|parts| - 1]
  }

  /** When every item is an insert and each yields its statements, the
      file yields them all, item after item. */
  lemma {:induction false} AllInsertsConcatenate(items: seq<Item>, parts: seq<seq<string>>)
    requires |parts| == |items|
    requires forall i {:trigger InsertYields(items[i], parts[i])} :: 0 <= i < |items| ==> InsertYields(items[i], parts[i])
    ensures ParseSqlText(items) == Ok(Some(Flatten(parts)))
  {
    if items == [] {
      assert parts == [];
    } else {
      var init, front, last := items[..|items| - 1], parts[..|parts| - 1], parts[|parts| - 1];
      assert ParseSqlText(init) == Ok(Some(Flatten(front))) by {
        assert forall i :: 0 <= i < |init| ==> init[i] == items[i] && front[i] == parts[i];
        AllInsertsConcatenate(init, front);
      }
      assert Step(Some(Flatten(front)), items[|items| - 1]) == Ok(Some(Flatten(front) + last)) by {
        InsertStep(Flatten(front), items[|items| - 1], last);
      }
      LastItem(items);
    }
  }

  /** The item is an insert whose statements are ss. */
  predicate InsertYields(item: Item, ss: seq<string>)
  {
    item.crud == "insert" && InsertStatementsText(item) == Ok(ss)
  }

  /** The file's result is its last item's step over the others' result. */
  lemma LastItem(items: seq<Item>)
    requires items != [] && ParseSqlText(items[..|items| - 1]).Ok?
    ensures ParseSqlText(items) == Step(ParseSqlText(items[..|items| - 1]).value, items[|items| - 1])
  {
  }

  /** An insert item after a non-null list appends its statements. */
  lemma InsertStep(statements: seq<string>, item: Item, ss: seq<string>)
    requires InsertYields(item, ss)
    ensures Step(Some(statements), item) == Ok(Some(statements + ss))
  {
  }

  /** The items whose CRUD kind the loop recognises, in order. */
  function Recognised(items: seq<Item>): (r: seq<Item>)
    ensures |r| <= |items|
  {
    if items == [] then []
    else
      var last := items[|items| - 1];
      Recognised(items[..|items| - 1]) + (if last.crud == "insert" || Nulls(last) then [last] else [])
  }

  /** Items of any other CRUD kind are skipped: dropping them changes nothing. */
  lemma {:induction false} UnrecognisedSkipped(items: seq<Item>)
    ensures ParseSqlText(Recognised(items)) == ParseSqlText(items)
  {
    if items != [] {
      var init := items[..|items| - 1];
      var last := items[|items| - 1];
      UnrecognisedSkipped(init);
      var r := Recognised(items);
      if last.crud == "insert" || Nulls(last) {
        assert r == Recognised(init) + [last];
        assert r[..|r| - 1] == Recognised(init) && r[|r| - 1] == last;
      } else {
        assert r == Recognised(init);
        match ParseSqlText(init)
        case Throw(e) =>
        case Ok(statements) =>
          assert Step(statements, last) == Ok(statements);
      }
    }
  }
}
