/** The SQLite data access object's statement builders: INSERT statements
    for the state_machine and state tables built from a JSON array of
    values, and CREATE TABLE statements whose column defaults are always
    quoted literals. */
module Sqlite3 {
  import opened JavaLang
  import opened SqlText
  import opened Ddl
  import MysqlSchema

  // ================= INSERT =================

  const ActionTable := "INSERT INTO state_machine "
  const ActionColumns := "(action, phase, payload, activate) "
  const StateTable := "INSERT INTO state "
  const StateColumns := "(status, state_flag, note) "
  const ValuesOpen := "values ("
  const Close := ");"

  /** The text appended before the first value. */
  function InsertPrefix(table: string, columns: string): string
  {
    table + columns + ValuesOpen
  }

  /** The statement createActionStatement / createStateStatement returns for
      the given values, or the exception it throws. */
  function InsertText(table: string, columns: string, vs: seq<string>): (r: Result<string>)
    ensures r.Ok? <==> vs != [] || ',' in table || ',' in columns
    ensures r.Throw? ==> r.exception == StringIndexOutOfBounds(-1)
  {
    assert ',' in InsertPrefix(table, columns) + QuotedList(vs) + Close <==> vs != [] || ',' in table || ',' in columns by {
      QuotedListComma(vs);
      assert ',' !in ValuesOpen && ',' !in Close;
    }
    DeleteLastComma(InsertPrefix(table, columns) + QuotedList(vs) + Close)
  }

  /** The tail both builders share: close the list, then delete the last ','
      of the whole text. */
  method CloseAndDeleteLastComma(sb: StringBuilder) returns (r: Result<string>)
    modifies sb
    ensures r == DeleteLastComma(old(sb.text) + Close)
  {
    sb.Append(Close);
    var sql := sb.text;
    var index := LastIndexOf(sql, ',');
    var outcome := sb.DeleteCharAt(index);
    if outcome.Fail? {
      return Throw(outcome.exception);
    }
    r := Ok(sb.text);
  }

  /** The steps both builders take: the table, the column list and "values ("
      appended, then the values, then the shared tail. */
  method InsertStatement(table: string, columns: string, vs: seq<string>) returns (r: Result<string>)
    ensures r == InsertText(table, columns, vs)
  {
    var sb := new StringBuilder();
    sb.Append(table);
    sb.Append(columns);
    sb.Append(ValuesOpen);
    assert sb.text == InsertPrefix(table, columns);
    AppendValues(sb, vs);
    r := CloseAndDeleteLastComma(sb);
  }

  /** createActionStatement: INSERT INTO state_machine with the given values. */
  method CreateActionStatement(action: seq<string>) returns (r: Result<string>)
    ensures r == InsertText(ActionTable, ActionColumns, action)
  {
    r := InsertStatement(ActionTable, ActionColumns, action);
  }

  /** createStateStatement: INSERT INTO state with the given values. */
  method CreateStateStatement(state: seq<string>) returns (r: Result<string>)
    ensures r == InsertText(StateTable, StateColumns, state)
  {
    r := InsertStatement(StateTable, StateColumns, state);
  }

  /** With at least one value the trailing separator is the comma deleted:
      the values come out quoted, in order, separated by commas. */
  lemma InsertShape(table: string, columns: string, vs: seq<string>)
    requires vs != []
    ensures InsertText(table, columns, vs) == Ok(InsertPrefix(table, columns) + JoinQuoted(vs) + Close)
  {
    assert ',' !in Close;
    DeleteTrailingSeparator(InsertPrefix(table, columns), vs, Close);
  }

  /** With no values the only commas are the column list's: the last of
      them is deleted and the values list stays empty. */
  lemma EmptyInsert(table: string, p: string, q: string)
    requires ',' !in q
    ensures InsertText(table, p + "," + q, []) == Ok(table + (p + q) + ValuesOpen + Close)
  {
    var tail := ValuesOpen + Close;
    assert ',' !in tail;
    assert InsertPrefix(table, p + "," + q) + QuotedList([]) + Close == table + (p + "," + q) + tail;
    DeleteLastCommaInside(table, p, q, tail);
    AppendAssoc(table + (p + q), ValuesOpen, Close);
  }

  /** For the state_machine table the comma deleted is the one before
      "activate": the statement reads (action, phase, payload activate). */
  lemma ActionColumnsSplit()
    ensures ActionColumns == "(action, phase, payload" + "," + " activate) " && ',' !in " activate) "
  {
  }

  /** For the state table it is the one before "note": (status, state_flag note). */
  lemma StateColumnsSplit()
    ensures StateColumns == "(status, state_flag" + "," + " note) " && ',' !in " note) "
  {
  }

  /** createActionStatement with an empty array: the column list loses the
      comma before "activate" and the values list stays empty. */
  lemma EmptyActionStatement()
    ensures InsertText(ActionTable, ActionColumns, []) ==
              Ok(ActionTable + ("(action, phase, payload" + " activate) ") + ValuesOpen + Close)
  {
    ActionColumnsSplit();
    EmptyInsert(ActionTable, "(action, phase, payload", " activate) ");
  }

  /** createStateStatement with an empty array: the column list loses the
      comma before "note". */
  lemma EmptyStateStatement()
    ensures InsertText(StateTable, StateColumns, []) ==
              Ok(StateTable + ("(status, state_flag" + " note) ") + ValuesOpen + Close)
  {
    StateColumnsSplit();
    EmptyInsert(StateTable, "(status, state_flag", " note) ");
  }

  // ================= CREATE TABLE =================

  /** A column of the JSON table definition; its default is a plain text. */
  datatype Column = Column(
    name: string,
    sqlType: string,
    notNull: bool,
    default: string,
    primaryKey: bool,
    comment: string)

  datatype Table = Table(name: string, columns: seq<Column>)

  /** A non-empty default is always written as a quoted literal. */
  function DefaultClause(d: string): (r: string)
    ensures r == "" <==> d == ""
    ensures MysqlSchema.DefaultClause(MysqlSchema.DefaultValue("string", d)) == Ok(r)
  {
    if d == "" then "" else " DEFAULT " + Quote(d)
  }

  /** A column renders as the MySQL builder renders the same column with a
      "string" default. */
  function Render(c: Column): (r: ColumnText)
    ensures MysqlSchema.Render(MysqlSchema.Column(c.name, c.sqlType, c.notNull, MysqlSchema.DefaultValue("string", c.default), c.primaryKey, c.comment))
            == Ok(r)
  {
    ColumnText(Definition(c.name, c.sqlType, c.notNull, DefaultClause(c.default), c.primaryKey), c.comment)
  }

  /** The lines of all but the last column, followed by the last column's. */
  lemma NextRendered(cs: seq<Column>, rest: seq<ColumnText>)
    requires cs != [] && |rest| == |cs| - 1
    requires forall i :: 0 <= i < |cs| - 1 ==> rest[i] == Render(cs[..|cs| - 1][i])
    ensures forall i :: 0 <= i < |cs| ==> (rest + [Render(cs[|cs| - 1])])[i] == Render(cs[i])
  {
    var r := rest + [Render(cs[|cs| - 1])];
    forall i | 0 <= i < |cs| ensures r[i] == Render(cs[i]) {
      if i < |cs| - 1 {
        assert r[i] == rest[i] && cs[..|cs| - 1][i] == cs[i];
      }
    }
  }

  /** Every column rendered, in input order. */
  function RenderAll(cs: seq<Column>): (r: seq<ColumnText>)
    ensures |r| == |cs|
    ensures forall i :: 0 <= i < |cs| ==> r[i] == Render(cs[i])
  {
    if cs == [] then []
    else
      var rest := RenderAll(cs[..|cs| - 1]);
      NextRendered(cs, rest);
      rest + [Render(cs[|cs| - 1])]
  }

  /** The statement createTableStatement returns, or the exception it throws. */
  function CreateTableText(t: Table): (r: Result<string>)
    ensures t.columns != [] ==> r.Ok?
    ensures r.Throw? ==> r.exception == StringIndexOutOfBounds(-1)
  {
    Statement(t.name, RenderAll(t.columns))
  }

  /** createTableStatement: the header, each column's line, ");", then the
      last ',' of the whole text deleted. */
  method CreateTableStatement(t: Table) returns (r: Result<string>)
    ensures r == CreateTableText(t)
  {
    var sb := new StringBuilder();
    sb.Append("CREATE TABLE ");
    sb.Append(t.name);
    sb.Append(" (\n");
    assert sb.text == Header(t.name) + Lines(RenderAll(t.columns[..0]));
    var i := 0;
    while i < |t.columns|
      invariant 0 <= i <= |t.columns|
      invariant sb.text == Header(t.name) + Lines(RenderAll(t.columns[..i]))
    {
      ghost var done := RenderAll(t.columns[..i]);
      AppendColumn(sb, t.columns[i]);
      NextColumn(t.columns, i);
      AppendAssoc(Header(t.name), Lines(done), Line(Render(t.columns[i])));
      i := i + 1;
    }
    assert t.columns[..i] == t.columns;
    assert sb.text + Close == Assembled(t.name, RenderAll(t.columns));
    r := CloseAndDeleteLastComma(sb);
  }

  /** The loop step: rendering one more column appends its line. */
  lemma NextColumn(cs: seq<Column>, i: int)
    requires 0 <= i < |cs|
    ensures Lines(RenderAll(cs[..i + 1])) == Lines(RenderAll(cs[..i])) + Line(Render(cs[i]))
  {
    var next := cs[..i + 1];
    assert next[..|next| - 1] == cs[..i];
  }

  /** The body of the forEach over the columns: append one column's line. */
  method AppendColumn(sb: StringBuilder, col: Column)
    modifies sb
    ensures sb.text == old(sb.text) + Line(Render(col))
  {
    ghost var before := sb.text;
    AppendNameAndType(sb, col.name, col.sqlType, col.notNull);
    ghost var head := sb.text[|before|..];
    var def := col.default;
    if def != "" {
      sb.Append(" DEFAULT '" + def + "'");
    }
    ghost var clause := DefaultClause(def);
    assert sb.text == before + head + clause;
    AppendAssoc(before, head, clause);
    AppendKeyAndComment(sb, col.primaryKey, col.comment);
    LineParts(col.name, col.sqlType, col.notNull, clause, col.primaryKey, col.comment);
    AppendAssoc(before, head + clause, sb.text[|before + (head + clause)|..]);
  }

  /** A table of at least one column never throws; when the final comment
      holds no comma, every column's line comes out in order and only the
      final separator has lost its comma. */
  lemma CreateTableShape(t: Table)
    requires t.columns != []
    ensures CreateTableText(t).Ok?
    ensures ',' !in t.columns[|t.columns| - 1].comment ==>
              CreateTableText(t) ==
                Ok(Header(t.name) + Lines(RenderAll(t.columns[..|t.columns| - 1])) +
                   Render(t.columns[|t.columns| - 1]).definition + " " +
                   CommentText(t.columns[|t.columns| - 1].comment) + " \n);")
  {
    var ts := RenderAll(t.columns);
    NonEmptySucceeds(t.name, ts);
    assert ts[..|ts| - 1] == RenderAll(t.columns[..|t.columns| - 1]);
    if ',' !in t.columns[|t.columns| - 1].comment {
      FinalSeparatorDeleted(t.name, ts);
    }
  }
}
