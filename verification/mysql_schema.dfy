/** Mysql.createTableStatement: the CREATE TABLE text built from a JSON
    table description whose column defaults are typed "string" (quoted
    literal) or "function" (unquoted expression). */
module MysqlSchema {
  import opened JavaLang
  import opened SqlText
  import opened Ddl

  /** A column's "default" object: its "type" and its "value". */
  datatype DefaultValue = DefaultValue(kind: string, value: string)

  datatype Column = Column(
    name: string,
    sqlType: string,
    notNull: bool,
    default: DefaultValue,
    primaryKey: bool,
    comment: string)

  datatype Table = Table(name: string, columns: seq<Column>)

  predicate ValidKind(kind: string)
  {
    kind == "string" || kind == "function"
  }

  /** The default clause of one column: a "string" default is quoted, a
      "function" default is written as it is, an empty value adds nothing,
      and any other kind throws InvalidDefaultTypeException. */
  function DefaultClause(d: DefaultValue): (r: Result<string>)
    ensures r.Ok? <==> ValidKind(d.kind)
    ensures r.Throw? ==> r.exception == InvalidDefaultType(d.kind)
    ensures r.Ok? && d.value == "" ==> r.value == ""
  {
    if d.kind == "string" then
      Ok(if d.value == "" then "" else " DEFAULT " + Quote(d.value))
    else if d.kind == "function" then
      Ok(if d.value == "" then "" else " DEFAULT " + d.value)
    else
      Throw(InvalidDefaultType(d.kind))
  }

  function Render(c: Column): (r: Result<ColumnText>)
    ensures r.Ok? <==> ValidKind(c.default.kind)
    ensures r.Throw? ==> r.exception == InvalidDefaultType(c.default.kind)
    ensures r.Ok? ==> r.value.comment == c.comment
    ensures r.Ok? && c.default.value == "" ==> r.value.definition == Definition(c.name, c.sqlType, c.notNull, "", c.primaryKey)
  {
    match DefaultClause(c.default)
    case Throw(e) => Throw(e)
    case Ok(clause) => Ok(ColumnText(Definition(c.name, c.sqlType, c.notNull, clause, c.primaryKey), c.comment))
  }

  /** Every column rendered in input order, or the exception of the first
      column whose default kind is invalid. */
  function RenderAll(cs: seq<Column>): (r: Result<seq<ColumnText>>)
    ensures r.Ok? <==> forall i :: 0 <= i < |cs| ==> ValidKind(cs[i].default.kind)
    ensures r.Ok? ==> |r.value| == |cs| && forall i :: 0 <= i < |cs| ==> Render(cs[i]) == Ok(r.value[i])
    ensures r.Throw? ==>
              exists k :: 0 <= k < |cs| && !ValidKind(cs[k].default.kind) &&
                (forall j :: 0 <= j < k ==> ValidKind(cs[j].default.kind)) &&
                r.exception == InvalidDefaultType(cs[k].default.kind)
  {
    if cs == [] then Ok([])
    else
      var init := cs[..|cs| - 1];
      assert forall i :: 0 <= i < |init| ==> init[i] == cs[i];
      match RenderAll(init)
      case Throw(e) => Throw(e)
      case Ok(ts) =>
        match Render(cs[|cs| - 1])
        case Throw(e) => Throw(e)
        case Ok(t) =>
          var r := ts + [t];
          assert forall i :: 0 <= i < |cs| ==> Render(cs[i]) == Ok(r[i]) by {
            forall i | 0 <= i < |cs| ensures Render(cs[i]) == Ok(r[i]) {
              if i < |init| {
                assert r[i] == ts[i] && init[i] == cs[i];
              }
            }
          }
          Ok(r)
  }

  /** The statement createTableStatement returns, or the exception it throws. */
  function CreateTableText(t: Table): (r: Result<string>)
    ensures r.Ok? ==> RenderAll(t.columns).Ok?
    ensures t.columns != [] && RenderAll(t.columns).Ok? ==> r.Ok?
    ensures r.Throw? ==> r.exception == StringIndexOutOfBounds(-1) || r.exception.InvalidDefaultType?
  {
    match RenderAll(t.columns)
    case Throw(e) => Throw(e)
    case Ok(ts) => Statement(t.name, ts)
  }

  /** createTableStatement: append the header, then each column in turn,
      then ");", then delete the last ',' of the whole text. */
  method CreateTableStatement(t: Table) returns (r: Result<string>)
    ensures r == CreateTableText(t)
  {
    var sb := new StringBuilder();
    sb.Append("CREATE TABLE ");
    sb.Append(t.name);
    sb.Append(" (\n");
    assert sb.text == Header(t.name) + Lines(RenderAll(t.columns[..0]).value);
    var i := 0;
    while i < |t.columns|
      invariant 0 <= i <= |t.columns|
      invariant RenderAll(t.columns[..i]).Ok?
      invariant sb.text == Header(t.name) + Lines(RenderAll(t.columns[..i]).value)
    {
      ghost var done := RenderAll(t.columns[..i]).value;
      var outcome := AppendColumn(sb, t.columns[i]);
      if outcome.Fail? {
        FirstInvalidColumn(t.columns, i);
        return Throw(outcome.exception);
      }
      NextColumn(t.columns, i);
      AppendAssoc(Header(t.name), Lines(done), Line(Render(t.columns[i]).value));
      i := i + 1;
    }
    assert t.columns[..i] == t.columns;
    sb.Append(");");
    assert sb.text == Assembled(t.name, RenderAll(t.columns).value);
    var sql := sb.text;
    var index := LastIndexOf(sql, ',');
    var outcome := sb.DeleteCharAt(index);
    if outcome.Fail? {
      return Throw(outcome.exception);
    }
    r := Ok(sb.text);
  }

  /** The body of the forEach over the columns: append one column's line,
      or throw on an invalid default kind. */
  method AppendColumn(sb: StringBuilder, col: Column) returns (outcome: Outcome)
    modifies sb
    ensures outcome.Pass? <==> ValidKind(col.default.kind)
    ensures outcome.Pass? ==> sb.text == old(sb.text) + Line(Render(col).value)
    ensures outcome.Fail? ==> outcome.exception == InvalidDefaultType(col.default.kind)
  {
    ghost var before := sb.text;
    AppendNameAndType(sb, col.name, col.sqlType, col.notNull);
    ghost var head := sb.text[|before|..];
    var def := col.default;
    ghost var clause := "";
    if def.kind == "string" {
      if def.value != "" {
        sb.Append(" DEFAULT '" + def.value + "'");
        clause := " DEFAULT " + Quote(def.value);
      }
    } else if def.kind == "function" {
      if def.value != "" {
        sb.Append(" DEFAULT " + def.value);
        clause := " DEFAULT " + def.value;
      }
    } else {
      return Fail(InvalidDefaultType(def.kind));
    }
    assert clause == DefaultClause(def).value;
    assert sb.text == before + head + clause;
    AppendAssoc(before, head, clause);
    AppendKeyAndComment(sb, col.primaryKey, col.comment);
    LineParts(col.name, col.sqlType, col.notNull, clause, col.primaryKey, col.comment);
    AppendAssoc(before, head + clause, sb.text[|before + (head + clause)|..]);
    outcome := Pass;
  }

  /** The loop step: rendering one more column appends its line. */
  lemma NextColumn(cs: seq<Column>, i: int)
    requires 0 <= i < |cs| && RenderAll(cs[..i]).Ok? && ValidKind(cs[i].default.kind)
    ensures RenderAll(cs[..i + 1]).Ok?
    ensures Lines(RenderAll(cs[..i + 1]).value) == Lines(RenderAll(cs[..i]).value) + Line(Render(cs[i]).value)
  {
    var next := cs[..i + 1];
    assert next[..|next| - 1] == cs[..i];
  }

  /** The loop's early exit: the first column with an invalid default kind
      decides the exception of the whole statement. */
  lemma FirstInvalidColumn(cs: seq<Column>, i: int)
    requires 0 <= i < |cs| && RenderAll(cs[..i]).Ok? && !ValidKind(cs[i].default.kind)
    ensures RenderAll(cs).Throw? && RenderAll(cs).exception == InvalidDefaultType(cs[i].default.kind)
  {
    assert forall j :: 0 <= j < i ==> ValidKind(cs[j].default.kind) by {
      var pre := cs[..i];
      assert forall j :: 0 <= j < i ==> pre[j] == cs[j];
    }
    var r := RenderAll(cs);
    assert r.Throw?;
    var k :| 0 <= k < |cs| && !ValidKind(cs[k].default.kind) &&
             (forall j :: 0 <= j < k ==> ValidKind(cs[j].default.kind)) &&
             r.exception == InvalidDefaultType(cs[k].default.kind);
    assert k == i;
  }

  /** A table whose defaults are all valid, with at least one column and no
      comma in its final comment: every column's line in input order, except
      that the final separator ", " has lost its comma. */
  lemma CreateTableShape(t: Table)
    requires t.columns != [] && ',' !in t.columns[|t.columns| - 1].comment
    requires forall i :: 0 <= i < |t.columns| ==> ValidKind(t.columns[i].default.kind)
    ensures RenderAll(t.columns).Ok?
    ensures CreateTableText(t) ==
              Ok(Header(t.name) + Lines(RenderAll(t.columns).value[..|t.columns| - 1]) +
                 Render(t.columns[|t.columns| - 1]).value.definition + " " +
                 CommentText(t.columns[|t.columns| - 1].comment) + " \n);")
  {
    var ts := RenderAll(t.columns).value;
    FinalSeparatorDeleted(t.name, ts);
  }

  /** The first column with an invalid default kind decides the exception,
      whatever follows it. */
  lemma InvalidDefaultRejected(t: Table, k: int)
    requires 0 <= k < |t.columns| && !ValidKind(t.columns[k].default.kind)
    requires forall j :: 0 <= j < k ==> ValidKind(t.columns[j].default.kind)
    ensures CreateTableText(t) == Throw(InvalidDefaultType(t.columns[k].default.kind))
  {
    var r := RenderAll(t.columns);
    var k' :| 0 <= k' < |t.columns| && !ValidKind(t.columns[k'].default.kind) &&
              (forall j :: 0 <= j < k' ==> ValidKind(t.columns[j].default.kind)) &&
              r.exception == InvalidDefaultType(t.columns[k'].default.kind);
    assert k' == k;
  }
}
