/** The CREATE TABLE layout both data access objects write (their two
    builders differ only in how a column's default clause is rendered).
    Per column, in input order: the definition, the separator ", ", the
    comment as "-- comment" when there is one, then " \n"; the statement is
    closed by ");" and the last ',' of the whole text is deleted. */
module Ddl {
  import opened JavaLang
  import opened SqlText

  /** A column once its default clause is rendered: the text before the
      separator, and the comment written after it. */
  datatype ColumnText = ColumnText(definition: string, comment: string)

  /** name type[ NOT NULL]<default clause>[ PRIMARY KEY] */
  function Definition(name: string, sqlType: string, notNull: bool, defaultClause: string, primaryKey: bool): (r: string)
    ensures |r| >= |name| + 1 + |sqlType| && r[..|name| + 1 + |sqlType|] == name + " " + sqlType
    ensures !notNull && defaultClause == "" && !primaryKey ==> r == name + " " + sqlType
  {
    name + (" " + sqlType) + (if notNull then " NOT NULL" else "") + defaultClause + (if primaryKey then " PRIMARY KEY" else "")
  }

  function CommentText(comment: string): string
  {
    if comment == "" then "" else "-- " + comment
  }

  /** Everything the loop appends for one column. */
  function Line(c: ColumnText): (r: string)
    ensures |r| > |c.definition| + 2 && r[|c.definition|] == ','
  {
    c.definition + ", " + CommentText(c.comment) + " \n"
  }

  /** Everything the loop appends for a list of columns, in input order. */
  function Lines(cs: seq<ColumnText>): string
  {
    if cs == [] then "" else Lines(cs[..|cs| - 1]) + Line(cs[|cs| - 1])
  }

  function Header(tableName: string): string
  {
    "CREATE TABLE " + tableName + " (\n"
  }

  /** The text before the last comma is deleted. */
  function Assembled(tableName: string, cs: seq<ColumnText>): string
  {
    Header(tableName) + Lines(cs) + ");"
  }

  /** The statement returned: the assembled text with its last ',' deleted. */
  function Statement(tableName: string, cs: seq<ColumnText>): (r: Result<string>)
    ensures cs != [] ==> r.Ok?
    ensures r.Throw? ==> r.exception == StringIndexOutOfBounds(-1)
    ensures r.Ok? ==> |r.value| == |Assembled(tableName, cs)| - 1
  {
    assert cs != [] ==> ',' in Assembled(tableName, cs) by {
      if cs != [] {
        var last := cs[|cs| - 1];
        var l := Line(last);
        assert l[|last.definition|] == ',';
        assert Lines(cs) == Lines(cs[..|cs| - 1]) + l;
        assert ',' in Lines(cs);
      }
    }
    DeleteLastComma(Assembled(tableName, cs))
  }

  /** The first appends of the column loop: the name, " type" and, for a
      NOT NULL column, " NOT NULL". */
  method AppendNameAndType(sb: StringBuilder, name: string, sqlType: string, notNull: bool)
    modifies sb
    ensures sb.text == old(sb.text) + (name + (" " + sqlType) + (if notNull then " NOT NULL" else ""))
  {
    ghost var before := sb.text;
    sb.Append(name);
    sb.Append(" " + sqlType);
    AppendAssoc(before, name, " " + sqlType);
    if notNull {
      sb.Append(" NOT NULL");
      AppendAssoc(before, name + (" " + sqlType), " NOT NULL");
    }
  }

  /** The last appends of the column loop: " PRIMARY KEY" for a key column,
      the separator ", ", the comment and " \n". */
  method AppendKeyAndComment(sb: StringBuilder, primaryKey: bool, comment: string)
    modifies sb
    ensures sb.text == old(sb.text) + ((if primaryKey then " PRIMARY KEY" else "") + ", " + CommentText(comment) + " \n")
  {
    ghost var before := sb.text;
    ghost var key := if primaryKey then " PRIMARY KEY" else "";
    if primaryKey {
      sb.Append(" PRIMARY KEY");
    }
    assert sb.text == before + key;
    sb.Append(", ");
    AppendAssoc(before, key, ", ");
    if comment != "" {
      sb.Append("-- " + comment);
    }
    AppendAssoc(before, key + ", ", CommentText(comment));
    sb.Append(" \n");
    AppendAssoc(before, key + ", " + CommentText(comment), " \n");
  }

  /** A column's line, split where the default clause is appended. */
  lemma LineParts(name: string, sqlType: string, notNull: bool, defaultClause: string, primaryKey: bool, comment: string)
    ensures Line(ColumnText(Definition(name, sqlType, notNull, defaultClause, primaryKey), comment)) ==
              (name + (" " + sqlType) + (if notNull then " NOT NULL" else "")) + defaultClause +
              ((if primaryKey then " PRIMARY KEY" else "") + ", " + CommentText(comment) + " \n")
  {
  }

  /** Lines of a concatenation is the concatenation of the Lines: columns
      come out in input order. */
  lemma {:induction false} LinesAppend(a: seq<ColumnText>, b: seq<ColumnText>)
    ensures Lines(a + b) == Lines(a) + Lines(b)
  {
    if b == [] {
      assert a + b == a;
    } else {
      var ab, init, last := a + b, b[..|b| - 1], b[|b| - 1];
      calc {
        Lines(ab);
      ==  { assert ab[..|ab| - 1] == a + init && ab[|ab| - 1] == last; }
        Lines(a + init) + Line(last);
      ==  { LinesAppend(a, init); }
        (Lines(a) + Lines(init)) + Line(last);
      ==  { AppendAssoc(Lines(a), Lines(init), Line(last)); }
        Lines(a) + (Lines(init) + Line(last));
      ==
        Lines(a) + Lines(b);
      }
    }
  }

  /** When the final column's comment holds no comma, the comma deleted is
      the final column's separator: the statement is every earlier line
      verbatim, then the final definition followed by " " instead of ", ". */
  lemma FinalSeparatorDeleted(tableName: string, cs: seq<ColumnText>)
    requires cs != [] && ',' !in cs[|cs| - 1].comment
    ensures Statement(tableName, cs) ==
              Ok(Header(tableName) + Lines(cs[..|cs| - 1]) + cs[|cs| - 1].definition + " " +
                 CommentText(cs[|cs| - 1].comment) + " \n);")
  {
    var last := cs[|cs| - 1];
    var h, l, c := Header(tableName), Lines(cs[..|cs| - 1]), CommentText(last.comment);
    assert Lines(cs) == l + Line(last);
    assert Assembled(tableName, cs) == h + l + Line(last) + ");";
    assert ',' !in c;
    SeparatorDeleted(h, l, last.definition, c);
  }

  /** The regrouping behind FinalSeparatorDeleted, over plain texts. */
  lemma SeparatorDeleted(h: string, l: string, d: string, c: string)
    requires ',' !in c
    ensures DeleteLastComma(h + l + (d + ", " + c + " \n") + ");") == Ok(h + l + d + " " + c + " \n);")
  {
    var q := " " + c + " \n";
    assert d + ", " + c + " \n" == d + "," + q;
    assert ',' !in q && ',' !in ");";
    DeleteLastCommaInside(h + l, d, q, ");");
    assert h + l + (d + q) + ");" == h + l + d + " " + c + " \n);";
  }

  /** When the final column's comment holds a comma, the last comma of that
      comment is the one deleted and the final separator ", " survives. */
  lemma CommaInFinalComment(tableName: string, cs: seq<ColumnText>)
    requires cs != [] && ',' in cs[|cs| - 1].comment
    ensures DeleteLastComma(CommentText(cs[|cs| - 1].comment)).Ok?
    ensures Statement(tableName, cs) ==
              Ok(Header(tableName) + Lines(cs[..|cs| - 1]) + cs[|cs| - 1].definition + ", " +
                 DeleteLastComma(CommentText(cs[|cs| - 1].comment)).value + " \n);")
  {
    var last := cs[|cs| - 1];
    var h, l, c := Header(tableName), Lines(cs[..|cs| - 1]), CommentText(last.comment);
    assert c == "-- " + last.comment;
    assert Lines(cs) == l + Line(last);
    assert Assembled(tableName, cs) == h + l + Line(last) + ");";
    var p, q := LastCommaSplit(c);
    CommentCommaDeleted(h, l, last.definition, p, q);
  }

  /** The regrouping behind CommaInFinalComment, over plain texts. */
  lemma CommentCommaDeleted(h: string, l: string, d: string, p: string, q: string)
    requires ',' !in q
    ensures DeleteLastComma(h + l + (d + ", " + (p + "," + q) + " \n") + ");") == Ok(h + l + d + ", " + (p + q) + " \n);")
  {
    var hl, sep, c, nl, close := h + l, d + ", ", p + "," + q, " \n", ");";
    AppendAssoc(hl, sep + c, nl);
    AppendAssoc(hl, sep, c);
    AppendAssoc(hl + sep + c, nl, close);
    assert nl + close == " \n);";
    assert ',' !in nl + close;
    DeleteLastCommaInside(hl + sep, p, q, nl + close);
    AppendAssoc(hl, d, ", ");
  }

  /** With no columns the only commas are the table name's: with none the
      builder throws, otherwise it deletes the name's last comma. */
  lemma NoColumns(tableName: string)
    ensures ',' !in tableName ==> Statement(tableName, []) == Throw(StringIndexOutOfBounds(-1))
    ensures ',' in tableName ==>
              DeleteLastComma(tableName).Ok? &&
              Statement(tableName, []) == Ok("CREATE TABLE " + DeleteLastComma(tableName).value + " (\n);")
  {
    var close := " (\n);";
    assert Lines([]) == "";
    assert Assembled(tableName, []) == "CREATE TABLE " + tableName + close;
    if ',' in tableName {
      var p, q := LastCommaSplit(tableName);
      DeleteLastCommaInside("CREATE TABLE ", p, q, close);
    } else {
      DeleteLastCommaNone(Assembled(tableName, []));
    }
  }

  /** A statement of at least one column never throws, and it is the
      assembled text minus exactly one comma. */
  lemma NonEmptySucceeds(tableName: string, cs: seq<ColumnText>)
    requires cs != []
    ensures Statement(tableName, cs).Ok?
    ensures |Statement(tableName, cs).value| == |Assembled(tableName, cs)| - 1
    ensures multiset(Statement(tableName, cs).value) + multiset{','} == multiset(Assembled(tableName, cs))
  {
    var last := cs[|cs| - 1];
    var l := Line(last);
    assert l[|last.definition|] == ',';
    assert Lines(cs) == Lines(cs[..|cs| - 1]) + l;
    assert ',' in Lines(cs);
    assert ',' in Assembled(tableName, cs);
  }
}
