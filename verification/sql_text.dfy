/** The text idiom every SQL builder of the repository shares: append each
    item followed by ',', then delete the last ',' of the whole text with
    sb.deleteCharAt(sb.toString().lastIndexOf(',')). */
module SqlText {
  import opened JavaLang

  /** The text after deleteCharAt(lastIndexOf(',')): exactly one ',' (the
      last one) removed, or StringIndexOutOfBounds(-1) when there is none. */
  function DeleteLastComma(s: string): (r: Result<string>)
    ensures r.Ok? <==> ',' in s
    ensures r.Throw? ==> r.exception == StringIndexOutOfBounds(-1)
    ensures r.Ok? ==> |r.value| == |s| - 1 && multiset(r.value) + multiset{','} == multiset(s)
  {
    var i := LastIndexOf(s, ',');
    var r := CharDeleted(s, i);
    if r.Ok? then
      assert s == s[..i] + [s[i]] + s[i + 1..];
      assert r.value == s[..i] + s[i + 1..];
      r
    else
      r
  }

  /** Whatever precedes it, the comma that is followed by no other comma is
      the one deleted, and nothing else changes. */
  lemma DeleteLastCommaSplit(pre: string, post: string)
    requires ',' !in post
    ensures DeleteLastComma(pre + "," + post) == Ok(pre + post)
  {
    var s := pre + "," + post;
    var i := LastIndexOf(s, ',');
    assert s[|pre|] == ',';
    assert forall k :: 0 <= k < |post| ==> s[|pre| + 1 + k] == post[k];
    assert forall j :: |pre| < j < |s| ==> s[j] != ',' by {
      forall j | |pre| < j < |s| ensures s[j] != ',' {
        assert s[j] == post[j - |pre| - 1];
      }
    }
    assert i == |pre|;
    assert s[..i] == pre;
    assert s[i + 1..] == post;
  }

  /** The same, for a comma that sits inside a middle piece of the text. */
  lemma DeleteLastCommaInside(a: string, p: string, q: string, b: string)
    requires ',' !in q && ',' !in b
    ensures DeleteLastComma(a + (p + "," + q) + b) == Ok(a + (p + q) + b)
  {
    assert a + (p + "," + q) + b == (a + p) + "," + (q + b);
    DeleteLastCommaSplit(a + p, q + b);
    assert (a + p) + (q + b) == a + (p + q) + b;
  }

  /** Regrouping a concatenation, for the builders' step-by-step appends. */
  lemma AppendAssoc(a: string, b: string, c: string)
    ensures a + b + c == a + (b + c)
  {
  }

  /** A text with no comma makes the idiom throw. */
  lemma DeleteLastCommaNone(s: string)
    requires ',' !in s
    ensures DeleteLastComma(s) == Throw(StringIndexOutOfBounds(-1))
  {
  }

  /** A text holding a comma splits around its last one. */
  lemma LastCommaSplit(s: string) returns (pre: string, post: string)
    requires ',' in s
    ensures s == pre + "," + post && ',' !in post
    ensures DeleteLastComma(s) == Ok(pre + post)
  {
    var i := LastIndexOf(s, ',');
    pre, post := s[..i], s[i + 1..];
    assert s == pre + "," + post;
    assert forall k :: 0 <= k < |post| ==> post[k] == s[i + 1 + k];
    DeleteLastCommaSplit(pre, post);
  }

  /** A value between single quotes, as the builders write it. */
  function Quote(v: string): string
  {
    "'" + v + "'"
  }

  /** What the builders' loops append: every value quoted and followed by a
      comma, in order ('v1','v2',). */
  function QuotedList(vs: seq<string>): string
  {
    if vs == [] then "" else QuotedList(vs[..|vs| - 1]) + Quote(vs[|vs| - 1]) + ","
  }

  /** The appended list holds a comma exactly when it holds a value. */
  lemma QuotedListComma(vs: seq<string>)
    ensures ',' in QuotedList(vs) <==> vs != []
  {
    if vs != [] {
      var s := QuotedList(vs[..|vs| - 1]) + Quote(vs[|vs| - 1]) + ",";
      assert s[|s| - 1] == ',';
    }
  }

  /** Reference rendering of a value list: quoted values separated by commas,
      with no separator after the last ('v1','v2'). */
  function JoinQuoted(vs: seq<string>): string
  {
    if vs == [] then ""
    else if |vs| == 1 then Quote(vs[0])
    else JoinQuoted(vs[..|vs| - 1]) + "," + Quote(vs[|vs| - 1])
  }

  /** The appended list of a non-empty row is the joined list plus a trailing comma. */
  lemma {:induction false} QuotedListIsJoinedPlusComma(vs: seq<string>)
    requires vs != []
    ensures QuotedList(vs) == JoinQuoted(vs) + ","
  {
    var init := vs[..|vs| - 1];
    if |vs| == 1 {
      assert init == [];
    } else {
      QuotedListIsJoinedPlusComma(init);
    }
  }

  /** When nothing after the list holds a comma, deleting the last comma
      drops exactly the list's trailing separator. */
  lemma DeleteTrailingSeparator(prefix: string, vs: seq<string>, suffix: string)
    requires vs != [] && ',' !in suffix
    ensures DeleteLastComma(prefix + QuotedList(vs) + suffix) == Ok(prefix + JoinQuoted(vs) + suffix)
  {
    QuotedListIsJoinedPlusComma(vs);
    assert prefix + QuotedList(vs) + suffix == (prefix + JoinQuoted(vs)) + "," + suffix;
    DeleteLastCommaSplit(prefix + JoinQuoted(vs), suffix);
  }

  /** A non-empty list at the end of a text: deleting the last comma drops
      the list's trailing separator. */
  lemma DeleteTrailingComma(prefix: string, vs: seq<string>)
    requires vs != []
    ensures DeleteLastComma(prefix + QuotedList(vs)) == Ok(prefix + JoinQuoted(vs))
  {
    QuotedListIsJoinedPlusComma(vs);
    var pre := prefix + JoinQuoted(vs);
    assert prefix + QuotedList(vs) == pre + "," + "";
    DeleteLastCommaSplit(pre, "");
    assert pre + "" == pre;
  }

  /** The loop every builder runs over a JSON array: each value quoted and
      followed by ','. */
  method AppendValues(sb: StringBuilder, vs: seq<string>)
    modifies sb
    ensures sb.text == old(sb.text) + QuotedList(vs)
  {
    ghost var before := sb.text;
    var i := 0;
    while i < |vs|
      invariant 0 <= i <= |vs|
      invariant sb.text == before + QuotedList(vs[..i])
    {
      sb.Append("'" + vs[i] + "',");
      assert "'" + vs[i] + "'," == Quote(vs[i]) + ",";
      assert vs[..i + 1][..i] == vs[..i];
      AppendAssoc(before, QuotedList(vs[..i]), Quote(vs[i]) + ",");
      i := i + 1;
    }
    assert vs[..i] == vs;
  }
}
