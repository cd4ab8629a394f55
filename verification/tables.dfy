/** Relational tables as sequences of rows, and what the store's SELECT and
    UPDATE statements with a WHERE clause do to them. Rows keep their
    insertion order, which stands for the order the store returns them in. */
module Tables {

  /** SELECT ... WHERE where: the rows that satisfy the predicate, in table order. */
  function Select<R(!new)>(rows: seq<R>, where: R -> bool): (r: seq<R>)
    ensures |r| <= |rows|
    ensures forall x :: x in r <==> x in rows && where(x)
    ensures r == [] <==> forall i :: 0 <= i < |rows| ==> !where(rows[i])
  {
    if rows == [] then []
    else if where(rows[0]) then [rows[0]] + Select(rows[1..], where)
    else Select(rows[1..], where)
  }

  /** The first row a SELECT returns is the first row of the table that
      satisfies its WHERE clause. */
  lemma {:induction false} SelectFirst<R(!new)>(rows: seq<R>, where: R -> bool, k: int)
    requires 0 <= k < |rows| && where(rows[k])
    requires forall j :: 0 <= j < k ==> !where(rows[j])
    ensures Select(rows, where) != [] && Select(rows, where)[0] == rows[k]
  {
    if k > 0 {
      SelectFirst(rows[1..], where, k - 1);
    }
  }

  /** A SELECT keeps every copy of a matching row and no copy of any other. */
  lemma {:induction false} SelectCounts<R(!new)>(rows: seq<R>, where: R -> bool)
    ensures forall x :: multiset(Select(rows, where))[x] == if where(x) then multiset(rows)[x] else 0
  {
    if rows != [] {
      SelectCounts(rows[1..], where);
      assert rows == [rows[0]] + rows[1..];
      assert multiset(rows) == multiset([rows[0]]) + multiset(rows[1..]);
    }
  }

  /** A row added at the end of the table comes out at the end of the
      SELECT when it matches, and changes nothing otherwise: the result is
      the in-order filter of the table. */
  lemma {:induction false} SelectAppend<R(!new)>(rows: seq<R>, x: R, where: R -> bool)
    ensures Select(rows + [x], where) == Select(rows, where) + (if where(x) then [x] else [])
  {
    if rows == [] {
      assert [] + [x] == [x];
      assert [x][1..] == [];
    } else {
      assert (rows + [x])[0] == rows[0];
      assert (rows + [x])[1..] == rows[1..] + [x];
      SelectAppend(rows[1..], x, where);
    }
  }

  /** UPDATE ... SET change WHERE where: every row that satisfies the predicate
      is changed, every other row is kept, and no row moves. */
  function Update<R>(rows: seq<R>, where: R -> bool, change: R -> R): (r: seq<R>)
    ensures |r| == |rows|
    ensures forall i :: 0 <= i < |rows| ==> r[i] == if where(rows[i]) then change(rows[i]) else rows[i]
  {
    if rows == [] then []
    else [if where(rows[0]) then change(rows[0]) else rows[0]] + Update(rows[1..], where, change)
  }
}
