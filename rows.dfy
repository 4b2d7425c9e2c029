/** Boolean-mask indexing (`df[mask]`) on the cleaned records: the rows that
    pass a test, in their original order and with their repetitions. Both the
    grouping and the dashboard's date and country filters select rows this
    way. */
module Rows {
  import opened Cleaning

  /** `rows[keep(rows)]`: the rows whose `keep` test holds, in order. A row
      that passes is kept as many times as it occurs; a row that fails is
      dropped everywhere. */
  function Filter(rows: seq<Record>, keep: Record -> bool): (r: seq<Record>)
    ensures |r| <= |rows|
    ensures forall x :: x in r <==> x in rows && keep(x)
    ensures forall x :: multiset(r)[x] == if keep(x) then multiset(rows)[x] else 0
  {
    if rows == [] then []
    else
      var front := rows[..|rows| - 1];
      var last := rows[|rows| - 1];
      assert rows == front + [last];
      Filter(front, keep) + (if keep(last) then [last] else [])
  }

  /** Masking a concatenation masks each part, so the kept rows keep their
      relative order. */
  lemma {:induction false} FilterAppend(a: seq<Record>, b: seq<Record>, keep: Record -> bool)
    ensures Filter(a + b, keep) == Filter(a, keep) + Filter(b, keep)
  {
    if b != [] {
      var front := b[..|b| - 1];
      var last := b[|b| - 1];
      var tail := if keep(last) then [last] else [];
      assert Filter(a + b, keep) == Filter(a + front, keep) + tail by {
        assert (a + b)[..|a + b| - 1] == a + front;
        assert (a + b)[|a + b| - 1] == last;
      }
      assert Filter(b, keep) == Filter(front, keep) + tail;
      FilterAppend(a, front, keep);
      AppendAssociative(Filter(a, keep), Filter(front, keep), tail);
    } else {
      assert a + b == a;
    }
  }

  lemma AppendAssociative(x: seq<Record>, y: seq<Record>, z: seq<Record>)
    ensures (x + y) + z == x + (y + z)
  {
  }

  /** A mask every row passes removes nothing. */
  lemma {:induction false} FilterKeepsAll(rows: seq<Record>, keep: Record -> bool)
    requires forall x :: x in rows ==> keep(x)
    ensures Filter(rows, keep) == rows
  {
    if rows != [] {
      var front := rows[..|rows| - 1];
      assert rows == front + [rows[|rows| - 1]];
      assert forall x :: x in front ==> x in rows;
      FilterKeepsAll(front, keep);
    }
  }
}
