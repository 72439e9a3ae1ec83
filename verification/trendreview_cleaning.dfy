/** The row loop of the package's cleaning entry point: every row is tested against
    every filter, where a filter returning true marks the row as bad. As written, the
    row is written once for each filter that does not flag it; the evident intent,
    stated in the module's description, is to write a row once when no filter flags
    it. Both are modelled. */
module TrendreviewCleaning {
  import opened CleaningUtilities

  type Filter = Row -> bool

  /** No filter flags the row. */
  predicate Clean(row: Row, filters: seq<Filter>)
  {
    forall i :: 0 <= i < |filters| ==> !filters[i](row)
  }

  /** The number of filters that do not flag the row. */
  function Unflagged(row: Row, filters: seq<Filter>): (n: nat)
    ensures n <= |filters|
    ensures n == |filters| <==> Clean(row, filters)
  {
    if |filters| == 0 then 0
    else
      var n := Unflagged(row, filters[..|filters| - 1]);
      assert forall i :: 0 <= i < |filters| - 1 ==> filters[..|filters| - 1][i] == filters[i];
      n + (if filters[|filters| - 1](row) then 0 else 1)
  }

  /** The inner loop as written: one copy of the row per filter returning false. */
  function CopiesAsWritten(row: Row, filters: seq<Filter>): seq<Row>
  {
    if |filters| == 0 then []
    else CopiesAsWritten(row, filters[..|filters| - 1]) + (if filters[|filters| - 1](row) then [] else [row])
  }

  /** The rows written by the loop as written. */
  function MainAsWritten(rows: seq<Row>, filters: seq<Filter>): seq<Row>
  {
    if |rows| == 0 then []
    else MainAsWritten(rows[..|rows| - 1], filters) + CopiesAsWritten(rows[|rows| - 1], filters)
  }

  /** The loop as written, statement by statement. */
  method MainLoop(rows: seq<Row>, filters: seq<Filter>) returns (written: seq<Row>)
    ensures written == MainAsWritten(rows, filters)
  {
    written := [];
    for r := 0 to |rows|
      invariant written == MainAsWritten(rows[..r], filters)
    {
      assert rows[..r + 1][..r] == rows[..r];
      ghost var before := written;
      for f := 0 to |filters|
        invariant written == before + CopiesAsWritten(rows[r], filters[..f])
      {
        assert filters[..f + 1][..f] == filters[..f];
        if filters[f](rows[r]) {
        } else {
          written := written + [rows[r]];
        }
      }
      assert filters[..|filters|] == filters;
    }
    assert rows[..|rows|] == rows;
  }

  /** As written, each row appears once per filter that passes it: a row is dropped
      only when every filter flags it. */
  lemma {:induction false} CopiesCount(row: Row, filters: seq<Filter>)
    ensures |CopiesAsWritten(row, filters)| == Unflagged(row, filters)
    ensures forall x :: x in CopiesAsWritten(row, filters) ==> x == row
  {
    if |filters| > 0 {
      CopiesCount(row, filters[..|filters| - 1]);
    }
  }

  /** With two filters, a clean row is written twice. */
  lemma AsWrittenDuplicates()
    ensures MainAsWritten([["1", "2"]], [IsLineEmpty, IsAnyTextEmpty]) == [["1", "2"], ["1", "2"]]
  {
    var row: Row := ["1", "2"];
    var filters: seq<Filter> := [IsLineEmpty, IsAnyTextEmpty];
    assert !IsLineEmpty(row) by { assert row[0] != ""; }
    assert !IsAnyTextEmpty(row) by { assert row[0] != "" && row[1] != ""; }
    assert filters[..1] == [IsLineEmpty];
    assert filters[..0] == [];
    assert CopiesAsWritten(row, filters[..1]) == [row];
    assert CopiesAsWritten(row, filters) == [row, row];
    assert [row][..0] == [];
  }

  /** With two filters, a row one filter flags is still written. */
  lemma AsWrittenKeepsFlagged()
    ensures MainAsWritten([["", "x"]], [IsLineEmpty, IsAnyTextEmpty]) == [["", "x"]]
  {
    var filters: seq<Filter> := [IsLineEmpty, IsAnyTextEmpty];
    assert !IsLineEmpty(["", "x"]) by { assert ["", "x"][1] != ""; }
    assert IsAnyTextEmpty(["", "x"]) by { assert ["", "x"][0] == ""; }
    assert filters[..1] == [IsLineEmpty];
    assert CopiesAsWritten(["", "x"], filters[..1]) == [["", "x"]];
  }

  /** The corrected loop: a row is written once exactly when no filter flags it, and
      rows keep their order. */
  function FilterRows(rows: seq<Row>, filters: seq<Filter>): (r: seq<Row>)
    ensures |r| <= |rows|
  {
    if |rows| == 0 then []
    else FilterRows(rows[..|rows| - 1], filters) + (if Clean(rows[|rows| - 1], filters) then [rows[|rows| - 1]] else [])
  }

  /** The corrected loop writes a row iff it is in the input and no filter flags it,
      and writes no row more often than it is read. */
  lemma {:induction false} FilterRowsMembers(rows: seq<Row>, filters: seq<Filter>)
    ensures forall x :: x in FilterRows(rows, filters) <==> x in rows && Clean(x, filters)
    ensures multiset(FilterRows(rows, filters)) <= multiset(rows)
  {
    if |rows| > 0 {
      var front := rows[..|rows| - 1];
      assert rows == front + [rows[|rows| - 1]];
      FilterRowsMembers(front, filters);
    }
  }

  /** Filtering distributes over concatenated inputs. */
  lemma {:induction false} FilterRowsAppend(a: seq<Row>, b: seq<Row>, filters: seq<Filter>)
    ensures FilterRows(a + b, filters) == FilterRows(a, filters) + FilterRows(b, filters)
    decreases |b|
  {
    if |b| == 0 {
      assert a + b == a;
    } else {
      var front := b[..|b| - 1];
      var last := b[|b| - 1];
      assert (a + b)[..|a + b| - 1] == a + front;
      assert (a + b)[|a + b| - 1] == last;
      var kept := if Clean(last, filters) then [last] else [];
      assert FilterRows(b, filters) == FilterRows(front, filters) + kept;
      assert FilterRows(a + b, filters) == FilterRows(a + front, filters) + kept;
      FilterRowsAppend(a, front, filters);
    }
  }

  /** Filtering twice is filtering once. */
  lemma {:induction false} FilterRowsIdempotent(rows: seq<Row>, filters: seq<Filter>)
    ensures FilterRows(FilterRows(rows, filters), filters) == FilterRows(rows, filters)
  {
    if |rows| > 0 {
      var front := rows[..|rows| - 1];
      var last := rows[|rows| - 1];
      FilterRowsIdempotent(front, filters);
      var kept := if Clean(last, filters) then [last] else [];
      FilterRowsAppend(FilterRows(front, filters), kept, filters);
      if Clean(last, filters) {
        assert FilterRows(kept, filters) == FilterRows([], filters) + [last] by {
          assert kept[..0] == [];
        }
      }
    }
  }

  /** With a single filter the loop as written and the corrected loop agree; they
      part only when several filters are given. */
  lemma {:induction false} SingleFilterAgrees(rows: seq<Row>, filter: Filter)
    ensures MainAsWritten(rows, [filter]) == FilterRows(rows, [filter])
  {
    if |rows| > 0 {
      var front := rows[..|rows| - 1];
      var last := rows[|rows| - 1];
      SingleFilterAgrees(front, filter);
      assert [filter][..0] == [];
      assert CopiesAsWritten(last, [filter]) == if filter(last) then [] else [last];
      assert Clean(last, [filter]) <==> !filter(last);
    }
  }
}
