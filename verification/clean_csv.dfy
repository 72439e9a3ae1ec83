/** The standalone CSV cleaning script: every row is read in order and written to
    the output unless the selected filter rejects it. Without the alphabetic option a
    row is rejected when some field is empty; with it, a row is also rejected when it
    is not primarily numeric under the default threshold. */
module CleanCsv {
  import opened Wrappers
  import opened CleaningUtilities

  /** _filter2: the row has an empty field. */
  function Filter2(row: Row): (b: bool)
    ensures b <==> exists i :: 0 <= i < |row| && row[i] == ""
  {
    IsAnyTextEmpty(row)
  }

  /** _filter1: the row has an empty field, or fewer than nineteen in twenty of its
      counted fields are numeric (which includes the row with nothing counted). It
      rejects every row _filter2 rejects. */
  function Filter1(row: Row): (b: bool)
    ensures Filter2(row) ==> b
    ensures b <==> Filter2(row) || var t := Count(row);
                                   t.numeric + t.alphabetic == 0 || 20 * t.alphabetic >= t.numeric + t.alphabetic
  {
    DefaultThresholdExact(row);
    IsAnyTextEmpty(row) || !IsLinePrimarilyNumeric(row, DefaultThreshold)
  }

  /** The filter the command-line option selects. */
  function Selected(filterAlphabetic: bool): Row -> bool
  {
    if filterAlphabetic then Filter1 else Filter2
  }

  /** The rows a filter lets through, in input order. */
  function Kept(rows: seq<Row>, reject: Row -> bool): (r: seq<Row>)
    ensures |r| <= |rows|
  {
    if |rows| == 0 then []
    else Kept(rows[..|rows| - 1], reject) + (if reject(rows[|rows| - 1]) then [] else [rows[|rows| - 1]])
  }

  /** A row is written iff it is in the input and the filter lets it through; no row
      is written more often than it is read. */
  lemma {:induction false} KeptMembers(rows: seq<Row>, reject: Row -> bool)
    ensures forall x :: x in Kept(rows, reject) <==> x in rows && !reject(x)
    ensures multiset(Kept(rows, reject)) <= multiset(rows)
  {
    if |rows| > 0 {
      var front := rows[..|rows| - 1];
      var last := rows[|rows| - 1];
      assert rows == front + [last];
      KeptMembers(front, reject);
    }
  }

  /** main: the row loop, writing each row the selected filter lets through. */
  method CleanRows(rows: seq<Row>, filterAlphabetic: bool) returns (written: seq<Row>)
    ensures written == Kept(rows, Selected(filterAlphabetic))
  {
    written := [];
    for i := 0 to |rows|
      invariant written == Kept(rows[..i], Selected(filterAlphabetic))
    {
      assert rows[..i + 1][..i] == rows[..i];
      var row := rows[i];
      if filterAlphabetic {
        if Filter1(row) {
        } else {
          written := written + [row];
        }
      } else {
        if Filter2(row) {
        } else {
          written := written + [row];
        }
      }
    }
    assert rows[..|rows|] == rows;
  }

  /** Cleaning distributes over concatenated inputs: the script is a per-row
      stream. */
  lemma {:induction false} KeptAppend(a: seq<Row>, b: seq<Row>, reject: Row -> bool)
    ensures Kept(a + b, reject) == Kept(a, reject) + Kept(b, reject)
    decreases |b|
  {
    if |b| == 0 {
      assert a + b == a;
    } else {
      var front := b[..|b| - 1];
      var last := b[|b| - 1];
      assert (a + b)[..|a + b| - 1] == a + front;
      assert (a + b)[|a + b| - 1] == last;
      var kept := if reject(last) then [] else [last];
      assert Kept(b, reject) == Kept(front, reject) + kept;
      assert Kept(a + b, reject) == Kept(a + front, reject) + kept;
      KeptAppend(a, front, reject);
    }
  }

  /** A stricter filter applied after a weaker one removes what the stricter one
      alone would: the weaker pass is absorbed. */
  lemma {:induction false} StricterAbsorbs(rows: seq<Row>, weak: Row -> bool, strict: Row -> bool)
    requires forall x :: weak(x) ==> strict(x)
    ensures Kept(Kept(rows, weak), strict) == Kept(rows, strict)
  {
    if |rows| > 0 {
      var front := rows[..|rows| - 1];
      var last := rows[|rows| - 1];
      StricterAbsorbs(front, weak, strict);
      var mid := if weak(last) then [] else [last];
      KeptAppend(Kept(front, weak), mid, strict);
      if !weak(last) {
        assert Kept(mid, strict) == Kept([], strict) + (if strict(last) then [] else [last]) by {
          assert mid[..0] == [];
        }
      }
    }
  }

  /** The alphabetic option only removes more: the run with it is the run without it
      cleaned once more with it. */
  lemma AlphabeticRefines(rows: seq<Row>)
    ensures Kept(rows, Selected(true)) == Kept(Kept(rows, Selected(false)), Selected(true))
    ensures multiset(Kept(rows, Selected(true))) <= multiset(Kept(rows, Selected(false)))
  {
    StricterAbsorbs(rows, Filter2, Filter1);
    KeptMembers(Kept(rows, Filter2), Filter1);
  }

  /** A filter that rejects no row copies the input unchanged. */
  lemma {:induction false} NothingRejected(rows: seq<Row>, reject: Row -> bool)
    requires forall i :: 0 <= i < |rows| ==> !reject(rows[i])
    ensures Kept(rows, reject) == rows
  {
    if |rows| > 0 {
      var front := rows[..|rows| - 1];
      var last := rows[|rows| - 1];
      assert rows == front + [last];
      assert forall i :: 0 <= i < |front| ==> front[i] == rows[i];
      NothingRejected(front, reject);
    }
  }

  /** Without the alphabetic option a file with no empty field is copied unchanged. */
  lemma CompleteRowsCopied(rows: seq<Row>)
    requires forall i, j :: 0 <= i < |rows| && 0 <= j < |rows[i]| ==> rows[i][j] != ""
    ensures Kept(rows, Selected(false)) == rows
  {
    forall i | 0 <= i < |rows|
      ensures !Filter2(rows[i])
    {
    }
    NothingRejected(rows, Filter2);
  }

  /** The script's first-field _is_line_empty calls a row with a trailing value
      empty, and so disagrees with the unit test that expects it not to be. */
  lemma LineEmptyAsWrittenMisreadsTrailingData()
    ensures FirstFieldEmpty(["", "", "", "", "a"]) == Success(true)
    ensures FirstFieldEmpty(["", "", "", "", "", ""]) == Success(true)
  {
  }

  /** The all-fields reading agrees with both expectations of the unit test. */
  lemma LineEmptyCorrectedMatchesTests()
    ensures !IsLineEmpty(["", "", "", "", "a"])
    ensures IsLineEmpty(["", "", "", "", "", ""])
  {
    assert ["", "", "", "", "a"][4] != "";
  }
}
