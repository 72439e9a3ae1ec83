/** The sample table a rule reads: a fixed number of rows and named columns of equal
    length. Row labels are the positions 0 .. n-1, so label indexing is positional. */
module Frames {
  import opened Wrappers

  datatype Column = Reals(xs: seq<real>) | Texts(ss: seq<string>)
  {
    function Length(): nat
    {
      match this
      case Reals(xs) => |xs|
      case Texts(ss) => |ss|
    }

    /** The column restricted to the given rows, in the given order. */
    function Select(rows: seq<nat>): (c: Column)
      requires forall j :: 0 <= j < |rows| ==> rows[j] < Length()
      ensures c.Length() == |rows|
      ensures Reals? ==> c.Reals? && forall j :: 0 <= j < |rows| ==> rows[j] < |xs| && c.xs[j] == xs[rows[j]]
      ensures Texts? ==> c.Texts? && forall j :: 0 <= j < |rows| ==> rows[j] < |ss| && c.ss[j] == ss[rows[j]]
    {
      match this
      case Reals(xs) =>
        assert Length() == |xs|;
        Reals(seq(|rows|, j requires 0 <= j < |rows| && rows[j] < |xs| => xs[rows[j]]))
      case Texts(ss) =>
        assert Length() == |ss|;
        Texts(seq(|rows|, j requires 0 <= j < |rows| && rows[j] < |ss| => ss[rows[j]]))
    }
  }

  datatype Frame = Frame(n: nat, cols: map<string, Column>)
  {
    predicate Valid()
    {
      forall c :: c in cols ==> cols[c].Length() == n
    }
  }

  type ValidFrame = f: Frame | f.Valid() witness Frame(0, map[])

  /** The errors a malformed table or rule raises (never caught by the pass loop). */
  datatype Error =
    | KeyError(key: string)      // a column that is not in the table
    | RowKeyError(row: nat)      // a row label that is not in the table
    | TypeError(column: string)  // arithmetic or ordering on a text column

  /** The rows and columns of a report view all exist. */
  predicate ViewDefined(f: Frame, rows: seq<nat>, cols: seq<string>)
  {
    && (forall c :: c in cols ==> c in f.cols)
    && (forall j :: 0 <= j < |rows| ==> rows[j] < f.n)
  }

  /** view maps each report column to that column restricted to rows. */
  ghost predicate IsView(f: Frame, rows: seq<nat>, cols: seq<string>, view: map<string, Column>)
    requires f.Valid()
  {
    && ViewDefined(f, rows, cols)
    && view.Keys == (set c | c in cols)
    && forall c :: c in cols ==> view[c] == f.cols[c].Select(rows)
  }

  function FirstMissingColumn(cols: seq<string>, f: Frame): (r: Option<string>)
    ensures r.None? <==> forall c :: c in cols ==> c in f.cols
    ensures r.Some? ==> r.value in cols && r.value !in f.cols
  {
    if |cols| == 0 then None
    else if cols[0] !in f.cols then Some(cols[0])
    else FirstMissingColumn(cols[1..], f)
  }

  function FirstMissingRow(rows: seq<nat>, n: nat): (r: Option<nat>)
    ensures r.None? <==> forall j :: 0 <= j < |rows| ==> rows[j] < n
    ensures r.Some? ==> r.value in rows && r.value >= n
  {
    if |rows| == 0 then None
    else if rows[0] >= n then Some(rows[0])
    else FirstMissingRow(rows[1..], n)
  }

  /** The payload view of the report columns at the report rows, as a column-name to
      values dictionary. A missing column or row label raises a KeyError; which label
      is named when several are missing is a choice of this model: a missing column
      is named before a missing row, although pandas resolves the row axis first.
      The rules only pass row positions drawn from the condition series, which are
      always in range, so the two orders cannot be told apart there. */
  function View(f: Frame, rows: seq<nat>, cols: seq<string>): (r: Result<map<string, Column>, Error>)
    requires f.Valid()
    ensures r.Success? <==> ViewDefined(f, rows, cols)
    ensures r.Success? ==> IsView(f, rows, cols, r.value)
    ensures r.Failure? ==>
              || (r.error.KeyError? && r.error.key in cols && r.error.key !in f.cols)
              || (r.error.RowKeyError? && r.error.row in rows && r.error.row >= f.n)
  {
    match FirstMissingColumn(cols, f)
    case Some(c) => Failure(KeyError(c))
    case None =>
      match FirstMissingRow(rows, f.n)
      case Some(row) => Failure(RowKeyError(row))
      case None => Success(map c | c in cols :: f.cols[c].Select(rows))
  }
}
