/** Row predicates and row repair shared by the CSV cleaning scripts. A row is a
    sequence of text fields; the empty text marks a missing field. Letters and digits
    are the ASCII ones. */
module CleaningUtilities {
  import opened Wrappers

  type Row = seq<string>

  datatype CleaningError = IndexError(index: nat)  // a list index past the end

  /** Some field is empty (_is_any_text_empty). */
  function IsAnyTextEmpty(line: Row): (b: bool)
    ensures b <==> exists i :: 0 <= i < |line| && line[i] == ""
  {
    if |line| == 0 then false
    else if line[0] == "" then true
    else
      var rest := IsAnyTextEmpty(line[1..]);
      assert rest <==> exists i :: 1 <= i < |line| && line[i] == "" by {
        assert forall i :: 1 <= i < |line| ==> line[i] == line[1..][i - 1];
      }
      rest
  }

  /** Every field is empty; vacuously true of the empty row (the all-empty variant
      of _is_line_empty). */
  function IsLineEmpty(line: Row): (b: bool)
    ensures b <==> forall i :: 0 <= i < |line| ==> line[i] == ""
  {
    if |line| == 0 then true
    else if line[0] != "" then false
    else
      var rest := IsLineEmpty(line[1..]);
      assert rest <==> forall i :: 1 <= i < |line| ==> line[i] == "" by {
        assert forall i :: 1 <= i < |line| ==> line[i] == line[1..][i - 1];
      }
      rest
  }

  /** The first field is empty (the first-field variant of _is_line_empty); indexing
      the first field of an empty row raises. */
  function FirstFieldEmpty(line: Row): (r: Result<bool, CleaningError>)
    ensures r.Failure? <==> |line| == 0
    ensures r.Failure? ==> r.error == IndexError(0)
    ensures r.Success? ==> (r.value <==> line[0] == "")
  {
    if |line| == 0 then Failure(IndexError(0)) else Success(line[0] == "")
  }

  /** On a non-empty row, an all-empty row has an empty field and so has an empty
      first field; the converse fails for ["", "a"]. */
  lemma EmptyVariantsOrdered(line: Row)
    requires |line| > 0
    ensures IsLineEmpty(line) ==> IsAnyTextEmpty(line)
    ensures IsLineEmpty(line) ==> FirstFieldEmpty(line) == Success(true)
    ensures FirstFieldEmpty(line) == Success(true) ==> IsAnyTextEmpty(line)
  {
  }

  /** Filling is possible: every empty field has a field at the same index in the
      previous row. */
  predicate Fillable(row: Row, previous: Row)
  {
    forall i :: 0 <= i < |row| && row[i] == "" ==> i < |previous|
  }

  /** The reference result of filling: empty fields take the previous row's field at
      the same index, every other field is kept. */
  function Filled(row: Row, previous: Row): (r: Row)
    requires Fillable(row, previous)
    ensures |r| == |row|
  {
    seq(|row|, i requires 0 <= i < |row| => if row[i] == "" then previous[i] else row[i])
  }

  /** The repair loop of _fill_empty_line_with_previous_data and
      _replace_empty_with_previous_value: walk the row, replacing each empty field by
      the previous row's field at that index; the first empty field with no
      counterpart raises. */
  method FillFromPrevious(row: Row, previous: Row) returns (r: Result<Row, CleaningError>)
    ensures r.Success? <==> Fillable(row, previous)
    ensures r.Success? ==> r.value == Filled(row, previous)
    ensures r.Failure? ==>
              && r.error.index < |row| && row[r.error.index] == "" && r.error.index >= |previous|
              && forall i :: 0 <= i < r.error.index && row[i] == "" ==> i < |previous|
  {
    var line := row;
    for index := 0 to |row|
      invariant |line| == |row|
      invariant forall i :: 0 <= i < index && row[i] == "" ==> i < |previous|
      invariant forall i :: 0 <= i < index ==> line[i] == if row[i] == "" then previous[i] else row[i]
      invariant line[index..] == row[index..]
    {
      if line[index] == "" {
        if index >= |previous| {
          return Failure(IndexError(index));
        }
        line := line[index := previous[index]];
      }
    }
    return Success(line);
  }

  /** Filling twice with the same previous row changes nothing more. */
  lemma FillIdempotent(row: Row, previous: Row)
    requires Fillable(row, previous)
    ensures Fillable(Filled(row, previous), previous)
    ensures Filled(Filled(row, previous), previous) == Filled(row, previous)
  {
  }

  /** A previous row without empty fields leaves no empty field behind. */
  lemma FillRemovesEmpties(row: Row, previous: Row)
    requires Fillable(row, previous)
    requires !IsAnyTextEmpty(previous)
    ensures !IsAnyTextEmpty(Filled(row, previous))
  {
    var r := Filled(row, previous);
    forall i | 0 <= i < |r| ensures r[i] != "" {
      if row[i] == "" {
        assert r[i] == previous[i];
      }
    }
  }

  /** The number of non-empty fields. */
  function CountNonEmpty(line: Row): (n: nat)
    ensures n <= |line|
    ensures n == 0 <==> forall i :: 0 <= i < |line| ==> line[i] == ""
  {
    if |line| == 0 then 0
    else CountNonEmpty(line[..|line| - 1]) + (if line[|line| - 1] != "" then 1 else 0)
  }

  /** _is_number_of_colmns_match_header_columns: count the non-empty and the empty
      fields; the row matches when the non-empty count equals the header count. */
  method ColumnsMatchHeaders(line: Row, nHeaders: int) returns (b: bool)
    ensures b <==> CountNonEmpty(line) == nHeaders
  {
    var nEmpty: nat := 0;
    var nNotEmpty: nat := 0;
    for i := 0 to |line|
      invariant nNotEmpty == CountNonEmpty(line[..i])
      invariant nEmpty + nNotEmpty == i
    {
      assert line[..i + 1][..i] == line[..i];
      if line[i] != "" {
        nNotEmpty := nNotEmpty + 1;
      } else {
        nEmpty := nEmpty + 1;
      }
    }
    assert line[..|line|] == line;
    b := nNotEmpty == nHeaders;
  }

  /** A row matches its own width exactly when no field is empty. */
  lemma {:induction false} FullWidthIffNoEmpty(line: Row)
    ensures CountNonEmpty(line) == |line| <==> !IsAnyTextEmpty(line)
  {
    if |line| > 0 {
      var front := line[..|line| - 1];
      FullWidthIffNoEmpty(front);
      assert forall i :: 0 <= i < |front| ==> front[i] == line[i];
      if IsAnyTextEmpty(front) {
        var i :| 0 <= i < |front| && front[i] == "";
        assert line[i] == "";
      }
    }
  }

  predicate IsAsciiDigit(c: char)
  {
    '0' <= c <= '9'
  }

  predicate IsAsciiLetter(c: char)
  {
    ('a' <= c <= 'z') || ('A' <= c <= 'Z')
  }

  /** text.replace('.', '', 1): drop the first full stop, if any. */
  function RemoveFirstDot(s: string): (r: string)
    ensures '.' !in s ==> r == s
    ensures '.' in s ==> |r| == |s| - 1
  {
    if |s| == 0 then s
    else if s[0] == '.' then s[1..]
    else
      assert '.' in s <==> '.' in s[1..] by { assert s == [s[0]] + s[1..]; }
      [s[0]] + RemoveFirstDot(s[1..])
  }

  /** .isnumeric() after dropping the first full stop: non-empty and all digits. */
  predicate IsNumericToken(t: string)
  {
    var u := RemoveFirstDot(t);
    |u| > 0 && forall i :: 0 <= i < |u| ==> IsAsciiDigit(u[i])
  }

  /** .isalpha(): non-empty and all letters. */
  predicate IsAlphaToken(t: string)
  {
    |t| > 0 && forall i :: 0 <= i < |t| ==> IsAsciiLetter(t[i])
  }

  /** A numeric token is a non-empty run of digits with at most one full stop
      somewhere in it (".5", "5." and "1.02" count; "." and "1.0.2" do not). */
  lemma {:induction false} NumericTokenShape(t: string)
    ensures IsNumericToken(t) <==>
              || (|t| > 0 && forall i :: 0 <= i < |t| ==> IsAsciiDigit(t[i]))
              || (exists k :: 0 <= k < |t| && t[k] == '.' && |t| > 1
                               && (forall i :: 0 <= i < |t| && i != k ==> IsAsciiDigit(t[i])))
  {
    if '.' !in t {
      forall k | 0 <= k < |t| ensures t[k] != '.' { }
    } else {
      var k :| 0 <= k < |t| && t[k] == '.' && '.' !in t[..k] by {
        FirstDot(t);
      }
      RemoveAt(t, k);
      var u := RemoveFirstDot(t);
      assert u == t[..k] + t[k + 1..];
      if IsNumericToken(t) {
        forall i | 0 <= i < |t| && i != k ensures IsAsciiDigit(t[i]) {
          if i < k { assert t[i] == u[i]; } else { assert t[i] == u[i - 1]; }
        }
      }
      if exists j :: 0 <= j < |t| && t[j] == '.' && |t| > 1 && (forall i :: 0 <= i < |t| && i != j ==> IsAsciiDigit(t[i])) {
        var j :| 0 <= j < |t| && t[j] == '.' && |t| > 1 && (forall i :: 0 <= i < |t| && i != j ==> IsAsciiDigit(t[i]));
        assert j == k;
        forall i | 0 <= i < |u| ensures IsAsciiDigit(u[i]) {
          if i < k { assert u[i] == t[i]; } else { assert u[i] == t[i + 1]; }
        }
      }
    }
  }

  /** A string holding a full stop has a first one. */
  lemma {:induction false} FirstDot(t: string)
    requires '.' in t
    ensures exists k :: 0 <= k < |t| && t[k] == '.' && '.' !in t[..k]
  {
    if t[0] == '.' {
      assert t[..0] == [];
    } else {
      assert '.' in t[1..] by { assert t == [t[0]] + t[1..]; }
      FirstDot(t[1..]);
      var k :| 0 <= k < |t[1..]| && t[1..][k] == '.' && '.' !in t[1..][..k];
      assert t[..k + 1] == [t[0]] + t[1..][..k];
    }
  }

  /** Dropping the first full stop removes exactly the character at its index. */
  lemma {:induction false} RemoveAt(t: string, k: nat)
    requires k < |t| && t[k] == '.' && '.' !in t[..k]
    ensures RemoveFirstDot(t) == t[..k] + t[k + 1..]
  {
    if k > 0 {
      assert t[0] == t[..k][0];
      assert '.' !in t[1..][..k - 1] by { assert t[1..][..k - 1] == t[..k][1..]; }
      RemoveAt(t[1..], k - 1);
      assert t[..k] == [t[0]] + t[1..][..k - 1];
      assert t[k + 1..] == t[1..][k..];
    }
  }

  /** Numeric and alphabetic tokens are disjoint, so the order of the two tests does
      not matter. */
  lemma NumericNotAlpha(t: string)
    ensures !(IsNumericToken(t) && IsAlphaToken(t))
  {
    NumericTokenShape(t);
  }

  /** How many fields count as numeric and how many as alphabetic. */
  datatype Tally = Tally(numeric: nat, alphabetic: nat)

  function Count(line: Row): (t: Tally)
    ensures t.numeric + t.alphabetic <= |line|
  {
    if |line| == 0 then Tally(0, 0)
    else
      var t := Count(line[..|line| - 1]);
      var last := line[|line| - 1];
      if IsNumericToken(last) then Tally(t.numeric + 1, t.alphabetic)
      else if IsAlphaToken(last) then Tally(t.numeric, t.alphabetic + 1)
      else t
  }

  /** Counting distributes over concatenated rows. */
  lemma {:induction false} CountAppend(a: Row, b: Row)
    ensures Count(a + b) == Tally(Count(a).numeric + Count(b).numeric, Count(a).alphabetic + Count(b).alphabetic)
    decreases |b|
  {
    if |b| == 0 {
      assert a + b == a;
    } else {
      assert (a + b)[..|a + b| - 1] == a + b[..|b| - 1];
      CountAppend(a, b[..|b| - 1]);
    }
  }

  /** _is_line_primarily_numeric: false when no field counts; otherwise false exactly
      when the alphabetic share reaches the threshold. */
  function IsLinePrimarilyNumeric(line: Row, threshold: real): (b: bool)
    ensures b ==> Count(line).numeric + Count(line).alphabetic > 0
    ensures |line| == 0 ==> !b
    ensures threshold <= 0.0 ==> !b
    ensures Count(line).numeric > 0 && Count(line).alphabetic == 0 && threshold > 0.0 ==> b
  {
    var t := Count(line);
    if t.alphabetic + t.numeric == 0 then false
    else if |line| == 0 then false
    else if (t.alphabetic as real) / ((t.alphabetic + t.numeric) as real) >= threshold then false
    else true
  }

  const DefaultThreshold: real := 0.05

  /** With the default threshold the test is exact integer arithmetic: fewer than
      one alphabetic field in twenty counted fields. */
  lemma DefaultThresholdExact(line: Row)
    ensures IsLinePrimarilyNumeric(line, DefaultThreshold) <==>
              var t := Count(line);
              t.numeric + t.alphabetic > 0 && 20 * t.alphabetic < t.numeric + t.alphabetic
  {
    var t := Count(line);
    if t.numeric + t.alphabetic > 0 {
      var total := (t.alphabetic + t.numeric) as real;
      var a := t.alphabetic as real;
      RatioAtLeast(a, total, DefaultThreshold);
      assert (20 * t.alphabetic) as real == 20.0 * a;
    }
  }

  lemma RatioAtLeast(a: real, total: real, threshold: real)
    requires total > 0.0
    ensures a / total >= threshold <==> a >= threshold * total
  {
    var q := a / total;
    assert q * total == a;
    if q >= threshold {
      assert q * total >= threshold * total;
    } else {
      assert q * total < threshold * total;
    }
  }

  lemma DivAntitone(a: real, n: real, m: real)
    requires 0.0 <= a && 0.0 < n <= m
    ensures a / m <= a / n
  {
    var x := a / m;
    var y := a / n;
    assert x * m == a && y * n == a;
  }

  /** Appending a numeric field never turns a primarily numeric row into one that
      is not, for any threshold. */
  lemma AppendNumericKeepsNumeric(line: Row, t: string, threshold: real)
    requires IsNumericToken(t)
    requires IsLinePrimarilyNumeric(line, threshold)
    ensures IsLinePrimarilyNumeric(line + [t], threshold)
  {
    assert (line + [t])[..|line + [t]| - 1] == line;
    var c := Count(line);
    assert Count(line + [t]) == Tally(c.numeric + 1, c.alphabetic);
    var a := c.alphabetic as real;
    var n := (c.alphabetic + c.numeric) as real;
    DivAntitone(a, n, n + 1.0);
    assert ((c.alphabetic + c.numeric + 1) as real) == n + 1.0;
  }

  /** A row of numeric fields counts every field as numeric. */
  lemma {:induction false} AllNumericCount(line: Row)
    requires forall i :: 0 <= i < |line| ==> IsNumericToken(line[i])
    ensures Count(line) == Tally(|line|, 0)
  {
    if |line| > 0 {
      AllNumericCount(line[..|line| - 1]);
    }
  }

  function Repeat(t: string, n: nat): (r: Row)
    ensures |r| == n && forall i :: 0 <= i < n ==> r[i] == t
  {
    if n == 0 then [] else Repeat(t, n - 1) + [t]
  }

  lemma {:induction false} CountRepeat(t: string, n: nat)
    ensures IsNumericToken(t) ==> Count(Repeat(t, n)) == Tally(n, 0)
    ensures !IsNumericToken(t) && IsAlphaToken(t) ==> Count(Repeat(t, n)) == Tally(0, n)
  {
    if n > 0 {
      CountRepeat(t, n - 1);
      assert Repeat(t, n)[..n - 1] == Repeat(t, n - 1);
    }
  }

  /** The digit fields "1" to "9". */
  lemma NineDigits()
    ensures Count(["1", "2", "3", "4", "5", "6", "7", "8", "9"]) == Tally(9, 0)
  {
    var nine := ["1", "2", "3", "4", "5", "6", "7", "8", "9"];
    assert forall i :: 0 <= i < 9 ==> IsNumericToken(nine[i]) && RemoveFirstDot(nine[i]) == nine[i];
    AllNumericCount(nine);
  }

  /** Worked example: ten digit fields are primarily numeric. */
  lemma TenDigitsNumeric()
    ensures IsLinePrimarilyNumeric(["1", "2", "3", "4", "5", "6", "7", "8", "9", "10"], DefaultThreshold)
  {
    var nine := ["1", "2", "3", "4", "5", "6", "7", "8", "9"];
    NineDigits();
    assert RemoveFirstDot("10") == "10";
    var line := nine + ["10"];
    assert line[..9] == nine;
    assert Count(line) == Tally(10, 0);
    assert line == ["1", "2", "3", "4", "5", "6", "7", "8", "9", "10"];
  }

  /** Worked example: nine digits and one letter are not (10% >= 5%). */
  lemma OneLetterInTen()
    ensures !IsLinePrimarilyNumeric(["1", "2", "3", "4", "5", "6", "7", "8", "9", "a"], DefaultThreshold)
  {
    var nine := ["1", "2", "3", "4", "5", "6", "7", "8", "9"];
    NineDigits();
    assert RemoveFirstDot("a") == "a";
    var line := nine + ["a"];
    assert line[..9] == nine;
    assert Count(line) == Tally(9, 1);
    DefaultThresholdExact(line);
    assert line == ["1", "2", "3", "4", "5", "6", "7", "8", "9", "a"];
  }

  /** Worked example: 96 copies of "1.02" and four letters are (4% < 5%). */
  lemma FourLettersInHundred()
    ensures IsLinePrimarilyNumeric(Repeat("1.02", 96) + Repeat("a", 4), DefaultThreshold)
  {
    var nums := Repeat("1.02", 96);
    var letters := Repeat("a", 4);
    assert IsNumericToken("1.02") by {
      assert RemoveFirstDot("1.02") == "102";
    }
    assert !IsNumericToken("a") && IsAlphaToken("a") by {
      assert RemoveFirstDot("a") == "a";
    }
    CountRepeat("1.02", 96);
    CountRepeat("a", 4);
    assert Count(nums) == Tally(96, 0);
    assert Count(letters) == Tally(0, 4);
    CountAppend(nums, letters);
    assert Count(nums + letters) == Tally(96, 4);
    DefaultThresholdExact(nums + letters);
  }
}
