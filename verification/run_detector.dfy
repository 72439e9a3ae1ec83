/** The run-onset ("rising edge") detector: one left-to-right scan over a boolean
    condition series that reports where each maximal run of true values reaching
    length k begins, once per run. */
module RunDetector {
  import opened Wrappers

  /** data[i..i+k) lies inside the series and is all true. */
  predicate RunAt(data: seq<bool>, i: int, k: int)
  {
    0 <= i && i + k <= |data| && forall j :: i <= j < i + k ==> data[j]
  }

  /** i starts a maximal run of true values that is at least k long. */
  predicate IsOnset(data: seq<bool>, k: int, i: int)
  {
    k >= 1 && RunAt(data, i, k) && (i == 0 || !data[i - 1])
  }

  /** [s, e) is a maximal run of true values. */
  ghost predicate MaximalRun(data: seq<bool>, s: int, e: int)
  {
    && 0 <= s < e <= |data|
    && (forall j :: s <= j < e ==> data[j])
    && (s == 0 || !data[s - 1])
    && (e == |data| || !data[e])
  }

  /** Number of true values immediately before position n: the detector's count. */
  function TrailingTrues(data: seq<bool>, n: nat): (c: nat)
    requires n <= |data|
    ensures c <= n
  {
    if n == 0 || !data[n - 1] then 0 else TrailingTrues(data, n - 1) + 1
  }

  lemma {:induction false} TrailingTruesAtLeast(data: seq<bool>, n: nat, m: nat)
    requires n <= |data|
    ensures TrailingTrues(data, n) >= m <==> m <= n && forall j :: n - m <= j < n ==> data[j]
    decreases n
  {
    if n == 0 || m == 0 {
    } else if !data[n - 1] {
      assert !(m <= n && forall j :: n - m <= j < n ==> data[j]) by {
        assert m <= n ==> n - m <= n - 1 < n;
      }
    } else {
      TrailingTruesAtLeast(data, n - 1, m - 1);
    }
  }

  /** An onset is exactly a position whose k-th successor sees a run of exactly k. */
  lemma OnsetByTrailingTrues(data: seq<bool>, k: int, i: int)
    requires 1 <= k && 0 <= i && i + k <= |data|
    ensures IsOnset(data, k, i) <==> TrailingTrues(data, i + k) == k
  {
    TrailingTruesAtLeast(data, i + k, k);
    TrailingTruesAtLeast(data, i + k, k + 1);
    if i > 0 && data[i - 1] && RunAt(data, i, k) {
      assert forall j :: i + k - (k + 1) <= j < i + k ==> data[j];
    }
  }

  /** The onsets below n, ascending: the reference definition of the scan. */
  function OnsetsBelow(data: seq<bool>, k: int, n: nat): (r: seq<nat>)
    ensures forall j :: j in r <==> j < n && IsOnset(data, k, j)
    ensures StrictlyIncreasing(r)
    ensures forall j :: 0 <= j < |r| ==> r[j] < n
  {
    if n == 0 then []
    else OnsetsBelow(data, k, n - 1) + (if IsOnset(data, k, n - 1) then [n - 1] else [])
  }

  /** All onsets of runs of length at least k. */
  function Onsets(data: seq<bool>, k: int): (r: seq<nat>)
    ensures forall j :: j in r <==> IsOnset(data, k, j)
    ensures StrictlyIncreasing(r)
    ensures forall j :: j in r ==> j + k <= |data|
    ensures k < 1 || k > |data| ==> r == []
  {
    if 1 <= k <= |data| then OnsetsBelow(data, k, |data| - k + 1) else []
  }

  /** How many onsets the scan has settled after reading i elements. */
  function Settled(i: nat, k: int): nat
  {
    if k >= 1 && i >= k then i - k + 1 else 0
  }

  /** Reading element i settles at most one more onset: i + 1 - k, exactly when the
      run ending at i has just reached length k. */
  lemma ScanStep(data: seq<bool>, k: int, i: nat)
    requires i < |data|
    ensures OnsetsBelow(data, k, Settled(i + 1, k))
         == OnsetsBelow(data, k, Settled(i, k))
          + (if k >= 1 && TrailingTrues(data, i + 1) == k then [i + 1 - k] else [])
  {
    var settled := Settled(i, k);
    if k >= 1 && i + 1 >= k {
      assert settled == i + 1 - k && Settled(i + 1, k) == settled + 1;
      OnsetByTrailingTrues(data, k, settled);
    } else {
      assert Settled(i + 1, k) == settled;
    }
  }

  /** The scan of masked_consecutive_elements: a running count of consecutive true
      values and a flag recording whether the current run was already reported. */
  method MaskedConsecutiveElements(data: seq<bool>, k: int) returns (risingEdge: seq<nat>)
    ensures risingEdge == Onsets(data, k)
  {
    risingEdge := [];
    var pushed := false;
    var count: nat := 0;
    for i := 0 to |data|
      invariant count == TrailingTrues(data, i)
      invariant pushed == (k >= 1 && count >= k)
      invariant risingEdge == OnsetsBelow(data, k, Settled(i, k))
    {
      ScanStep(data, k, i);
      ghost var reached := k >= 1 && TrailingTrues(data, i + 1) == k;
      if data[i] {
        count := count + 1;
        assert count == TrailingTrues(data, i + 1);
        assert reached <==> count == k && !pushed;
        if count == k && !pushed {
          risingEdge := risingEdge + [i - k + 1];
          pushed := true;
        }
      } else {
        assert !reached;
        count := 0;
        pushed := false;
      }
    }
  }

  /** Each maximal run is reported once, at its start, exactly when it is long enough;
      no position inside a run is ever reported. */
  lemma OnePerMaximalRun(data: seq<bool>, k: int, s: int, e: int)
    requires MaximalRun(data, s, e)
    ensures s in Onsets(data, k) <==> k >= 1 && e - s >= k
    ensures forall j :: s < j < e ==> j !in Onsets(data, k)
  {
    if k >= 1 && e - s < k && e < |data| {
      assert !data[e] && s <= e < s + k;
    }
  }

  lemma {:induction false} RunHasOnset(data: seq<bool>, k: int, i: int)
    requires k >= 1 && RunAt(data, i, k)
    ensures exists j :: 0 <= j <= i && IsOnset(data, k, j)
    decreases i
  {
    if i == 0 || !data[i - 1] {
      assert IsOnset(data, k, i);
    } else {
      assert RunAt(data, i - 1, k);
      RunHasOnset(data, k, i - 1);
    }
  }

  /** Something is reported exactly when the series holds k consecutive true values. */
  lemma OnsetsNonEmptyIff(data: seq<bool>, k: int)
    ensures |Onsets(data, k)| > 0 <==> k >= 1 && exists i :: RunAt(data, i, k)
  {
    if k >= 1 && exists i :: RunAt(data, i, k) {
      var i :| RunAt(data, i, k);
      RunHasOnset(data, k, i);
      var j :| 0 <= j <= i && IsOnset(data, k, j);
      assert j in Onsets(data, k);
    }
    if |Onsets(data, k)| > 0 {
      assert IsOnset(data, k, Onsets(data, k)[0]);
    }
  }

  /** The worked examples of the scan: a run of four starting at 3. */
  lemma ExampleRunAtThree()
    ensures Onsets([false, false, false, true, true, true, true, false, false, false], 3) == [3]
  {
    var d := [false, false, false, true, true, true, true, false, false, false];
    assert !d[0] && !d[1] && !d[2] && !d[7] && !d[8] && !d[9];
    assert d[3] && d[4] && d[5] && d[6];
    assert IsOnset(d, 3, 3) by { assert RunAt(d, 3, 3); }
    assert OnsetsBelow(d, 3, 1) == [];
    assert OnsetsBelow(d, 3, 2) == [];
    assert OnsetsBelow(d, 3, 3) == [];
    assert OnsetsBelow(d, 3, 4) == [3];
    assert OnsetsBelow(d, 3, 5) == [3];
    assert OnsetsBelow(d, 3, 6) == [3];
    assert OnsetsBelow(d, 3, 7) == [3];
    assert OnsetsBelow(d, 3, 8) == [3];
  }

  /** A run of five starting at 2. */
  lemma ExampleRunAtTwo()
    ensures Onsets([false, false, true, true, true, true, true, false, false, false], 3) == [2]
  {
    var d := [false, false, true, true, true, true, true, false, false, false];
    assert !d[0] && !d[1] && !d[7] && !d[8] && !d[9];
    assert d[2] && d[3] && d[4] && d[5] && d[6];
    assert IsOnset(d, 3, 2) by { assert RunAt(d, 2, 3); }
    assert OnsetsBelow(d, 3, 1) == [];
    assert OnsetsBelow(d, 3, 2) == [];
    assert OnsetsBelow(d, 3, 3) == [2];
    assert OnsetsBelow(d, 3, 4) == [2];
    assert OnsetsBelow(d, 3, 5) == [2];
    assert OnsetsBelow(d, 3, 6) == [2];
    assert OnsetsBelow(d, 3, 7) == [2];
    assert OnsetsBelow(d, 3, 8) == [2];
  }

  /** A run of seven with k = 3 is reported once, at its start. */
  lemma ExampleLongRun()
    ensures Onsets([true, true, true, true, true, true, true, false, false, false], 3) == [0]
  {
    var d := [true, true, true, true, true, true, true, false, false, false];
    assert !d[7] && !d[8] && !d[9];
    assert d[0] && d[1] && d[2] && d[3] && d[4] && d[5] && d[6];
    assert IsOnset(d, 3, 0) by { assert RunAt(d, 0, 3); }
    assert OnsetsBelow(d, 3, 1) == [0];
    assert OnsetsBelow(d, 3, 2) == [0];
    assert OnsetsBelow(d, 3, 3) == [0];
    assert OnsetsBelow(d, 3, 4) == [0];
    assert OnsetsBelow(d, 3, 5) == [0];
    assert OnsetsBelow(d, 3, 6) == [0];
    assert OnsetsBelow(d, 3, 7) == [0];
    assert OnsetsBelow(d, 3, 8) == [0];
  }

  /** A run of exactly k starting at 4. */
  lemma ExampleRunAtFour()
    ensures Onsets([false, false, false, false, true, true, true, false, false, false], 3) == [4]
  {
    var d := [false, false, false, false, true, true, true, false, false, false];
    assert !d[0] && !d[1] && !d[2] && !d[3] && !d[7] && !d[8] && !d[9];
    assert d[4] && d[5] && d[6];
    assert IsOnset(d, 3, 4) by { assert RunAt(d, 4, 3); }
    assert OnsetsBelow(d, 3, 1) == [];
    assert OnsetsBelow(d, 3, 2) == [];
    assert OnsetsBelow(d, 3, 3) == [];
    assert OnsetsBelow(d, 3, 4) == [];
    assert OnsetsBelow(d, 3, 5) == [4];
    assert OnsetsBelow(d, 3, 6) == [4];
    assert OnsetsBelow(d, 3, 7) == [4];
    assert OnsetsBelow(d, 3, 8) == [4];
  }

  /** A false value inside a window rules out a run there. */
  lemma BrokenRun(data: seq<bool>, i: int, k: int, j: int)
    requires i <= j < i + k && 0 <= j < |data| && !data[j]
    ensures !RunAt(data, i, k)
  {
  }

  /** Two runs separated by false values are reported independently. */
  lemma ExampleSeparatedRuns()
    ensures Onsets([false, false, false, false, true, true, true, false, false, false, true, true, true], 3) == [4, 10]
  {
    var d := [false, false, false, false, true, true, true, false, false, false, true, true, true];
    assert !d[0] && !d[1] && !d[2] && !d[3] && !d[7] && !d[8] && !d[9];
    assert d[4] && d[5] && d[6] && d[10] && d[11] && d[12];
    BrokenRun(d, 0, 3, 0);
    BrokenRun(d, 1, 3, 1);
    BrokenRun(d, 2, 3, 2);
    BrokenRun(d, 3, 3, 3);
    BrokenRun(d, 7, 3, 7);
    BrokenRun(d, 8, 3, 8);
    BrokenRun(d, 9, 3, 9);
    assert IsOnset(d, 3, 4) by { assert RunAt(d, 4, 3); }
    assert IsOnset(d, 3, 10) by { assert RunAt(d, 10, 3); }
    assert !IsOnset(d, 3, 5) && !IsOnset(d, 3, 6);
    assert OnsetsBelow(d, 3, 1) == [];
    assert OnsetsBelow(d, 3, 2) == [];
    assert OnsetsBelow(d, 3, 3) == [];
    assert OnsetsBelow(d, 3, 4) == [];
    assert OnsetsBelow(d, 3, 5) == [4];
    assert OnsetsBelow(d, 3, 6) == [4];
    assert OnsetsBelow(d, 3, 7) == [4];
    assert OnsetsBelow(d, 3, 8) == [4];
    assert OnsetsBelow(d, 3, 9) == [4];
    assert OnsetsBelow(d, 3, 10) == [4];
    assert OnsetsBelow(d, 3, 11) == [4, 10];
  }
}
