/** The two threshold checks every rule applies to its condition series: the
    proportional check (too many true samples) and the consecutive check (a run of
    true samples that is too long). Each either returns normally or raises one fault
    carrying the numbers its message reports and a view of the offending rows. */
module Thresholds {
  import opened Wrappers
  import opened Frames
  import opened RunDetector

  /** The numbers a fault message carries. */
  datatype Summary =
    | TooMany(allowed: int, percent: real, observed: nat)
    | TooLong(threshold: int, onsets: nat)

  /** A raised fault: the rule's description, the quantitative summary, the reported
      row positions and the report columns restricted to those rows. */
  datatype Fault = Fault(description: string, summary: Summary, rows: seq<nat>, view: map<string, Column>)

  type Verdict = Outcome<Fault, Error>

  /** The number of true samples (the sum of a boolean series). */
  function CountTrue(mask: seq<bool>): (c: nat)
    ensures c <= |mask|
  {
    if |mask| == 0 then 0
    else CountTrue(mask[..|mask| - 1]) + (if mask[|mask| - 1] then 1 else 0)
  }

  /** rows are the first |rows| true positions of mask, in ascending order: the i-th
      entry is true and has exactly i true samples before it. */
  ghost predicate FirstTrueIndices(mask: seq<bool>, rows: seq<nat>)
  {
    forall i :: 0 <= i < |rows| ==> rows[i] < |mask| && mask[rows[i]] && CountTrue(mask[..rows[i]]) == i
  }

  /** The positions of the true samples (nonzero()[0]). */
  function TrueIndices(mask: seq<bool>): (r: seq<nat>)
    ensures forall j: int :: j in r <==> 0 <= j < |mask| && mask[j]
    ensures StrictlyIncreasing(r)
    ensures |r| == CountTrue(mask)
  {
    if |mask| == 0 then []
    else
      var front := TrueIndices(mask[..|mask| - 1]);
      assert forall i :: 0 <= i < |front| ==> front[i] in front;
      front + (if mask[|mask| - 1] then [|mask| - 1] else [])
  }

  /** nonzero() lists the true positions in rank order. */
  lemma {:induction false} TrueIndicesRank(mask: seq<bool>)
    ensures FirstTrueIndices(mask, TrueIndices(mask))
  {
    if |mask| > 0 {
      var front := mask[..|mask| - 1];
      TrueIndicesRank(front);
      var r := TrueIndices(mask);
      var r' := TrueIndices(front);
      forall i | 0 <= i < |r| ensures r[i] < |mask| && mask[r[i]] && CountTrue(mask[..r[i]]) == i {
        if i < |r'| {
          assert r[i] == r'[i] && front[..r'[i]] == mask[..r[i]];
        } else {
          assert r[i] == |mask| - 1 && mask[..r[i]] == front;
        }
      }
    }
  }

  /** Python's slice xs[:n]: the first n elements, or all but the last -n when n is
      negative. */
  function PyPrefix<T>(xs: seq<T>, n: int): (r: seq<T>)
    ensures 0 <= n ==> |r| == if n <= |xs| then n else |xs|
    ensures n < 0 ==> |r| == if -n <= |xs| then |xs| + n else 0
    ensures r == xs[..|r|]
  {
    if 0 <= n then (if n <= |xs| then xs[..n] else xs)
    else (if -n <= |xs| then xs[..|xs| + n] else [])
  }

  /** floor(percent * n): the number of true samples the proportional check allows. */
  function MaxFailures(percent: real, n: nat): int
  {
    (percent * n as real).Floor
  }

  /** The allowance is the floor of percent * n, and is never negative for a
      non-negative percentage. */
  lemma MaxFailuresIsFloor(percent: real, n: nat)
    ensures MaxFailures(percent, n) as real <= percent * n as real < MaxFailures(percent, n) as real + 1.0
    ensures 0.0 <= percent ==> 0 <= MaxFailures(percent, n)
  {
    if 0.0 <= percent {
      assert 0.0 <= percent * n as real;
    }
  }

  /** The rows the proportional check reports lie inside the series and, for a
      non-negative allowance, are exactly the first maxFailures true positions. */
  lemma {:induction false} ReportRows(mask: seq<bool>, maxFailures: int, rows: seq<nat>)
    requires CountTrue(mask) > maxFailures
    requires rows == PyPrefix(TrueIndices(mask), maxFailures)
    ensures forall j :: 0 <= j < |rows| ==> rows[j] < |mask|
    ensures 0 <= maxFailures ==> |rows| == maxFailures
    ensures 0 <= maxFailures ==> FirstTrueIndices(mask, rows)
  {
    var all := TrueIndices(mask);
    TrueIndicesRank(mask);
    assert forall i :: 0 <= i < |rows| ==> rows[i] == all[i] && all[i] in all;
  }

  /** maximum_allowed_failures: raise when more than floor(percent * N) samples are
      true, reporting only the first floor(percent * N) of them. */
  function MaximumAllowedFailures(mask: seq<bool>, f: Frame, percent: real, cols: seq<string>, msg: string): (r: Verdict)
    requires f.Valid()
    ensures r.Passed? <==> CountTrue(mask) <= MaxFailures(percent, |mask|)
    ensures r.Raised? ==> r.fault.description == msg
    ensures r.Raised? ==> r.fault.summary == TooMany(MaxFailures(percent, |mask|), percent, CountTrue(mask))
    ensures r.Raised? ==> IsView(f, r.fault.rows, cols, r.fault.view)
    ensures r.Raised? && 0.0 <= percent ==>
              |r.fault.rows| == MaxFailures(percent, |mask|) && FirstTrueIndices(mask, r.fault.rows)
    ensures |mask| <= f.n ==>
              (r.Failed? <==> CountTrue(mask) > MaxFailures(percent, |mask|) && exists c :: c in cols && c !in f.cols)
  {
    var maxFailures := MaxFailures(percent, |mask|);
    var observed := CountTrue(mask);
    if observed > maxFailures then
      var rows := PyPrefix(TrueIndices(mask), maxFailures);
      ReportRows(mask, maxFailures, rows);
      MaxFailuresIsFloor(percent, |mask|);
      match View(f, rows, cols)
      case Success(view) => Raised(Fault(msg, TooMany(maxFailures, percent, observed), rows, view))
      case Failure(e) =>
        assert |mask| <= f.n ==> !(forall c :: c in cols ==> c in f.cols);
        Failed(e)
    else
      Passed
  }

  /** maximum_consecutive_failures: raise when some run of true samples reaches length
      k, reporting every run onset. */
  function MaximumConsecutiveFailures(mask: seq<bool>, f: Frame, k: int, cols: seq<string>, msg: string): (r: Verdict)
    requires f.Valid()
    ensures r.Passed? <==> !(k >= 1 && exists i :: RunAt(mask, i, k))
    ensures r.Raised? ==> r.fault.description == msg && r.fault.summary == TooLong(k, |r.fault.rows|)
    ensures r.Raised? ==> (forall j :: j in r.fault.rows <==> IsOnset(mask, k, j)) && StrictlyIncreasing(r.fault.rows)
    ensures r.Raised? ==> IsView(f, r.fault.rows, cols, r.fault.view)
    ensures |mask| <= f.n ==>
              (r.Failed? <==> (k >= 1 && exists i :: RunAt(mask, i, k)) && exists c :: c in cols && c !in f.cols)
  {
    var onsets := Onsets(mask, k);
    OnsetsNonEmptyIff(mask, k);
    if |onsets| > 0 then
      assert forall j :: 0 <= j < |onsets| ==> onsets[j] in onsets;
      match View(f, onsets, cols)
      case Success(view) => Raised(Fault(msg, TooLong(k, |onsets|), onsets, view))
      case Failure(e) => Failed(e)
    else
      Passed
  }

  /** The thresholds, report columns and message lead-ins of one rule. The rules
      that call the two checks pass one message to both; the rules that inline
      them word the two messages differently. */
  datatype Config = Config(percent: real, consecutive: int, columns: seq<string>, tooManyText: string, tooLongText: string)

  /** Neither threshold is exceeded. */
  ghost predicate Tolerated(mask: seq<bool>, percent: real, k: int)
  {
    CountTrue(mask) <= MaxFailures(percent, |mask|) && !(k >= 1 && exists i :: RunAt(mask, i, k))
  }

  /** The check order of every rule: the proportional check first; the consecutive
      check runs only when the proportional check returned normally, so a rule raises
      at most one fault per call. */
  function Check(mask: seq<bool>, f: Frame, cfg: Config): (r: Verdict)
    requires f.Valid()
    ensures r.Passed? <==> Tolerated(mask, cfg.percent, cfg.consecutive)
    ensures CountTrue(mask) > MaxFailures(cfg.percent, |mask|) ==>
              r == MaximumAllowedFailures(mask, f, cfg.percent, cfg.columns, cfg.tooManyText)
    ensures CountTrue(mask) <= MaxFailures(cfg.percent, |mask|) ==>
              r == MaximumConsecutiveFailures(mask, f, cfg.consecutive, cfg.columns, cfg.tooLongText)
    ensures r.Raised? && r.fault.summary.TooLong? ==> CountTrue(mask) <= MaxFailures(cfg.percent, |mask|)
    ensures r.Raised? ==> IsView(f, r.fault.rows, cfg.columns, r.fault.view)
  {
    match MaximumAllowedFailures(mask, f, cfg.percent, cfg.columns, cfg.tooManyText)
    case Passed => MaximumConsecutiveFailures(mask, f, cfg.consecutive, cfg.columns, cfg.tooLongText)
    case other => other
  }

  /** Exactly floor(p * N) true samples never raise the proportional check; one more
      always does. */
  lemma ProportionalBoundary(mask: seq<bool>, f: Frame, percent: real, cols: seq<string>, msg: string)
    requires f.Valid()
    ensures CountTrue(mask) == MaxFailures(percent, |mask|) ==> MaximumAllowedFailures(mask, f, percent, cols, msg).Passed?
    ensures CountTrue(mask) == MaxFailures(percent, |mask|) + 1 ==> !MaximumAllowedFailures(mask, f, percent, cols, msg).Passed?
  {
  }

  /** With a zero percentage a single true sample raises, and the payload is empty. */
  lemma ZeroPercent(mask: seq<bool>, f: Frame, cols: seq<string>, msg: string)
    requires f.Valid() && CountTrue(mask) >= 1
    ensures MaxFailures(0.0, |mask|) == 0
    ensures var r := MaximumAllowedFailures(mask, f, 0.0, cols, msg);
            !r.Passed? && (r.Raised? ==> r.fault.rows == [])
  {
  }

  /** One hundred samples at two percent: two true samples pass, three raise with a
      payload of two rows. */
  lemma TwoPercentOfHundred(mask: seq<bool>, f: Frame, cols: seq<string>, msg: string)
    requires f.Valid() && |mask| == 100
    ensures CountTrue(mask) == 2 ==> MaximumAllowedFailures(mask, f, 0.02, cols, msg).Passed?
    ensures CountTrue(mask) == 3 ==>
              var r := MaximumAllowedFailures(mask, f, 0.02, cols, msg);
              !r.Passed? && (r.Raised? ==> |r.fault.rows| == 2 && r.fault.summary == TooMany(2, 0.02, 3))
  {
    assert MaxFailures(0.02, 100) == 2;
  }

  /** A run of exactly k raises the consecutive check; a longest run of k - 1 does not. */
  lemma ConsecutiveBoundary(mask: seq<bool>, f: Frame, k: int, cols: seq<string>, msg: string)
    requires f.Valid() && k >= 1
    ensures (exists i :: RunAt(mask, i, k)) ==> !MaximumConsecutiveFailures(mask, f, k, cols, msg).Passed?
    ensures (forall i :: !RunAt(mask, i, k)) ==> MaximumConsecutiveFailures(mask, f, k, cols, msg).Passed?
  {
  }
}
