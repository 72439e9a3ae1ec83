/** One review of a table of trend data: every rule of the registry is called on the
    table in registry order, each fault is logged with an image, and an input error
    ends the review. This joins the rules of the top-level ddvav.py to the pass loop
    and the reporter of the trendreview package; the package's own rules module is
    not part of this model. */
module Review {
  import opened Wrappers
  import opened Frames
  import opened Thresholds
  import opened DDVAVRules
  import opened RulePass
  import opened Reporting

  /** The registry's rules as callables on a table. */
  function RuleMethods(): (ms: seq<ValidFrame -> Verdict>)
    ensures |ms| == |Registry|
    ensures forall i, f: ValidFrame :: 0 <= i < |ms| ==> ms[i](f) == Apply(f, Registry[i])
  {
    seq(|Registry|, i requires 0 <= i < |Registry| => (f: ValidFrame) => Apply(f, Registry[i]))
  }

  /** log_exception(e, create_image=True): the entry quotes the fault's message. */
  function LogFault(rep: Reporter, fault: Fault): (r: Reporter)
    ensures r.logIndex == rep.logIndex + 1 && r.images.imageNumber == rep.images.imageNumber + 1
    ensures r.log == rep.log + [LogEntry(rep.logIndex, fault.description, Some(rep.images.imageNumber))]
  {
    LogException(rep, fault.description, true)
  }

  /** Logging faults advances the issue number and the image number by one each. */
  lemma {:induction false} ReplayCounters(rep: Reporter, fs: seq<Fault>)
    ensures Replay(LogFault, rep, fs).logIndex == rep.logIndex + |fs|
    ensures Replay(LogFault, rep, fs).images.imageNumber == rep.images.imageNumber + |fs|
    ensures |Replay(LogFault, rep, fs).log| == |rep.log| + |fs|
  {
    if |fs| > 0 {
      ReplayCounters(rep, fs[..|fs| - 1]);
    }
  }

  /** What each registry rule does to the table, in registry order. */
  function RuleOutcomes(f: ValidFrame): (outs: seq<Verdict>)
    ensures |outs| == |Registry|
    ensures forall i :: 0 <= i < |outs| ==> outs[i] == Apply(f, Registry[i])
  {
    Outcomes(RuleMethods(), f)
  }

  /** The ddvav branch of the command-line review as intended: the rules are run in
      registry order and every fault is logged, one issue and one image each; the
      first input error propagates and ends the review after the faults of the rules
      before it have been logged. This assumes every fault is one the loop catches
      and carries the labels image generation reads. */
  method ReviewTable(f: ValidFrame, reporter: Reporter) returns (after: Reporter, error: Option<Error>)
    ensures error.Some? <==> exists i :: 0 <= i < |Registry| && RuleOutcomes(f)[i].Failed?
    ensures error.Some? ==> Failed(error.value) in RuleOutcomes(f)
    ensures var outs := RuleOutcomes(f); var n := FirstFailure(outs);
            error.Some? ==> n < |outs| && error.value == outs[n].error
                            && after == Replay(LogFault, reporter, Faults(outs[..n]))
    ensures error.None? ==> after == Replay(LogFault, reporter, Faults(RuleOutcomes(f)))
    ensures error.None? ==> after.logIndex == reporter.logIndex + CountRaised(RuleOutcomes(f))
  {
    var methods := RuleMethods();
    var invoked, logged;
    invoked, logged, after, error := EvaluateRules(methods, f, reporter, LogFault);
    ghost var outs := Outcomes(methods, f);
    assert outs == RuleOutcomes(f);
    if error.None? {
      CompletePass(outs);
      ReplayCounters(reporter, logged);
      OneLogPerFault(outs);
    } else {
      ghost var n := FirstFailure(outs);
      assert outs[n] == Failed(error.value);
    }
  }

  /** Why a review as written stops early: a rule met an input error, or a rule's
      fault was not one the loop catches. */
  datatype Stop = RuleError(error: Error) | UncaughtFault(fault: Fault)

  /** The position of the first outcome that is not a pass, or the number of
      outcomes. */
  function FirstStop(outs: seq<Verdict>): (n: nat)
    ensures n <= |outs|
    ensures forall i :: 0 <= i < n ==> outs[i].Passed?
    ensures n < |outs| ==> !outs[n].Passed?
  {
    if |outs| == 0 then 0
    else if !outs[|outs| - 1].Passed? && FirstStop(outs[..|outs| - 1]) == |outs| - 1 then |outs| - 1
    else if FirstStop(outs[..|outs| - 1]) < |outs| - 1 then FirstStop(outs[..|outs| - 1])
    else |outs|
  }

  /** The ddvav branch as written, run with the rules of ddvav.py. Those rules raise
      the fault class of the top-level FDDExceptions module, while the loop catches
      the package's own fault class, a different class. So a rule's fault is not
      caught: it propagates and ends the review, as an input error does. Hence the
      review stops at the first rule that does not pass, and nothing is logged. */
  method ReviewAsWritten(f: ValidFrame, reporter: Reporter) returns (after: Reporter, stop: Option<Stop>)
    ensures stop.None? <==> forall i :: 0 <= i < |Registry| ==> RuleOutcomes(f)[i].Passed?
    ensures var outs := RuleOutcomes(f); var n := FirstStop(outs);
            stop.Some? ==> n < |outs|
                           && (outs[n].Raised? ==> stop.value == UncaughtFault(outs[n].fault))
                           && (outs[n].Failed? ==> stop.value == RuleError(outs[n].error))
    ensures after == reporter
  {
    var methods := RuleMethods();
    ghost var outs := RuleOutcomes(f);
    after := reporter;
    for i := 0 to |methods|
      invariant forall j :: 0 <= j < i ==> outs[j].Passed?
    {
      var outcome := methods[i](f);
      assert outcome == outs[i];
      match outcome {
        case Passed =>
        case Raised(fault) =>
          stop := Some(UncaughtFault(fault));
          return;
        case Failed(e) =>
          stop := Some(RuleError(e));
          return;
      }
    }
    stop := None;
  }

  /** The two placeholder rules never add an issue to the log. */
  lemma PlaceholdersNeverLog(f: ValidFrame)
    ensures !RuleOutcomes(f)[3].Raised?
    ensures !RuleOutcomes(f)[7].Raised?
  {
    assert Registry[3].NoCheck? && Registry[7].NoCheck?;
  }
}
