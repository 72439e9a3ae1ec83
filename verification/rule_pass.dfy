/** The pass loop: every rule is called on the same table in list order; a domain
    fault is handed to the reporter and the pass continues; any other error ends the
    pass at once. The reporter is an abstract state with a logging step. */
module RulePass {
  import opened Wrappers

  /** What each method would do when called on data. */
  function Outcomes<D, F, E>(methods: seq<D -> Outcome<F, E>>, data: D): (outs: seq<Outcome<F, E>>)
    ensures |outs| == |methods|
    ensures forall i :: 0 <= i < |methods| ==> outs[i] == methods[i](data)
  {
    seq(|methods|, i requires 0 <= i < |methods| => methods[i](data))
  }

  /** The position of the first error, or the length when there is none. */
  function FirstFailure<F, E>(outs: seq<Outcome<F, E>>): (n: nat)
    ensures n <= |outs|
    ensures forall i :: 0 <= i < n ==> !outs[i].Failed?
    ensures n < |outs| ==> outs[n].Failed?
  {
    if |outs| == 0 then 0
    else if outs[0].Failed? then 0
    else 1 + FirstFailure(outs[1..])
  }

  /** The faults raised, in order. */
  function Faults<F, E>(outs: seq<Outcome<F, E>>): (fs: seq<F>)
    ensures |fs| <= |outs|
    ensures forall i :: 0 <= i < |outs| && outs[i].Raised? ==> outs[i].fault in fs
    ensures forall x :: x in fs ==> Raised(x) in outs
  {
    if |outs| == 0 then []
    else
      var last := outs[|outs| - 1];
      Faults(outs[..|outs| - 1]) + (if last.Raised? then [last.fault] else [])
  }

  /** The reporter state after logging the faults in order. */
  function Replay<R, F>(log: (R, F) -> R, start: R, fs: seq<F>): R
  {
    if |fs| == 0 then start
    else log(Replay(log, start, fs[..|fs| - 1]), fs[|fs| - 1])
  }

  /** evaluate_rules: call each method; log each fault; stop at the first other
      error, which propagates. invoked counts the methods called. */
  method EvaluateRules<D, F, E, R>(methods: seq<D -> Outcome<F, E>>, data: D, reporter: R, log: (R, F) -> R)
    returns (invoked: nat, logged: seq<F>, after: R, error: Option<E>)
    ensures var n := FirstFailure(Outcomes(methods, data));
            invoked == if n < |methods| then n + 1 else |methods|
    ensures error.Some? <==> FirstFailure(Outcomes(methods, data)) < |methods|
    ensures error.Some? ==> Outcomes(methods, data)[FirstFailure(Outcomes(methods, data))] == Failed(error.value)
    ensures logged == Faults(Outcomes(methods, data)[..FirstFailure(Outcomes(methods, data))])
    ensures after == Replay(log, reporter, logged)
  {
    ghost var outs := Outcomes(methods, data);
    invoked, logged, after, error := 0, [], reporter, None;
    for i := 0 to |methods|
      invariant invoked == i
      invariant forall j :: 0 <= j < i ==> !outs[j].Failed?
      invariant logged == Faults(outs[..i])
      invariant after == Replay(log, reporter, logged)
    {
      var outcome := methods[i](data);
      invoked := invoked + 1;
      assert outs[..i + 1][..i] == outs[..i];
      match outcome
      case Passed =>
      case Raised(fault) =>
        logged := logged + [fault];
        after := log(after, fault);
      case Failed(e) =>
        error := Some(e);
        assert FirstFailure(outs) == i;
        return;
    }
    assert outs[..|methods|] == outs;
  }

  /** Logging distributes over consecutive stretches of the pass. */
  lemma {:induction false} FaultsAppend<F, E>(a: seq<Outcome<F, E>>, b: seq<Outcome<F, E>>)
    ensures Faults(a + b) == Faults(a) + Faults(b)
    decreases |b|
  {
    if |b| > 0 {
      var b' := b[..|b| - 1];
      assert (a + b)[..|a + b| - 1] == a + b';
      FaultsAppend(a, b');
    } else {
      assert a + b == a;
    }
  }

  /** The reporter is called iff some method raised a fault: methods that return
      normally never reach it. */
  lemma {:induction false} NoFaultsNoLogging<F, E>(outs: seq<Outcome<F, E>>)
    ensures Faults(outs) == [] <==> forall i :: 0 <= i < |outs| ==> !outs[i].Raised?
  {
    if forall i :: 0 <= i < |outs| ==> !outs[i].Raised? {
      if Faults(outs) != [] {
        var x := Faults(outs)[0];
        assert x in Faults(outs);
        assert Raised(x) in outs;
      }
    }
  }

  /** A pass without errors calls every method and logs every fault. */
  lemma CompletePass<F, E>(outs: seq<Outcome<F, E>>)
    requires forall i :: 0 <= i < |outs| ==> !outs[i].Failed?
    ensures FirstFailure(outs) == |outs|
    ensures outs[..FirstFailure(outs)] == outs
  {
  }

  /** Logging one fault per faulting method: the count of reporter calls is the count
      of faulting methods. */
  function CountRaised<F, E>(outs: seq<Outcome<F, E>>): nat
  {
    if |outs| == 0 then 0
    else CountRaised(outs[..|outs| - 1]) + (if outs[|outs| - 1].Raised? then 1 else 0)
  }

  lemma {:induction false} OneLogPerFault<F, E>(outs: seq<Outcome<F, E>>)
    ensures |Faults(outs)| == CountRaised(outs)
  {
    if |outs| > 0 {
      OneLogPerFault(outs[..|outs| - 1]);
    }
  }
}
