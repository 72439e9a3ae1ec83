/** The dual-duct terminal unit rules. Every rule derives one boolean condition
    series from named columns (comparisons against constants, combined by AND) and
    runs the proportional check and then the consecutive check on it. Two rules are
    placeholders that never raise. */
module DDVAVRules {
  import opened Wrappers
  import opened Frames
  import opened Thresholds

  /** A per-sample condition over named columns. */
  datatype Condition =
    | Above(column: string, bound: real)                  // data[column] > bound
    | Below(column: string, bound: real)                  // data[column] < bound
    | Equals(column: string, text: string)                // data[column] == text
    | ApartBy(first: string, second: string, bound: real) // |data[first] - data[second]| > bound
    | Both(left: Condition, right: Condition)             // elementwise AND

  function Abs(x: real): real
  {
    if x < 0.0 then -x else x
  }

  /** The column exists and arithmetic or ordering on it succeeds: it holds numbers,
      or it is empty (an empty text column compares without error). */
  predicate NumericColumn(f: Frame, name: string)
  {
    name in f.cols && (f.cols[name].Reals? || f.n == 0)
  }

  /** Sample i of a numeric column. */
  function Value(f: Frame, name: string, i: nat): real
    requires f.Valid() && NumericColumn(f, name) && i < f.n
  {
    f.cols[name].xs[i]
  }

  /** Reading a column for arithmetic: KeyError when it is missing, TypeError when
      it holds text. */
  function Numeric(f: Frame, name: string): (r: Result<seq<real>, Error>)
    requires f.Valid()
    ensures r.Success? <==> NumericColumn(f, name)
    ensures r.Success? ==> |r.value| == f.n
    ensures r.Success? ==> forall i :: 0 <= i < f.n ==> r.value[i] == Value(f, name, i)
    ensures r.Failure? ==> r.error == (if name in f.cols then TypeError(name) else KeyError(name))
  {
    if name !in f.cols then Failure(KeyError(name))
    else
      match f.cols[name]
      case Reals(xs) => Success(xs)
      case Texts(ss) => if f.n == 0 then Success([]) else Failure(TypeError(name))
  }

  /** Every column the condition reads exists, and every column it compares
      numerically is numeric. */
  predicate Readable(f: Frame, c: Condition)
  {
    match c
    case Above(col, _) => NumericColumn(f, col)
    case Below(col, _) => NumericColumn(f, col)
    case Equals(col, _) => col in f.cols
    case ApartBy(a, b, _) => NumericColumn(f, a) && NumericColumn(f, b)
    case Both(l, r) => Readable(f, l) && Readable(f, r)
  }

  /** The reference meaning of a condition at sample i. Comparing a numeric column
      with a text is false at every sample. */
  ghost predicate Holds(f: Frame, c: Condition, i: nat)
    requires f.Valid() && Readable(f, c) && i < f.n
  {
    match c
    case Above(col, t) => Value(f, col, i) > t
    case Below(col, t) => Value(f, col, i) < t
    case Equals(col, s) => f.cols[col].Texts? && f.cols[col].ss[i] == s
    case ApartBy(a, b, t) => Abs(Value(f, a, i) - Value(f, b, i)) > t
    case Both(l, r) => Holds(f, l, i) && Holds(f, r, i)
  }

  /** The condition series of a readable condition. */
  ghost function Series(f: Frame, c: Condition): (s: seq<bool>)
    requires f.Valid() && Readable(f, c)
    ensures |s| == f.n
  {
    seq(f.n, i requires 0 <= i < f.n => Holds(f, c, i))
  }

  /** The columns a condition reads, and those it reads numerically. */
  function ColumnsOf(c: Condition): set<string>
  {
    match c
    case Above(col, _) => {col}
    case Below(col, _) => {col}
    case Equals(col, _) => {col}
    case ApartBy(a, b, _) => {a, b}
    case Both(l, r) => ColumnsOf(l) + ColumnsOf(r)
  }

  function NumericColumnsOf(c: Condition): set<string>
  {
    match c
    case Above(col, _) => {col}
    case Below(col, _) => {col}
    case Equals(_, _) => {}
    case ApartBy(a, b, _) => {a, b}
    case Both(l, r) => NumericColumnsOf(l) + NumericColumnsOf(r)
  }

  /** e is an error that reading c from f can raise: a read column that is missing,
      or a numerically read column that holds text. */
  ghost predicate ReadError(f: Frame, c: Condition, e: Error)
  {
    || (e.KeyError? && e.key in ColumnsOf(c) && e.key !in f.cols)
    || (e.TypeError? && e.column in NumericColumnsOf(c) && e.column in f.cols
        && f.cols[e.column].Texts? && f.n > 0)
  }

  /** Deriving the condition series, statement by statement as the rules do. Indexing
      a missing column raises KeyError as soon as it is indexed; a text column is
      indexed without error and raises TypeError only in the comparison or the
      subtraction, so both operands of a difference are indexed before either can
      raise TypeError. The two sides of an AND are separate statements, left first. */
  function Eval(f: Frame, c: Condition): (r: Result<seq<bool>, Error>)
    requires f.Valid()
    ensures r.Success? <==> Readable(f, c)
    ensures r.Success? ==> |r.value| == f.n
    ensures r.Success? ==> forall i :: 0 <= i < f.n ==> r.value[i] == Holds(f, c, i)
    ensures r.Failure? ==> ReadError(f, c, r.error)
    ensures c.ApartBy? && c.first !in f.cols ==> r == Failure(KeyError(c.first))
    ensures c.ApartBy? && c.first in f.cols && c.second !in f.cols ==> r == Failure(KeyError(c.second))
    ensures c.ApartBy? && r.Failure? && r.error.TypeError? ==> c.first in f.cols && c.second in f.cols
  {
    match c
    case Above(col, t) =>
      (match Numeric(f, col)
       case Failure(e) => Failure(e)
       case Success(xs) => Success(seq(|xs|, i requires 0 <= i < |xs| => xs[i] > t)))
    case Below(col, t) =>
      (match Numeric(f, col)
       case Failure(e) => Failure(e)
       case Success(xs) => Success(seq(|xs|, i requires 0 <= i < |xs| => xs[i] < t)))
    case Equals(col, s) =>
      if col !in f.cols then Failure(KeyError(col))
      else
        (match f.cols[col]
         case Reals(_) => Success(seq(f.n, i => false))
         case Texts(ss) => Success(seq(|ss|, i requires 0 <= i < |ss| => ss[i] == s)))
    case ApartBy(a, b, t) =>
      if a !in f.cols then Failure(KeyError(a))
      else if b !in f.cols then Failure(KeyError(b))
      else
      (match Numeric(f, a)
       case Failure(e) => Failure(e)
       case Success(xs) =>
         (match Numeric(f, b)
          case Failure(e) => Failure(e)
          case Success(ys) =>
            Success(seq(|xs|, i requires 0 <= i < |xs| && i < |ys| => Abs(xs[i] - ys[i]) > t))))
    case Both(l, r) =>
      (match Eval(f, l)
       case Failure(e) => Failure(e)
       case Success(ls) =>
         (match Eval(f, r)
          case Failure(e) => Failure(e)
          case Success(rs) =>
            Success(seq(|ls|, i requires 0 <= i < |ls| && i < |rs| => ls[i] && rs[i]))))
  }

  /** A rule: a condition checked against the thresholds, or a placeholder. */
  datatype Rule =
    | Threshold(name: string, condition: Condition, config: Config)
    | NoCheck(name: string)

  /** Calling a rule on a table. */
  function Apply(f: Frame, rule: Rule): (r: Verdict)
    requires f.Valid()
    ensures rule.NoCheck? ==> r.Passed?
    ensures rule.Threshold? ==>
              (r.Passed? <==> Readable(f, rule.condition)
                              && Tolerated(Series(f, rule.condition), rule.config.percent, rule.config.consecutive))
    ensures rule.Threshold? && Readable(f, rule.condition) ==> r == Check(Series(f, rule.condition), f, rule.config)
    ensures rule.Threshold? && !Readable(f, rule.condition) ==> r.Failed? && ReadError(f, rule.condition, r.error)
    ensures rule.Threshold? && Eval(f, rule.condition).Failure? ==> r == Failed(Eval(f, rule.condition).error)
  {
    match rule
    case NoCheck(_) => Passed
    case Threshold(_, c, cfg) =>
      match Eval(f, c)
      case Failure(e) => Failed(e)
      case Success(mask) =>
        assert mask == Series(f, c);
        Check(mask, f, cfg)
  }

  const AirflowTolerance: real := 10.0
  const StuckTolerance: real := 5.0
  const ClosedTolerance: real := 2.0
  const FailurePercent: real := 0.02
  const FailureConsecutive: int := 3

  /** The rule names, as attribute discovery sees them. */
  const CoolingAirflowOnClosedDamperName := "rule_cooling_airflow_on_closed_damper"
  const CoolingDamperStuckName := "rule_cooling_damper_stuck"
  const CoolingOpposedModeName := "rule_cooling_opposed_mode"
  const DamperPositionAirflowRelationshipName := "rule_damper_position_airflow_relationship"
  const HeatingAirflowOnClosedDamperName := "rule_heating_airflow_on_closed_damper"
  const HeatingDamperStuckName := "rule_heating_damper_stuck"
  const HeatingOpposedModeName := "rule_heating_opposed_mode"
  const RoomTemperatureDeviationName := "rule_room_temperature_deviation"
  const SimultaneousHeatingCoolingName := "rule_simultaneous_heating_cooling"

  const SimultaneousHeatingCooling: Rule :=
    Threshold(SimultaneousHeatingCoolingName,
              Both(Above("HeatingAirVolume", AirflowTolerance), Above("CoolingAirVolume", AirflowTolerance)),
              Config(FailurePercent, FailureConsecutive, ["Date", "Time", "HeatingAirVolume", "CoolingAirVolume"],
                     "simultaneous heating and cooling", "heating and cooling"))

  const HeatingOpposedMode: Rule :=
    Threshold(HeatingOpposedModeName,
              Both(Above("HeatingAirVolume", AirflowTolerance), Equals("HeatCoolMode", "COOL")),
              Config(FailurePercent, FailureConsecutive, ["Date", "Time", "HeatingAirVolume", "HeatCoolMode"],
                     "heating in cooling mode", "heating and cooling"))

  const CoolingOpposedMode: Rule :=
    Threshold(CoolingOpposedModeName,
              Both(Above("CoolingAirVolume", AirflowTolerance), Equals("HeatCoolMode", "HEAT")),
              Config(FailurePercent, FailureConsecutive, ["Date", "Time", "CoolingAirVolume", "HeatCoolMode"],
                     "heating in cooling mode", "heating and cooling"))

  const CoolingDamperStuckText := "Cooling damper stuck open: damper command and position are >5% different"

  const CoolingDamperStuck: Rule :=
    Threshold(CoolingDamperStuckName,
              ApartBy("CoolingDamperCommand", "CoolingDamperPosition", StuckTolerance),
              Config(FailurePercent, FailureConsecutive, ["Date", "Time", "CoolingDamperCommand", "CoolingDamperPosition"],
                     CoolingDamperStuckText, CoolingDamperStuckText))

  const HeatingDamperStuckText := "Heating damper stuck open: damper command and position are >5% different"

  const HeatingDamperStuck: Rule :=
    Threshold(HeatingDamperStuckName,
              ApartBy("HeatingDamperCommand", "HeatingDamperPosition", StuckTolerance),
              Config(FailurePercent, FailureConsecutive, ["Date", "Time", "HeatingDamperCommand", "HeatingDamperPosition"],
                     HeatingDamperStuckText, HeatingDamperStuckText))

  const ClosedDamperText := "Airflow measured while damper is closed:"

  const CoolingAirflowOnClosedDamper: Rule :=
    Threshold(CoolingAirflowOnClosedDamperName,
              Both(Above("CoolingAirVolume", AirflowTolerance), Below("CoolingDamperPosition", ClosedTolerance)),
              Config(FailurePercent, FailureConsecutive, ["Date", "Time", "CoolingAirVolume", "CoolingDamperPosition"],
                     ClosedDamperText, ClosedDamperText))

  const HeatingAirflowOnClosedDamper: Rule :=
    Threshold(HeatingAirflowOnClosedDamperName,
              Both(Above("HeatingAirVolume", AirflowTolerance), Below("HeatingDamperPosition", ClosedTolerance)),
              Config(FailurePercent, FailureConsecutive, ["Date", "Time", "HeatingAirVolume", "HeatingDamperPosition"],
                     ClosedDamperText, ClosedDamperText))

  const DamperPositionAirflowRelationship: Rule := NoCheck(DamperPositionAirflowRelationshipName)

  const RoomTemperatureDeviation: Rule := NoCheck(RoomTemperatureDeviationName)

  /** The rules in the order attribute discovery lists them: sorted by name. */
  const Registry: seq<Rule> := [
    CoolingAirflowOnClosedDamper,
    CoolingDamperStuck,
    CoolingOpposedMode,
    DamperPositionAirflowRelationship,
    HeatingAirflowOnClosedDamper,
    HeatingDamperStuck,
    HeatingOpposedMode,
    RoomTemperatureDeviation,
    SimultaneousHeatingCooling
  ]

  /** Simultaneous heating and cooling: both air volumes above 10. */
  lemma OverlapCondition(f: Frame, i: nat)
    requires f.Valid()
    ensures Readable(f, SimultaneousHeatingCooling.condition) <==>
              NumericColumn(f, "HeatingAirVolume") && NumericColumn(f, "CoolingAirVolume")
    ensures Readable(f, SimultaneousHeatingCooling.condition) && i < f.n ==>
              (Holds(f, SimultaneousHeatingCooling.condition, i) <==>
                 Value(f, "HeatingAirVolume", i) > 10.0 && Value(f, "CoolingAirVolume", i) > 10.0)
  {
  }

  /** Airflow against the mode: an air volume above 10 while the mode text names
      the opposite mode. */
  lemma OpposedModeConditions(f: Frame, i: nat)
    requires f.Valid()
    ensures Readable(f, HeatingOpposedMode.condition) <==> NumericColumn(f, "HeatingAirVolume") && "HeatCoolMode" in f.cols
    ensures Readable(f, CoolingOpposedMode.condition) <==> NumericColumn(f, "CoolingAirVolume") && "HeatCoolMode" in f.cols
    ensures Readable(f, HeatingOpposedMode.condition) && i < f.n ==>
              (Holds(f, HeatingOpposedMode.condition, i) <==>
                 Value(f, "HeatingAirVolume", i) > 10.0
                 && f.cols["HeatCoolMode"].Texts? && f.cols["HeatCoolMode"].ss[i] == "COOL")
    ensures Readable(f, CoolingOpposedMode.condition) && i < f.n ==>
              (Holds(f, CoolingOpposedMode.condition, i) <==>
                 Value(f, "CoolingAirVolume", i) > 10.0
                 && f.cols["HeatCoolMode"].Texts? && f.cols["HeatCoolMode"].ss[i] == "HEAT")
  {
  }

  /** A stuck damper: command and position more than 5 apart. */
  lemma DamperStuckConditions(f: Frame, i: nat)
    requires f.Valid()
    ensures Readable(f, CoolingDamperStuck.condition) <==>
              NumericColumn(f, "CoolingDamperCommand") && NumericColumn(f, "CoolingDamperPosition")
    ensures Readable(f, HeatingDamperStuck.condition) <==>
              NumericColumn(f, "HeatingDamperCommand") && NumericColumn(f, "HeatingDamperPosition")
    ensures Readable(f, CoolingDamperStuck.condition) && i < f.n ==>
              (Holds(f, CoolingDamperStuck.condition, i) <==>
                 Abs(Value(f, "CoolingDamperCommand", i) - Value(f, "CoolingDamperPosition", i)) > 5.0)
    ensures Readable(f, HeatingDamperStuck.condition) && i < f.n ==>
              (Holds(f, HeatingDamperStuck.condition, i) <==>
                 Abs(Value(f, "HeatingDamperCommand", i) - Value(f, "HeatingDamperPosition", i)) > 5.0)
  {
  }

  /** A table with a text damper command but no damper position: the subtraction
      never runs, because indexing the missing position column raises first. */
  lemma DamperStuckMissingPosition()
    ensures Apply(Frame(1, map["CoolingDamperCommand" := Texts(["x"])]), CoolingDamperStuck)
              == Failed(KeyError("CoolingDamperPosition"))
  {
    var f := Frame(1, map["CoolingDamperCommand" := Texts(["x"])]);
    assert f.Valid();
    assert "CoolingDamperPosition" !in f.cols;
  }

  /** Airflow past a closed damper: an air volume above 10 with the damper below 2. */
  lemma ClosedDamperConditions(f: Frame, i: nat)
    requires f.Valid()
    ensures Readable(f, CoolingAirflowOnClosedDamper.condition) <==>
              NumericColumn(f, "CoolingAirVolume") && NumericColumn(f, "CoolingDamperPosition")
    ensures Readable(f, HeatingAirflowOnClosedDamper.condition) <==>
              NumericColumn(f, "HeatingAirVolume") && NumericColumn(f, "HeatingDamperPosition")
    ensures Readable(f, CoolingAirflowOnClosedDamper.condition) && i < f.n ==>
              (Holds(f, CoolingAirflowOnClosedDamper.condition, i) <==>
                 Value(f, "CoolingAirVolume", i) > 10.0 && Value(f, "CoolingDamperPosition", i) < 2.0)
    ensures Readable(f, HeatingAirflowOnClosedDamper.condition) && i < f.n ==>
              (Holds(f, HeatingAirflowOnClosedDamper.condition, i) <==>
                 Value(f, "HeatingAirVolume", i) > 10.0 && Value(f, "HeatingDamperPosition", i) < 2.0)
  {
  }

  /** The two placeholder rules return normally on every table. */
  lemma PlaceholdersNeverRaise(f: Frame)
    requires f.Valid()
    ensures Apply(f, DamperPositionAirflowRelationship).Passed?
    ensures Apply(f, RoomTemperatureDeviation).Passed?
  {
  }

  /** A frame of three samples with heating and cooling both on throughout: zero
      failures are allowed at two percent, so the proportional check raises first,
      with an empty payload. */
  lemma ThreeSamplesOverlapping(f: Frame)
    requires f.Valid() && f.n == 3
    requires f.cols.Keys == {"Date", "Time", "HeatingAirVolume", "CoolingAirVolume"}
    requires f.cols["HeatingAirVolume"] == Reals([20.0, 20.0, 20.0])
    requires f.cols["CoolingAirVolume"] == Reals([20.0, 20.0, 20.0])
    ensures var r := Apply(f, SimultaneousHeatingCooling);
            r.Raised? && r.fault.summary == TooMany(0, 0.02, 3) && r.fault.rows == []
  {
    var c := SimultaneousHeatingCooling.condition;
    OverlapCondition(f, 0);
    OverlapCondition(f, 1);
    OverlapCondition(f, 2);
    var s := Series(f, c);
    assert s == [true, true, true];
    assert CountTrue([true]) == 1;
    assert CountTrue([true, true]) == 2 by { assert [true, true][..1] == [true]; }
    assert CountTrue(s) == 3 by { assert s[..2] == [true, true]; }
    assert MaxFailures(0.02, 3) == 0;
  }
}
