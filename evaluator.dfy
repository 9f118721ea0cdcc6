/** The bound evaluator (edc_reportable/evaluator.py): an interval with an
    optional lower and upper bound, an inclusive flag per edge and a mandatory
    unit. Membership is decided by the comparison chain the source builds as a
    string and evaluates; here that chain is written out as comparisons. */
module Evaluators {
  import opened Common

  datatype Op = Lt | Le

  /** `a op b` */
  function Holds(op: Op, a: real, b: real): bool {
    match op
    case Lt => a < b
    case Le => a <= b
  }

  /** A constructed evaluator: the bounds as given (None when not given, 0 kept
      as 0), the units and the two flags as passed. */
  datatype Evaluator = Evaluator(
    lower: Option<real>,
    upper: Option<real>,
    units: string,
    lowerInclusive: PyFlag,
    upperInclusive: PyFlag)

  /** What construction guarantees about an evaluator. */
  predicate Valid(e: Evaluator) {
    && e.units != ""
    && (IsSet(e.lower) ==> e.lower.value > 0.0)
    && (IsSet(e.upper) ==> e.upper.value > 0.0)
    && (IsSet(e.lower) && IsSet(e.upper) ==> e.lower.value < e.upper.value)
  }

  /** `re.match('\d+', str(x))` for a number: the text of a number starts with
      a digit exactly when the number is not negative. */
  predicate LooksNumeric(x: real) { x >= 0.0 }

  /** The constructor's checks, in the source's order: lower bound text, upper
      bound text, the combination (only when both bounds are truthy), units. */
  function Make(lower: Option<real>, upper: Option<real>, units: Option<string>,
                lowerInclusive: PyFlag, upperInclusive: PyFlag): (r: Result<Evaluator>)
    ensures r.Ok? <==>
      && (IsSet(lower) ==> lower.value > 0.0)
      && (IsSet(upper) ==> upper.value > 0.0)
      && (IsSet(lower) && IsSet(upper) ==> lower.value < upper.value)
      && units.Some? && units.value != ""
    ensures r.Ok? ==> Valid(r.value)
    ensures r.Ok? ==> r.value == Evaluator(lower, upper, units.value, lowerInclusive, upperInclusive)
    ensures r == Err(InvalidLowerBound) <==> IsSet(lower) && lower.value < 0.0
    ensures r == Err(InvalidUpperBound) <==>
      !(IsSet(lower) && lower.value < 0.0) && IsSet(upper) && upper.value < 0.0
    ensures r == Err(InvalidCombination) <==>
      && !(IsSet(lower) && lower.value < 0.0) && !(IsSet(upper) && upper.value < 0.0)
      && IsSet(lower) && IsSet(upper) && lower.value >= upper.value
    ensures r == Err(InvalidUnits) <==>
      && (IsSet(lower) ==> lower.value > 0.0) && (IsSet(upper) ==> upper.value > 0.0)
      && (IsSet(lower) && IsSet(upper) ==> lower.value < upper.value)
      && (units.None? || units.value == "")
  {
    if IsSet(lower) && !LooksNumeric(lower.value) then Err(InvalidLowerBound)
    else if IsSet(upper) && !LooksNumeric(upper.value) then Err(InvalidUpperBound)
    else if IsSet(lower) && IsSet(upper) && lower.value == upper.value then Err(InvalidCombination)
    else if IsSet(lower) && IsSet(upper) && lower.value > upper.value then Err(InvalidCombination)
    else if units.None? || units.value == "" then Err(InvalidUnits)
    else Ok(Evaluator(lower, upper, units.value, lowerInclusive, upperInclusive))
  }

  /** `lower_operator`: none unless the lower bound is truthy; `<=` only when the flag is True. */
  function LowerOperator(e: Evaluator): Option<Op> {
    if !IsSet(e.lower) then None else if IsTrue(e.lowerInclusive) then Some(Le) else Some(Lt)
  }

  /** `upper_operator`, symmetric to LowerOperator. */
  function UpperOperator(e: Evaluator): Option<Op> {
    if !IsSet(e.upper) then None else if IsTrue(e.upperInclusive) then Some(Le) else Some(Lt)
  }

  /** The evaluated condition `{lower}{lower_op}{value}{upper_op}{upper}`:
      a chained comparison, one comparison, or, with neither side, the bare
      value, which is true unless it is 0. */
  function Condition(e: Evaluator, value: real): bool {
    match (LowerOperator(e), UpperOperator(e))
    case (Some(lo), Some(uo)) => Holds(lo, e.lower.value, value) && Holds(uo, value, e.upper.value)
    case (Some(lo), None) => Holds(lo, e.lower.value, value)
    case (None, Some(uo)) => Holds(uo, value, e.upper.value)
    case (None, None) => value != 0.0
  }

  /** `in_bounds_or_raise`: the units must be exactly the evaluator's; then
      True when the condition holds and ValueBoundryError when it does not. */
  function InBoundsOrRaise(e: Evaluator, value: real, units: Option<string>): (r: Result<bool>)
    ensures r == Err(InvalidUnits) <==> units != Some(e.units)
    ensures r == Ok(true) <==> units == Some(e.units) && Condition(e, value)
    ensures r == Err(ValueBoundryError) <==> units == Some(e.units) && !Condition(e, value)
    ensures r != Ok(false)
  {
    if units != Some(e.units) then Err(InvalidUnits)
    else if Condition(e, value) then Ok(true)
    else Err(ValueBoundryError)
  }

  /** With both bounds truthy the condition is the four-case decision table on
      the two flags: each edge is admitted exactly when its own flag is True. */
  lemma BothSides(e: Evaluator, v: real)
    requires IsSet(e.lower) && IsSet(e.upper)
    ensures Condition(e, v) <==>
      && (e.lower.value < v || (v == e.lower.value && IsTrue(e.lowerInclusive)))
      && (v < e.upper.value || (v == e.upper.value && IsTrue(e.upperInclusive)))
  {
  }

  /** Inside a valid two-sided interval, the edges are the only values the
      flags decide: the interior is always in, the exterior always out. */
  lemma EdgesDecidedByFlags(e: Evaluator, v: real)
    requires Valid(e) && IsSet(e.lower) && IsSet(e.upper)
    ensures e.lower.value < v < e.upper.value ==> Condition(e, v)
    ensures v < e.lower.value || e.upper.value < v ==> !Condition(e, v)
    ensures Condition(e, e.lower.value) <==> IsTrue(e.lowerInclusive)
    ensures Condition(e, e.upper.value) <==> IsTrue(e.upperInclusive)
  {
  }

  /** A side whose bound is missing or 0 does not constrain. */
  lemma MissingSideUnconstrained(e: Evaluator, v: real)
    ensures IsSet(e.lower) && !IsSet(e.upper) ==>
      (Condition(e, v) <==> Holds(if IsTrue(e.lowerInclusive) then Le else Lt, e.lower.value, v))
    ensures !IsSet(e.lower) && IsSet(e.upper) ==>
      (Condition(e, v) <==> Holds(if IsTrue(e.upperInclusive) then Le else Lt, v, e.upper.value))
    ensures !IsSet(e.lower) && !IsSet(e.upper) ==> (Condition(e, v) <==> v != 0.0)
  {
  }

  /** A bound of 0 behaves exactly like an absent bound, at construction and in
      every query. */
  lemma ZeroIsNoBound(lower: Option<real>, upper: Option<real>, units: Option<string>,
                      lf: PyFlag, uf: PyFlag, v: real)
    ensures Make(Some(0.0), upper, units, lf, uf).Ok? == Make(None, upper, units, lf, uf).Ok?
    ensures Make(lower, Some(0.0), units, lf, uf).Ok? == Make(lower, None, units, lf, uf).Ok?
    ensures Make(Some(0.0), upper, units, lf, uf).Ok? ==>
      Condition(Make(Some(0.0), upper, units, lf, uf).value, v)
        == Condition(Make(None, upper, units, lf, uf).value, v)
    ensures Make(lower, Some(0.0), units, lf, uf).Ok? ==>
      Condition(Make(lower, Some(0.0), units, lf, uf).value, v)
        == Condition(Make(lower, None, units, lf, uf).value, v)
  {
  }

  /** Every valid evaluator admits some value, so construction never yields an
      empty interval. */
  lemma {:induction false} ValidIsInhabited(e: Evaluator) returns (v: real)
    requires Valid(e)
    ensures Condition(e, v)
  {
    if IsSet(e.lower) && IsSet(e.upper) {
      v := (e.lower.value + e.upper.value) / 2.0;
    } else if IsSet(e.lower) {
      v := e.lower.value + 1.0;
    } else if IsSet(e.upper) {
      v := e.upper.value - 1.0;
    } else {
      v := 1.0;
    }
  }

  /** The worked examples of the evaluator's tests: 10 < x < 100 in mg/dL. */
  lemma ExclusiveExample()
    ensures var e := Make(Some(10.0), Some(100.0), Some("mg/dL"), Absent, Absent);
      && e.Ok?
      && InBoundsOrRaise(e.value, 9.0, Some("mg/dL")) == Err(ValueBoundryError)
      && InBoundsOrRaise(e.value, 10.0, Some("mg/dL")) == Err(ValueBoundryError)
      && InBoundsOrRaise(e.value, 11.0, Some("mg/dL")) == Ok(true)
      && InBoundsOrRaise(e.value, 99.0, Some("mg/dL")) == Ok(true)
      && InBoundsOrRaise(e.value, 100.0, Some("mg/dL")) == Err(ValueBoundryError)
      && InBoundsOrRaise(e.value, 101.0, Some("mg/dL")) == Err(ValueBoundryError)
      && InBoundsOrRaise(e.value, 101.0, Some("blah")) == Err(InvalidUnits)
  {
  }

  /** One-sided examples of the tests, and the construction failures. */
  lemma OneSidedExamples()
    ensures var e := Make(Some(10.0), None, Some("mg/dL"), Absent, Absent);
      && e.Ok?
      && InBoundsOrRaise(e.value, 10.0, Some("mg/dL")) == Err(ValueBoundryError)
      && InBoundsOrRaise(e.value, 100000000000.0, Some("mg/dL")) == Ok(true)
    ensures var e := Make(None, Some(100.0), Some("mg/dL"), Absent, Absent);
      && e.Ok?
      && InBoundsOrRaise(e.value, -1.0, Some("mg/dL")) == Ok(true)
      && InBoundsOrRaise(e.value, 100.0, Some("mg/dL")) == Err(ValueBoundryError)
    ensures Make(Some(10.0), Some(100.0), None, Absent, Absent) == Err(InvalidUnits)
    ensures Make(Some(10.0), Some(10.0), Some("mg/dL"), Absent, Absent) == Err(InvalidCombination)
    ensures Make(Some(11.0), Some(10.0), Some("mg/dL"), Absent, Absent) == Err(InvalidCombination)
  {
  }
}
