/** The age window (edc_reportable/age_evaluator.py): an evaluator whose bounds
    and unit are defaulted from the `age_*` keyword arguments and which is
    queried with an age rather than a measured value. The age itself comes
    from date arithmetic outside this model: it is passed in as `ageIn`, where
    `ageIn(u)` is what `float(getattr(rdelta, u))` makes of the attribute named
    `u` of the relative delta between the date of birth and the report time
    (`ageIn("years")` is the age in whole years). */
module AgeEvaluators {
  import opened Common
  import opened Evaluators

  const DefaultUnits: string := "years"

  /** The attribute of the relative delta named by a unit, as `float()` sees
      it: a number, no such attribute (AttributeError), or an attribute that
      is not a number, such as an absolute field left None (TypeError). */
  datatype AgeField = Number(n: int) | NoSuchField | NotANumber
  const DefaultUpper: real := 120.0

  /** `x or default` for an optional number. */
  function NumberOr(x: Option<real>, default: real): (r: real)
    ensures IsSet(x) ==> r == x.value
    ensures !IsSet(x) ==> r == default
  {
    if IsSet(x) then x.value else default
  }

  /** The constructor: units default to years, the lower bound to 0 and the
      upper to 120 whenever they are falsy; the edges' flags come only from
      the `age_*_inclusive` arguments; the evaluator's checks then apply. */
  function MakeAgeWindow(ageLower: Option<real>, ageUpper: Option<real>, ageUnits: Option<string>,
                         ageLowerInclusive: PyFlag, ageUpperInclusive: PyFlag): (r: Result<Evaluator>)
    ensures r.Ok? ==> r.value == Evaluator(Some(NumberOr(ageLower, 0.0)), Some(NumberOr(ageUpper, DefaultUpper)),
                                           TextOr(ageUnits, DefaultUnits), ageLowerInclusive, ageUpperInclusive)
    ensures r.Ok? <==>
      && (IsSet(ageLower) ==> ageLower.value > 0.0)
      && (IsSet(ageUpper) ==> ageUpper.value > 0.0)
      && NumberOr(ageLower, 0.0) < NumberOr(ageUpper, DefaultUpper)
    ensures r.Ok? ==> Valid(r.value) && IsSet(r.value.upper)
    ensures r.Err? ==> r.error in {InvalidLowerBound, InvalidUpperBound, InvalidCombination}
  {
    Make(Some(NumberOr(ageLower, 0.0)), Some(NumberOr(ageUpper, DefaultUpper)),
         Some(TextOr(ageUnits, DefaultUnits)), ageLowerInclusive, ageUpperInclusive)
  }

  /** The exception an age query raises before any comparison: reading the
      age in the window's units comes first, then the units test against the
      query units (default years). */
  function EarlyFailure(w: Evaluator, ageIn: string -> AgeField, ageUnits: Option<string>): Option<Error> {
    match ageIn(w.units)
    case NoSuchField => Some(AttributeError)
    case NotANumber => Some(TypeError)
    case Number(_) => if TextOr(ageUnits, DefaultUnits) != w.units then Some(InvalidUnits) else None
  }

  /** `in_bounds_or_raise(dob, report_datetime, age_units)`: the age is read in
      the window's own units and converted, and only then are the query units
      (default years) compared with the window's. */
  function AgeInBoundsOrRaise(w: Evaluator, ageIn: string -> AgeField, ageUnits: Option<string>): (r: Result<bool>)
    ensures EarlyFailure(w, ageIn, ageUnits).Some? ==> r == Err(EarlyFailure(w, ageIn, ageUnits).value)
    ensures r == Ok(true) <==>
      EarlyFailure(w, ageIn, ageUnits).None? && Condition(w, ageIn(w.units).n as real)
    ensures r == Err(ValueBoundryError) <==>
      EarlyFailure(w, ageIn, ageUnits).None? && !Condition(w, ageIn(w.units).n as real)
  {
    match ageIn(w.units)
    case NoSuchField => Err(AttributeError)
    case NotANumber => Err(TypeError)
    case Number(age) => InBoundsOrRaise(w, age as real, Some(TextOr(ageUnits, DefaultUnits)))
  }

  /** A window whose units name no attribute of the relative delta raises
      AttributeError on every query, whatever units the query asks for. */
  lemma NonFieldUnitsRaise(ageIn: string -> AgeField, ageUnits: Option<string>)
    requires ageIn("yrs") == NoSuchField
    ensures MakeAgeWindow(None, None, Some("yrs"), Absent, Absent).Ok?
    ensures AgeInBoundsOrRaise(MakeAgeWindow(None, None, Some("yrs"), Absent, Absent).value, ageIn, ageUnits)
      == Err(AttributeError)
  {
  }

  /** The default window is `x < 120` in years: the lower default 0 is falsy
      and so sets no lower edge, and the upper edge is exclusive. */
  lemma DefaultWindow(age: real)
    ensures MakeAgeWindow(None, None, None, Absent, Absent)
      == Ok(Evaluator(Some(0.0), Some(120.0), "years", Absent, Absent))
    ensures Condition(MakeAgeWindow(None, None, None, Absent, Absent).value, age) <==> age < 120.0
  {
  }

  /** An age window always constrains from above, so the bare-value case of the
      condition (which rejects only 0) never arises for ages. */
  lemma {:induction false} AgeWindowBoundedAbove(ageLower: Option<real>, ageUpper: Option<real>,
                                                 ageUnits: Option<string>, lf: PyFlag, uf: PyFlag, age: real)
    requires MakeAgeWindow(ageLower, ageUpper, ageUnits, lf, uf).Ok?
    ensures var w := MakeAgeWindow(ageLower, ageUpper, ageUnits, lf, uf).value;
      Condition(w, age) ==> age <= w.upper.value && (age == w.upper.value ==> IsTrue(uf))
  {
    var w := MakeAgeWindow(ageLower, ageUpper, ageUnits, lf, uf).value;
    assert IsSet(w.upper) && w.upperInclusive == uf;
  }

  /** The tests' example: an age of 25 years lies inside 24 < AGE < 26 and
      outside 25 < AGE < 26 and 24 < AGE < 25. */
  lemma TwentyFiveExample(ageIn: string -> AgeField)
    requires ageIn("years") == Number(25)
    ensures AgeInBoundsOrRaise(MakeAgeWindow(Some(24.0), Some(26.0), None, Absent, Absent).value, ageIn, None)
      == Ok(true)
    ensures AgeInBoundsOrRaise(MakeAgeWindow(Some(25.0), Some(26.0), None, Absent, Absent).value, ageIn, None)
      == Err(ValueBoundryError)
    ensures AgeInBoundsOrRaise(MakeAgeWindow(Some(24.0), Some(25.0), None, Absent, Absent).value, ageIn, None)
      == Err(ValueBoundryError)
  {
  }
}
