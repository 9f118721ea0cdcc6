/** A value reference (edc_reportable/value_reference.py): a value bound, an age
    window and a gender scope for one lab test. Construction is a pure check of
    the keyword arguments; `in_bounds` records on the object, persistently,
    the last value found inside (`success`) and the last found outside
    (`error`). A grade reference (edc_reportable/grade_reference.py) is the
    same object with a grade; the plain references the source calls normal
    references carry none. */
module ValueReferences {
  import opened Common
  import opened Evaluators
  import opened AgeEvaluators

  /** The `gender` argument: a text, or a list or tuple of texts. */
  datatype GenderInput = GenderText(text: string) | GenderParts(parts: seq<string>)

  /** `''.join(parts)` */
  function Join(parts: seq<string>): string {
    if parts == [] then "" else parts[0] + Join(parts[1..])
  }

  /** A list or tuple of genders is joined into one text; a text is kept. */
  function StoredGender(g: GenderInput): string {
    match g
    case GenderText(t) => t
    case GenderParts(ps) => Join(ps)
  }

  lemma {:induction false} SubstringExtendLeft(needle: string, a: string, h: string)
    requires IsSubstring(needle, h)
    ensures IsSubstring(needle, a + h)
    decreases |a|
  {
    if a == [] {
      assert a + h == h;
    } else {
      assert (a + h)[1..] == a[1..] + h;
      SubstringExtendLeft(needle, a[1..], h);
    }
  }

  /** Every gender of a joined list is found again by the group's substring
      test, so a reference for `[MALE, FEMALE]` applies to either. */
  lemma {:induction false} JoinedGenderContainsEachPart(parts: seq<string>, k: nat)
    requires k < |parts|
    ensures IsSubstring(parts[k], StoredGender(GenderParts(parts)))
  {
    if k == 0 {
      assert parts[0] <= parts[0] + Join(parts[1..]);
    } else {
      JoinedGenderContainsEachPart(parts[1..], k - 1);
      SubstringExtendLeft(parts[k], parts[0], Join(parts[1..]));
    }
  }

  /** The keyword arguments a reference is built from. Both the value bound
      and the age window are built from the same arguments: the value bound
      reads the first five, the age window the `age_*` ones. */
  datatype Kwargs = Kwargs(
    lower: Option<real>,
    upper: Option<real>,
    units: Option<string>,
    lowerInclusive: PyFlag,
    upperInclusive: PyFlag,
    ageLower: Option<real>,
    ageUpper: Option<real>,
    ageUnits: Option<string>,
    ageLowerInclusive: PyFlag,
    ageUpperInclusive: PyFlag)

  /** The validated state of a new reference. */
  datatype Parts = Parts(name: string, gender: string, evaluator: Evaluator, ageEvaluator: Evaluator)

  function ValueBound(kw: Kwargs): Result<Evaluator> {
    Make(kw.lower, kw.upper, kw.units, kw.lowerInclusive, kw.upperInclusive)
  }

  function AgeWindow(kw: Kwargs): Result<Evaluator> {
    MakeAgeWindow(kw.ageLower, kw.ageUpper, kw.ageUnits, kw.ageLowerInclusive, kw.ageUpperInclusive)
  }

  /** `ValueReference.__init__`: the value bound is built (and may raise)
      before the age window. */
  function BuildParts(name: string, gender: GenderInput, kw: Kwargs): (r: Result<Parts>)
    ensures r.Ok? <==> ValueBound(kw).Ok? && AgeWindow(kw).Ok?
    ensures r.Ok? ==> r.value == Parts(name, StoredGender(gender), ValueBound(kw).value, AgeWindow(kw).value)
    ensures r.Ok? ==> Valid(r.value.evaluator) && Valid(r.value.ageEvaluator)
    ensures ValueBound(kw).Err? ==> r == Err(ValueBound(kw).error)
    ensures ValueBound(kw).Ok? && AgeWindow(kw).Err? ==> r == Err(AgeWindow(kw).error)
  {
    match ValueBound(kw)
    case Err(e) => Err(e)
    case Ok(bound) =>
      match AgeWindow(kw)
      case Err(e) => Err(e)
      case Ok(window) => Ok(Parts(name, StoredGender(gender), bound, window))
  }

  /** What `in_bounds` leaves in `success`: the new value on a match, else the old entry. */
  function AfterSuccess(matched: bool, value: real, previous: Option<real>): Option<real> {
    if matched then Some(value) else previous
  }

  /** What `in_bounds` leaves in `error`: the new value on a miss, else the old entry. */
  function AfterError(matched: bool, value: real, previous: Option<real>): Option<real> {
    if matched then previous else Some(value)
  }

  class ValueReference {
    const name: string
    const gender: string
    const evaluator: Evaluator
    const ageEvaluator: Evaluator
    /** `int(grade)` for a grade reference; None for a normal reference. */
    const grade: Option<int>
    /** `self.success`, `{name: description(value)}` after a match: the model
        keeps the value that description was written for. */
    var success: Option<real>
    /** `self.error`, likewise after a miss. */
    var error: Option<real>

    constructor (parts: Parts, grade: Option<int>)
      ensures name == parts.name && gender == parts.gender
      ensures evaluator == parts.evaluator && ageEvaluator == parts.ageEvaluator
      ensures this.grade == grade
      ensures success == None && error == None
    {
      name := parts.name;
      gender := parts.gender;
      evaluator := parts.evaluator;
      ageEvaluator := parts.ageEvaluator;
      this.grade := grade;
      success := None;
      error := None;
    }

    /** Whether the value bound admits `value` (units aside). */
    function Admits(value: real): bool {
      Condition(evaluator, value)
    }

    /** `in_bounds(value, units)`: InvalidUnits propagates and changes nothing;
        otherwise the answer is whether the bound admits the value, a miss
        overwrites only `error` and a match overwrites only `success`. */
    method InBounds(value: real, units: Option<string>) returns (r: Result<bool>)
      modifies this
      ensures units != Some(evaluator.units) ==> r == Err(InvalidUnits)
      ensures units == Some(evaluator.units) ==> r == Ok(Admits(value))
      ensures success == (if r.Ok? then AfterSuccess(r.value, value, old(success)) else old(success))
      ensures error == (if r.Ok? then AfterError(r.value, value, old(error)) else old(error))
    {
      var checked := InBoundsOrRaise(evaluator, value, units);
      match checked {
        case Err(ValueBoundryError) =>
          r := Ok(false);
          error := Some(value);
        case Err(e) =>
          r := Err(e);
        case Ok(b) =>
          r := Ok(b);
          success := Some(value);
      }
    }

    /** `age_match(dob, report_datetime, age_units)`: an age outside the window
        gives False rather than an exception; an age that cannot be read in
        the window's units, or InvalidUnits, propagates. */
    function AgeMatch(ageIn: string -> AgeField, ageUnits: Option<string>): (r: Result<bool>)
      ensures r.Err? <==> EarlyFailure(ageEvaluator, ageIn, ageUnits).Some?
      ensures r.Err? ==> r.error == EarlyFailure(ageEvaluator, ageIn, ageUnits).value
      ensures r.Ok? ==> (r.value <==> Condition(ageEvaluator, ageIn(ageEvaluator.units).n as real))
    {
      match AgeInBoundsOrRaise(ageEvaluator, ageIn, ageUnits)
      case Err(ValueBoundryError) => Ok(false)
      case Err(e) => Err(e)
      case Ok(b) => Ok(b)
    }
  }
}
