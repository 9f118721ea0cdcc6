/** The grade reference (edc_reportable/grade_reference.py): a value reference
    with an integer grade. The grade is converted with `int()` before anything
    else is checked, and no range check follows. */
module GradeReferences {
  import opened Common
  import opened ValueReferences

  /** The `grade` argument: an int, a float, a text, or not given (None). */
  datatype GradeInput = GradeInt(i: int) | GradeReal(x: real) | GradeText(t: string) | GradeMissing

  /** `int(x)` for a float: truncation toward zero. */
  function Truncate(x: real): (r: int)
    ensures x >= 0.0 ==> r as real <= x < r as real + 1.0
    ensures x < 0.0 ==> r as real - 1.0 < x <= r as real
  {
    if x >= 0.0 then x.Floor else -((-x).Floor)
  }

  /** `int(t)` for a text: an optional sign followed by one or more digits. */
  function IntOfText(t: string): Option<int> {
    if |t| > 0 && (t[0] == '+' || t[0] == '-') then
      var ds := t[1..];
      if |ds| > 0 && AllDigits(ds) then
        Some(if t[0] == '-' then -(DigitsValue(ds) as int) else DigitsValue(ds) as int)
      else None
    else if |t| > 0 && AllDigits(t) then Some(DigitsValue(t))
    else None
  }

  /** `str(n)` */
  function IntText(n: int): string {
    if n < 0 then "-" + NatText(-n) else NatText(n)
  }

  /** `int(str(n)) == n`: the text conversion reads back what `str` writes. */
  lemma {:induction false} IntTextRoundTrip(n: int)
    ensures IntOfText(IntText(n)) == Some(n)
  {
    if n < 0 {
      var t := IntText(n);
      assert t[1..] == NatText(-n);
      NatTextValue(-n);
    } else {
      NatTextValue(n);
    }
  }

  /** `int(grade)`: a text that is not an integer raises ValueError, None raises TypeError. */
  function ToInt(g: GradeInput): (r: Result<int>)
    ensures g.GradeInt? ==> r == Ok(g.i)
    ensures g.GradeReal? ==> r == Ok(Truncate(g.x))
    ensures g.GradeText? ==> r == (if IntOfText(g.t).Some? then Ok(IntOfText(g.t).value) else Err(ValueError))
    ensures g.GradeMissing? ==> r == Err(TypeError)
  {
    match g
    case GradeInt(i) => Ok(i)
    case GradeReal(x) => Ok(Truncate(x))
    case GradeText(t) => if IntOfText(t).Some? then Ok(IntOfText(t).value) else Err(ValueError)
    case GradeMissing => Err(TypeError)
  }

  /** `GradeReference.__init__`: the grade conversion first, then everything a
      value reference checks, unchanged. */
  function BuildGradeParts(grade: GradeInput, name: string, gender: GenderInput, kw: Kwargs): (r: Result<(int, Parts)>)
    ensures ToInt(grade).Err? ==> r == Err(ToInt(grade).error)
    ensures ToInt(grade).Ok? ==> (r.Ok? <==> BuildParts(name, gender, kw).Ok?)
    ensures ToInt(grade).Ok? && r.Ok? ==> r.value == (ToInt(grade).value, BuildParts(name, gender, kw).value)
    ensures ToInt(grade).Ok? && r.Err? ==> r.error == BuildParts(name, gender, kw).error
  {
    match ToInt(grade)
    case Err(e) => Err(e)
    case Ok(g) =>
      match BuildParts(name, gender, kw)
      case Err(e) => Err(e)
      case Ok(parts) => Ok((g, parts))
  }

  /** A grade text that is not an integer raises before any bound is validated,
      whatever the other arguments are. */
  lemma NonIntegerGradeFailsFirst(t: string, name: string, gender: GenderInput, kw: Kwargs)
    requires IntOfText(t).None?
    ensures BuildGradeParts(GradeText(t), name, gender, kw) == Err(ValueError)
  {
  }

  /** No range check: every integer is accepted as a grade, `'0'` included. */
  lemma AnyIntegerGradeAccepted(n: int, name: string, gender: GenderInput, kw: Kwargs)
    requires BuildParts(name, gender, kw).Ok?
    ensures BuildGradeParts(GradeText(IntText(n)), name, gender, kw) == Ok((n, BuildParts(name, gender, kw).value))
    ensures BuildGradeParts(GradeText("0"), name, gender, kw) == Ok((0, BuildParts(name, gender, kw).value))
  {
    IntTextRoundTrip(n);
    assert IntText(0) == "0";
  }

  /** A text grade is stored as its integer: `'3'` becomes 3. */
  lemma TextGradeExample()
    ensures ToInt(GradeText("3")) == Ok(3)
    ensures ToInt(GradeText("3.5")) == Err(ValueError)
    ensures ToInt(GradeReal(3.7)) == Ok(3) && ToInt(GradeReal(-3.7)) == Ok(-3)
  {
    assert DigitsValue("3") == 3;
  }
}
