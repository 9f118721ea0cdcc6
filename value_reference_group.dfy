/** The reference group (edc_reportable/value_reference_group.py): the normal
    and grading references of one lab test, each kept in a dict from the
    reference's gender text to a list, and the queries over them. A dict keeps
    its keys in insertion order, so it is modelled as a sequence of buckets
    with distinct keys. */
module ValueReferenceGroups {
  import opened Common
  import opened Evaluators
  import opened AgeEvaluators
  import opened ValueReferences

  datatype Category = Normal | Grading

  /** A dictionary keyed by the two categories, as `self.error` and
      `self.success` are: one list per category. */
  datatype PerCategory = PerCategory(normal: seq<ValueReference>, grading: seq<ValueReference>)

  /** One entry of a per-gender dict: a key and its list. */
  datatype Bucket = Bucket(gender: string, refs: seq<ValueReference>)

  /** The dict's keys. */
  function Keys(bs: seq<Bucket>): set<string> {
    if bs == [] then {} else {bs[0].gender} + Keys(bs[1..])
  }

  /** No key occurs twice. */
  predicate DistinctKeys(bs: seq<Bucket>) {
    bs == [] || (bs[0].gender !in Keys(bs[1..]) && DistinctKeys(bs[1..]))
  }

  /** Every reference sits under its own gender and carries the group's name. */
  predicate WellFormed(bs: seq<Bucket>, name: string) {
    bs == []
    || (&& (forall k :: 0 <= k < |bs[0].refs| ==> bs[0].refs[k].gender == bs[0].gender)
        && (forall k :: 0 <= k < |bs[0].refs| ==> bs[0].refs[k].name == name)
        && WellFormed(bs[1..], name))
  }

  /** The invariant of one category's lists. */
  predicate Stored(bs: seq<Bucket>, name: string) {
    DistinctKeys(bs) && WellFormed(bs, name)
  }

  /** `dct[g]`, or the empty list when the key is absent. */
  function Lookup(bs: seq<Bucket>, g: string): seq<ValueReference> {
    if bs == [] then [] else if bs[0].gender == g then bs[0].refs else Lookup(bs[1..], g)
  }

  /** `dct.values()`, concatenated in key order. */
  function Flatten(bs: seq<Bucket>): seq<ValueReference> {
    if bs == [] then [] else bs[0].refs + Flatten(bs[1..])
  }

  ghost function RefSet(bs: seq<Bucket>): set<ValueReference> {
    set x | x in Flatten(bs)
  }

  /** The list of `x.gender` (created empty at the end when missing) with `x` appended. */
  function Appended(bs: seq<Bucket>, x: ValueReference): seq<Bucket> {
    if bs == [] then [Bucket(x.gender, [x])]
    else if bs[0].gender == x.gender then [Bucket(x.gender, bs[0].refs + [x])] + bs[1..]
    else [bs[0]] + Appended(bs[1..], x)
  }

  /** Appending changes the list of `x.gender` only, and only by adding `x` at its end. */
  lemma {:induction false} AppendedLookup(bs: seq<Bucket>, x: ValueReference, g: string)
    ensures Lookup(Appended(bs, x), g) == if g == x.gender then Lookup(bs, g) + [x] else Lookup(bs, g)
  {
    if bs != [] && bs[0].gender != x.gender {
      AppendedLookup(bs[1..], x, g);
    }
  }

  /** Appending adds the key `x.gender` and no other. */
  lemma {:induction false} AppendedKeys(bs: seq<Bucket>, x: ValueReference)
    ensures Keys(Appended(bs, x)) == Keys(bs) + {x.gender}
  {
    if bs != [] && bs[0].gender != x.gender {
      AppendedKeys(bs[1..], x);
    }
  }

  /** Appending keeps the keys distinct and every reference under its own
      gender, and adds `x` exactly once to the contents. */
  lemma AppendedInvariant(bs: seq<Bucket>, x: ValueReference, name: string)
    requires DistinctKeys(bs) && WellFormed(bs, name) && x.name == name
    ensures DistinctKeys(Appended(bs, x)) && WellFormed(Appended(bs, x), name)
    ensures multiset(Flatten(Appended(bs, x))) == multiset(Flatten(bs)) + multiset{x}
  {
    AppendedDistinct(bs, x);
    AppendedWellFormed(bs, x, name);
    AppendedContents(bs, x);
  }

  lemma {:induction false} AppendedDistinct(bs: seq<Bucket>, x: ValueReference)
    requires DistinctKeys(bs)
    ensures DistinctKeys(Appended(bs, x))
  {
    if bs != [] && bs[0].gender != x.gender {
      AppendedDistinct(bs[1..], x);
      AppendedKeys(bs[1..], x);
      assert Appended(bs, x)[1..] == Appended(bs[1..], x);
    } else if bs != [] {
      assert Appended(bs, x)[1..] == bs[1..];
    }
  }

  lemma {:induction false} AppendedWellFormed(bs: seq<Bucket>, x: ValueReference, name: string)
    requires WellFormed(bs, name) && x.name == name
    ensures WellFormed(Appended(bs, x), name)
  {
    if bs != [] && bs[0].gender != x.gender {
      AppendedWellFormed(bs[1..], x, name);
      assert Appended(bs, x)[1..] == Appended(bs[1..], x);
    } else if bs != [] {
      assert Appended(bs, x)[1..] == bs[1..];
    }
  }

  lemma {:induction false} AppendedContents(bs: seq<Bucket>, x: ValueReference)
    ensures multiset(Flatten(Appended(bs, x))) == multiset(Flatten(bs)) + multiset{x}
  {
    if bs != [] && bs[0].gender != x.gender {
      AppendedContents(bs[1..], x);
      assert Appended(bs, x)[1..] == Appended(bs[1..], x);
    } else if bs != [] {
      assert Appended(bs, x)[1..] == bs[1..];
    }
  }

  /** In a well-formed dict a reference can only be under its own gender, so the
      per-key duplicate check is a check against the whole category. */
  lemma {:induction false} FoundUnderOwnGender(bs: seq<Bucket>, name: string, x: ValueReference)
    requires WellFormed(bs, name) && x in Flatten(bs)
    ensures x.gender in Keys(bs)
    ensures DistinctKeys(bs) ==> x in Lookup(bs, x.gender)
  {
    if x in bs[0].refs {
      var k :| 0 <= k < |bs[0].refs| && bs[0].refs[k] == x;
      assert bs[0].refs[k].gender == bs[0].gender;
    } else {
      FoundUnderOwnGender(bs[1..], name, x);
    }
  }

  lemma {:induction false} LookupInFlatten(bs: seq<Bucket>, g: string, x: ValueReference)
    requires x in Lookup(bs, g)
    ensures x in Flatten(bs)
  {
    if bs[0].gender != g {
      LookupInFlatten(bs[1..], g, x);
    }
  }

  /** Concatenating the first `b + 1` lists. */
  lemma {:induction false} FlattenPrefix(bs: seq<Bucket>, b: nat)
    requires b < |bs|
    ensures Flatten(bs[..b + 1]) == Flatten(bs[..b]) + bs[b].refs
  {
    if b == 0 {
      assert bs[..1][1..] == [];
    } else {
      FlattenPrefix(bs[1..], b - 1);
      assert bs[..b + 1][1..] == bs[1..][..b];
      assert bs[..b][1..] == bs[1..][..b - 1];
    }
  }

  /** The index at which `list.index(x)` finds `x`: its first occurrence. */
  function IndexOf<T(==)>(s: seq<T>, x: T): (r: nat)
    requires x in s
    ensures r < |s| && s[r] == x && x !in s[..r]
  {
    if s[0] == x then 0
    else
      assert s[1..][..IndexOf(s[1..], x)] == s[1..IndexOf(s[1..], x) + 1];
      1 + IndexOf(s[1..], x)
  }

  /** `list.pop(i)`: the list without its element at `i`. */
  function Pop<T>(s: seq<T>, i: nat): (r: seq<T>)
    requires i < |s|
    ensures |r| == |s| - 1
  {
    s[..i] + s[i + 1..]
  }

  lemma WalkStart<T>(copy: seq<T>, p: T -> bool)
    ensures copy == Filter(copy[..0], p) + copy[0..]
  {
    assert copy[..0] == [];
  }

  lemma FinishWalk<T>(copy: seq<T>, current: seq<T>, p: T -> bool)
    requires current == Filter(copy[..|copy|], p) + copy[|copy|..]
    ensures current == Filter(copy, p)
  {
    assert copy[..|copy|] == copy;
  }

  /** One step of the walk over the copy, for an element that is kept: it
      stays where it is. */
  lemma KeepStep<T>(copy: seq<T>, i: nat, current: seq<T>, p: T -> bool)
    requires i < |copy| && p(copy[i])
    requires current == Filter(copy[..i], p) + copy[i..]
    ensures current == Filter(copy[..i + 1], p) + copy[i + 1..]
  {
    FilterPrefix(copy, i, p);
    assert copy[i..] == [copy[i]] + copy[i + 1..];
    ConcatAssociative(Filter(copy[..i], p), [copy[i]], copy[i + 1..]);
  }

  /** One step of the walk over the copy, for an element that is dropped: at
      `list.index` it is the first occurrence, right after the kept ones, and
      popping it leaves the kept ones followed by the rest. */
  lemma DropStep<T>(copy: seq<T>, i: nat, current: seq<T>, p: T -> bool)
    requires i < |copy| && !p(copy[i])
    requires current == Filter(copy[..i], p) + copy[i..]
    ensures copy[i] in current
    ensures Pop(current, IndexOf(current, copy[i])) == Filter(copy[..i + 1], p) + copy[i + 1..]
  {
    var kept := Filter(copy[..i], p);
    FilterPrefix(copy, i, p);
    assert current[|kept|] == copy[i];
    var index := IndexOf(current, copy[i]);
    assert copy[i] !in kept;
    assert current[..|kept|] == kept;
    assert index == |kept|;
    assert current[index + 1..] == copy[i + 1..];
    assert Filter(copy[..i + 1], p) == kept + [];
  }

  lemma KeepMeans<T>(check: T -> Result<bool>, x: T)
    ensures Keep(check)(x) <==> check(x) == Ok(true)
  {
  }

  /** Every check passes without raising. */
  predicate AllOk<T>(s: seq<T>, check: T -> Result<bool>) {
    forall k :: 0 <= k < |s| ==> check(s[k]).Ok?
  }

  /** The position of the first element whose check raises. */
  function FirstFailure<T>(s: seq<T>, check: T -> Result<bool>): (k: nat)
    requires !AllOk(s, check)
    ensures k < |s| && check(s[k]).Err? && AllOk(s[..k], check)
  {
    if check(s[0]).Err? then 0
    else
      var k := FirstFailure(s[1..], check);
      assert s[..k + 1] == [s[0]] + s[1..][..k];
      k + 1
  }

  /** The check came out True. */
  function Keep<T>(check: T -> Result<bool>): T -> bool {
    (x: T) => check(x) == Ok(true)
  }

  /** What checking the elements in order and dropping the failing ones gives:
      the exception of the first element whose check raises, or else the
      elements whose check is True, in order. */
  function Screened<T>(s: seq<T>, check: T -> Result<bool>): Result<seq<T>> {
    if AllOk(s, check) then Ok(Filter(s, Keep(check)))
    else Err(check(s[FirstFailure(s, check)]).error)
  }

  lemma FirstFailureAt<T>(s: seq<T>, check: T -> Result<bool>, i: nat)
    requires i < |s| && AllOk(s[..i], check) && check(s[i]).Err?
    ensures !AllOk(s, check) && FirstFailure(s, check) == i
  {
    var k := FirstFailure(s, check);
    assert forall j :: 0 <= j < i ==> s[..i][j] == s[j];
    assert forall j :: 0 <= j < k ==> s[..k][j] == s[j];
  }

  lemma AllOkPrefix<T>(s: seq<T>, check: T -> Result<bool>, i: nat)
    requires i < |s| && AllOk(s[..i], check) && check(s[i]).Ok?
    ensures AllOk(s[..i + 1], check)
  {
    assert forall j :: 0 <= j < i ==> s[..i + 1][j] == s[..i][j];
  }

  lemma AllOkWhole<T>(s: seq<T>, check: T -> Result<bool>)
    requires AllOk(s[..|s|], check)
    ensures AllOk(s, check)
  {
    assert s[..|s|] == s;
  }

  /** The walk of `get_value_references` over a copy of the list: each element
      is checked in turn; a check that raises ends the walk with its
      exception, and an element whose check is False is found again with
      `list.index` and popped from the working list. */
  method RemoveFailing<T(==)>(refs: seq<T>, check: T -> Result<bool>) returns (r: Result<seq<T>>)
    ensures r == Screened(refs, check)
  {
    var references := refs;
    var copy := refs;
    WalkStart(copy, Keep(check));
    var i := 0;
    while i < |copy|
      invariant 0 <= i <= |copy|
      invariant references == Filter(copy[..i], Keep(check)) + copy[i..]
      invariant AllOk(copy[..i], check)
    {
      var ref := copy[i];
      var matched := check(ref);
      if matched.Err? {
        FirstFailureAt(copy, check, i);
        return Err(matched.error);
      }
      AllOkPrefix(copy, check, i);
      KeepMeans(check, ref);
      if !matched.value {
        DropStep(copy, i, references, Keep(check));
        var index := IndexOf(references, ref);
        references := Pop(references, index);
      } else {
        KeepStep(copy, i, references, Keep(check));
      }
      i := i + 1;
    }
    FinishWalk(copy, references, Keep(check));
    AllOkWhole(copy, check);
    r := Ok(references);
  }

  /** `gender in ref.gender` */
  function GenderPredicate(gender: string): ValueReference -> bool {
    (x: ValueReference) => IsSubstring(gender, x.gender)
  }

  /** `ref.age_match(dob, report_datetime)` */
  function AgeCheck(ageIn: string -> AgeField): ValueReference -> Result<bool> {
    (x: ValueReference) => x.AgeMatch(ageIn, None)
  }

  /** The references that apply to a query: those whose gender text contains
      the query's gender and whose age window admits the age, in stored order;
      the exception of the first gender-matching reference whose age matching
      raises. */
  function Applicable(refs: seq<ValueReference>, gender: string, ageIn: string -> AgeField): Result<seq<ValueReference>> {
    Screened(Filter(refs, GenderPredicate(gender)), AgeCheck(ageIn))
  }

  /** The applicable references are stored ones. */
  lemma ApplicableWithin(refs: seq<ValueReference>, gender: string, ageIn: string -> AgeField)
    ensures Applicable(refs, gender, ageIn).Ok? ==>
      forall k :: 0 <= k < |Applicable(refs, gender, ageIn).value| ==> Applicable(refs, gender, ageIn).value[k] in refs
  {
  }

  /** The references a query finds are stored ones. */
  lemma ApplicableStored(bs: seq<Bucket>, gender: string, ageIn: string -> AgeField)
    ensures Applicable(Flatten(bs), gender, ageIn).Ok? ==>
      Elements(Applicable(Flatten(bs), gender, ageIn).value) <= RefSet(bs)
  {
    ApplicableWithin(Flatten(bs), gender, ageIn);
  }

  /** A query fails exactly when a gender-matching reference's age window
      raises before comparing (its units name no number of the relative
      delta, or are not years, the unit every age match asks for); it raises
      what the first such reference, in stored order, raises. */
  lemma {:induction false} ApplicableFails(refs: seq<ValueReference>, gender: string, ageIn: string -> AgeField)
    ensures Applicable(refs, gender, ageIn).Err? <==>
      exists k :: 0 <= k < |refs| && IsSubstring(gender, refs[k].gender)
                  && EarlyFailure(refs[k].ageEvaluator, ageIn, None).Some?
    ensures Applicable(refs, gender, ageIn).Err? ==>
      var byGender := Filter(refs, GenderPredicate(gender));
      exists k :: 0 <= k < |byGender|
                  && EarlyFailure(byGender[k].ageEvaluator, ageIn, None) == Some(Applicable(refs, gender, ageIn).error)
                  && forall j :: 0 <= j < k ==> EarlyFailure(byGender[j].ageEvaluator, ageIn, None).None?
  {
    var byGender := Filter(refs, GenderPredicate(gender));
    var check := AgeCheck(ageIn);
    if !AllOk(byGender, check) {
      var k := FirstFailure(byGender, check);
      var y := byGender[k];
      assert y in refs && GenderPredicate(gender)(y);
      var j :| 0 <= j < |refs| && refs[j] == y;
      assert IsSubstring(gender, refs[j].gender) && EarlyFailure(refs[j].ageEvaluator, ageIn, None).Some?;
      forall i | 0 <= i < k
        ensures EarlyFailure(byGender[i].ageEvaluator, ageIn, None).None?
      {
        assert byGender[..k][i] == byGender[i];
        assert check(byGender[..k][i]).Ok?;
      }
    }
    if exists k :: 0 <= k < |refs| && IsSubstring(gender, refs[k].gender)
                   && EarlyFailure(refs[k].ageEvaluator, ageIn, None).Some? {
      var k :| 0 <= k < |refs| && IsSubstring(gender, refs[k].gender)
               && EarlyFailure(refs[k].ageEvaluator, ageIn, None).Some?;
      assert GenderPredicate(gender)(refs[k]);
      FilterKeeps(refs, GenderPredicate(gender), refs[k]);
      var j :| 0 <= j < |byGender| && byGender[j] == refs[k];
      assert check(byGender[j]).Err?;
    }
  }

  /** When a query succeeds, a stored reference applies exactly when its gender
      text contains the query's and its age window admits the age. */
  lemma {:induction false} ApplicableMembers(refs: seq<ValueReference>, gender: string, ageIn: string -> AgeField, x: ValueReference)
    requires Applicable(refs, gender, ageIn).Ok?
    ensures x in Applicable(refs, gender, ageIn).value <==>
      x in refs && IsSubstring(gender, x.gender) && x.AgeMatch(ageIn, None) == Ok(true)
  {
    var byGender := Filter(refs, GenderPredicate(gender));
    var keep := Keep(AgeCheck(ageIn));
    var found := Filter(byGender, keep);
    assert Applicable(refs, gender, ageIn).value == found;
    if x in found {
      var j :| 0 <= j < |found| && found[j] == x;
      assert x in byGender && keep(x);
      var i :| 0 <= i < |byGender| && byGender[i] == x;
      assert GenderPredicate(gender)(x);
    }
    if x in refs && IsSubstring(gender, x.gender) && x.AgeMatch(ageIn, None) == Ok(true) {
      assert GenderPredicate(gender)(x);
      FilterKeeps(refs, GenderPredicate(gender), x);
      assert keep(x);
      FilterKeeps(byGender, keep, x);
    }
  }

  /** The position of the first reference whose units are not the query's, or
      the length when all agree: where `in_bounds` raises InvalidUnits. */
  function FirstMismatch(refs: seq<ValueReference>, units: Option<string>): (k: nat)
    ensures k <= |refs|
    ensures forall j :: 0 <= j < k ==> Some(refs[j].evaluator.units) == units
    ensures k < |refs| ==> Some(refs[k].evaluator.units) != units
  {
    if refs == [] then 0
    else if Some(refs[0].evaluator.units) != units then 0
    else 1 + FirstMismatch(refs[1..], units)
  }

  /** The sort key `x.grade`. */
  function Rank(x: ValueReference): int {
    match x.grade
    case Some(g) => g
    case None => 0
  }

  predicate SortedByGrade(s: seq<ValueReference>) {
    forall i, j :: 0 <= i < j < |s| ==> Rank(s[i]) >= Rank(s[j])
  }

  /** Inserts `x` after every leading element of equal or higher grade: into
      a list sorted by descending grade, after all elements of its grade. */
  function InsertByGrade(x: ValueReference, s: seq<ValueReference>): seq<ValueReference> {
    if s == [] then [x]
    else if Rank(s[0]) >= Rank(x) then [s[0]] + InsertByGrade(x, s[1..])
    else [x] + s
  }

  /** Insertion into a sorted list keeps it sorted and adds exactly `x`. */
  lemma {:induction false} InsertSorted(x: ValueReference, s: seq<ValueReference>)
    requires SortedByGrade(s)
    ensures SortedByGrade(InsertByGrade(x, s))
    ensures multiset(InsertByGrade(x, s)) == multiset(s) + multiset{x}
  {
    if s != [] && Rank(s[0]) >= Rank(x) {
      assert SortedByGrade(s[1..]);
      InsertSorted(x, s[1..]);
      InsertedHead(x, s, InsertByGrade(x, s[1..]));
    }
  }

  lemma InsertedHead(x: ValueReference, s: seq<ValueReference>, rest: seq<ValueReference>)
    requires SortedByGrade(s) && s != [] && Rank(s[0]) >= Rank(x)
    requires SortedByGrade(rest)
    requires multiset(rest) == multiset(s[1..]) + multiset{x}
    ensures SortedByGrade([s[0]] + rest)
    ensures multiset([s[0]] + rest) == multiset(s) + multiset{x}
  {
    assert s == [s[0]] + s[1..];
    forall k | 0 <= k < |rest| ensures Rank(rest[k]) <= Rank(s[0]) {
      assert rest[k] in multiset(rest);
      if rest[k] != x {
        assert rest[k] in multiset(s[1..]);
        var i :| 0 <= i < |s[1..]| && s[1..][i] == rest[k];
        assert s[i + 1] == rest[k];
      }
    }
  }

  /** `list.sort(key=lambda x: x.grade, reverse=True)`: insertion of each
      element in turn, a stable sort on descending grade. */
  function SortByGrade(s: seq<ValueReference>): seq<ValueReference> {
    if s == [] then [] else InsertByGrade(s[|s| - 1], SortByGrade(s[..|s| - 1]))
  }

  /** The sort orders by descending grade and is a permutation. */
  lemma {:induction false} SortByGradeSorted(s: seq<ValueReference>)
    ensures SortedByGrade(SortByGrade(s))
    ensures multiset(SortByGrade(s)) == multiset(s)
  {
    if s != [] {
      var init, last := s[..|s| - 1], s[|s| - 1];
      assert s == init + [last];
      SortByGradeSorted(init);
      InsertSorted(last, SortByGrade(init));
    }
  }

  function GradeIs(g: int): ValueReference -> bool {
    (x: ValueReference) => Rank(x) == g
  }

  lemma {:induction false} NoneOfGrade(s: seq<ValueReference>, g: int)
    requires forall j :: 0 <= j < |s| ==> Rank(s[j]) < g
    ensures Filter(s, GradeIs(g)) == []
  {
    if s != [] {
      NoneOfGrade(s[..|s| - 1], g);
    }
  }

  lemma {:induction false} InsertStable(x: ValueReference, s: seq<ValueReference>, g: int)
    requires SortedByGrade(s)
    ensures Filter(InsertByGrade(x, s), GradeIs(g)) == Filter(s, GradeIs(g)) + Filter([x], GradeIs(g))
  {
    FilterSingleton(x, GradeIs(g));
    if s == [] {
      assert InsertByGrade(x, s) == [x];
    } else if Rank(s[0]) >= Rank(x) {
      var p, rest := GradeIs(g), InsertByGrade(x, s[1..]);
      assert s == [s[0]] + s[1..];
      calc {
        Filter(InsertByGrade(x, s), p);
        Filter([s[0]] + rest, p);
        { FilterAppend([s[0]], rest, p); }
        Filter([s[0]], p) + Filter(rest, p);
        { InsertStable(x, s[1..], g); }
        Filter([s[0]], p) + (Filter(s[1..], p) + Filter([x], p));
        { ConcatAssociative(Filter([s[0]], p), Filter(s[1..], p), Filter([x], p)); }
        Filter([s[0]], p) + Filter(s[1..], p) + Filter([x], p);
        { FilterAppend([s[0]], s[1..], p); }
        Filter(s, p) + Filter([x], p);
      }
    } else {
      InsertAtFrontStable(x, s, g);
    }
  }

  lemma InsertAtFrontStable(x: ValueReference, s: seq<ValueReference>, g: int)
    requires SortedByGrade(s) && s != [] && Rank(s[0]) < Rank(x)
    ensures Filter(InsertByGrade(x, s), GradeIs(g)) == Filter(s, GradeIs(g)) + Filter([x], GradeIs(g))
  {
    var p := GradeIs(g);
    FilterSingleton(x, p);
    assert InsertByGrade(x, s) == [x] + s;
    FilterAppend([x], s, p);
    if Rank(x) == g {
      NoneOfGrade(s, g);
      assert Filter(s, p) == [];
    } else {
      assert Filter([x], p) == [];
    }
  }

  /** The sort is stable: the references of any one grade keep their stored order. */
  lemma {:induction false} SortStable(s: seq<ValueReference>, g: int)
    ensures Filter(SortByGrade(s), GradeIs(g)) == Filter(s, GradeIs(g))
  {
    if s != [] {
      var init, last := s[..|s| - 1], s[|s| - 1];
      var p := GradeIs(g);
      assert s == init + [last];
      calc {
        Filter(SortByGrade(s), p);
        Filter(InsertByGrade(last, SortByGrade(init)), p);
        { SortByGradeSorted(init); InsertStable(last, SortByGrade(init), g); }
        Filter(SortByGrade(init), p) + Filter([last], p);
        { SortStable(init, g); }
        Filter(init, p) + Filter([last], p);
        { FilterAppend(init, [last], p); }
        Filter(s, p);
      }
    }
  }

  /** A filter of a sorted list is sorted, so its first element has the
      highest grade of all elements passing the filter. */
  lemma {:induction false} FilterSorted(s: seq<ValueReference>, p: ValueReference -> bool)
    requires SortedByGrade(s)
    ensures SortedByGrade(Filter(s, p))
  {
    if s != [] {
      var init, last := s[..|s| - 1], s[|s| - 1];
      assert SortedByGrade(init);
      FilterSorted(init, p);
      var f := Filter(init, p);
      forall j | 0 <= j < |f| ensures Rank(f[j]) >= Rank(last) {
        var i :| 0 <= i < |init| && init[i] == f[j];
      }
    }
  }

  /** The first reference of a sorted list that passes a filter has the largest
      grade among all that pass it. */
  lemma TopOfSorted(s: seq<ValueReference>, p: ValueReference -> bool, x: ValueReference)
    requires SortedByGrade(s) && x in s && p(x)
    ensures Filter(s, p) != [] && Rank(Filter(s, p)[0]) >= Rank(x)
  {
    FilterKeeps(s, p, x);
    FilterSorted(s, p);
  }

  /** The references of `s` whose `success` is set, in order. */
  function WithSuccess(s: seq<ValueReference>): seq<ValueReference>
    reads s
  {
    if s == [] then []
    else WithSuccess(s[..|s| - 1]) + (if s[|s| - 1].success.Some? then [s[|s| - 1]] else [])
  }

  /** The references of `s` whose `error` is set, in order. */
  function WithError(s: seq<ValueReference>): seq<ValueReference>
    reads s
  {
    if s == [] then []
    else WithError(s[..|s| - 1]) + (if s[|s| - 1].error.Some? then [s[|s| - 1]] else [])
  }

  function AdmitsPredicate(value: real): ValueReference -> bool {
    (x: ValueReference) => x.Admits(value)
  }

  /** Some reference of `s` admits the value. */
  predicate AnyAdmits(s: seq<ValueReference>, value: real) {
    s != [] && (AnyAdmits(s[..|s| - 1], value) || s[|s| - 1].Admits(value))
  }

  /** Every reference of `s` is in the query's units. */
  predicate UnitsAgree(s: seq<ValueReference>, units: Option<string>) {
    forall j :: 0 <= j < |s| ==> Some(s[j].evaluator.units) == units
  }

  /** Every reference of `s` has a grade, so the sort key can be computed. */
  predicate AllGraded(s: seq<ValueReference>) {
    forall j :: 0 <= j < |s| ==> s[j].grade.Some?
  }

  /** No reference of `s` has ever matched a value. */
  predicate NeverMatched(s: seq<ValueReference>)
    reads s
  {
    forall j :: 0 <= j < |s| ==> s[j].success.None?
  }

  /** The references stored in allocated lists are allocated. */
  lemma {:induction false} FlattenAllocated(bs: seq<Bucket>)
    requires allocated(bs)
    ensures forall x :: x in RefSet(bs) ==> allocated(x)
  {
    if bs != [] {
      assert allocated(bs[0]) && allocated(bs[1..]);
      FlattenAllocated(bs[1..]);
      forall x | x in RefSet(bs)
        ensures allocated(x)
      {
        assert x in bs[0].refs + Flatten(bs[1..]);
        if x in bs[0].refs {
          var j :| 0 <= j < |bs[0].refs| && bs[0].refs[j] == x;
        } else {
          assert x in RefSet(bs[1..]);
        }
      }
    }
  }

  /** The elements of a list, as a set. */
  function Elements<T>(s: seq<T>): set<T> {
    set x | x in s
  }

  lemma ElementsStep<T>(s: seq<T>, i: nat)
    requires i < |s|
    ensures Elements(s[..i + 1]) == Elements(s[..i]) + {s[i]}
  {
    assert s[..i + 1] == s[..i] + [s[i]];
  }

  /** Of the references in `all`, those in `touched` hold what one or more
      identical `in_bounds(value)` calls record on them (recording is
      idempotent), and the others are as they were. */
  twostate predicate Queried(new all: set<ValueReference>, new touched: set<ValueReference>, value: real)
    reads all
  {
    forall x :: x in all && old(allocated(x)) ==>
      if x in touched then
        && x.success == AfterSuccess(x.Admits(value), value, old(x.success))
        && x.error == AfterError(x.Admits(value), value, old(x.error))
      else x.success == old(x.success) && x.error == old(x.error)
  }

  lemma PrefixStep<T>(s: seq<T>, i: nat)
    requires i < |s|
    ensures s[..i + 1] == s[..i] + [s[i]]
  {
  }

  lemma AnyAdmitsStep(s: seq<ValueReference>, i: nat, value: real)
    requires i < |s|
    ensures AnyAdmits(s[..i + 1], value) <==> AnyAdmits(s[..i], value) || s[i].Admits(value)
  {
    assert s[..i + 1][..i] == s[..i];
  }

  lemma AnyAdmitsWhole(s: seq<ValueReference>, value: real)
    ensures AnyAdmits(s[..|s|], value) == AnyAdmits(s, value)
  {
    assert s[..|s|] == s;
  }

  lemma UnitsAgreeStep(s: seq<ValueReference>, i: nat, units: Option<string>)
    requires i < |s| && UnitsAgree(s[..i], units) && Some(s[i].evaluator.units) == units
    ensures UnitsAgree(s[..i + 1], units)
  {
    PrefixStep(s, i);
  }

  /** Where the units first disagree, given that they agree before `i`. */
  lemma FirstMismatchIs(s: seq<ValueReference>, units: Option<string>, i: nat)
    requires i <= |s| && UnitsAgree(s[..i], units)
    requires i < |s| ==> Some(s[i].evaluator.units) != units
    ensures FirstMismatch(s, units) == i
  {
    var k := FirstMismatch(s, units);
    assert forall j :: 0 <= j < i ==> s[..i][j] == s[j];
  }

  lemma WithStep(s: seq<ValueReference>, i: nat)
    requires i < |s|
    ensures WithSuccess(s[..i + 1]) == WithSuccess(s[..i]) + (if s[i].success.Some? then [s[i]] else [])
    ensures WithError(s[..i + 1]) == WithError(s[..i]) + (if s[i].error.Some? then [s[i]] else [])
  {
    assert s[..i + 1][..i] == s[..i];
  }

  lemma NotAReference(g: ValueReferenceGroup, s: set<ValueReference>)
    ensures var objects: set<object> := s; g !in objects
  {
  }

  class ValueReferenceGroup {
    const name: string
    var normalReferences: seq<Bucket>
    var gradingReferences: seq<Bucket>
    /** `self.error`: per category, the references of the last query that were evaluated. */
    var error: PerCategory
    /** `self.success`: likewise. */
    var success: PerCategory
    /** `self.grade`: set by the last grading query. */
    var grade: Option<int>

    ghost predicate Valid()
      reads this
    {
      && Stored(normalReferences, name) && Stored(gradingReferences, name)
    }

    constructor (name: string)
      ensures Valid() && this.name == name
      ensures normalReferences == [] && gradingReferences == []
      ensures error == PerCategory([], []) && success == PerCategory([], [])
      ensures grade == None
    {
      this.name := name;
      normalReferences := [];
      gradingReferences := [];
      error := PerCategory([], []);
      success := PerCategory([], []);
      grade := None;
    }

    function References(category: Category): seq<Bucket>
      reads this
    {
      if category == Grading then gradingReferences else normalReferences
    }

    /** `_add`: the name guard, then the duplicate guard (by identity), then the
        append. A failing add changes nothing. */
    method Add(x: ValueReference, category: Category) returns (r: Outcome)
      requires Valid()
      modifies this
      ensures Valid()
      ensures error == old(error) && success == old(success) && grade == old(grade)
      ensures x.name != name ==> r == Fail(InvalidValueReference)
      ensures x.name == name && x in Flatten(old(References(category))) ==> r == Fail(ValueReferenceAlreadyAdded)
      ensures x.name == name && x !in Flatten(old(References(category))) ==> r == Pass
      ensures r.Fail? ==> normalReferences == old(normalReferences) && gradingReferences == old(gradingReferences)
      ensures r.Pass? ==> References(category) == Appended(old(References(category)), x)
      ensures r.Pass? ==> multiset(Flatten(References(category))) == multiset(Flatten(old(References(category)))) + multiset{x}
      ensures category == Normal ==> gradingReferences == old(gradingReferences)
      ensures category == Grading ==> normalReferences == old(normalReferences)
    {
      var refs := References(category);
      if x.name != name {
        return Fail(InvalidValueReference);
      }
      if x in Lookup(refs, x.gender) {
        LookupInFlatten(refs, x.gender, x);
        return Fail(ValueReferenceAlreadyAdded);
      }
      if x in Flatten(refs) {
        FoundUnderOwnGender(refs, name, x);
      }
      AppendedInvariant(refs, x, name);
      if category == Grading {
        gradingReferences := Appended(refs, x);
      } else {
        normalReferences := Appended(refs, x);
      }
      r := Pass;
    }

    /** `add_normal` */
    method AddNormal(x: ValueReference) returns (r: Outcome)
      requires Valid()
      modifies this
      ensures Valid()
      ensures error == old(error) && success == old(success) && grade == old(grade)
      ensures r == (if x.name != name then Fail(InvalidValueReference)
                    else if x in Flatten(old(normalReferences)) then Fail(ValueReferenceAlreadyAdded)
                    else Pass)
      ensures gradingReferences == old(gradingReferences)
      ensures normalReferences == if r.Pass? then Appended(old(normalReferences), x) else old(normalReferences)
    {
      r := Add(x, Normal);
    }

    /** `add_grading` */
    method AddGrading(x: ValueReference) returns (r: Outcome)
      requires Valid()
      modifies this
      ensures Valid()
      ensures error == old(error) && success == old(success) && grade == old(grade)
      ensures r == (if x.name != name then Fail(InvalidValueReference)
                    else if x in Flatten(old(gradingReferences)) then Fail(ValueReferenceAlreadyAdded)
                    else Pass)
      ensures normalReferences == old(normalReferences)
      ensures gradingReferences == if r.Pass? then Appended(old(gradingReferences), x) else old(gradingReferences)
    {
      r := Add(x, Grading);
    }

    /** `in_bounds`: the lists of the normal category are reset, the
        applicable references are queried in stored order and each is appended
        to both lists once queried; the answer is True when none applies and
        otherwise whether one admits the value. InvalidUnits from a reference
        ends the query, leaving the references before it queried and listed. */
    method InBounds(gender: string, ageIn: string -> AgeField, value: real, units: Option<string>)
      returns (r: Result<bool>)
      modifies this, RefSet(normalReferences)
      ensures normalReferences == old(normalReferences) && gradingReferences == old(gradingReferences)
      ensures grade == old(grade) && error.grading == old(error.grading) && success.grading == old(success.grading)
      ensures success.normal == error.normal
      ensures NormalQueried(Applicable(Flatten(old(normalReferences)), gender, ageIn), RefSet(old(normalReferences)),
                            value, units, r, error.normal)
    {
      NotAReference(this, RefSet(normalReferences));
      var listed;
      r, listed := QueryNormal(normalReferences, gender, ageIn, value, units);
      error := error.(normal := listed);
      success := success.(normal := listed);
    }

    /** `in_bounds_for_grade`: the lists of the grading category and the
        grade are reset; the applicable references, when there are any, are
        sorted on descending grade and queried in turn, each listed among the
        errors (successes) once queried if its `error` (`success`) is set;
        the grade is that of the first listed success, or None. The answer
        is False when no reference applies. */
    method InBoundsForGrade(gender: string, ageIn: string -> AgeField, value: real, units: Option<string>)
      returns (r: Result<bool>)
      modifies this, RefSet(gradingReferences)
      ensures normalReferences == old(normalReferences) && gradingReferences == old(gradingReferences)
      ensures error.normal == old(error.normal) && success.normal == old(success.normal)
      ensures grade == if success.grading == [] then None else success.grading[0].grade
      ensures GradingQueried(Applicable(Flatten(old(gradingReferences)), gender, ageIn), RefSet(old(gradingReferences)),
                             value, units, r, error.grading, success.grading)
    {
      var bs := gradingReferences;
      NotAReference(this, RefSet(bs));
      var errors, successes;
      r, errors, successes := QueryGrading(bs, gender, ageIn, value, units);
      error := error.(grading := errors);
      success := success.(grading := successes);
      grade := if successes == [] then None else successes[0].grade;
    }

    /** `get_value_references`: the gender filter over every list in key
        order, then the walk removing each reference whose age does not
        match. */
    method GetValueReferences(gender: string, ageIn: string -> AgeField, category: Category)
      returns (r: Result<seq<ValueReference>>)
      ensures r == Applicable(Flatten(References(category)), gender, ageIn)
    {
      var references := CollectByGender(References(category), gender);
      r := RemoveFailing(references, AgeCheck(ageIn));
    }
  }

  /** The first half of `get_value_references`: the references whose gender
      text contains `gender`, list by list in key order. */
  method CollectByGender(buckets: seq<Bucket>, gender: string) returns (references: seq<ValueReference>)
    ensures references == Filter(Flatten(buckets), GenderPredicate(gender))
  {
    references := [];
    var b := 0;
    while b < |buckets|
      invariant 0 <= b <= |buckets|
      invariant references == Filter(Flatten(buckets[..b]), GenderPredicate(gender))
    {
      FlattenPrefix(buckets, b);
      FilterAppend(Flatten(buckets[..b]), buckets[b].refs, GenderPredicate(gender));
      references := references + Filter(buckets[b].refs, GenderPredicate(gender));
      b := b + 1;
    }
    assert buckets[..|buckets|] == buckets;
  }

  /** What a normal query leaves, given what the lookup `found`: its
      exception, with nothing listed and no reference touched; or else, with
      `k` the position of the first reference in other units, InvalidUnits
      when there is one and otherwise whether some reference admits the value
      (True when none applies), the first `k` references listed, and those
      references, and no other of `all`, recording the value. */
  twostate predicate NormalQueried(found: Result<seq<ValueReference>>, all: set<ValueReference>, value: real,
                                   units: Option<string>, new r: Result<bool>, new listed: seq<ValueReference>)
    reads all
  {
    if found.Err? then
      r == Err(found.error) && listed == [] && Queried(all, {}, value)
    else
      var refs := found.value;
      var k := FirstMismatch(refs, units);
      && r == (if k < |refs| then Err(InvalidUnits) else Ok(refs == [] || AnyAdmits(refs, value)))
      && listed == refs[..k]
      && Queried(all, Elements(refs[..k]), value)
  }

  /** `in_bounds` on the stored lists `bs` of the normal category: the lookup
      by gender and age, then each reference found queried in stored order. */
  method QueryNormal(bs: seq<Bucket>, gender: string, ageIn: string -> AgeField, value: real, units: Option<string>)
    returns (r: Result<bool>, listed: seq<ValueReference>)
    modifies RefSet(bs)
    ensures NormalQueried(Applicable(Flatten(bs), gender, ageIn), RefSet(bs), value, units, r, listed)
  {
    var found := Applicable(Flatten(bs), gender, ageIn);
    if found.Err? {
      return Err(found.error), [];
    }
    var refs := found.value;
    ApplicableStored(bs, gender, ageIn);
    var k;
    r, k := QueryEach(refs, value, units);
    listed := refs[..k];
  }

  /** The loop of `in_bounds`: each reference in turn is queried, until one
      raises InvalidUnits. Answers how many were queried and the result. */
  method QueryEach(refs: seq<ValueReference>, value: real, units: Option<string>)
    returns (r: Result<bool>, k: nat)
    modifies refs
    ensures k == FirstMismatch(refs, units)
    ensures r == (if k < |refs| then Err(InvalidUnits) else Ok(refs == [] || AnyAdmits(refs, value)))
    ensures Queried(Elements(refs), Elements(refs[..k]), value)
  {
    var any := refs == [];
    ghost var touched: set<ValueReference> := {};
    var i := 0;
    while i < |refs|
      invariant 0 <= i <= |refs|
      invariant UnitsAgree(refs[..i], units)
      invariant any == (refs == [] || AnyAdmits(refs[..i], value))
      invariant touched == Elements(refs[..i])
      invariant Queried(Elements(refs), touched, value)
    {
      var ref := refs[i];
      var b := ref.InBounds(value, units);
      if b.Err? {
        FirstMismatchIs(refs, units, i);
        return b, i;
      }
      UnitsAgreeStep(refs, i, units);
      AnyAdmitsStep(refs, i, value);
      ElementsStep(refs, i);
      touched := touched + {ref};
      any := any || b.value;
      i := i + 1;
    }
    FirstMismatchIs(refs, units, i);
    AnyAdmitsWhole(refs, value);
    r, k := Ok(any), i;
  }

  /** The references of `s` that have `error` set after `in_bounds(value)`:
      those the value misses, and those whose `error` was set before the query. */
  twostate function StickyErrors(new s: seq<ValueReference>, value: real): seq<ValueReference>
  {
    if s == [] then []
    else
      var last := s[|s| - 1];
      StickyErrors(s[..|s| - 1], value)
        + (if !last.Admits(value) || (old(allocated(last)) && old(last.error).Some?) then [last] else [])
  }

  /** The references of `s` that have `success` set after `in_bounds(value)`:
      those the value matches, and those whose `success` was set before the query. */
  twostate function StickySuccesses(new s: seq<ValueReference>, value: real): seq<ValueReference>
  {
    if s == [] then []
    else
      var last := s[|s| - 1];
      StickySuccesses(s[..|s| - 1], value)
        + (if last.Admits(value) || (old(allocated(last)) && old(last.success).Some?) then [last] else [])
  }

  /** A list's references whose entries hold the same values in two states
      are listed alike by `WithSuccess` and `WithError` in both. */
  twostate lemma {:induction false} WithUnchanged(new s: seq<ValueReference>)
    requires forall j :: 0 <= j < |s| ==> old(allocated(s[j])) && unchanged(s[j])
    ensures WithSuccess(s) == old(WithSuccess(s)) && WithError(s) == old(WithError(s))
  {
    if s != [] {
      WithUnchanged(s[..|s| - 1]);
    }
  }

  /** What `in_bounds_for_grade` lists after querying each reference of `s`
      alike: a reference has its `error` (`success`) set after the query
      exactly when it is among the sticky errors (successes) of the state
      before. */
  twostate lemma {:induction false} StickyLists(new s: seq<ValueReference>, value: real)
    requires Queried(Elements(s), Elements(s), value)
    requires old(allocated(s))
    ensures WithError(s) == StickyErrors(s, value)
    ensures WithSuccess(s) == StickySuccesses(s, value)
  {
    if s != [] {
      var init, last := s[..|s| - 1], s[|s| - 1];
      assert last in Elements(s);
      assert Elements(init) <= Elements(s);
      assert old(allocated(init));
      StickyLists(init, value);
    }
  }

  /** Sorting keeps the references. */
  lemma SortedElements(s: seq<ValueReference>)
    ensures Elements(SortByGrade(s)) == Elements(s)
  {
    var r := SortByGrade(s);
    SortByGradeSorted(s);
    forall x | x in r ensures x in s {
      assert multiset(r)[x] > 0;
    }
    forall x | x in s ensures x in r {
      assert multiset(s)[x] > 0;
    }
  }

  /** The references a grading query lists are stored ones. */
  lemma SortedStored(bs: seq<Bucket>, gender: string, ageIn: string -> AgeField, k: nat)
    requires Applicable(Flatten(bs), gender, ageIn).Ok?
    requires k <= |SortByGrade(Applicable(Flatten(bs), gender, ageIn).value)|
    ensures var listed := SortByGrade(Applicable(Flatten(bs), gender, ageIn).value)[..k];
      forall j :: 0 <= j < |listed| ==> listed[j] in RefSet(bs)
  {
    var found := Applicable(Flatten(bs), gender, ageIn).value;
    ApplicableStored(bs, gender, ageIn);
    SortedElements(found);
    SortByGradeSorted(found);
    var listed := SortByGrade(found)[..k];
    forall j | 0 <= j < |listed| ensures listed[j] in RefSet(bs) {
      assert listed[j] in Elements(SortByGrade(found));
    }
  }

  /** A reference of the sorted list is one of the references found. */
  lemma SortedMember(s: seq<ValueReference>, i: nat)
    requires i < |SortByGrade(s)|
    ensures SortByGrade(s)[i] in s
  {
    SortByGradeSorted(s);
    assert SortByGrade(s)[i] in multiset(SortByGrade(s));
  }

  /** A reference found is in the sorted list. */
  lemma MemberSorted(s: seq<ValueReference>, x: ValueReference)
    requires x in s
    ensures x in SortByGrade(s)
  {
    SortByGradeSorted(s);
    assert x in multiset(s);
  }

  lemma WholePrefix<T>(s: seq<T>)
    ensures s[..|s|] == s
  {
  }

  /** Over references that have never matched, the successes of the sorted
      list are empty exactly when none admits the value, and otherwise start
      with one that admits it and has the largest grade of all that do. */
  twostate lemma SortedFreshSuccesses(new s: seq<ValueReference>, value: real)
    requires forall j :: 0 <= j < |s| && old(allocated(s[j])) ==> old(s[j].success).None?
    ensures var successes := StickySuccesses(SortByGrade(s), value);
      && (successes == [] <==> !AnyAdmits(s, value))
      && (successes != [] ==>
            && successes[0] in s && successes[0].Admits(value)
            && forall x :: x in s && x.Admits(value) ==> Rank(x) <= Rank(successes[0]))
  {
    var refs := SortByGrade(s);
    var p := AdmitsPredicate(value);
    SortByGradeSorted(s);
    AnyAdmitsMeans(s, value);
    forall j | 0 <= j < |refs| && old(allocated(refs[j])) ensures old(refs[j].success).None? {
      SortedMember(s, j);
      var i :| 0 <= i < |s| && s[i] == refs[j];
    }
    FreshSuccesses(refs, value);
    var successes := Filter(refs, p);
    if successes != [] {
      var i :| 0 <= i < |refs| && refs[i] == successes[0];
      SortedMember(s, i);
    }
    forall x | x in s && x.Admits(value) ensures successes != [] && Rank(x) <= Rank(successes[0]) {
      MemberSorted(s, x);
      TopOfSorted(refs, p, x);
    }
    if AnyAdmits(s, value) {
      var j :| 0 <= j < |s| && s[j].Admits(value);
      assert s[j] in s;
    }
  }

  /** A reference that matched some earlier value is among the successes of
      the sorted list, whatever the value now. */
  twostate lemma SortedEarlierSuccess(new s: seq<ValueReference>, new value: real, new j: nat)
    requires j < |s| && MatchedBefore(s[j])
    ensures StickySuccesses(SortByGrade(s), value) != []
  {
    var refs := SortByGrade(s);
    MemberSorted(s, s[j]);
    var i := IndexOf(refs, s[j]);
    EarlierSuccessKept(refs, value, i);
  }

  /** A grading query that raises nothing, over found references none of
      which has ever matched a value: the successes are empty exactly when no
      reference found admits the value; otherwise the first success, whose
      grade the group keeps, admits the value and has the largest grade of
      all that do. */
  twostate lemma FreshGrade(found: Result<seq<ValueReference>>, all: set<ValueReference>, value: real,
                            units: Option<string>, new r: Result<bool>,
                            new errors: seq<ValueReference>, new successes: seq<ValueReference>)
    requires GradingQueried(found, all, value, units, r, errors, successes)
    requires found.Ok? && r.Ok?
    requires forall j :: 0 <= j < |found.value| && old(allocated(found.value[j])) ==> old(found.value[j].success).None?
    ensures successes == [] <==> !AnyAdmits(found.value, value)
    ensures successes != [] ==>
      && successes[0] in found.value && successes[0].Admits(value) && successes[0].grade.Some?
      && forall x :: x in found.value && x.Admits(value) ==> Rank(x) <= Rank(successes[0])
  {
    if found.value != [] {
      WholePrefix(SortByGrade(found.value));
      SortedFreshSuccesses(found.value, value);
    }
  }

  /** A grading query that raises nothing keeps a grade set when a found
      reference matched some earlier value, even when no reference admits
      the value queried now. */
  twostate lemma EarlierSuccessSetsGrade(found: Result<seq<ValueReference>>, all: set<ValueReference>, value: real,
                                         units: Option<string>, new r: Result<bool>,
                                         new errors: seq<ValueReference>, new successes: seq<ValueReference>, j: nat)
    requires GradingQueried(found, all, value, units, r, errors, successes)
    requires found.Ok? && r.Ok? && j < |found.value| && MatchedBefore(found.value[j])
    ensures successes != [] && successes[0].grade.Some?
  {
    var refs := SortByGrade(found.value);
    WholePrefix(refs);
    SortedEarlierSuccess(found.value, value, j);
    StickySuccessesWithin(refs, value);
    SortedMember(found.value, IndexOf(refs, successes[0]));
  }

  /** Some reference of a list admits the value exactly when one at some position does. */
  lemma {:induction false} AnyAdmitsMeans(s: seq<ValueReference>, value: real)
    ensures AnyAdmits(s, value) <==> exists j :: 0 <= j < |s| && s[j].Admits(value)
  {
    if s != [] {
      var init := s[..|s| - 1];
      AnyAdmitsMeans(init, value);
      if exists j :: 0 <= j < |s| && s[j].Admits(value) {
        var j :| 0 <= j < |s| && s[j].Admits(value);
        if j < |init| {
          assert init[j] == s[j];
        }
      }
      if exists j :: 0 <= j < |init| && init[j].Admits(value) {
        var j :| 0 <= j < |init| && init[j].Admits(value);
        assert s[j] == init[j];
      }
    }
  }

  /** References that have never matched are listed among the successes
      exactly when they admit the value now. */
  twostate lemma {:induction false} FreshSuccesses(new s: seq<ValueReference>, value: real)
    requires forall j :: 0 <= j < |s| && old(allocated(s[j])) ==> old(s[j].success).None?
    ensures StickySuccesses(s, value) == Filter(s, AdmitsPredicate(value))
  {
    if s != [] {
      FreshSuccesses(s[..|s| - 1], value);
    }
  }

  /** The successes of a list are references of the list. */
  twostate lemma {:induction false} StickySuccessesWithin(new s: seq<ValueReference>, new value: real)
    ensures forall k :: 0 <= k < |StickySuccesses(s, value)| ==> StickySuccesses(s, value)[k] in s
  {
    if s != [] {
      var init := s[..|s| - 1];
      StickySuccessesWithin(init, value);
      assert forall x :: x in init ==> x in s;
    }
  }

  /** The reference had matched some value before. */
  twostate predicate MatchedBefore(new x: ValueReference) {
    old(allocated(x)) && old(x.success).Some?
  }

  /** A reference that matched some earlier value stays among the successes,
      whatever the value now. */
  twostate lemma {:induction false} EarlierSuccessKept(new s: seq<ValueReference>, new value: real, new j: nat)
    requires j < |s| && MatchedBefore(s[j])
    ensures StickySuccesses(s, value) != []
  {
    var init := s[..|s| - 1];
    if j < |init| {
      assert init[j] == s[j];
      EarlierSuccessKept(init, value, j);
    }
  }

  /** What a grading query leaves, given what the lookup `found`: when it
      raises, finds nothing, or finds a reference without a grade (the sort
      key), the exception or False, with nothing listed and no reference
      touched; or else, with the found references sorted on descending grade
      and `k` the position of the first in other units, InvalidUnits when
      there is one and otherwise whether some reference admits the value,
      among the first `k` those with `error` set listed as errors and those
      with `success` set as successes, and those references, and no other of
      `all`, recording the value. */
  twostate predicate GradingQueried(found: Result<seq<ValueReference>>, all: set<ValueReference>, value: real,
                                    units: Option<string>, new r: Result<bool>,
                                    new errors: seq<ValueReference>, new successes: seq<ValueReference>)
    reads all
  {
    if found.Err? || found.value == [] || !AllGraded(found.value) then
      && r == (if found.Err? then Err(found.error) else if found.value == [] then Ok(false) else Err(AttributeError))
      && errors == [] && successes == []
      && Queried(all, {}, value)
    else
      var refs := SortByGrade(found.value);
      var k := FirstMismatch(refs, units);
      && r == (if k < |refs| then Err(InvalidUnits) else Ok(AnyAdmits(refs, value)))
      && errors == StickyErrors(refs[..k], value) && successes == StickySuccesses(refs[..k], value)
      && Queried(all, Elements(refs[..k]), value)
  }

  /** `in_bounds_for_grade` on the stored lists of the grading category: the
      query; then, when it finds references, the key of the sort (raising
      AttributeError for a reference without a grade), the stable sort on
      descending grade, and each in turn queried. Answers the result and
      the references listed among the errors and among the successes. */
  method QueryGrading(bs: seq<Bucket>, gender: string, ageIn: string -> AgeField, value: real, units: Option<string>)
    returns (r: Result<bool>, errors: seq<ValueReference>, successes: seq<ValueReference>)
    modifies RefSet(bs)
    ensures GradingQueried(Applicable(Flatten(bs), gender, ageIn), RefSet(bs), value, units, r, errors, successes)
  {
    FlattenAllocated(bs);
    var found := Applicable(Flatten(bs), gender, ageIn);
    if found.Err? {
      return Err(found.error), [], [];
    }
    if found.value == [] {
      return Ok(false), [], [];
    }
    if !AllGraded(found.value) {
      return Err(AttributeError), [], [];
    }
    var refs := SortByGrade(found.value);
    ApplicableStored(bs, gender, ageIn);
    SortedElements(found.value);
    var k;
    r, k := QueryEach(refs, value, units);
    errors, successes := WithError(refs[..k]), WithSuccess(refs[..k]);
    SortedStored(bs, gender, ageIn, k);
    StickyLists(refs[..k], value);
  }
}
