# edc-reportable in Dafny

A model of the reference-range engine of `edc_reportable`, with proofs
about it. The engine decides whether a lab value is normal, and which
grade of abnormality it reaches, for a subject of a given gender and age.

The model covers:

- **Evaluator** (`Evaluators`). A bound with optional lower and upper
  edges, an inclusive flag for each edge and mandatory units. Construction
  validates the inputs. `in_bounds_or_raise` returns True or raises
  `ValueBoundryError` or `InvalidUnits`. The condition string the source
  builds and `eval`s is written out as comparisons.
- **Age window** (`AgeEvaluators`). An evaluator whose bounds and units
  default to 0, 120 and `years`.
- **Value references and grade references** (`ValueReferences`,
  `GradeReferences`). A value bound, an age window and a gender text.
  `in_bounds` records the last value matched (`success`) and the last value
  missed (`error`) on the object itself. A grade reference also carries
  `int(grade)`.
- **Reference group** (`ValueReferenceGroups`). Normal and grading
  references in dicts of per-gender lists, with the name guard and the
  identity duplicate guard of `_add`. It also models:
  - the gender (substring) and age lookup;
  - `in_bounds`, which is True when any applicable reference admits the
    value;
  - `in_bounds_for_grade`, which sorts on descending grade and keeps the
    grade of the first listed success.
- **Reference collection** (`ReferenceCollections`). A name-to-group dict.
  `register` refuses a name that is taken; `update_grp` overwrites.
- **Site registry** (`SiteReportables`). `Reportables.register` builds
  groups from normal data and grading data and files the resulting
  collection. It also models `get` and iteration.
- **Notation parser and printer** (`Parsers`). `parse` is a full-match
  recogniser for `L x R` phrases. It splits the phrase and reads each side.
  `unparse` prints the phrase layout.

How external inputs are modelled:

- **Dates and the clock.** The subject's age enters as a parameter
  `ageIn: string -> AgeField`. For each unit name it gives what
  `float(getattr(rdelta, units))` makes of the relative delta's attribute:
  - a whole number (`years`, `months`, …);
  - `NoSuchField`, where `getattr` raises AttributeError;
  - `NotANumber`, where `float()` raises TypeError, for example an
    absolute field left None.

  The age is read before the query units are compared, so a window in
  units that are not a number of the relative delta raises AttributeError
  or TypeError on every query (`EarlyFailure`).
- **The module-level registry** `site_reportables` is an explicit
  parameter `site` of `Reportables.Register`.
- **Numbers** are exact reals.
- **Object state.** Each of `ValueReference`, `ValueReferenceGroup`,
  `ReferenceCollection` and `Reportables` is a class whose methods change
  its fields. Each such method is proved against specification functions:
  - `Appended` for the per-gender dict;
  - `Applicable` for the gender and age lookup;
  - `SortByGrade` for the sort;
  - `Registered` and `Updated` for the collection;
  - `RunPhase` for the loops in `register`.

Behaviour of the code that a reader may not expect:

- **No bound at all.** An evaluator with neither bound does not accept
  every value. The condition becomes the bare value, so 0 is rejected
  (`MissingSideUnconstrained`).
- **Default age window.** The default lower age bound 0 is falsy. The
  condition is therefore only `age < 120` (`DefaultWindow`).
- **Group queries.**
  - `in_bounds` returns whether any applicable reference admits the value.
    It does not check for overlapping bands or at most one match.
  - `InvalidUnits` raised by a reference propagates out of the query.
  - Units never select which references apply. A mismatch raises.
- **Gender.** A reference applies when the query's gender is a substring
  of its stored gender text. This is not set membership.
- **Grades.** `int(grade)` is the only check on a grade. There is no range
  check, so grade `0` is accepted.

## Model

| member | source | states |
|---|---|---|
| Evaluators.Make | edc_reportable/evaluator.py:25-50 | construction succeeds iff every truthy bound is positive, two truthy bounds are strictly ordered and units are given; otherwise raises InvalidLowerBound (checked first), then InvalidUpperBound, then InvalidCombination, then InvalidUnits, each exactly under its condition |
| Evaluators.InBoundsOrRaise | edc_reportable/evaluator.py:71-80 | returns True exactly when the units equal the evaluator's and the condition holds; raises InvalidUnits for any other units whatever the value, else ValueBoundryError; never returns False |
| Evaluators.BothSides | edc_reportable/evaluator.py:75-77 | with both bounds truthy, a value is admitted iff it is above the lower edge (or on it with the lower flag `is True`) and below the upper edge (or on it with the upper flag `is True`) |
| Evaluators.EdgesDecidedByFlags | edc_reportable/evaluator.py:47-50 | strictly inside a valid two-sided bound is admitted and strictly outside is not; each edge value is admitted iff its own flag is exactly True |
| Evaluators.MissingSideUnconstrained | edc_reportable/evaluator.py:75-79 | a missing (or zero) side constrains nothing: a one-sided bound compares only with its own edge, and with no bound only the value 0 is rejected |
| Evaluators.ZeroIsNoBound | edc_reportable/evaluator.py:47-50 | a bound of 0 is accepted or refused by construction exactly as an absent bound is, and gives the same condition for every value |
| Evaluators.ValidIsInhabited | edc_reportable/evaluator.py:35-41 | every evaluator that construction accepts admits some value |
| Evaluators.ExclusiveExample | edc_reportable/tests/test_evaluators.py:34-51 | 10 < x < 100 mg/dL without flags: 9, 10, 100 and 101 raise ValueBoundryError, 11 and 99 pass, units `blah` raise InvalidUnits |
| Evaluators.OneSidedExamples | edc_reportable/tests/test_evaluators.py:98-154 | lower 10 accepts 100000000000 and refuses 10; upper 100 accepts -1 and refuses 100; missing units raise InvalidUnits; equal or inverted bounds raise InvalidCombination |
| AgeEvaluators.NumberOr | edc_reportable/age_evaluator.py:11-12 | `x or default`: a truthy number is kept, None and 0 give the default |
| AgeEvaluators.MakeAgeWindow | edc_reportable/age_evaluator.py:8-15 | the window is the evaluator of the defaulted bounds (0, 120), units (`years`) and the age flags; it is built iff the given bounds are positive and the defaulted bounds strictly ordered, and only bound errors can be raised |
| AgeEvaluators.AgeInBoundsOrRaise | edc_reportable/age_evaluator.py:20-25 | the age is read in the window's units first: no such attribute raises AttributeError and a non-number TypeError; then, with the query units defaulting to `years`, InvalidUnits iff they differ from the window's; otherwise True iff the age satisfies the window, else ValueBoundryError |
| AgeEvaluators.NonFieldUnitsRaise | edc_reportable/age_evaluator.py:23-25 | a window in units `yrs` is built, and with no such attribute of the relative delta every query raises AttributeError, whatever the query units |
| AgeEvaluators.DefaultWindow | edc_reportable/age_evaluator.py:10-12 | with no arguments the window is 0 < AGE < 120 in years, and it admits exactly the ages below 120 (no lower constraint) |
| AgeEvaluators.AgeWindowBoundedAbove | edc_reportable/age_evaluator.py:12-14 | every admitted age is at most the window's upper bound, and equal to it only with the upper flag set |
| AgeEvaluators.TwentyFiveExample | edc_reportable/tests/test_evaluators.py:169-186 | age 25 is inside 24 < AGE < 26 and raises ValueBoundryError for 25 < AGE < 26 and 24 < AGE < 25 |
| ValueReferences.BuildParts | edc_reportable/value_reference.py:10-17 | a reference is built iff both its value bound and its age window, from the same keyword arguments, are valid; the value bound's exception is raised first; the gender is stored joined |
| ValueReferences.JoinedGenderContainsEachPart | edc_reportable/value_reference.py:12-13 | every gender of a joined list is found in the stored text by the substring test |
| ValueReferences.ValueReference.constructor | edc_reportable/value_reference.py:10-19 | the new reference holds the validated parts and grade, with `success` and `error` empty |
| ValueReferences.ValueReference.InBounds | edc_reportable/value_reference.py:25-33 | other units raise InvalidUnits and record nothing; otherwise returns whether the bound admits the value (False, not an exception, when outside) and overwrites only `success` on a match and only `error` on a miss |
| ValueReferences.ValueReference.AgeMatch | edc_reportable/value_reference.py:38-44 | raises exactly what the window raises before comparing (AttributeError or TypeError reading the age, then InvalidUnits for other query units); otherwise returns whether the window admits the age, False and not an exception outside it |
| GradeReferences.Truncate | edc_reportable/grade_reference.py:7 | `int()` of a float truncates toward zero: the result is within one of the value on the side of zero |
| GradeReferences.IntTextRoundTrip | edc_reportable/grade_reference.py:7 | `int(str(n)) == n` for every integer |
| GradeReferences.ToInt | edc_reportable/grade_reference.py:7 | an int is kept, a float truncated, an integer text read, any other text raises ValueError and a missing grade TypeError |
| GradeReferences.BuildGradeParts | edc_reportable/grade_reference.py:6-8 | the grade conversion raises before any bound is checked; after it, a grade reference is built exactly when a value reference with the same arguments is, with the same parts |
| GradeReferences.NonIntegerGradeFailsFirst | edc_reportable/grade_reference.py:6-8 | a grade text that is not an integer raises ValueError whatever the other arguments |
| GradeReferences.AnyIntegerGradeAccepted | edc_reportable/grade_reference.py:7 | every integer grade text is accepted with its value, `'0'` included: there is no range check |
| GradeReferences.TextGradeExample | edc_reportable/grade_reference.py:7 | `'3'` gives 3, `'3.5'` raises ValueError, 3.7 gives 3 and -3.7 gives -3 |
| ValueReferenceGroups.AppendedLookup | edc_reportable/value_reference_group.py:44-51 | an add changes only the list of the reference's gender, by appending the reference at its end |
| ValueReferenceGroups.AppendedKeys | edc_reportable/value_reference_group.py:44-47 | an add creates the key of the reference's gender when missing and no other key |
| ValueReferenceGroups.AppendedInvariant | edc_reportable/value_reference_group.py:44-51 | an add keeps the keys distinct and every reference under its own gender and name, and adds exactly one occurrence of the reference |
| ValueReferenceGroups.FoundUnderOwnGender | edc_reportable/value_reference_group.py:44-50 | a stored reference is in the list of its own gender, so the duplicate check under that key finds every stored reference |
| ValueReferenceGroups.ValueReferenceGroup.constructor | edc_reportable/value_reference_group.py:23-29 | a new group has its name, empty reference dicts, empty error and success lists and no grade |
| ValueReferenceGroups.ValueReferenceGroup.Add | edc_reportable/value_reference_group.py:34-51 | another name raises InvalidValueReference, an object already stored raises ValueReferenceAlreadyAdded, and both leave the dicts unchanged; otherwise the reference is appended once to its gender's list of the chosen category, the other category and the query fields unchanged |
| ValueReferenceGroups.ValueReferenceGroup.AddNormal | edc_reportable/value_reference_group.py:53-54 | the add on the normal dict only; the grading dict is unchanged |
| ValueReferenceGroups.ValueReferenceGroup.AddGrading | edc_reportable/value_reference_group.py:56-57 | the add on the grading dict only; the normal dict is unchanged |
| ValueReferenceGroups.RemoveFailing | edc_reportable/value_reference_group.py:108-111 | the walk over a copy that pops each reference whose age check is False leaves the references whose check is True in order, or raises the exception of the first check that raises |
| ValueReferenceGroups.CollectByGender | edc_reportable/value_reference_group.py:105-107 | the references whose gender text contains the query's gender, list by list in key order |
| ValueReferenceGroups.ValueReferenceGroup.GetValueReferences | edc_reportable/value_reference_group.py:99-112 | the result is the specification `Applicable` of the chosen category: gender filter then age filter, in stored order, with the age check's exception |
| ValueReferenceGroups.ApplicableMembers | edc_reportable/value_reference_group.py:99-112 | a reference is returned iff it is stored in the category, its gender text contains the query gender and its age window admits the age |
| ValueReferenceGroups.ApplicableWithin | edc_reportable/value_reference_group.py:99-112 | every reference returned is a stored one |
| ValueReferenceGroups.ApplicableStored | edc_reportable/value_reference_group.py:99-112 | the references returned are among those stored in the dict's lists |
| ValueReferenceGroups.ApplicableFails | edc_reportable/value_reference_group.py:108-111 | the lookup raises iff some gender-matching reference's age window raises before comparing (its units are no number of the relative delta, or not `years`), and then raises what the first such reference in stored order raises |
| ValueReferenceGroups.FirstMismatch | edc_reportable/value_reference_group.py:69-72 | the position of the first reference in other units: all before it agree with the query's units |
| ValueReferenceGroups.QueryEach | edc_reportable/value_reference_group.py:67-72 | each reference in turn is queried until one raises InvalidUnits; the result is InvalidUnits then, else True when there is none and otherwise whether some reference admits the value; exactly the references before the first mismatch record the value |
| ValueReferenceGroups.QueryNormal | edc_reportable/value_reference_group.py:59-73 | the lookup's exception with nothing listed and nothing recorded, or else the query of each reference found, listed in order up to the first in other units |
| ValueReferenceGroups.ValueReferenceGroup.InBounds | edc_reportable/value_reference_group.py:59-73 | the normal lists are reset and then hold the references queried; the answer is True when none applies and otherwise whether one admits the value; the grading state and the dicts are unchanged |
| ValueReferenceGroups.AnyAdmitsMeans | edc_reportable/value_reference_group.py:73 | `any` over the answers is True iff the reference at some position admits the value |
| ValueReferenceGroups.InsertSorted | edc_reportable/value_reference_group.py:86 | inserting into a list sorted by descending grade keeps it sorted and adds exactly the reference |
| ValueReferenceGroups.SortByGradeSorted | edc_reportable/value_reference_group.py:86 | the sort orders by descending grade and is a permutation |
| ValueReferenceGroups.SortStable | edc_reportable/value_reference_group.py:86 | the sort is stable: the references of each grade keep their order |
| ValueReferenceGroups.FilterSorted | edc_reportable/value_reference_group.py:89-92 | keeping some references of a sorted list keeps it sorted |
| ValueReferenceGroups.TopOfSorted | edc_reportable/value_reference_group.py:94 | the first kept reference of a sorted list has the largest grade of all kept |
| ValueReferenceGroups.StickyLists | edc_reportable/value_reference_group.py:87-92 | after the loop, the references listed as errors are those that missed the value or had missed one before, and those listed as successes are those that matched or had matched before |
| ValueReferenceGroups.QueryGrading | edc_reportable/value_reference_group.py:75-97 | the lookup's exception, False when nothing applies, AttributeError when a reference found has no grade; otherwise, over the references sorted on descending grade up to the first in other units, the sticky error and success lists, and InvalidUnits or whether some reference admits the value |
| ValueReferenceGroups.ValueReferenceGroup.InBoundsForGrade | edc_reportable/value_reference_group.py:75-97 | the grading lists and grade are reset, the result is the grading query's, and the grade is that of the first listed success or None; the normal state and the dicts are unchanged |
| ValueReferenceGroups.SortedFreshSuccesses | edc_reportable/value_reference_group.py:79-96 | over references that never matched before, the first success admits the value and has the largest grade of all references admitting it |
| ValueReferenceGroups.FreshGrade | edc_reportable/value_reference_group.py:79-96 | for a query over references never queried before: no success iff no reference admits the value, otherwise the grade kept is that of a reference admitting the value with the largest grade |
| ValueReferenceGroups.EarlierSuccessSetsGrade | edc_reportable/value_reference_group.py:91-94 | a reference that matched any earlier value is listed again, so a grade is set even when nothing matches now |
| ReferenceCollections.Registered | edc_reportable/reference_collection.py:21-25 | AlreadyRegistered iff the name is taken; otherwise the dict gains the group under its name and every other entry is unchanged |
| ReferenceCollections.Updated | edc_reportable/reference_collection.py:30-31 | the group is filed under its name, overwriting, and every other entry is unchanged |
| ReferenceCollections.RegisterTwiceFails | edc_reportable/tests/test_collection.py:62-65 | registering a second group of a registered name raises AlreadyRegistered, and the first stays |
| ReferenceCollections.UpdateWithRegisteredGroup | edc_reportable/reference_collection.py:30-31 | re-filing a group under the name it is filed under changes nothing |
| ReferenceCollections.ReferenceCollection.constructor | edc_reportable/reference_collection.py:14-16 | a new collection has its name and an empty dict |
| ReferenceCollections.ReferenceCollection.Register | edc_reportable/reference_collection.py:21-25 | raises AlreadyRegistered and changes nothing when the name is taken, else the dict becomes `Registered` |
| ReferenceCollections.ReferenceCollection.Get | edc_reportable/reference_collection.py:27-28 | the group filed under the name, or None iff the name is not registered |
| ReferenceCollections.ReferenceCollection.UpdateGrp | edc_reportable/reference_collection.py:30-31 | the dict becomes `Updated` |
| SiteReportables.NormalBlueprint | edc_reportable/site_reportables.py:27 | a normal reference is built iff a value reference of those arguments is, under the test's name and with no grade |
| SiteReportables.GradingBlueprint | edc_reportable/site_reportables.py:33 | a grade reference is built iff its grade and arguments are valid, under the test's name and with `int(grade)` |
| SiteReportables.BuildEach | edc_reportable/site_reportables.py:26-28 | builds up to the first datum that raises: all data build iff there is no failure |
| SiteReportables.BuildEachMeans | edc_reportable/site_reportables.py:26-28 | each reference built is what its datum builds, and the failure is what the next datum raises |
| SiteReportables.AppendAllLookup | edc_reportable/site_reportables.py:32-34 | after the adds, each gender's list is its old list followed by the added references of that gender, in order |
| SiteReportables.AddNewReference | edc_reportable/site_reportables.py:27-28 | a fresh reference built as given is appended to its gender's list of the category; the group's other state is unchanged |
| SiteReportables.BuildNormalGroup | edc_reportable/site_reportables.py:25-28 | a new group of the test's name holding the references of the data up to the first that raises, and that exception |
| SiteReportables.AddGradingData | edc_reportable/site_reportables.py:32-34 | the group is given the grading references of the data up to the first that raises, in order, and nothing else changes |
| SiteReportables.RunPhase | edc_reportable/site_reportables.py:24-35 | a loop over dict items stops at the first that raises: it completes every item iff there is no failure |
| SiteReportables.RunPhaseMeans | edc_reportable/site_reportables.py:24-35 | every item before the one the loop stopped at raised nothing, and the failure is what that item raised |
| SiteReportables.RunPhaseRaisesBy | edc_reportable/site_reportables.py:24-35 | a loop in which some item raises raises no later than that item |
| SiteReportables.ItemFailure | edc_reportable/site_reportables.py:25-29 | an item of normal data raises nothing iff all its references build and its name is not taken |
| SiteReportables.RegisterItem | edc_reportable/site_reportables.py:25-29 | the item's group is built and registered: on failure the dict is unchanged, else it is `Updated` with a new group holding the item's references |
| SiteReportables.NormalNext | edc_reportable/site_reportables.py:24-29 | one turn of the normal loop keeps the loop invariant, or ends the loop with the item's failure |
| SiteReportables.RegisterNormal | edc_reportable/site_reportables.py:24-29 | the normal items in turn become new groups filed in the collection, up to the first that raises (a name already taken raises AlreadyRegistered); the keys gained are exactly the names of the completed items |
| SiteReportables.GradingItemFailure | edc_reportable/site_reportables.py:30-35 | an item whose group exists raises what its data raise; one whose group does not exist always raises, AttributeError when its first datum builds |
| SiteReportables.GradeGroup | edc_reportable/site_reportables.py:31-35 | the existing group is given the item's grading references and re-filed, leaving the dict as it was |
| SiteReportables.GradeItem | edc_reportable/site_reportables.py:31-35 | one grading item: the dict is unchanged and the item raises `GradingItemFailure` |
| SiteReportables.GradeNext | edc_reportable/site_reportables.py:30-35 | one turn of the grading loop keeps the loop invariant |
| SiteReportables.RegisterGrading | edc_reportable/site_reportables.py:30-35 | the grading items in turn add their references to the group of their name, up to the first that raises; every group ends as it was plus exactly the references added to it; the dict does not change |
| SiteReportables.FillGrading | edc_reportable/site_reportables.py:30-35 | after the normal loop, the grading loop leaves the collection `Filled`, its dict unchanged |
| SiteReportables.Fill | edc_reportable/site_reportables.py:24-35 | raises `RegisterFailure` (missing data raise AttributeError); without failure the collection is `Filled`: the earlier groups kept with only their grading references appended, one new group per normal item holding the references its data built, then its grading references |
| SiteReportables.UngradedUnchanged | edc_reportable/site_reportables.py:30-35 | after `register`, a group that no grading item names is as it was: an earlier group keeps its fields, a new one holds only its normal references |
| SiteReportables.FilledNormalLookup | edc_reportable/site_reportables.py:24-35 | after `register`, each gender list of a new group is, in order, the references its item's data built for that gender, and its grading lists are the references its grading item added |
| SiteReportables.FillAndStore | edc_reportable/site_reportables.py:24-37 | the collection is `Filled` and then stored in `site` under its name; with failure `site` is unchanged |
| SiteReportables.TakenNameRaises | edc_reportable/site_reportables.py:24-29 | a normal name the collection already holds makes `register` raise AlreadyRegistered when all references build |
| SiteReportables.RegisterAgainRaises | edc_reportable/site_reportables.py:19-37 | registering the same valid, non-empty normal data again under the same collection raises AlreadyRegistered |
| SiteReportables.UnknownGradingNameRaises | edc_reportable/site_reportables.py:30-35 | a grading name with no group, neither filed before nor made by the normal data, makes `register` raise |
| SiteReportables.StoredNames | edc_reportable/site_reportables.py:36-37 | after the dict update a new name is last and a name already there keeps its place |
| SiteReportables.ItemsOf | edc_reportable/site_reportables.py:16-17 | iteration yields each (name, collection) pair of the registry exactly once |
| SiteReportables.StoreKeepsOrder | edc_reportable/site_reportables.py:36-37 | storing under a new name appends its pair to the iteration; storing under a present name leaves every other pair in place |
| SiteReportables.Reportables.constructor | edc_reportable/site_reportables.py:13-14 | a new registry is empty |
| SiteReportables.Reportables.Get | edc_reportable/site_reportables.py:39-40 | the collection stored under the name, or None iff there is none |
| SiteReportables.Reportables.Store | edc_reportable/site_reportables.py:36-37 | the registry gains the collection under its name, with the key order of `StoredNames` |
| SiteReportables.Reportables.Register | edc_reportable/site_reportables.py:19-37 | the collection of that name is reused or made new and raises `RegisterFailure`; without failure it is `Filled` from the normal then the grading data, each new group a new object, and it is stored in the module-level registry `site`; with failure `site` is unchanged |
| SiteReportables.Reportables.CollectionFor | edc_reportable/site_reportables.py:20-23 | the collection filed under the name, or a new empty one of that name |
| SiteReportables.Reportables.RegisterHere | edc_reportable/site_reportables.py:19-37 | as `Register`, the collection `Filled` in the same way, and stored in this registry, so `get` finds it and every other entry stays |
| SiteReportables.OtherInstanceExample | edc_reportable/site_reportables.py:36-37 | registering through an instance other than the module-level one stores the collection in the module-level one, and the instance's own `get` does not find it |
| Parsers.MatchesLeftIff | edc_reportable/parsers.py:34 | the left part of the pattern matches a whole text iff every `=` in it directly follows a `<` (over digits, `+`, `.`, `<`, `=`) |
| Parsers.FullMatchIff | edc_reportable/parsers.py:44-48 | the pattern matches a phrase as a whole iff it splits at `x` into exactly two parts, an accepted left and an accepted right side |
| Parsers.Split | edc_reportable/parsers.py:49 | `split('x')` gives at least one part and none holds an `x` |
| Parsers.SplitJoin | edc_reportable/parsers.py:49 | joining the parts of a split with the separator gives the text back |
| Parsers.Without | edc_reportable/parsers.py:43 | `replace(' ', '')` leaves no space and nothing longer |
| Parsers.WithoutTwice | edc_reportable/parsers.py:43 | removing spaces twice is removing them once |
| Parsers.ParseStripped | edc_reportable/parsers.py:43 | a phrase parses exactly as it does with its spaces removed |
| Parsers.ParseIgnoresSpaces | edc_reportable/parsers.py:43 | removing one space from a phrase changes nothing about its parse |
| Parsers.FloatOf | edc_reportable/parsers.py:38-41 | `float()` of the number characters a side holds gives a non-negative number or fails |
| Parsers.FloatOfDecimal | edc_reportable/parsers.py:38-41 | an optional `+`, digits, `.` and digits (at least one digit) read as the decimal they denote |
| Parsers.FloatOfInteger | edc_reportable/parsers.py:38-41 | an optional `+` and digits read as the integer they denote |
| Parsers.FloatOfRejects | edc_reportable/parsers.py:38-41 | texts with no digit, a second `.` or a `+` after the first character fail |
| Parsers.FloatOfReads | edc_reportable/tests/test_parser.py:37-42 | `.7` reads as 0.7 |
| Parsers.ParseSide | edc_reportable/parsers.py:36-42 | a side's flag is True iff it holds `=`, never False; an empty side gives None for both number and flag |
| Parsers.ParseItems | edc_reportable/parsers.py:32-57 | a missing phrase raises AttributeError; an accepted result holds the four bound items followed by the keyword arguments in order |
| Parsers.ParseSides | edc_reportable/parsers.py:49-51 | an accepted phrase without clashing keywords gives the items read off its two sides by `_parse` |
| Parsers.Unmatched | edc_reportable/parsers.py:44-48 | a phrase the pattern does not match as a whole raises ParserError whatever the keyword arguments |
| Parsers.BoundKeyTwice | edc_reportable/parsers.py:52-57 | a keyword argument named like a bound key raises TypeError (given twice) |
| Parsers.ParsedKeysDistinct | edc_reportable/parsers.py:52-57 | the keys of an accepted result are distinct |
| Parsers.Parse | edc_reportable/parsers.py:32-60 | raises what the items raise; otherwise returns the items with each also set as an attribute under its key |
| Parsers.NoSeparator | edc_reportable/parsers.py:44-48 | a phrase without `x` raises ParserError |
| Parsers.RejectedSide | edc_reportable/parsers.py:44-48 | a phrase with one `x`, one of whose sides the pattern refuses, raises ParserError |
| Parsers.RejectedSplit | edc_reportable/parsers.py:44-48 | a space-free phrase of a refused side, `x` and a side raises ParserError |
| Parsers.StrayEquals | edc_reportable/parsers.py:34 | an `=` not following a `<` is refused on the left |
| Parsers.SecondSeparator | edc_reportable/parsers.py:44-49 | a phrase with a second `x` raises ParserError |
| Parsers.ParseExample | edc_reportable/tests/test_parser.py:16-21 | `7<=x<8` gives 7 inclusive and 8 with a None flag |
| Parsers.ParseInclusiveExample | edc_reportable/tests/test_parser.py:44-49 | `0.77<=x<=0.88` gives both bounds inclusive |
| Parsers.ParseSpacedExample | edc_reportable/tests/test_parser.py:51-56 | `0.77 <= x <= 0.88` gives both bounds inclusive |
| Parsers.ParseUpperOnlyExample | edc_reportable/tests/test_parser.py:58-63 | `x<=0.88` gives None for both lower items |
| Parsers.ParseLowerOnlyExample | edc_reportable/tests/test_parser.py:65-70 | `0.77<=x` gives None for both upper items |
| Parsers.ParseLowerOnlySpacedExample | edc_reportable/tests/test_parser.py:65-70 | `0.77 <= x` gives None for both upper items |
| Parsers.NoSeparatorExamples | edc_reportable/tests/test_parser.py:86-100 | `<0.77` and `>77` raise ParserError |
| Parsers.ReversedOperatorExample | edc_reportable/tests/test_parser.py:106-108 | `0.77=<x<0.88` raises ParserError |
| Parsers.ReversedOperatorSpacedExample | edc_reportable/tests/test_parser.py:106-108 | `0.77 =< x < 0.88` raises ParserError |
| Parsers.BareEqualsExample | edc_reportable/tests/test_parser.py:80-82 | `0.77<=x=0.88` raises ParserError |
| Parsers.TwoRangesExample | edc_reportable/tests/test_parser.py:110-112 | `0.77<x<0.88<x<0.88` raises ParserError |
| Parsers.TwoRangesSpacedExample | edc_reportable/tests/test_parser.py:110-112 | `0.77 < x < 0.88 < x < 0.88` raises ParserError |
| Parsers.Operator | edc_reportable/parsers.py:14-17 | no operator beside a falsy bound; beside a truthy one `<=` iff the flag is truthy, else `<` |
| Parsers.BoundText | edc_reportable/parsers.py:12-13 | a falsy bound prints as nothing |
| Parsers.AgeText | edc_reportable/parsers.py:27-28 | the age part is empty unless an age bound is truthy, and then holds `AGE` |
| Parsers.RStrip | edc_reportable/parsers.py:29 | `rstrip()` cuts off only trailing whitespace, and all of it |
| Parsers.UnparseBounds | edc_reportable/parsers.py:10-29 | without gender or ages the phrase is the lower bound, its operator, `x`, the upper operator and the upper bound, nothing after |
| Parsers.UnparseGenderExample | edc_reportable/tests/test_parser.py:72-76 | the bounds of `0.77 <= x <= 0.88` with gender `M` print as `0.77<=x<=0.88 M` |
| Parsers.ParseUnparse | edc_reportable/parsers.py:10-60 | parsing what `unparse` prints gives back every non-zero bound with True for a truthy flag and None otherwise, and None for a bound of 0 |

## Left out

- File I/O: `Reportables.to_csv`, `Reportables.read_csv` and
  `ReferenceCollection.as_data`.
  - `read_csv` does nothing.
  - The other two write or read CSV rows.
  - `as_data` also reads `grp.normal` and `grp.grading`, which a group
    does not have.
- `Reportables.get_normal` and `Reportables.get_grading`: they index a
  collection with `[NORMAL]`, which a collection does not support.
- Dates and the clock: `age(dob, report_datetime)` and `get_utcnow()` are
  library code. The age comes in as `ageIn`: for each unit name, a number,
  or the exception that reading it as a number raises.
- Python floats: `float()` rounding, IEEE arithmetic and `eval` of the
  condition text. The model uses exact reals and explicit comparisons.
- Text bounds such as `'ERIK'`: bound validation is modelled on numbers
  only. A number is refused when its text does not start with a digit,
  which means when it is negative.
- Unicode digits: `\d` in the patterns and non-ASCII digits in `float()`
  and `int()` are read as ASCII `0`-`9` only.
- `int()` of a text with surrounding whitespace or `_` separators is
  refused by the model. Python accepts it.
- `description`, `__repr__` and `__str__` rendering, including the grade
  description with ` GRADE n`. These depend on float-to-text formatting.
  `success` and `error` keep the value that would have been described.
- The number text inside `unparse`: each argument is given as its
  rendered text together with its truthiness (`Shown`).
- `name=None` and `gender=None` defaults, and the exceptions that a
  `None` gender raises in the substring test.
- `**kwargs` naming an evaluator argument twice.
- Attributes set on a parse result that shadow dict methods (`setattr`
  of special names).
- `normal_reference.py` is not part of this model. A normal reference is
  treated as a plain value reference without a grade.
- Parts of the query API the tests call are absent from the code:
  `get_normal`, `get_grade`, `NotEvaluated`, `BoundariesOverlap`,
  `GradeError`. The tests of them are not modelled.
- `units.py`, `__init__.py`, `setup.py` and the test fixtures.
- SiteReportables.RegisterGrading: requires the grading items to have
  distinct names. A dict has distinct keys, and the data arrive as a
  sequence of items.
- SiteReportables.Fill: after a failure, the groups and references the
  loops left behind are not stated. The phase methods `RegisterNormal`
  and `RegisterGrading` state them.
- SiteReportables.Reportables.Register: after a failure, the groups and
  references left in a reused collection are not stated, as for `Fill`.
- SiteReportables.Reportables.RegisterHere: after a failure, as for
  `Register`.
- Evaluators.InBoundsOrRaise: the value is a number. In the source,
  `float(value)` runs before the units test. It raises TypeError for
  `None` and ValueError for a non-numeric text; the model takes neither.
- ValueReferences.ValueReference.InBounds: the value is a number, so the
  default `value=None` and its TypeError are not modelled, as for
  `InBoundsOrRaise`.
- ValueReferenceGroups.ValueReferenceGroup.InBounds: the value is a
  number, as for `InBoundsOrRaise`.
- ValueReferenceGroups.ValueReferenceGroup.InBoundsForGrade: the value is
  a number, as for `InBoundsOrRaise`.
- ValueReferenceGroups.ValueReferenceGroup.InBoundsForGrade: the grade is
  reassigned after each reference in the loop. Only its final value is
  stated, and nothing reads it in between.

## Findings

| source | as written | input that shows it | evidently intended | confidence | as-written member | corrected member |
|---|---|---|---|---|---|---|
| edc_reportable/site_reportables.py:36-37 | `register` looks the collection up in `self._registry` but stores it in the module-level `site_reportables._registry` | register `cd4` with empty data through a `Reportables()` other than the module-level one; its own `get('cd4')` then gives None | store the collection in `self._registry`, the dict it was looked up in | not executed | SiteReportables.Reportables.Register | SiteReportables.Reportables.RegisterHere |
