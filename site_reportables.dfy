/** The site registry (edc_reportable/site_reportables.py): reference
    collections by name, filled by `register` from dicts of per-test
    reference data. The module-level registry `site_reportables` is passed in
    explicitly as `site`. */
module SiteReportables {
  import opened Common
  import opened ValueReferences
  import opened GradeReferences
  import opened ValueReferenceGroups
  import opened ReferenceCollections

  /** The keyword arguments of one normal reference (`**data` without the name). */
  datatype NormalData = NormalData(gender: GenderInput, kw: Kwargs)

  /** The keyword arguments of one grade reference (`**data` without the name). */
  datatype GradingData = GradingData(grade: GradeInput, gender: GenderInput, kw: Kwargs)

  /** A test's name and its list of reference data: one item of `normal_data`
      or `grading_data`. */
  type NormalEntry = (string, seq<NormalData>)
  type GradingEntry = (string, seq<GradingData>)

  /** What a reference is built to be: its validated parts and its grade. */
  datatype Blueprint = Blueprint(parts: Parts, grade: Option<int>)

  function BlueprintOf(x: ValueReference): Blueprint {
    Blueprint(Parts(x.name, x.gender, x.evaluator, x.ageEvaluator), x.grade)
  }

  function Blueprints(xs: seq<ValueReference>): (r: seq<Blueprint>)
    ensures |r| == |xs|
    ensures forall k :: 0 <= k < |xs| ==> r[k] == BlueprintOf(xs[k])
  {
    if xs == [] then [] else Blueprints(xs[..|xs| - 1]) + [BlueprintOf(xs[|xs| - 1])]
  }

  /** `NormalReference(name=name, **data)`: a value reference without grade. */
  function NormalBlueprint(name: string, d: NormalData): (r: Result<Blueprint>)
    ensures r.Ok? <==> BuildParts(name, d.gender, d.kw).Ok?
    ensures r.Ok? ==> r.value.parts.name == name && r.value.grade.None?
  {
    match BuildParts(name, d.gender, d.kw)
    case Err(e) => Err(e)
    case Ok(parts) => Ok(Blueprint(parts, None))
  }

  /** `GradeReference(name=name, **data)`: a value reference with its grade. */
  function GradingBlueprint(name: string, d: GradingData): (r: Result<Blueprint>)
    ensures r.Ok? <==> BuildGradeParts(d.grade, name, d.gender, d.kw).Ok?
    ensures r.Ok? ==> r.value.parts.name == name && r.value.grade == Some(ToInt(d.grade).value)
  {
    match BuildGradeParts(d.grade, name, d.gender, d.kw)
    case Err(e) => Err(e)
    case Ok(built) => Ok(Blueprint(built.1, Some(built.0)))
  }

  function NormalBuilder(name: string): NormalData -> Result<Blueprint> {
    d => NormalBlueprint(name, d)
  }

  function GradingBuilder(name: string): GradingData -> Result<Blueprint> {
    d => GradingBlueprint(name, d)
  }

  /** The references built before the first that raised, and what it raised. */
  datatype Built = Built(blueprints: seq<Blueprint>, failure: Option<Error>)

  /** Building one reference per datum, in order, up to the first that raises. */
  function BuildEach<D>(ds: seq<D>, build: D -> Result<Blueprint>): (b: Built)
    ensures |b.blueprints| <= |ds|
    ensures b.failure.None? ==> |b.blueprints| == |ds|
    ensures b.failure.Some? ==> |b.blueprints| < |ds|
  {
    if ds == [] then Built([], None)
    else
      var before := BuildEach(ds[..|ds| - 1], build);
      if before.failure.Some? then before
      else
        match build(ds[|ds| - 1])
        case Err(e) => Built(before.blueprints, Some(e))
        case Ok(b) => Built(before.blueprints + [b], None)
  }

  /** What `BuildEach` gives: the references built are those of the data up
      to the first that raises, and the failure is what that datum raised. */
  lemma {:induction false} BuildEachMeans<D>(ds: seq<D>, build: D -> Result<Blueprint>)
    ensures var b := BuildEach(ds, build);
      && (forall k :: 0 <= k < |b.blueprints| ==> build(ds[k]) == Ok(b.blueprints[k]))
      && (b.failure.Some? ==> build(ds[|b.blueprints|]) == Err(b.failure.value))
  {
    if ds != [] {
      var init := ds[..|ds| - 1];
      BuildEachMeans(init, build);
    }
  }

  /** One more datum built after a prefix that built without failing. */
  lemma BuildEachStep<D>(ds: seq<D>, i: nat, build: D -> Result<Blueprint>)
    requires i < |ds| && BuildEach(ds[..i], build).failure.None? && build(ds[i]).Ok?
    ensures BuildEach(ds[..i + 1], build) == Built(BuildEach(ds[..i], build).blueprints + [build(ds[i]).value], None)
  {
    assert ds[..i + 1][..i] == ds[..i];
  }

  /** The first datum that raises decides the failure of the whole list. */
  lemma {:induction false} BuildEachStops<D>(ds: seq<D>, i: nat, build: D -> Result<Blueprint>)
    requires i < |ds| && BuildEach(ds[..i], build).failure.None? && build(ds[i]).Err?
    ensures BuildEach(ds, build) == Built(BuildEach(ds[..i], build).blueprints, Some(build(ds[i]).error))
  {
    assert ds[..i + 1][..i] == ds[..i];
    BuildEachFailureStays(ds, i + 1, build);
  }

  /** A failure in a prefix is the failure of the whole list. */
  lemma {:induction false} BuildEachFailureStays<D>(ds: seq<D>, i: nat, build: D -> Result<Blueprint>)
    requires i <= |ds| && BuildEach(ds[..i], build).failure.Some?
    ensures BuildEach(ds, build) == BuildEach(ds[..i], build)
    decreases |ds| - i
  {
    if i < |ds| {
      assert ds[..i + 1][..i] == ds[..i];
      BuildEachFailureStays(ds, i + 1, build);
    } else {
      assert ds[..i] == ds;
    }
  }

  /** Adding each reference of `xs` in turn to a per-gender dict. */
  function AppendAll(bs: seq<Bucket>, xs: seq<ValueReference>): seq<Bucket> {
    if xs == [] then bs else Appended(AppendAll(bs, xs[..|xs| - 1]), xs[|xs| - 1])
  }

  function OwnGender(g: string): ValueReference -> bool {
    (x: ValueReference) => x.gender == g
  }

  /** After the adds, the list of each gender is its old list followed by the
      added references of that gender, in the order they were added. */
  lemma {:induction false} AppendAllLookup(bs: seq<Bucket>, xs: seq<ValueReference>, g: string)
    ensures Lookup(AppendAll(bs, xs), g) == Lookup(bs, g) + Filter(xs, OwnGender(g))
  {
    if xs != [] {
      var init, last := xs[..|xs| - 1], xs[|xs| - 1];
      AppendAllLookup(bs, init, g);
      AppendedLookup(AppendAll(bs, init), last, g);
    }
  }

  /** The fields of a group. */
  datatype GroupState = GroupState(normal: seq<Bucket>, grading: seq<Bucket>, error: PerCategory,
                                   success: PerCategory, grade: Option<int>)

  ghost function StateOf(g: ValueReferenceGroup): GroupState
    reads g
  {
    GroupState(g.normalReferences, g.gradingReferences, g.error, g.success, g.grade)
  }

  /** A group's fields after `add_grading` with each reference of `xs` in turn. */
  function Graded(st: GroupState, xs: seq<ValueReference>): GroupState {
    st.(grading := AppendAll(st.grading, xs))
  }

  /** The fields of every group a dict files. */
  ghost function States(registry: map<string, ValueReferenceGroup>): (r: map<string, GroupState>)
    reads registry.Values
    ensures r.Keys == registry.Keys
  {
    map k | k in registry :: StateOf(registry[k])
  }

  /** The fields of a group as `ValueReferenceGroup(name=...)` leaves them,
      after `add_normal` with each reference of `xs` in turn. */
  function FreshState(xs: seq<ValueReference>): GroupState {
    GroupState(AppendAll([], xs), [], PerCategory([], []), PerCategory([], []), None)
  }

  /** A group as `ValueReferenceGroup(name=name)` leaves it, after `add_normal`
      with each reference of `xs` in turn. */
  ghost predicate NewGroup(g: ValueReferenceGroup, name: string, xs: seq<ValueReference>)
    reads g
  {
    g.name == name && StateOf(g) == FreshState(xs)
  }

  /** A new reference built as `b` says, added to `grp` under `category`:
      being new, it passes the duplicate guard. */
  method AddNewReference(grp: ValueReferenceGroup, b: Blueprint, category: Category) returns (x: ValueReference)
    requires grp.Valid() && b.parts.name == grp.name
    modifies grp
    ensures fresh(x) && BlueprintOf(x) == b
    ensures grp.Valid()
    ensures grp.error == old(grp.error) && grp.success == old(grp.success) && grp.grade == old(grp.grade)
    ensures grp.References(category) == Appended(old(grp.References(category)), x)
    ensures category == Normal ==> grp.gradingReferences == old(grp.gradingReferences)
    ensures category == Grading ==> grp.normalReferences == old(grp.normalReferences)
  {
    FlattenAllocated(grp.References(category));
    x := new ValueReference(b.parts, b.grade);
    assert x !in RefSet(grp.References(category));
    var added := grp.Add(x, category);
  }

  /** The group `register` makes for one item of `normal_data`: a new group named `name`, and one normal reference per
      datum added to it in order; the first datum that raises ends the build. */
  method BuildNormalGroup(name: string, ds: seq<NormalData>)
    returns (grp: ValueReferenceGroup, failure: Option<Error>, ghost xs: seq<ValueReference>)
    ensures fresh(grp)
    ensures failure == BuildEach(ds, NormalBuilder(name)).failure
    ensures grp.Valid() && NewGroup(grp, name, xs)
    ensures Blueprints(xs) == BuildEach(ds, NormalBuilder(name)).blueprints
  {
    grp := new ValueReferenceGroup(name);
    failure, xs := None, [];
    var i := 0;
    while i < |ds|
      invariant i <= |ds|
      invariant fresh(grp)
      invariant BuildEach(ds[..i], NormalBuilder(name)) == Built(Blueprints(xs), None)
      invariant grp.Valid() && NewGroup(grp, name, xs)
    {
      var built := NormalBlueprint(name, ds[i]);
      if built.Err? {
        BuildEachStops(ds, i, NormalBuilder(name));
        return grp, Some(built.error), xs;
      }
      BuildEachStep(ds, i, NormalBuilder(name));
      var x := AddNewReference(grp, built.value, Normal);
      assert (xs + [x])[..|xs|] == xs;
      xs := xs + [x];
      i := i + 1;
    }
    assert ds[..i] == ds;
  }

  /** The inner loop over one item of `grading_data`: one grade reference per datum added to `grp` in order; the
      first datum that raises ends the loop, leaving the earlier ones added. */
  method AddGradingData(grp: ValueReferenceGroup, ds: seq<GradingData>)
    returns (failure: Option<Error>, ghost xs: seq<ValueReference>)
    requires grp.Valid()
    modifies grp
    ensures grp.Valid() && StateOf(grp) == Graded(old(StateOf(grp)), xs)
    ensures failure == BuildEach(ds, GradingBuilder(grp.name)).failure
    ensures Blueprints(xs) == BuildEach(ds, GradingBuilder(grp.name)).blueprints
  {
    failure, xs := None, [];
    var name := grp.name;
    ghost var start, normal, error, success, grade :=
      grp.gradingReferences, grp.normalReferences, grp.error, grp.success, grp.grade;
    var i := 0;
    while i < |ds|
      invariant i <= |ds| && grp.Valid()
      invariant grp.normalReferences == normal && grp.grade == grade
      invariant grp.error == error && grp.success == success
      invariant grp.gradingReferences == AppendAll(start, xs)
      invariant BuildEach(ds[..i], GradingBuilder(name)) == Built(Blueprints(xs), None)
    {
      var built := GradingBlueprint(name, ds[i]);
      if built.Err? {
        BuildEachStops(ds, i, GradingBuilder(name));
        return Some(built.error), xs;
      }
      BuildEachStep(ds, i, GradingBuilder(name));
      var x := AddNewReference(grp, built.value, Grading);
      assert (xs + [x])[..|xs|] == xs;
      xs := xs + [x];
      i := i + 1;
    }
    assert ds[..i] == ds;
  }

  /** How far a loop over the items of a dict got: how many items it
      completed, and what the next one raised, if any. */
  datatype Phase = Phase(done: nat, failure: Option<Error>)

  /** A loop over `entries` that stops at the first entry raising; what the
      entry raises, given the entries before it, is `check(before, entry)`. */
  function RunPhase<E>(entries: seq<E>, check: (seq<E>, E) -> Option<Error>): (p: Phase)
    ensures p.done <= |entries|
    ensures p.failure.None? ==> p.done == |entries|
    ensures p.failure.Some? ==> p.done < |entries|
  {
    if entries == [] then Phase(0, None)
    else
      var init := entries[..|entries| - 1];
      var before := RunPhase(init, check);
      if before.failure.Some? then before
      else
        match check(init, entries[|entries| - 1])
        case Some(e) => Phase(|init|, Some(e))
        case None => Phase(|entries|, None)
  }

  /** What `RunPhase` gives: every entry before the one it stopped at raised
      nothing, and the failure is what that entry raised. */
  lemma {:induction false} RunPhaseMeans<E>(entries: seq<E>, check: (seq<E>, E) -> Option<Error>)
    ensures var p := RunPhase(entries, check);
      && (forall k :: 0 <= k < p.done ==> check(entries[..k], entries[k]).None?)
      && (p.failure.Some? ==> check(entries[..p.done], entries[p.done]) == p.failure)
  {
    if entries != [] {
      var init := entries[..|entries| - 1];
      assert forall k :: 0 <= k <= |init| ==> init[..k] == entries[..k];
      RunPhaseMeans(init, check);
    }
  }

  /** One more entry completed after a prefix that completed. */
  lemma RunPhaseStep<E>(entries: seq<E>, i: nat, check: (seq<E>, E) -> Option<Error>)
    requires i < |entries| && RunPhase(entries[..i], check) == Phase(i, None)
    requires check(entries[..i], entries[i]).None?
    ensures RunPhase(entries[..i + 1], check) == Phase(i + 1, None)
  {
    assert entries[..i + 1][..i] == entries[..i];
  }

  /** A failure in a prefix is how the whole loop ends. */
  lemma {:induction false} RunPhaseFailureStays<E>(entries: seq<E>, i: nat, check: (seq<E>, E) -> Option<Error>)
    requires i <= |entries| && RunPhase(entries[..i], check).failure.Some?
    ensures RunPhase(entries, check) == RunPhase(entries[..i], check)
    decreases |entries| - i
  {
    if i < |entries| {
      assert entries[..i + 1][..i] == entries[..i];
      RunPhaseFailureStays(entries, i + 1, check);
    } else {
      assert entries[..i] == entries;
    }
  }

  /** The first entry that raises decides how the whole loop ends. */
  lemma {:induction false} RunPhaseStops<E>(entries: seq<E>, i: nat, check: (seq<E>, E) -> Option<Error>)
    requires i < |entries| && RunPhase(entries[..i], check) == Phase(i, None)
    requires check(entries[..i], entries[i]).Some?
    ensures RunPhase(entries, check) == Phase(i, check(entries[..i], entries[i]))
  {
    assert entries[..i + 1][..i] == entries[..i];
    RunPhaseFailureStays(entries, i + 1, check);
  }

  /** A loop in which some entry raises raises no later than that entry. */
  lemma RunPhaseRaisesBy<E>(entries: seq<E>, check: (seq<E>, E) -> Option<Error>, j: nat)
    requires j < |entries| && check(entries[..j], entries[j]).Some?
    ensures RunPhase(entries, check).failure.Some? && RunPhase(entries, check).done <= j
  {
    RunPhaseMeans(entries, check);
  }

  /** The names of a dict's items. */
  function EntryNames<T>(entries: seq<(string, T)>): set<string> {
    set k | 0 <= k < |entries| :: entries[k].0
  }

  /** No name occurs twice, as in a dict. */
  predicate DistinctNames<T>(entries: seq<(string, T)>) {
    forall j, k :: 0 <= j < k < |entries| ==> entries[j].0 != entries[k].0
  }

  /** One turn of the `normal_data` loop: the references are built
      first and raise first; registering the group then raises
      AlreadyRegistered when its name is taken, either before the call or by
      an earlier item. */
  function NormalCheck(taken: set<string>): (seq<NormalEntry>, NormalEntry) -> Option<Error> {
    (before: seq<NormalEntry>, entry: NormalEntry) =>
      var built := BuildEach(entry.1, NormalBuilder(entry.0));
      if built.failure.Some? then built.failure
      else if entry.0 in taken + EntryNames(before) then Some(AlreadyRegistered)
      else None
  }

  /** The dict after `update` with each group in turn. */
  function FileAll(registry: map<string, ValueReferenceGroup>, groups: seq<ValueReferenceGroup>)
    : map<string, ValueReferenceGroup>
  {
    if groups == [] then registry
    else Updated(FileAll(registry, groups[..|groups| - 1]), groups[|groups| - 1])
  }

  /** The groups of the first items of `data`, each new and holding what its item says. */
  ghost predicate NewGroups(groups: seq<ValueReferenceGroup>, data: seq<NormalEntry>, refs: seq<seq<ValueReference>>)
    reads groups
  {
    && |groups| == |refs| <= |data|
    && forall j :: 0 <= j < |groups| ==> NewGroup(groups[j], data[j].0, refs[j])
  }

  /** The references of each registered group are built as its item's data say. */
  predicate BuiltAs(data: seq<NormalEntry>, refs: seq<seq<ValueReference>>) {
    && |refs| <= |data|
    && forall j :: 0 <= j < |refs| ==> Blueprints(refs[j]) == BuildEach(data[j].1, NormalBuilder(data[j].0)).blueprints
  }

  lemma NewGroupsStep(groups: seq<ValueReferenceGroup>, data: seq<NormalEntry>, refs: seq<seq<ValueReference>>,
                      grp: ValueReferenceGroup, xs: seq<ValueReference>)
    requires NewGroups(groups, data, refs) && |groups| < |data|
    requires NewGroup(grp, data[|groups|].0, xs)
    requires BuiltAs(data, refs) && Blueprints(xs) == BuildEach(data[|groups|].1, NormalBuilder(data[|groups|].0)).blueprints
    ensures NewGroups(groups + [grp], data, refs + [xs]) && BuiltAs(data, refs + [xs])
  {
    var groups', refs' := groups + [grp], refs + [xs];
    forall j | 0 <= j < |groups'|
      ensures NewGroup(groups'[j], data[j].0, refs'[j])
    {
      if j < |groups| {
        assert groups'[j] == groups[j] && refs'[j] == refs[j];
      }
    }
    forall j | 0 <= j < |refs'|
      ensures Blueprints(refs'[j]) == BuildEach(data[j].1, NormalBuilder(data[j].0)).blueprints
    {
      if j < |refs| {
        assert refs'[j] == refs[j];
      }
    }
  }

  lemma EntryNamesStep<T>(entries: seq<(string, T)>, i: nat)
    requires i < |entries|
    ensures EntryNames(entries[..i + 1]) == EntryNames(entries[..i]) + {entries[i].0}
  {
    assert entries[..i + 1] == entries[..i] + [entries[i]];
  }

  /** What registering one item of `normal_data` raises, given the names
      already taken in the collection. */
  function ItemFailure(keys: set<string>, entry: NormalEntry): (r: Option<Error>)
    ensures r.None? <==> BuildEach(entry.1, NormalBuilder(entry.0)).failure.None? && entry.0 !in keys
  {
    var built := BuildEach(entry.1, NormalBuilder(entry.0));
    if built.failure.Some? then built.failure
    else if entry.0 in keys then Some(AlreadyRegistered)
    else None
  }

  /** One item of `normal_data`: build the group, then register it. */
  method RegisterItem(c: ReferenceCollection, entry: NormalEntry)
    returns (failure: Option<Error>, grp: ValueReferenceGroup, ghost xs: seq<ValueReference>)
    requires c.Valid()
    modifies c
    ensures c.Valid() && fresh(grp)
    ensures failure == ItemFailure(old(c.registry.Keys), entry)
    ensures failure.Some? ==> c.registry == old(c.registry)
    ensures failure.None? ==> c.registry == Updated(old(c.registry), grp) && grp.Valid() && NewGroup(grp, entry.0, xs)
    ensures forall g :: g in c.registry.Values ==> g in old(c.registry.Values) || g == grp
    ensures Blueprints(xs) == BuildEach(entry.1, NormalBuilder(entry.0)).blueprints
  {
    grp, failure, xs := BuildNormalGroup(entry.0, entry.1);
    if failure.Some? {
      return;
    }
    var registered := c.Register(grp);
    if registered.Fail? {
      failure := Some(registered.error);
    }
  }

  /** The first `|groups|` items of `data` are registered, as the groups
      `groups`, in the dict `start` whose names were `taken`. */
  predicate NormalProgress(taken: set<string>, start: map<string, ValueReferenceGroup>, data: seq<NormalEntry>,
                           groups: seq<ValueReferenceGroup>, registry: map<string, ValueReferenceGroup>)
  {
    && |groups| <= |data|
    && RunPhase(data[..|groups|], NormalCheck(taken)) == Phase(|groups|, None)
    && registry == FileAll(start, groups)
    && registry.Keys == taken + EntryNames(data[..|groups|])
  }

  /** The groups filed in `start` are still filed, and the group of each of
      the first `|groups|` items is filed under its name. */
  predicate FiledAs(start: map<string, ValueReferenceGroup>, data: seq<NormalEntry>,
                    groups: seq<ValueReferenceGroup>, registry: map<string, ValueReferenceGroup>)
  {
    && |groups| <= |data|
    && (forall k :: k in start ==> k in registry && registry[k] == start[k])
    && (forall j :: 0 <= j < |groups| ==> data[j].0 in registry && registry[data[j].0] == groups[j])
  }

  lemma FiledAsStep(start: map<string, ValueReferenceGroup>, data: seq<NormalEntry>,
                    groups: seq<ValueReferenceGroup>, registry: map<string, ValueReferenceGroup>,
                    grp: ValueReferenceGroup)
    requires FiledAs(start, data, groups, registry) && |groups| < |data|
    requires grp.name == data[|groups|].0 && grp.name !in registry
    ensures FiledAs(start, data, groups + [grp], Updated(registry, grp))
  {
    var i := |groups|;
    forall j | 0 <= j < i + 1
      ensures Updated(registry, grp)[data[j].0] == (groups + [grp])[j]
    {
      if j < i {
        assert data[j].0 in registry;
      }
    }
  }

  lemma NormalProgressStep(taken: set<string>, start: map<string, ValueReferenceGroup>, data: seq<NormalEntry>,
                           groups: seq<ValueReferenceGroup>, registry: map<string, ValueReferenceGroup>,
                           grp: ValueReferenceGroup)
    requires NormalProgress(taken, start, data, groups, registry) && |groups| < |data|
    requires ItemFailure(registry.Keys, data[|groups|]).None? && grp.name == data[|groups|].0
    ensures NormalProgress(taken, start, data, groups + [grp], Updated(registry, grp))
  {
    var i := |groups|;
    assert NormalCheck(taken)(data[..i], data[i]).None?;
    RunPhaseStep(data, i, NormalCheck(taken));
    EntryNamesStep(data, i);
    assert (groups + [grp])[..i] == groups;
  }

  lemma NormalProgressStops(taken: set<string>, start: map<string, ValueReferenceGroup>, data: seq<NormalEntry>,
                            groups: seq<ValueReferenceGroup>, registry: map<string, ValueReferenceGroup>)
    requires NormalProgress(taken, start, data, groups, registry) && |groups| < |data|
    requires ItemFailure(registry.Keys, data[|groups|]).Some?
    ensures RunPhase(data, NormalCheck(taken)) == Phase(|groups|, ItemFailure(registry.Keys, data[|groups|]))
  {
    var i := |groups|;
    assert NormalCheck(taken)(data[..i], data[i]) == ItemFailure(registry.Keys, data[i]);
    RunPhaseStops(data, i, NormalCheck(taken));
  }

  /** One turn of the normal loop: the next item is registered, and the
      group it makes recorded. */
  method NormalNext(c: ReferenceCollection, data: seq<NormalEntry>, i: nat, ghost groups: seq<ValueReferenceGroup>,
                    ghost refs: seq<seq<ValueReference>>, ghost taken: set<string>,
                    ghost start: map<string, ValueReferenceGroup>)
    returns (failure: Option<Error>, grp: ValueReferenceGroup, ghost xs: seq<ValueReference>)
    requires c.Valid() && i == |groups| < |data| && NormalProgress(taken, start, data, groups, c.registry)
    requires NewGroups(groups, data, refs) && BuiltAs(data, refs) && FiledAs(start, data, groups, c.registry)
    modifies c
    ensures c.Valid() && fresh(grp)
    ensures failure.Some? ==> RunPhase(data, NormalCheck(taken)) == Phase(|groups|, failure) && c.registry == old(c.registry)
    ensures failure.None? ==> NormalProgress(taken, start, data, groups + [grp], c.registry)
    ensures failure.None? ==> FiledAs(start, data, groups + [grp], c.registry)
    ensures failure.None? ==> NewGroups(groups + [grp], data, refs + [xs]) && BuiltAs(data, refs + [xs])
    ensures forall g :: g in c.registry.Values ==> g in old(c.registry.Values) || g == grp
  {
    failure, grp, xs := RegisterItem(c, data[i]);
    if failure.Some? {
      NormalProgressStops(taken, start, data, groups, old(c.registry));
      return;
    }
    NormalProgressStep(taken, start, data, groups, old(c.registry), grp);
    FiledAsStep(start, data, groups, old(c.registry), grp);
    NewGroupsStep(groups, data, refs, grp, xs);
  }

  /** The `normal_data` loop of `register`: each item in turn becomes a new group,
      registered in `c`; the first item that raises ends the loop, leaving the
      groups before it registered. */
  method RegisterNormal(c: ReferenceCollection, data: seq<NormalEntry>)
    returns (failure: Option<Error>, ghost groups: seq<ValueReferenceGroup>, ghost refs: seq<seq<ValueReference>>)
    requires c.Valid()
    modifies c
    ensures c.Valid()
    ensures RunPhase(data, NormalCheck(old(c.registry.Keys))) == Phase(|groups|, failure)
    ensures c.registry == FileAll(old(c.registry), groups)
    ensures c.registry.Keys == old(c.registry.Keys) + EntryNames(data[..|groups|])
    ensures FiledAs(old(c.registry), data, groups, c.registry)
    ensures forall j :: 0 <= j < |groups| ==> fresh(groups[j])
    ensures forall g :: g in c.registry.Values ==> g in old(c.registry.Values) || fresh(g)
    ensures NewGroups(groups, data, refs) && BuiltAs(data, refs)
  {
    failure, groups, refs := None, [], [];
    ghost var taken, start := c.registry.Keys, c.registry;
    var i := 0;
    while i < |data|
      invariant i <= |data| && |groups| == i && failure.None?
      invariant c.Valid()
      invariant NormalProgress(taken, start, data, groups, c.registry)
      invariant FiledAs(start, data, groups, c.registry)
      invariant forall j :: 0 <= j < |groups| ==> fresh(groups[j])
      invariant forall g :: g in c.registry.Values ==> g in old(c.registry.Values) || fresh(g)
      invariant NewGroups(groups, data, refs) && BuiltAs(data, refs)
    {
      var grp; ghost var xs;
      failure, grp, xs := NormalNext(c, data, i, groups, refs, taken, start);
      if failure.Some? {
        return;
      }
      groups, refs := groups + [grp], refs + [xs];
      i := i + 1;
    }
    assert data[..i] == data;
  }

  /** What registering one item of `grading_data` raises, given the names
      the collection files groups under: with no group of that name, `get`
      gives None, and the first reference is still built (and may raise)
      before `add_grading`, or with no data `update_grp`, is looked up on
      None. */
  function GradingItemFailure(keys: set<string>, entry: GradingEntry): (r: Option<Error>)
    ensures entry.0 in keys ==> r == BuildEach(entry.1, GradingBuilder(entry.0)).failure
    ensures entry.0 !in keys ==> r.Some?
    ensures entry.0 !in keys && (entry.1 == [] || GradingBlueprint(entry.0, entry.1[0]).Ok?) ==> r == Some(AttributeError)
  {
    if entry.0 in keys then BuildEach(entry.1, GradingBuilder(entry.0)).failure
    else if entry.1 != [] && GradingBlueprint(entry.0, entry.1[0]).Err? then
      Some(GradingBlueprint(entry.0, entry.1[0]).error)
    else Some(AttributeError)
  }

  /** The groups of `c`: each in the state `before` gave it, with the
      grading references `added` to it. */
  ghost predicate GradedFrom(registry: map<string, ValueReferenceGroup>, before: map<string, GroupState>,
                             added: map<string, seq<ValueReference>>)
    reads registry.Values
  {
    forall k :: k in registry ==> k in before && StateOf(registry[k]) == Graded(before[k], AddedTo(added, k))
  }

  /** One item of `grading_data` whose group exists: the group is given the
      grading references and filed again under its own name, which leaves
      the dict as it was. */
  method GradeGroup(c: ReferenceCollection, grp: ValueReferenceGroup, entry: GradingEntry,
                    ghost before: map<string, GroupState>, ghost added: map<string, seq<ValueReference>>)
    returns (failure: Option<Error>, ghost xs: seq<ValueReference>)
    requires c.Valid() && GradedFrom(c.registry, before, added) && entry.0 !in added
    requires entry.0 in c.registry && c.registry[entry.0] == grp
    modifies c, c.registry.Values
    ensures c.Valid() && c.registry == old(c.registry)
    ensures failure == BuildEach(entry.1, GradingBuilder(entry.0)).failure
    ensures Blueprints(xs) == BuildEach(entry.1, GradingBuilder(entry.0)).blueprints
    ensures GradedFrom(c.registry, before, added[entry.0 := xs])
  {
    failure, xs := AddGradingData(grp, entry.1);
    forall k | k in c.registry
      ensures k in before && StateOf(c.registry[k]) == Graded(before[k], AddedTo(added[entry.0 := xs], k))
    {
      if k != entry.0 {
        assert c.registry[k].name == k;
      }
    }
    if failure.None? {
      UpdateWithRegisteredGroup(c.registry, entry.0);
      c.UpdateGrp(grp);
    }
  }

  /** One item of `grading_data`: with no group of its name, `get` gives None
      and the item raises. */
  method GradeItem(c: ReferenceCollection, entry: GradingEntry, ghost before: map<string, GroupState>,
                   ghost added: map<string, seq<ValueReference>>)
    returns (failure: Option<Error>, ghost xs: seq<ValueReference>)
    requires c.Valid() && GradedFrom(c.registry, before, added) && entry.0 !in added
    modifies c, c.registry.Values
    ensures c.Valid() && c.registry == old(c.registry)
    ensures failure == GradingItemFailure(c.registry.Keys, entry)
    ensures entry.0 in c.registry ==> Blueprints(xs) == BuildEach(entry.1, GradingBuilder(entry.0)).blueprints
    ensures GradedFrom(c.registry, before, if entry.0 in c.registry then added[entry.0 := xs] else added)
  {
    var grp := c.Get(entry.0);
    if grp.None? {
      if entry.1 != [] {
        var built := GradingBlueprint(entry.0, entry.1[0]);
        if built.Err? {
          return Some(built.error), [];
        }
      }
      return Some(AttributeError), [];
    }
    failure, xs := GradeGroup(c, grp.value, entry, before, added);
  }

  function GradingCheck(keys: set<string>): (seq<GradingEntry>, GradingEntry) -> Option<Error> {
    (before: seq<GradingEntry>, entry: GradingEntry) => GradingItemFailure(keys, entry)
  }

  /** The number of items a loop ended by `p` started: the completed ones and
      the one that raised. */
  function Reached(p: Phase): nat {
    if p.failure.Some? then p.done + 1 else p.done
  }

  /** The grading references added to the group named `k`. */
  function AddedTo(added: map<string, seq<ValueReference>>, k: string): seq<ValueReference> {
    if k in added then added[k] else []
  }

  /** Grading references were added for the first `reached` items whose
      group exists, built as those items' data say. */
  predicate GradedAs(data: seq<GradingEntry>, reached: nat, keys: set<string>, added: map<string, seq<ValueReference>>) {
    && reached <= |data|
    && added.Keys == EntryNames(data[..reached]) * keys
    && forall j :: 0 <= j < reached && data[j].0 in keys ==>
         Blueprints(added[data[j].0]) == BuildEach(data[j].1, GradingBuilder(data[j].0)).blueprints
  }

  /** With distinct names, the next item's group has had nothing added yet. */
  lemma NotYetGraded(data: seq<GradingEntry>, i: nat, keys: set<string>, added: map<string, seq<ValueReference>>)
    requires DistinctNames(data) && i < |data| && GradedAs(data, i, keys, added)
    ensures data[i].0 !in added
  {
    EntryNamesStep(data, i);
    forall k | 0 <= k < i
      ensures data[..i][k].0 != data[i].0
    {
      assert data[..i][k] == data[k];
    }
  }

  lemma GradedAsStep(data: seq<GradingEntry>, i: nat, keys: set<string>, added: map<string, seq<ValueReference>>,
                     xs: seq<ValueReference>)
    requires DistinctNames(data) && i < |data| && GradedAs(data, i, keys, added)
    requires data[i].0 in keys ==> Blueprints(xs) == BuildEach(data[i].1, GradingBuilder(data[i].0)).blueprints
    ensures GradedAs(data, i + 1, keys, if data[i].0 in keys then added[data[i].0 := xs] else added)
  {
    EntryNamesStep(data, i);
    NotYetGraded(data, i, keys, added);
    var name := data[i].0;
    var added' := if name in keys then added[name := xs] else added;
    assert added'.Keys == EntryNames(data[..i + 1]) * keys;
    forall j | 0 <= j < i + 1 && data[j].0 in keys
      ensures Blueprints(added'[data[j].0]) == BuildEach(data[j].1, GradingBuilder(data[j].0)).blueprints
    {
      if j < i {
        assert data[j].0 != name;
        assert added'[data[j].0] == added[data[j].0];
      }
    }
  }

  /** One turn of the grading loop: item `i` is graded, and what it adds is
      recorded. */
  method GradeNext(c: ReferenceCollection, data: seq<GradingEntry>, i: nat, ghost before: map<string, GroupState>,
                   ghost added: map<string, seq<ValueReference>>)
    returns (failure: Option<Error>, ghost added': map<string, seq<ValueReference>>)
    requires c.Valid() && DistinctNames(data) && i < |data|
    requires GradedAs(data, i, c.registry.Keys, added) && GradedFrom(c.registry, before, added)
    modifies c, c.registry.Values
    ensures c.Valid() && c.registry == old(c.registry)
    ensures failure == GradingItemFailure(c.registry.Keys, data[i])
    ensures GradedAs(data, i + 1, c.registry.Keys, added') && GradedFrom(c.registry, before, added')
  {
    ghost var xs;
    NotYetGraded(data, i, c.registry.Keys, added);
    failure, xs := GradeItem(c, data[i], before, added);
    GradedAsStep(data, i, c.registry.Keys, added, xs);
    added' := if data[i].0 in c.registry then added[data[i].0 := xs] else added;
  }

  /** The `grading_data` loop of `register`: the items in turn give grading
      references to the group of their name; the first item that raises ends
      the loop, leaving the references added before it (its own first ones
      included) in place. The dict of groups does not change. */
  method RegisterGrading(c: ReferenceCollection, data: seq<GradingEntry>)
    returns (failure: Option<Error>, ghost added: map<string, seq<ValueReference>>)
    requires c.Valid() && DistinctNames(data)
    modifies c, c.registry.Values
    ensures c.Valid() && c.registry == old(c.registry)
    ensures RunPhase(data, GradingCheck(c.registry.Keys)).failure == failure
    ensures GradedAs(data, Reached(RunPhase(data, GradingCheck(c.registry.Keys))), c.registry.Keys, added)
    ensures forall k :: k in c.registry ==> StateOf(c.registry[k]) == Graded(old(StateOf(c.registry[k])), AddedTo(added, k))
  {
    ghost var keys := c.registry.Keys;
    ghost var before := map k | k in c.registry :: StateOf(c.registry[k]);
    failure, added := None, map[];
    var i := 0;
    while i < |data|
      invariant i <= |data| && failure.None?
      invariant c.Valid() && c.registry == old(c.registry)
      invariant RunPhase(data[..i], GradingCheck(keys)) == Phase(i, None)
      invariant GradedAs(data, i, keys, added)
      invariant GradedFrom(c.registry, before, added)
    {
      failure, added := GradeNext(c, data, i, before, added);
      assert GradingCheck(keys)(data[..i], data[i]) == failure;
      if failure.Some? {
        RunPhaseStops(data, i, GradingCheck(keys));
        return;
      }
      RunPhaseStep(data, i, GradingCheck(keys));
      i := i + 1;
    }
    assert data[..i] == data;
  }

  /** What `register(name, normal_data, grading_data)` raises, given the names
      the collection of that name files groups under beforehand (none for a
      new collection): `.items()` on a missing dict raises AttributeError;
      otherwise the normal items run, and then, if none raised, the grading
      items, over the names the normal items added. */
  function RegisterFailure(keys: set<string>, normal: Option<seq<NormalEntry>>, grading: Option<seq<GradingEntry>>)
    : Option<Error>
  {
    if normal.None? then Some(AttributeError)
    else
      var p := RunPhase(normal.value, NormalCheck(keys));
      if p.failure.Some? then p.failure
      else if grading.None? then Some(AttributeError)
      else RunPhase(grading.value, GradingCheck(keys + EntryNames(normal.value))).failure
  }

  /** What `register` leaves in a collection when nothing raised, given the
      groups it filed before (`before`, whose fields were `statesBefore`)
      and the fields `states` of the groups it files now: the earlier groups
      stay filed, each with only its grading references `added` appended;
      each item of `normal` is filed as a group of its name holding the
      references `refs` built from its data, and then its grading
      references; the grading references are built from `grading`. */
  predicate Filled(registry: map<string, ValueReferenceGroup>, states: map<string, GroupState>,
                   before: map<string, ValueReferenceGroup>, statesBefore: map<string, GroupState>,
                   normal: seq<NormalEntry>, grading: seq<GradingEntry>,
                   refs: seq<seq<ValueReference>>, added: map<string, seq<ValueReference>>)
  {
    && registry.Keys == before.Keys + EntryNames(normal)
    && states.Keys == registry.Keys
    && |refs| == |normal| && BuiltAs(normal, refs)
    && GradedAs(grading, |grading|, registry.Keys, added)
    && (forall k :: k in before ==>
          && k in statesBefore && registry[k] == before[k]
          && states[k] == Graded(statesBefore[k], AddedTo(added, k)))
    && (forall j :: 0 <= j < |normal| ==>
          && normal[j].0 in registry && registry[normal[j].0].name == normal[j].0
          && states[normal[j].0] == Graded(FreshState(refs[j]), AddedTo(added, normal[j].0)))
  }

  /** A group no item of `grading` names is left as it was: an earlier group
      keeps its fields, and a new one holds only its normal references. */
  lemma UngradedUnchanged(registry: map<string, ValueReferenceGroup>, states: map<string, GroupState>,
                          before: map<string, ValueReferenceGroup>, statesBefore: map<string, GroupState>,
                          normal: seq<NormalEntry>, grading: seq<GradingEntry>,
                          refs: seq<seq<ValueReference>>, added: map<string, seq<ValueReference>>, k: string)
    requires Filled(registry, states, before, statesBefore, normal, grading, refs, added)
    requires k !in EntryNames(grading)
    ensures k in before ==> states[k] == statesBefore[k]
    ensures forall j :: 0 <= j < |normal| && normal[j].0 == k ==> states[k] == FreshState(refs[j])
  {
    assert grading[..|grading|] == grading;
    assert AddedTo(added, k) == [];
  }

  /** After `register`, the normal list of each gender in the group of a
      `normal_data` item is the references its data built for that gender,
      in order, and the rest of the group is as the grading items left it. */
  lemma FilledNormalLookup(registry: map<string, ValueReferenceGroup>, states: map<string, GroupState>,
                           before: map<string, ValueReferenceGroup>, statesBefore: map<string, GroupState>,
                           normal: seq<NormalEntry>, grading: seq<GradingEntry>,
                           refs: seq<seq<ValueReference>>, added: map<string, seq<ValueReference>>,
                           j: nat, g: string)
    requires Filled(registry, states, before, statesBefore, normal, grading, refs, added)
    requires j < |normal|
    ensures Lookup(states[normal[j].0].normal, g) == Filter(refs[j], OwnGender(g))
    ensures Blueprints(refs[j]) == BuildEach(normal[j].1, NormalBuilder(normal[j].0)).blueprints
    ensures Lookup(states[normal[j].0].grading, g) == Filter(AddedTo(added, normal[j].0), OwnGender(g))
  {
    AppendAllLookup([], refs[j], g);
    AppendAllLookup([], AddedTo(added, normal[j].0), g);
  }

  /** The facts the two loops of `register` leave, put together: the
      normal loop filed the new groups, the grading loop appended to the
      groups' fields. */
  lemma FilledFrom(registry: map<string, ValueReferenceGroup>, states: map<string, GroupState>,
                   before: map<string, ValueReferenceGroup>, statesBefore: map<string, GroupState>,
                   mid: map<string, GroupState>, normal: seq<NormalEntry>, grading: seq<GradingEntry>,
                   groups: seq<ValueReferenceGroup>, refs: seq<seq<ValueReference>>,
                   added: map<string, seq<ValueReference>>)
    requires registry.Keys == before.Keys + EntryNames(normal)
    requires FiledAs(before, normal, groups, registry) && |groups| == |normal|
    requires forall j :: 0 <= j < |groups| ==> groups[j].name == normal[j].0
    requires BuiltAs(normal, refs) && |refs| == |normal|
    requires mid.Keys == registry.Keys && states.Keys == registry.Keys && statesBefore.Keys == before.Keys
    requires forall k :: k in before ==> mid[k] == statesBefore[k]
    requires forall j :: 0 <= j < |normal| ==> mid[normal[j].0] == FreshState(refs[j])
    requires forall k :: k in registry ==> states[k] == Graded(mid[k], AddedTo(added, k))
    requires GradedAs(grading, |grading|, registry.Keys, added)
    ensures Filled(registry, states, before, statesBefore, normal, grading, refs, added)
  {
  }

  /** The grading loop of `register`, run once the normal loop has filed
      the groups `groups` of `normal` beside the groups `before` of the
      collection. */
  method FillGrading(c: ReferenceCollection, normal: seq<NormalEntry>, grading: seq<GradingEntry>,
                     ghost before: map<string, ValueReferenceGroup>, ghost statesBefore: map<string, GroupState>,
                     ghost groups: seq<ValueReferenceGroup>, ghost refs: seq<seq<ValueReference>>)
    returns (failure: Option<Error>, ghost added: map<string, seq<ValueReference>>)
    requires c.Valid() && DistinctNames(grading)
    requires c.registry.Keys == before.Keys + EntryNames(normal) && statesBefore.Keys == before.Keys
    requires FiledAs(before, normal, groups, c.registry) && |groups| == |normal|
    requires BuiltAs(normal, refs) && |refs| == |normal|
    requires forall k :: k in before ==> StateOf(c.registry[k]) == statesBefore[k]
    requires forall j :: 0 <= j < |groups| ==> groups[j].name == normal[j].0 && StateOf(groups[j]) == FreshState(refs[j])
    modifies c, c.registry.Values
    ensures c.Valid() && c.registry == old(c.registry)
    ensures failure == RunPhase(grading, GradingCheck(c.registry.Keys)).failure
    ensures failure.None? ==>
      Filled(c.registry, States(c.registry), before, statesBefore, normal, grading, refs, added)
  {
    ghost var mid := States(c.registry);
    assert forall k :: k in before ==> mid[k] == statesBefore[k];
    assert forall j :: 0 <= j < |normal| ==> mid[normal[j].0] == FreshState(refs[j]);
    ghost var registry := c.registry;
    failure, added := RegisterGrading(c, grading);
    if failure.None? {
      assert grading[..|grading|] == grading;
      FilledFrom(registry, States(registry), before, statesBefore, mid, normal, grading, groups, refs, added);
    }
  }

  /** `register`'s body for the collection `c`: the normal items, then the
      grading items, added to it. */
  method Fill(c: ReferenceCollection, normal: Option<seq<NormalEntry>>, grading: Option<seq<GradingEntry>>)
    returns (failure: Option<Error>, ghost refs: seq<seq<ValueReference>>,
             ghost added: map<string, seq<ValueReference>>)
    requires c.Valid()
    requires grading.Some? ==> DistinctNames(grading.value)
    modifies c, c.registry.Values
    ensures c.Valid()
    ensures failure == RegisterFailure(old(c.registry.Keys), normal, grading)
    ensures failure.None? ==>
      Filled(c.registry, States(c.registry), old(c.registry), old(States(c.registry)),
             normal.value, grading.value, refs, added)
    ensures failure.None? ==> forall j :: 0 <= j < |normal.value| ==> fresh(c.registry[normal.value[j].0])
  {
    if normal.None? {
      return Some(AttributeError), [], map[];
    }
    ghost var before, statesBefore := c.registry, States(c.registry);
    ghost var groups;
    failure, groups, refs := RegisterNormal(c, normal.value);
    if failure.Some? {
      return failure, refs, map[];
    }
    assert normal.value[..|groups|] == normal.value;
    if grading.None? {
      return Some(AttributeError), refs, map[];
    }
    assert forall k :: k in before ==> StateOf(c.registry[k]) == statesBefore[k];
    assert forall j :: 0 <= j < |groups| ==> NewGroup(groups[j], normal.value[j].0, refs[j]);
    failure, added := FillGrading(c, normal.value, grading.value, before, statesBefore, groups, refs);
    if failure.None? {
      forall j | 0 <= j < |normal.value|
        ensures fresh(c.registry[normal.value[j].0])
      {
        assert c.registry[normal.value[j].0] == groups[j];
      }
    }
  }

  /** A key of `normal_data` that the collection already files, every
      datum of which builds, raises AlreadyRegistered (or, if an earlier
      item raises first, that item's exception; with all builds passing,
      it is AlreadyRegistered in any case). */
  lemma TakenNameRaises(keys: set<string>, normal: seq<NormalEntry>, grading: Option<seq<GradingEntry>>, j: nat)
    requires j < |normal| && normal[j].0 in keys
    requires forall k :: 0 <= k < |normal| ==> BuildEach(normal[k].1, NormalBuilder(normal[k].0)).failure.None?
    ensures RegisterFailure(keys, Some(normal), grading) == Some(AlreadyRegistered)
  {
    RunPhaseRaisesBy(normal, NormalCheck(keys), j);
    var p := RunPhase(normal, NormalCheck(keys));
    RunPhaseMeans(normal, NormalCheck(keys));
    assert NormalCheck(keys)(normal[..p.done], normal[p.done]) == p.failure;
  }

  /** Registering the same non-empty, valid `normal_data` a second time
      under the same collection name raises AlreadyRegistered. */
  lemma RegisterAgainRaises(keys: set<string>, normal: seq<NormalEntry>, grading: Option<seq<GradingEntry>>,
                            grading': Option<seq<GradingEntry>>)
    requires normal != []
    requires forall k :: 0 <= k < |normal| ==> BuildEach(normal[k].1, NormalBuilder(normal[k].0)).failure.None?
    requires RegisterFailure(keys, Some(normal), grading).None?
    ensures RegisterFailure(keys + EntryNames(normal), Some(normal), grading') == Some(AlreadyRegistered)
  {
    assert normal[0].0 in EntryNames(normal);
    TakenNameRaises(keys + EntryNames(normal), normal, grading', 0);
  }

  /** A key of `grading_data` with no group, neither filed before nor made
      by `normal_data`, makes `register` raise. */
  lemma UnknownGradingNameRaises(keys: set<string>, normal: seq<NormalEntry>, grading: seq<GradingEntry>, j: nat)
    requires j < |grading| && grading[j].0 !in keys + EntryNames(normal)
    ensures RegisterFailure(keys, Some(normal), Some(grading)).Some?
  {
    RunPhaseRaisesBy(grading, GradingCheck(keys + EntryNames(normal)), j);
  }

  /** The keys of an insertion-ordered dict of collections: `names` lists
      each key once, in the order it was first stored, and every collection
      is filed under its own name. */
  predicate Ordered(names: seq<string>, registry: map<string, ReferenceCollection>) {
    && (forall i, j :: 0 <= i < j < |names| ==> names[i] != names[j])
    && (forall k :: k in registry ==> k in names)
    && (forall i :: 0 <= i < |names| ==> names[i] in registry)
    && (forall k :: k in registry ==> registry[k].name == k)
  }

  /** The key order after `update({c.name: c})`: a new name goes last, a
      name already there keeps its place. */
  function StoredNames(names: seq<string>, registry: map<string, ReferenceCollection>, c: ReferenceCollection)
    : (r: seq<string>)
    requires Ordered(names, registry)
    ensures Ordered(r, registry[c.name := c])
    ensures |names| <= |r| <= |names| + 1 && r[..|names|] == names
  {
    if c.name in names then names else names + [c.name]
  }

  /** A list of distinct names has as many elements as its set. */
  lemma {:induction false} DistinctCard(names: seq<string>)
    requires forall i, j :: 0 <= i < j < |names| ==> names[i] != names[j]
    ensures |set k | k in names| == |names|
  {
    if names != [] {
      var init, last := names[..|names| - 1], names[|names| - 1];
      DistinctCard(init);
      assert last !in init;
      assert (set k | k in names) == (set k | k in init) + {last};
    }
  }

  /** `iter(_registry.items())`: each (name, collection) pair once, in the
      order the names were first stored. */
  function ItemsOf(names: seq<string>, registry: map<string, ReferenceCollection>)
    : (r: seq<(string, ReferenceCollection)>)
    requires Ordered(names, registry)
    ensures |r| == |registry|
    ensures forall k :: k in registry ==> (k, registry[k]) in r
    ensures forall i :: 0 <= i < |r| ==> r[i].0 in registry && r[i].1 == registry[r[i].0]
    ensures forall i, j :: 0 <= i < j < |r| ==> r[i].0 != r[j].0
  {
    DistinctCard(names);
    assert registry.Keys == set k | k in names;
    var r := seq(|names|, i requires 0 <= i < |names| => (names[i], registry[names[i]]));
    assert forall k :: k in registry ==> exists i :: 0 <= i < |names| && names[i] == k && r[i] == (k, registry[k]);
    r
  }

  /** Storing a collection under a new name adds its pair at the end of the
      iteration; storing under a name already there leaves every other pair
      where it was. */
  lemma StoreKeepsOrder(names: seq<string>, registry: map<string, ReferenceCollection>, c: ReferenceCollection)
    requires Ordered(names, registry)
    ensures c.name !in registry ==>
      ItemsOf(StoredNames(names, registry, c), registry[c.name := c]) == ItemsOf(names, registry) + [(c.name, c)]
    ensures c.name in registry ==> forall i :: 0 <= i < |names| && names[i] != c.name ==>
      ItemsOf(StoredNames(names, registry, c), registry[c.name := c])[i] == ItemsOf(names, registry)[i]
  {
    var after := ItemsOf(StoredNames(names, registry, c), registry[c.name := c]);
    var before := ItemsOf(names, registry);
    if c.name !in registry {
      assert |after| == |before| + 1;
      forall i | 0 <= i < |after|
        ensures after[i] == (before + [(c.name, c)])[i]
      {
      }
    }
  }

  /** The part of `register` after the collection `c` is found: it is
      filled, and stored in `site` if nothing raised. */
  method FillAndStore(site: Reportables, c: ReferenceCollection, normal: Option<seq<NormalEntry>>,
                      grading: Option<seq<GradingEntry>>)
    returns (failure: Option<Error>, ghost refs: seq<seq<ValueReference>>,
             ghost added: map<string, seq<ValueReference>>, ghost states: map<string, GroupState>)
    requires site.Valid() && c.Valid()
    requires grading.Some? ==> DistinctNames(grading.value)
    modifies site, c, c.registry.Values
    ensures c.Valid()
    ensures failure == RegisterFailure(old(c.registry.Keys), normal, grading)
    ensures failure.None? ==>
      Filled(c.registry, states, old(c.registry), old(States(c.registry)), normal.value, grading.value, refs, added)
    ensures failure.None? ==> forall k :: k in c.registry ==> StateOf(c.registry[k]) == states[k]
    ensures failure.None? ==> forall j :: 0 <= j < |normal.value| ==> fresh(c.registry[normal.value[j].0])
    ensures site.Valid()
    ensures failure.None? ==>
      site.registry == old(site.registry)[c.name := c] && site.names == StoredNames(old(site.names), old(site.registry), c)
    ensures failure.Some? ==> site.registry == old(site.registry) && site.names == old(site.names)
  {
    failure, refs, added := Fill(c, normal, grading);
    states := States(c.registry);
    if failure.None? {
      ghost var after := c.registry;
      site.Store(c);
      assert c.registry == after;
    }
  }

  class Reportables {
    /** The keys of `_registry` in insertion order. */
    var names: seq<string>
    var registry: map<string, ReferenceCollection>

    ghost predicate Valid()
      reads this
    {
      Ordered(names, registry)
    }

    constructor ()
      ensures Valid() && names == [] && registry == map[]
    {
      names, registry := [], map[];
    }

    /** `__iter__` */
    function Items(): seq<(string, ReferenceCollection)>
      reads this
      requires Valid()
    {
      ItemsOf(names, registry)
    }

    /** `get(name)`: the collection stored under `name`, or None. */
    function Get(name: string): (r: Option<ReferenceCollection>)
      reads this
      ensures r.Some? <==> name in registry
      ensures r.Some? ==> r.value in registry.Values
      ensures r.Some? && Valid() ==> r.value.name == name
    {
      if name in registry then Some(registry[name]) else None
    }

    /** `_registry.update({c.name: c})` */
    method Store(c: ReferenceCollection)
      requires Valid()
      modifies this
      ensures Valid()
      ensures registry == old(registry)[c.name := c] && names == StoredNames(old(names), old(registry), c)
    {
      names := StoredNames(names, registry, c);
      registry := registry[c.name := c];
    }

    /** The collection `register(name, ...)` reuses, and its groups. */
    ghost function Reused(name: string): set<object>
      reads this, registry.Values
    {
      if name in registry then {registry[name] as object} + set g | g in registry[name].registry.Values :: g as object
      else {}
    }

    /** The groups the collection `register(name, ...)` reuses files, or
        none for a new collection. */
    ghost function GroupsBefore(name: string): map<string, ValueReferenceGroup>
      reads this, registry.Values
    {
      if name in registry then registry[name].registry else map[]
    }

    /** The names the collection `register(name, ...)` reuses files groups
        under, or none for a new collection. */
    ghost function KeysBefore(name: string): set<string>
      reads this, registry.Values
    {
      GroupsBefore(name).Keys
    }

    /** `self._registry.get(name) or ReferenceCollection(name=name)` */
    method CollectionFor(name: string) returns (c: ReferenceCollection)
      requires Valid()
      requires name in registry ==> registry[name].Valid()
      ensures c.Valid() && c.name == name
      ensures name in registry ==> c == registry[name]
      ensures name !in registry ==> fresh(c)
      ensures c.registry == GroupsBefore(name) && States(c.registry) == States(GroupsBefore(name))
    {
      if name in registry {
        c := registry[name];
      } else {
        c := new ReferenceCollection(name);
        assert States(c.registry) == map[];
      }
    }

    /** `register(name, normal_data, grading_data)`: the collection is looked
        up in this registry, or made new; the normal items then the grading
        items are added to it; and, if nothing raised, it is stored in the
        module-level registry `site`. */
    method Register(site: Reportables, name: string, normal: Option<seq<NormalEntry>>,
                    grading: Option<seq<GradingEntry>>)
      returns (failure: Option<Error>, ghost c: ReferenceCollection, ghost refs: seq<seq<ValueReference>>,
               ghost added: map<string, seq<ValueReference>>, ghost states: map<string, GroupState>)
      requires Valid() && site.Valid()
      requires name in registry ==> registry[name].Valid()
      requires grading.Some? ==> DistinctNames(grading.value)
      modifies site, Reused(name)
      ensures c.Valid() && c.name == name
      ensures name in old(registry) ==> c == old(registry[name])
      ensures name !in old(registry) ==> fresh(c)
      ensures failure == RegisterFailure(old(KeysBefore(name)), normal, grading)
      ensures failure.None? ==>
        Filled(c.registry, states, old(GroupsBefore(name)), old(States(GroupsBefore(name))),
               normal.value, grading.value, refs, added)
      ensures failure.None? ==> forall k :: k in c.registry ==> StateOf(c.registry[k]) == states[k]
      ensures failure.None? ==> forall j :: 0 <= j < |normal.value| ==> fresh(c.registry[normal.value[j].0])
      ensures site.Valid()
      ensures failure.None? ==>
        site.registry == old(site.registry)[name := c] && site.names == StoredNames(old(site.names), old(site.registry), c)
      ensures failure.Some? ==> site.registry == old(site.registry) && site.names == old(site.names)
    {
      var collection := CollectionFor(name);
      c := collection;
      failure, refs, added, states := FillAndStore(site, collection, normal, grading);
    }

    /** `register` as evidently meant: the collection is stored in this
        registry, the one it was looked up in, so `get` finds it. */
    method RegisterHere(name: string, normal: Option<seq<NormalEntry>>, grading: Option<seq<GradingEntry>>)
      returns (failure: Option<Error>, ghost c: ReferenceCollection, ghost refs: seq<seq<ValueReference>>,
               ghost added: map<string, seq<ValueReference>>, ghost states: map<string, GroupState>)
      requires Valid()
      requires name in registry ==> registry[name].Valid()
      requires grading.Some? ==> DistinctNames(grading.value)
      modifies this, Reused(name)
      ensures Valid() && c.Valid() && c.name == name
      ensures failure == RegisterFailure(old(KeysBefore(name)), normal, grading)
      ensures failure.None? ==> Get(name) == Some(c)
      ensures failure.None? ==>
        Filled(c.registry, states, old(GroupsBefore(name)), old(States(GroupsBefore(name))),
               normal.value, grading.value, refs, added)
      ensures failure.None? ==> forall k :: k in c.registry ==> StateOf(c.registry[k]) == states[k]
      ensures failure.None? ==> forall j :: 0 <= j < |normal.value| ==> fresh(c.registry[normal.value[j].0])
      ensures failure.None? ==> forall k :: k in old(registry) && k != name ==> Get(k) == Some(old(registry[k]))
      ensures failure.Some? ==> registry == old(registry) && names == old(names)
    {
      failure, c, refs, added, states := Register(this, name, normal, grading);
    }
  }

  /** Registering through an instance other than the module-level one: the
      collection lands in `site`, and the instance's own `get` does not find
      it. */
  method OtherInstanceExample() returns (seen: bool, stored: bool)
    ensures !seen && stored
  {
    var reportables := new Reportables();
    var site := new Reportables();
    var failure, c, refs, added, states := reportables.Register(site, "cd4", Some([]), Some([]));
    assert EntryNames<seq<NormalData>>([]) == {};
    seen := reportables.Get("cd4").Some?;
    stored := site.Get("cd4").Some?;
  }
}
