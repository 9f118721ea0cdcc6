/** The reference collection (edc_reportable/reference_collection.py): the
    reference groups of one project, in a dict keyed by the group's name.
    Registering a name that is taken raises AlreadyRegistered; updating
    files the group under its name whether or not the name is taken. */
module ReferenceCollections {
  import opened Common
  import opened ValueReferenceGroups

  /** Every group is filed under its own name. */
  predicate Indexed(registry: map<string, ValueReferenceGroup>) {
    forall k :: k in registry ==> registry[k].name == k
  }

  /** What `register(grp)` does to the dict: AlreadyRegistered when the
      group's name is taken, else the dict with the group filed under it. */
  function Registered(registry: map<string, ValueReferenceGroup>, grp: ValueReferenceGroup)
    : (r: Result<map<string, ValueReferenceGroup>>)
    ensures r.Err? <==> grp.name in registry
    ensures r.Err? ==> r.error == AlreadyRegistered
    ensures r.Ok? ==> r.value.Keys == registry.Keys + {grp.name} && r.value[grp.name] == grp
    ensures r.Ok? ==> forall k :: k in registry ==> r.value[k] == registry[k]
    ensures r.Ok? && Indexed(registry) ==> Indexed(r.value)
  {
    if grp.name in registry then Err(AlreadyRegistered) else Ok(registry[grp.name := grp])
  }

  /** What `update_grp(grp)` does to the dict: the group is filed under its
      name, replacing whatever was there. */
  function Updated(registry: map<string, ValueReferenceGroup>, grp: ValueReferenceGroup)
    : (r: map<string, ValueReferenceGroup>)
    ensures r.Keys == registry.Keys + {grp.name} && r[grp.name] == grp
    ensures forall k :: k in registry && k != grp.name ==> r[k] == registry[k]
    ensures Indexed(registry) ==> Indexed(r)
  {
    registry[grp.name := grp]
  }

  /** Registering a second group under a name the first took fails and keeps
      the first (the collection tests register one group twice). */
  lemma RegisterTwiceFails(registry: map<string, ValueReferenceGroup>, first: ValueReferenceGroup,
                           second: ValueReferenceGroup)
    requires Registered(registry, first).Ok? && second.name == first.name
    ensures Registered(Registered(registry, first).value, second) == Err(AlreadyRegistered)
    ensures Registered(registry, first).value[first.name] == first
  {
  }

  /** Updating a dict with a group it already files under its name changes
      nothing: this is how the site re-files a group after adding grading
      references to it. */
  lemma UpdateWithRegisteredGroup(registry: map<string, ValueReferenceGroup>, name: string)
    requires Indexed(registry) && name in registry
    ensures Updated(registry, registry[name]) == registry
  {
  }

  class ReferenceCollection {
    const name: string
    var registry: map<string, ValueReferenceGroup>

    /** Each group is filed under its name and keeps its own invariant. */
    ghost predicate Valid()
      reads this, registry.Values
    {
      Indexed(registry) && forall g :: g in registry.Values ==> g.Valid()
    }

    constructor (name: string)
      ensures Valid() && this.name == name && registry == map[]
    {
      this.name := name;
      registry := map[];
    }

    /** `register(grp)`: a failing call changes nothing. */
    method Register(grp: ValueReferenceGroup) returns (r: Outcome)
      requires Valid() && grp.Valid()
      modifies this
      ensures Valid()
      ensures Registered(old(registry), grp).Err? ==> r == Fail(AlreadyRegistered) && registry == old(registry)
      ensures Registered(old(registry), grp).Ok? ==> r == Pass && registry == Registered(old(registry), grp).value
    {
      if grp.name in registry {
        return Fail(AlreadyRegistered);
      }
      registry := registry[grp.name := grp];
      r := Pass;
    }

    /** `get(name)`: the group filed under `name`, or None. */
    function Get(name: string): (r: Option<ValueReferenceGroup>)
      reads this
      ensures r.Some? <==> name in registry
      ensures r.Some? ==> r.value in registry.Values
      ensures r.Some? && Indexed(registry) ==> r.value.name == name
    {
      if name in registry then Some(registry[name]) else None
    }

    /** `update_grp(grp)` */
    method UpdateGrp(grp: ValueReferenceGroup)
      requires Valid() && grp.Valid()
      modifies this
      ensures Valid()
      ensures registry == Updated(old(registry), grp)
    {
      registry := registry[grp.name := grp];
    }
  }
}
