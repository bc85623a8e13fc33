/** The validation block of `Park.__init__`: turn the optional `id` and
    `park_name` arguments into a (name, id) pair from the directory, or into
    the error that selects one of the three exception handlers. */
module Resolution {
  import opened Wrappers
  import opened Directory

  /** A Python argument value: not given (`None`), a string, or any other
      object. */
  datatype Arg = Absent | Str(s: string) | Other

  datatype ResolveError =
    | InvalidArgument   // ValueError: neither argument was given
    | NotAString        // TypeError: an argument is present but not a string
    | NotFound          // KeyError: unknown name, or id not in the directory

  /** What the constructor keeps: `__park_name` and `__id`. */
  datatype Resolved = Resolved(name: string, id: string)

  /** The id scan: succeed with the first directory name carrying `id`. */
  function ResolveId(dir: Directory, id: string): (r: Result<Resolved, ResolveError>)
    ensures r.Failure? ==> r.error == NotFound
    ensures r.Success? <==> exists i :: 0 <= i < |dir| && dir[i].1 == id
    ensures r.Success? ==> r.value.id == id
    ensures r.Success? ==> exists i :: 0 <= i < |dir| && dir[i] == (r.value.name, id)
                                       && forall j :: 0 <= j < i ==> dir[j].1 != id
  {
    match FirstNameFor(dir, id)
    case None => Failure(NotFound)
    case Some(name) => Success(Resolved(name, id))
  }

  /** `Park(id, park_name)` up to the end of its `try` block. */
  function Resolve(dir: Directory, id: Arg, name: Arg): (r: Result<Resolved, ResolveError>)
    ensures r == Failure(InvalidArgument) <==> id.Absent? && name.Absent?
    ensures r == Failure(NotAString) <==> !(id.Absent? && name.Absent?) && (id.Other? || name.Other?)
    ensures r.Success? ==> exists i :: 0 <= i < |dir| && dir[i] == (r.value.name, r.value.id)
                                       && forall j :: 0 <= j < i ==> dir[j].1 != r.value.id
    ensures r.Success? && name.Str? ==> Lookup(dir, name.s) == Some(r.value.id)
    ensures r.Success? && name.Absent? ==> id == Str(r.value.id)
  {
    if id.Absent? && name.Absent? then Failure(InvalidArgument)
    else if id.Other? then Failure(NotAString)
    else if name.Other? then Failure(NotAString)
    else if name.Str? then
      match Lookup(dir, name.s)
      case None => Failure(NotFound)
      case Some(v) => ResolveId(dir, v)
    else ResolveId(dir, id.s)
  }

  /** A given name takes precedence: whatever string id comes with it is
      discarded. */
  lemma NameOverridesId(dir: Directory, id: string, name: string)
    ensures Resolve(dir, Str(id), Str(name)) == Resolve(dir, Absent, Str(name))
  {
  }

  /** The argument checks come before any look at the directory: a
      `ValueError` or `TypeError` outcome is the same for every directory. */
  lemma ArgumentErrorsIgnoreDirectory(dir: Directory, other: Directory, id: Arg, name: Arg)
    requires Resolve(dir, id, name) in {Failure(InvalidArgument), Failure(NotAString)}
    ensures Resolve(other, id, name) == Resolve(dir, id, name)
  {
  }

  /** Resolution by name succeeds exactly when the name is a directory key;
      an unknown name gives the not-found error. */
  lemma ResolveByNameSucceedsIff(dir: Directory, name: string)
    ensures Resolve(dir, Absent, Str(name)).Success? <==> exists i :: 0 <= i < |dir| && dir[i].0 == name
    ensures Resolve(dir, Absent, Str(name)).Failure? ==> Resolve(dir, Absent, Str(name)).error == NotFound
  {
    match Lookup(dir, name)
    case None =>
    case Some(v) =>
      var i :| 0 <= i < |dir| && dir[i].0 == name;
      assert dir[i].1 == v;
  }

  /** Resolution by id succeeds exactly when the id is one of the directory's
      values. */
  lemma ResolveByIdSucceedsIff(dir: Directory, id: string)
    ensures Resolve(dir, Str(id), Absent).Success? <==> exists i :: 0 <= i < |dir| && dir[i].1 == id
  {
  }

  /** Constructing by a known name and constructing by the id stored under
      that name resolve to the same park. */
  lemma ByNameSameAsById(dir: Directory, name: string)
    requires Lookup(dir, name).Some?
    ensures Resolve(dir, Absent, Str(name)) == Resolve(dir, Str(Lookup(dir, name).value), Absent)
  {
  }

  /** The resolved name is a key whose entry is the resolved id:
      `park_ids[__park_name] == __id`. */
  lemma ResolvedNameMapsToId(dir: Directory, id: Arg, name: Arg)
    requires Resolve(dir, id, name).Success?
    ensures Lookup(dir, Resolve(dir, id, name).value.name) == Some(Resolve(dir, id, name).value.id)
  {
    var p := Resolve(dir, id, name).value;
    var i :| 0 <= i < |dir| && dir[i] == (p.name, p.id)
             && forall j :: 0 <= j < i ==> dir[j].1 != p.id;
    assert dir[i].0 == p.name;
  }

  /** A resolved park resolves again to itself, by its id and by its name. */
  lemma ResolveRoundTrip(dir: Directory, id: Arg, name: Arg)
    requires Resolve(dir, id, name).Success?
    ensures var p := Resolve(dir, id, name).value;
      Resolve(dir, Str(p.id), Absent) == Success(p)
    ensures var p := Resolve(dir, id, name).value;
      Resolve(dir, Absent, Str(p.name)) == Success(p)
  {
    ResolvedNameMapsToId(dir, id, name);
  }
}
