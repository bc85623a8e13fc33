/** The park directory: the name -> id dictionary loaded once per process,
    kept as its entries in iteration order because `Park.__init__` scans it
    and the first match wins. */
module Directory {
  import opened Wrappers
  import opened Assoc

  /** (park name, park id) entries in the dictionary's iteration order; as in
      any Python dictionary, no name occurs twice. */
  type Directory = dir: seq<(string, string)> | DistinctKeys(dir)

  /** `park_ids[name]`: the id stored under `name`, or `None` where Python
      raises `KeyError`. */
  function Lookup(dir: Directory, name: string): (r: Option<string>)
    ensures r.None? <==> forall i :: 0 <= i < |dir| ==> dir[i].0 != name
    ensures forall i :: 0 <= i < |dir| && dir[i].0 == name ==> r == Some(dir[i].1)
    decreases |dir|
  {
    if |dir| == 0 then None
    else if dir[0].0 == name then Some(dir[0].1)
    else
      var rest: Directory := dir[1..];
      assert forall i :: 1 <= i < |dir| ==> rest[i - 1] == dir[i];
      Lookup(rest, name)
  }

  /** The scan `for park in park_ids: if id == park_ids[park]: ... break`:
      the first name, in directory order, whose id is `id`. */
  function FirstNameFor(dir: Directory, id: string): (r: Option<string>)
    ensures r.None? <==> forall i :: 0 <= i < |dir| ==> dir[i].1 != id
    ensures r.Some? ==> exists i :: 0 <= i < |dir| && dir[i] == (r.value, id)
                                    && forall j :: 0 <= j < i ==> dir[j].1 != id
    decreases |dir|
  {
    if |dir| == 0 then None
    else if dir[0].1 == id then Some(dir[0].0)
    else FirstNameFor(dir[1..], id)
  }
}
