/** `Park.__init__` after validation: fetch the park's descriptor by its
    resolved id and keep a read-only record of it, including the flattened
    relation -> URL links. */
module Parks {
  import opened Wrappers
  import opened Directory
  import opened Resolution
  import opened Assoc
  import opened Advisories

  /** A `{"href": ...}` entry of the descriptor. */
  datatype Link = Link(href: string)

  /** The fields of the facility descriptor document the constructor reads;
      `links` keeps the JSON object's entries in document order. */
  datatype Descriptor = Descriptor(
    longId: string,
    kind: string,
    contentType: string,
    subType: string,
    advisories: seq<AdvisoryStub>,
    wdwDetail: Link,
    links: seq<(string, Link)>)

  /** The state a constructed `Park` holds. */
  datatype Park = Park(
    name: string,
    id: string,
    longId: string,
    kind: string,
    contentType: string,
    subType: string,
    advisories: seq<AdvisoryStub>,
    webLink: string,
    links: map<string, string>)

  /** `links[link] = data['links'][link]['href']` for every relation. */
  function FlattenLinks(links: seq<(string, Link)>): (m: map<string, string>)
    ensures forall rel :: rel in m <==> exists i :: 0 <= i < |links| && links[i].0 == rel
    ensures forall rel :: rel in m ==> exists i :: 0 <= i < |links| && links[i] == (rel, Link(m[rel]))
    ensures DistinctKeys(links) ==>
      forall i :: 0 <= i < |links| ==> links[i].0 in m && m[links[i].0] == links[i].1.href
  {
    var pairs := seq(|links|, i requires 0 <= i < |links| => (links[i].0, links[i].1.href));
    FlattenLinksFacts(links, pairs);
    Build(pairs)
  }

  lemma {:induction false} FlattenLinksFacts(links: seq<(string, Link)>, pairs: seq<(string, string)>)
    requires |pairs| == |links|
    requires forall i :: 0 <= i < |links| ==> pairs[i] == (links[i].0, links[i].1.href)
    ensures var m := Build(pairs);
      && (forall rel :: rel in m <==> exists i :: 0 <= i < |links| && links[i].0 == rel)
      && (forall rel :: rel in m ==> exists i :: 0 <= i < |links| && links[i] == (rel, Link(m[rel])))
      && (DistinctKeys(links) ==>
            forall i :: 0 <= i < |links| ==> links[i].0 in m && m[links[i].0] == links[i].1.href)
  {
    var m := Build(pairs);
    forall rel | rel in m
      ensures exists i :: 0 <= i < |links| && links[i] == (rel, Link(m[rel]))
    {
      var i :| 0 <= i < |pairs| && pairs[i] == (rel, m[rel])
               && forall j :: i < j < |pairs| ==> pairs[j].0 != rel;
      assert links[i] == (rel, Link(m[rel]));
    }
    forall rel | exists i :: 0 <= i < |links| && links[i].0 == rel
      ensures rel in m
    {
      var i :| 0 <= i < |links| && links[i].0 == rel;
      assert pairs[i].0 == rel;
    }
    if DistinctKeys(links) {
      forall i | 0 <= i < |links|
        ensures links[i].0 in m && m[links[i].0] == links[i].1.href
      {
        BuildDistinct(pairs, i);
      }
    }
  }

  /** The whole constructor; `descriptorFor` stands for the descriptor
      request, which is only made once the arguments resolve. */
  function Construct(dir: Directory, id: Arg, name: Arg, descriptorFor: string -> Descriptor): (r: Result<Park, ResolveError>)
    ensures r.Failure? <==> Resolve(dir, id, name).Failure?
    ensures r.Failure? ==> r.error == Resolve(dir, id, name).error
    ensures r.Success? ==>
      var p := r.value;
      var d := descriptorFor(p.id);
      && Resolve(dir, id, name) == Success(Resolved(p.name, p.id))
      && p.longId == d.longId && p.kind == d.kind && p.contentType == d.contentType
      && p.subType == d.subType && p.advisories == d.advisories && p.webLink == d.wdwDetail.href
      && p.links == FlattenLinks(d.links)
  {
    match Resolve(dir, id, name)
    case Failure(e) => Failure(e)
    case Success(resolved) =>
      var d := descriptorFor(resolved.id);
      Success(Park(resolved.name, resolved.id, d.longId, d.kind, d.contentType, d.subType,
                   d.advisories, d.wdwDetail.href, FlattenLinks(d.links)))
  }

  /** A rejected construction never depends on the descriptor request: it
      fails the same way whatever that request would have returned. */
  lemma FailsBeforeFetch(dir: Directory, id: Arg, name: Arg, f: string -> Descriptor, g: string -> Descriptor)
    requires Construct(dir, id, name, f).Failure?
    ensures Construct(dir, id, name, g) == Construct(dir, id, name, f)
  {
  }

  /** The descriptor that is fetched is the one for the resolved id, so a
      park constructed by name equals the park constructed by its id. */
  lemma ConstructByNameSameAsById(dir: Directory, name: string, f: string -> Descriptor)
    requires Lookup(dir, name).Some?
    ensures Construct(dir, Absent, Str(name), f) == Construct(dir, Str(Lookup(dir, name).value), Absent, f)
  {
    ByNameSameAsById(dir, name);
  }
}
