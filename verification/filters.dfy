/** The two event filters: ParentFolderFilter (hierarchy membership) and
    AspectFilter (an aspect newly attached). */
module Filters {
  import opened Common
  import opened RepoEvents

  /** A filter object. `ParentFolder` holds the caller's folder list itself:
      the Java filter keeps a reference to that list, so in a state-based model
      it is always built from the current list (see ContentHandler). */
  datatype EventFilter = ParentFolder(ids: seq<string>) | AspectAdded(aspect: string)

  /** `stream().anyMatch(ids::contains)` over a hierarchy, scanned left to right. */
  function AnyTracked(hierarchy: seq<string>, ids: seq<string>): (r: bool)
    ensures r <==> exists i :: 0 <= i < |hierarchy| && hierarchy[i] in ids
    decreases |hierarchy|
  {
    if |hierarchy| == 0 then false
    else if hierarchy[0] in ids then true
    else
      var rest := AnyTracked(hierarchy[1..], ids);
      assert forall i :: 1 <= i < |hierarchy| ==> hierarchy[i] == hierarchy[1..][i - 1];
      rest
  }

  /** ParentFolderFilter.test: a node event whose node has some primary
      hierarchy entry in `ids`. Missing data, a missing resource or a
      non-node resource give false; it never fails. */
  function ParentFolderTest(ids: seq<string>, e: Event): (r: bool)
    ensures r <==> e.nodeEvent && ExtractNode(e).Some?
                   && exists x :: x in ExtractNode(e).value.hierarchy && x in ids
  {
    if !e.nodeEvent then false
    else match ExtractNode(e)
      case None => false
      case Some(node) => AnyTracked(node.hierarchy, ids)
  }

  /** The answer depends only on which ids the hierarchy contains, not on
      their order or repetition. */
  lemma ParentFolderTestIgnoresOrder(ids: seq<string>, e1: Event, e2: Event)
    requires e1.nodeEvent == e2.nodeEvent
    requires ExtractNode(e1).Some? && ExtractNode(e2).Some?
    requires forall x :: x in ExtractNode(e1).value.hierarchy <==> x in ExtractNode(e2).value.hierarchy
    ensures ParentFolderTest(ids, e1) == ParentFolderTest(ids, e2)
  {
  }

  /** A node under no tracked folder never passes: an empty (or null)
      hierarchy in particular is rejected. */
  lemma UntrackedNeverPasses(ids: seq<string>, e: Event)
    requires ExtractNode(e).Some?
    requires forall x :: x in ExtractNode(e).value.hierarchy ==> x !in ids
    ensures !ParentFolderTest(ids, e)
  {
  }

  /** AspectFilter.test as written: both resources are cast to NodeResource
      without a type check, so a non-node resource (current or prior) is a
      ClassCastException rather than `false`. */
  function AspectTest(aspect: string, e: Event): (r: Result<bool, Exception>)
    ensures r.Err? <==> (e.before.Some? && e.before.value.OtherRes?)
                        || (e.resource.Some? && e.resource.value.OtherRes?)
    ensures r.Err? ==> r.error == ClassCast
    ensures r.Ok? ==> (r.value <==> HasAspect(e.resource, aspect) && !HasAspect(e.before, aspect))
  {
    if e.before.Some? && e.before.value.OtherRes? then Err(ClassCast)
    else if e.resource.Some? && e.resource.value.OtherRes? then Err(ClassCast)
    else
      var existedBefore := e.before.Some? && aspect in e.before.value.aspects;
      var hasNow := e.resource.Some? && aspect in e.resource.value.aspects;
      Ok(hasNow && !existedBefore)
  }

  /** AspectFilter, corrected: a resource that is not a node counts as not
      carrying the aspect, as ParentFolderFilter treats it. */
  function AspectTestFailClosed(aspect: string, e: Event): (r: bool)
    ensures r <==> HasAspect(e.resource, aspect) && !HasAspect(e.before, aspect)
  {
    var existedBefore := e.before.Some? && e.before.value.NodeRes? && aspect in e.before.value.aspects;
    var hasNow := e.resource.Some? && e.resource.value.NodeRes? && aspect in e.resource.value.aspects;
    hasNow && !existedBefore
  }

  /** The fail-closed filter agrees with the code wherever the code does not
      throw, and answers `false` where the current resource is not a node. */
  lemma AspectTestFailClosedAgrees(aspect: string, e: Event)
    ensures AspectTest(aspect, e).Ok? ==> AspectTest(aspect, e).value == AspectTestFailClosed(aspect, e)
    ensures e.resource.Some? && e.resource.value.OtherRes? ==> !AspectTestFailClosed(aspect, e)
  {
  }

  /** The cast defect: a node that gains the aspect while its prior resource is
      not a node resource makes the filter throw, where a fail-closed filter
      would accept the event. */
  lemma AspectTestThrowsOnForeignPrior()
    ensures var e := Event(Updated, true, Some(NodeRes("n", "f", [], {"ai:sync"}, false)), Some(OtherRes));
            AspectTest("ai:sync", e) == Err(ClassCast) && AspectTestFailClosed("ai:sync", e)
  {
  }

  /** No re-trigger: an aspect present before and after does not pass, nor
      does one that was removed; a newly attached one does. */
  lemma AspectTransitions(aspect: string, id: string, name: string, h: seq<string>, c: bool, other: set<string>)
    requires aspect !in other
    ensures AspectTest(aspect, Event(Updated, true, Some(NodeRes(id, name, h, other + {aspect}, c)),
                                     Some(NodeRes(id, name, h, other + {aspect}, c)))) == Ok(false)
    ensures AspectTest(aspect, Event(Updated, true, Some(NodeRes(id, name, h, other, c)),
                                     Some(NodeRes(id, name, h, other + {aspect}, c)))) == Ok(false)
    ensures AspectTest(aspect, Event(Updated, true, Some(NodeRes(id, name, h, other + {aspect}, c)),
                                     Some(NodeRes(id, name, h, other, c)))) == Ok(true)
    ensures AspectTest(aspect, Event(Created, true, Some(NodeRes(id, name, h, other + {aspect}, c)), None)) == Ok(true)
    ensures AspectTest(aspect, Event(Created, true, None, None)) == Ok(false)
  {
  }

  /** Filter.test for either kind of filter object. A parent-folder filter
      never fails and accepts node events below a listed folder; an aspect
      filter fails, with a ClassCastException, exactly when the current or
      the prior resource is not a node, and otherwise accepts the events
      that newly attach the aspect. */
  function Test(f: EventFilter, e: Event): (r: Result<bool, Exception>)
    ensures r.Err? <==> f.AspectAdded? && ((e.before.Some? && e.before.value.OtherRes?)
                                           || (e.resource.Some? && e.resource.value.OtherRes?))
    ensures r.Err? ==> r.error == ClassCast
    ensures r.Ok? && f.ParentFolder? ==>
              (r.value <==> e.nodeEvent && ExtractNode(e).Some?
                            && exists x :: x in ExtractNode(e).value.hierarchy && x in f.ids)
    ensures r.Ok? && f.AspectAdded? ==>
              (r.value <==> HasAspect(e.resource, f.aspect) && !HasAspect(e.before, f.aspect))
  {
    match f
    case ParentFolder(ids) => Ok(ParentFolderTest(ids, e))
    case AspectAdded(a) => AspectTest(a, e)
  }

  /** The fail-closed reading of either filter: it never fails. */
  function Accepts(f: EventFilter, e: Event): (r: bool)
    ensures f.ParentFolder? ==> (r <==> ParentFolderTest(f.ids, e))
    ensures f.AspectAdded? ==> (r <==> HasAspect(e.resource, f.aspect) && !HasAspect(e.before, f.aspect))
  {
    match f
    case ParentFolder(ids) => ParentFolderTest(ids, e)
    case AspectAdded(a) => AspectTestFailClosed(a, e)
  }

  /** Wherever Filter.test answers, it agrees with the fail-closed reading;
      it fails only on an event with a foreign resource, which the
      fail-closed reading rejects when it is the current one. */
  lemma TestAgreesWithAccepts(f: EventFilter, e: Event)
    ensures Test(f, e).Ok? ==> Test(f, e).value == Accepts(f, e)
    ensures Test(f, e).Err? && e.resource.Some? && e.resource.value.OtherRes? ==> !Accepts(f, e)
  {
  }
}
