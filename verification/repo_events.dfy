/** Repository events as delivered by the Alfresco event SDK. */
module RepoEvents {
  import opened Common

  /** The three node event types the handlers subscribe to; every other type is `Other`. */
  datatype EventKind = Created | Updated | Deleted | Other

  /** The resource carried by an event. A `NodeRes` is a repository node:
      `hierarchy` is its primary hierarchy (ancestor folder ids), `aspects`
      its aspect names and `hasContent` whether its content info is non-null. */
  datatype Resource =
    | NodeRes(id: string, name: string, hierarchy: seq<string>, aspects: set<string>, hasContent: bool)
    | OtherRes

  /** A repository event. `nodeEvent` is the SDK's own classification of the
      event type as a node event; `resource` and `before` are the current and
      prior resource, `None` when the event data or the resource is null. */
  datatype Event = Event(kind: EventKind, nodeEvent: bool, resource: Option<Resource>, before: Option<Resource>)

  /** The current resource when it is a node, as ContentHandler.extractNodeResource does. */
  function ExtractNode(e: Event): (r: Option<Resource>)
    ensures r.Some? <==> e.resource.Some? && e.resource.value.NodeRes?
    ensures r.Some? ==> r.value == e.resource.value && r.value.NodeRes?
  {
    match e.resource
    case Some(NodeRes(_, _, _, _, _)) => e.resource
    case _ => None
  }

  /** Whether `r` is present and a node resource carrying `aspect`. */
  predicate HasAspect(r: Option<Resource>, aspect: string) {
    r.Some? && r.value.NodeRes? && aspect in r.value.aspects
  }
}
