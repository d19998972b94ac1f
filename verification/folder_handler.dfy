/** FolderHandler: keeps ContentHandler's folder list up to date from events
    on folders that gain the sync aspect, and cascades folder deletions to
    the AI service. */
module FolderHandler {
  import opened Common
  import opened RepoEvents
  import opened SharedConfig
  import opened Filters
  import ContentHandler

  /** handleEvent. The resource is cast without a check: a missing one is a
      NullPointerException and a non-node one a ClassCastException. An
      IOException from deleteDocumentsFromFolder is logged and swallowed, so
      the cascade call is recorded and the handler completes whether or not
      the AI service fails; that failure therefore has no parameter here. */
  function HandleFolderEvent(s: SyncState, e: Event): (r: ContentHandler.Step)
    ensures e.resource.None? ==> r == ContentHandler.Step(s, Thrown(NullPointer))
    ensures e.resource.Some? && e.resource.value.OtherRes? ==> r == ContentHandler.Step(s, Thrown(ClassCast))
    ensures e.resource.Some? && e.resource.value.NodeRes? ==> r.outcome == Done
    // everything but the folder list and the trace is left alone
    ensures r.state.complete == s.complete && r.state.queue == s.queue
  {
    match e.resource
    case None => ContentHandler.Step(s, Thrown(NullPointer))
    case Some(OtherRes) => ContentHandler.Step(s, Thrown(ClassCast))
    case Some(node) =>
      match e.kind
      case Created => ContentHandler.Step(s.(folders := ContentHandler.AddFolder(s.folders, node.id)), Done)
      case Updated => ContentHandler.Step(s.(folders := ContentHandler.AddFolder(s.folders, node.id)), Done)
      case Deleted =>
        ContentHandler.Step(s.(folders := ContentHandler.RemoveFolder(s.folders, node.id),
                               trace := s.trace + [DeleteFolderDocs(node.id)]), Done)
      case Other => ContentHandler.Step(s, Done)
  }

  /** Folder lifecycle: a creation or update tracks the folder and issues no
      call; a deletion first updates the list (as written, by appending), then
      issues exactly one cascade delete;
      another type changes nothing. */
  lemma FolderLifecycle(s: SyncState, e: Event)
    requires ExtractNode(e).Some?
    ensures var id := ExtractNode(e).value.id;
            var r := HandleFolderEvent(s, e);
            && (e.kind == Created || e.kind == Updated ==>
                  id in r.state.folders && r.state.trace == s.trace && |r.state.folders| == |s.folders| + 1)
            && (e.kind == Deleted ==>
                  r.state.trace == s.trace + [DeleteFolderDocs(id)] && id in r.state.folders)
            && (e.kind == Other ==> r.state == s)
  {
  }

  /** The folder registry is maintained whether or not the initial sync is
      complete: the flag plays no part. */
  lemma FolderEventsIgnoreFlag(s: SyncState, e: Event)
    ensures HandleFolderEvent(s.(complete := !s.complete), e).state
            == HandleFolderEvent(s, e).state.(complete := !s.complete)
  {
  }

  /** getEventFilter: an AspectFilter on the configured sync aspect. */
  function GetEventFilter(syncAspect: string): (f: EventFilter)
    ensures f.AspectAdded? && f.aspect == syncAspect
  {
    AspectAdded(syncAspect)
  }

  /** Delivery through the SDK: subscribed event types whose AspectFilter
      answers true reach the handler; a filter that throws propagates. */
  function DeliverToFolderHandler(s: SyncState, syncAspect: string, e: Event): (r: ContentHandler.Step)
    ensures AspectTest(syncAspect, e).Err? ==> r == ContentHandler.Step(s, Thrown(ClassCast))
    ensures AspectTest(syncAspect, e) == Ok(false) ==> r == ContentHandler.Step(s, Done)
    ensures AspectTest(syncAspect, e).Ok? && !ContentHandler.Subscribed(e.kind) ==> r == ContentHandler.Step(s, Done)
    ensures AspectTest(syncAspect, e) == Ok(true) && ContentHandler.Subscribed(e.kind) ==>
              r == HandleFolderEvent(s, e)
  {
    match Test(GetEventFilter(syncAspect), e)
    case Err(ex) => ContentHandler.Step(s, Thrown(ex))
    case Ok(pass) =>
      if pass && ContentHandler.Subscribed(e.kind) then HandleFolderEvent(s, e)
      else ContentHandler.Step(s, Done)
  }

  /** A folder that newly gains the sync aspect is tracked, and from then on
      content events below it pass ContentHandler's filter: the filter reads
      the same list the folder handler appended to. */
  lemma NewSyncFolderIsSeenByContentFilter(s: SyncState, syncAspect: string, e: Event, c: Event)
    requires e.kind == Created || e.kind == Updated
    requires ExtractNode(e).Some? && syncAspect in ExtractNode(e).value.aspects
    requires e.before.None? || (e.before.value.NodeRes? && syncAspect !in e.before.value.aspects)
    requires c.nodeEvent && ExtractNode(c).Some? && ExtractNode(e).value.id in ExtractNode(c).value.hierarchy
    ensures var r := DeliverToFolderHandler(s, syncAspect, e);
            r.outcome == Done && ParentFolderTest(r.state.folders, c)
  {
  }
}
