/** ContentHandler: routes node created/updated/deleted events to the AI
    service once the initial sync is complete, and queues them before. */
module ContentHandler {
  import opened Common
  import opened RepoEvents
  import opened SharedConfig
  import opened Filters
  import AlfrescoClient

  /** The remote side's answers for one handled event: whether the dispatched
      AI call (upload or delete) succeeds, and whether updateTime succeeds. */
  datatype Replies = Replies(dispatchOk: bool, updateTimeOk: bool)

  /** A handler call's effect on the shared state and how it ended. */
  datatype Step = Step(state: SyncState, outcome: Outcome)

  /** initialize: the tracked folders are the sync-aspect folder search's
      ids; a failed search (`None`) is a fatal IllegalStateException. */
  function Initialize(search: Option<seq<AlfrescoClient.Hit>>): (r: Result<seq<string>, Exception>)
    ensures search.None? <==> r == Err(IllegalState)
    ensures search.Some? ==> r.Ok? && |r.value| == |search.value|
                             && forall i :: 0 <= i < |r.value| ==> r.value[i] == search.value[i].id
  {
    match search
    case None => Err(IllegalState)
    case Some(rows) => Ok(AlfrescoClient.GetSyncFolders(rows))
  }

  /** After initialization every folder the search found is watched: a node
      event below it passes the content filter, and the filter exists
      exactly when the search found some folder. */
  lemma InitializedFoldersAreWatched(rows: seq<AlfrescoClient.Hit>, i: nat, c: Event)
    requires i < |rows|
    requires c.nodeEvent && ExtractNode(c).Some? && rows[i].id in ExtractNode(c).value.hierarchy
    ensures Initialize(Some(rows)).Ok?
    ensures var folders := Initialize(Some(rows)).value;
            GetEventFilter(folders).Ok? && ParentFolderTest(folders, c)
  {
    var folders := Initialize(Some(rows)).value;
    assert folders[i] == rows[i].id;
  }

  /** addFolder: appends the id. */
  function AddFolder(folders: seq<string>, id: string): (r: seq<string>)
    ensures id in r
    ensures forall x :: x in r <==> x in folders || x == id
    ensures |r| == |folders| + 1 && r[..|folders|] == folders
  {
    folders + [id]
  }

  /** removeFolder as written: it appends the id, exactly like addFolder. */
  function RemoveFolder(folders: seq<string>, id: string): (r: seq<string>)
    ensures id in r
    ensures |r| == |folders| + 1 && r[..|folders|] == folders && r[|folders|] == id
  {
    folders + [id]
  }

  /** The removal defect: removing a tracked folder leaves it tracked and
      duplicates it. */
  lemma RemoveFolderKeepsFolder()
    ensures RemoveFolder(["f"], "f") == ["f", "f"]
    ensures RemoveFolderIntended(["f"], "f") == []
  {
  }

  /** removeFolder as evidently intended: every occurrence of the id goes,
      all other ids stay in order. */
  function RemoveFolderIntended(folders: seq<string>, id: string): (r: seq<string>)
    ensures id !in r
    ensures forall x :: x in r <==> x in folders && x != id
    ensures |r| <= |folders|
    decreases |folders|
  {
    if |folders| == 0 then []
    else
      var rest := RemoveFolderIntended(folders[1..], id);
      assert forall x :: x in folders <==> x == folders[0] || x in folders[1..];
      if folders[0] == id then rest else [folders[0]] + rest
  }

  /** getEventFilter: a ParentFolderFilter over the list itself; an empty
      list is an IllegalStateException. */
  function GetEventFilter(folders: seq<string>): (r: Result<EventFilter, Exception>)
    ensures r.Ok? <==> |folders| > 0
    ensures r.Err? ==> r.error == IllegalState
    ensures r.Ok? ==> r.value.ParentFolder? && r.value.ids == folders
  {
    if |folders| == 0 then Err(IllegalState) else Ok(ParentFolder(folders))
  }

  /** getSyncFolderId: the first hierarchy entry that is tracked, or "". */
  function SyncFolderId(hierarchy: seq<string>, folders: seq<string>): (r: string)
    ensures (forall x :: x in hierarchy ==> x !in folders) ==> r == ""
    ensures (exists x :: x in hierarchy && x in folders) ==>
              exists k :: 0 <= k < |hierarchy| && hierarchy[k] == r && r in folders
                          && forall j :: 0 <= j < k ==> hierarchy[j] !in folders
    decreases |hierarchy|
  {
    if |hierarchy| == 0 then ""
    else if hierarchy[0] in folders then hierarchy[0]
    else
      var r := SyncFolderId(hierarchy[1..], folders);
      assert forall x :: x in hierarchy[1..] ==> x in hierarchy;
      assert forall x :: x in hierarchy && x != hierarchy[0] ==> x in hierarchy[1..];
      assert forall j :: 1 <= j < |hierarchy| ==> hierarchy[j] == hierarchy[1..][j - 1];
      r
  }

  /** The position, in the hierarchy, of its first tracked entry; -1 when no
      entry is tracked (IntStream.range(...).filter(...).findFirst().orElse(-1)). */
  function FirstTrackedIndex(hierarchy: seq<string>, folders: seq<string>): (r: int)
    ensures -1 <= r < |hierarchy|
    ensures r == -1 <==> forall x :: x in hierarchy ==> x !in folders
    ensures r >= 0 ==> hierarchy[r] in folders && forall j :: 0 <= j < r ==> hierarchy[j] !in folders
    decreases |hierarchy|
  {
    if |hierarchy| == 0 then -1
    else if hierarchy[0] in folders then 0
    else
      var k := FirstTrackedIndex(hierarchy[1..], folders);
      assert forall x :: x in hierarchy && x != hierarchy[0] ==> x in hierarchy[1..];
      assert forall j :: 1 <= j < |hierarchy| ==> hierarchy[j] == hierarchy[1..][j - 1];
      if k < 0 then -1 else k + 1
  }

  /** Both first-match searches find the same hierarchy entry. */
  lemma SyncFolderIdAgrees(hierarchy: seq<string>, folders: seq<string>)
    ensures FirstTrackedIndex(hierarchy, folders) >= 0 ==>
              SyncFolderId(hierarchy, folders) == hierarchy[FirstTrackedIndex(hierarchy, folders)]
  {
    var i := FirstTrackedIndex(hierarchy, folders);
    if i >= 0 {
      var r := SyncFolderId(hierarchy, folders);
      var k :| 0 <= k < |hierarchy| && hierarchy[k] == r && r in folders
               && forall j :: 0 <= j < k ==> hierarchy[j] !in folders;
      assert !(k < i) && !(i < k);
    }
  }

  /** The dispatch of processEvent: the AI calls it issues and, when it
      throws, the exception. */
  datatype Dispatch = Dispatch(calls: seq<Action>, failure: Option<Exception>)

  /** processEvent for a node resource `node` of event `e`, with
      handleUpdateEvent and handleDeleteEvent: at most one AI call. A
      creation, or an update whose prior node had content, uploads the node
      into its first tracked folder; a deletion deletes it; anything else
      issues nothing. The call throws an IOException exactly when the remote
      side fails (`!ok`); a prior resource that is not a node is a
      ClassCastException before any call. */
  function ProcessEvent(folders: seq<string>, e: Event, node: Resource, ok: bool): (d: Dispatch)
    requires node.NodeRes?
    ensures |d.calls| <= 1
    ensures |d.calls| == 1 <==> WantsUpload(e) || e.kind == Deleted
    ensures WantsUpload(e) ==> d.calls == [Upload(node.id, SyncFolderId(node.hierarchy, folders), node.name)]
    ensures e.kind == Deleted ==> d.calls == [DeleteDoc(node.id)]
    ensures d.failure == Some(ClassCast) <==> e.kind == Updated && e.before == Some(OtherRes)
    ensures d.failure == Some(IOFailure) <==> |d.calls| == 1 && !ok
    ensures d.failure.None? || d.failure == Some(ClassCast) || d.failure == Some(IOFailure)
  {
    var upload := Upload(node.id, SyncFolderId(node.hierarchy, folders), node.name);
    match e.kind
    case Created => Dispatch([upload], if ok then None else Some(IOFailure))
    case Updated =>
      (match e.before
       case None => Dispatch([], None)
       case Some(OtherRes) => Dispatch([], Some(ClassCast))
       case Some(before) =>
         if before.hasContent then Dispatch([upload], if ok then None else Some(IOFailure))
         else Dispatch([], None))
    case Deleted => Dispatch([DeleteDoc(node.id)], if ok then None else Some(IOFailure))
    case Other => Dispatch([], None)
  }

  /** The folder updateTime is called on after a dispatch that did not throw,
      as written: the hierarchy POSITION of the first tracked entry is used as
      an index into the folder LIST. `None` is the IndexOutOfBoundsException
      of `folderIdsList.get(index)`. */
  function UpdateTimeTarget(hierarchy: seq<string>, folders: seq<string>): (r: Option<string>)
    ensures r.Some? <==> 0 <= FirstTrackedIndex(hierarchy, folders) < |folders|
    ensures r.Some? ==> r.value == folders[FirstTrackedIndex(hierarchy, folders)] && r.value in folders
  {
    var i := FirstTrackedIndex(hierarchy, folders);
    if 0 <= i < |folders| then Some(folders[i]) else None
  }

  /** The indexing defect: a document two levels below the root of a tracked
      folder makes the lookup fail although the folder is tracked, and with a
      longer list it refreshes a folder the document is not in. */
  lemma UpdateTimeTargetUsesWrongList()
    ensures UpdateTimeTarget(["root", "f"], ["f"]).None?
    ensures UpdateTimeTarget(["root", "f"], ["f", "g"]) == Some("g")
    ensures UpdateTimeTargetIntended(["root", "f"], ["f"]) == Some("f")
    ensures UpdateTimeTargetIntended(["root", "f"], ["f", "g"]) == Some("f")
  {
  }

  /** The evidently intended target: the first tracked hierarchy entry itself,
      that is, the folder getSyncFolderId names. */
  function UpdateTimeTargetIntended(hierarchy: seq<string>, folders: seq<string>): (r: Option<string>)
    ensures r.None? <==> forall x :: x in hierarchy ==> x !in folders
    ensures r.Some? ==> r.value in folders && r.value in hierarchy
                        && r.value == SyncFolderId(hierarchy, folders)
  {
    var i := FirstTrackedIndex(hierarchy, folders);
    SyncFolderIdAgrees(hierarchy, folders);
    if i >= 0 then Some(hierarchy[i]) else None
  }

  /** What handleEvent does to an event once the initial sync is complete:
      the calls it issues and how it ends. */
  datatype Live = Live(calls: seq<Action>, outcome: Outcome)

  function LiveStep(folders: seq<string>, e: Event, rep: Replies): (r: Live)
    ensures ExtractNode(e).None? ==> r == Live([], Thrown(IllegalArgument))
    ensures r.outcome.Thrown? && r.outcome.ex != IllegalArgument ==> r.outcome.ex.Runtime?
  {
    match ExtractNode(e)
    case None => Live([], Thrown(IllegalArgument))
    case Some(node) =>
      var d := ProcessEvent(folders, e, node, rep.dispatchOk);
      if d.failure.Some? then Live(d.calls, Thrown(Runtime(d.failure.value)))
      else match UpdateTimeTarget(node.hierarchy, folders)
        case None => Live(d.calls, Thrown(Runtime(IndexOutOfBounds)))
        case Some(f) =>
          Live(d.calls + [UpdateTime(f, false)],
               if rep.updateTimeOk then Done else Thrown(Runtime(RemoteFailure)))
  }

  /** handleEvent. A non-node resource is rejected before the flag is read.
      Before the initial sync completes the event is queued and nothing else
      happens; afterwards it is dispatched and nothing is queued. */
  function HandleEvent(s: SyncState, e: Event, rep: Replies): (r: Step)
    ensures ExtractNode(e).None? ==> r == Step(s, Thrown(IllegalArgument))
    ensures ExtractNode(e).Some? && !s.complete ==>
              r.state == s.(queue := Offer(s.queue, e)) && r.outcome == Done
    ensures s.complete ==> r.state == s.(trace := s.trace + LiveStep(s.folders, e, rep).calls)
                           && r.outcome == LiveStep(s.folders, e, rep).outcome
  {
    if ExtractNode(e).None? then Step(s, Thrown(IllegalArgument))
    else if s.complete then
      var live := LiveStep(s.folders, e, rep);
      Step(s.(trace := s.trace + live.calls), live.outcome)
    else Step(s.(queue := Offer(s.queue, e)), Done)
  }

  /** The number of upload calls in a call sequence. */
  function CountUploads(calls: seq<Action>): nat
    decreases |calls|
  {
    if |calls| == 0 then 0 else (if calls[0].Upload? then 1 else 0) + CountUploads(calls[1..])
  }

  /** Whether the code uploads for this event: it is a creation, or an update
      whose prior resource is a node that already had content. */
  predicate WantsUpload(e: Event) {
    || e.kind == Created
    || (e.kind == Updated && e.before.Some? && e.before.value.NodeRes? && e.before.value.hasContent)
  }

  /** The number of delete calls in a call sequence. */
  function CountDeletes(calls: seq<Action>): nat
    decreases |calls|
  {
    if |calls| == 0 then 0 else (if calls[0].DeleteDoc? then 1 else 0) + CountDeletes(calls[1..])
  }

  lemma {:induction false} CountDeletesAdd(a: seq<Action>, b: seq<Action>)
    ensures CountDeletes(a + b) == CountDeletes(a) + CountDeletes(b)
    decreases |a|
  {
    if |a| == 0 {
      assert a + b == b;
    } else {
      assert (a + b)[1..] == a[1..] + b;
      CountDeletesAdd(a[1..], b);
    }
  }

  /** Live dispatch by kind: exactly one upload, of the node into its first
      tracked folder, when `WantsUpload`, and none otherwise; exactly one
      delete, of the node itself, for a deletion, and none otherwise. */
  lemma LiveDispatchByKind(folders: seq<string>, e: Event, rep: Replies)
    requires ExtractNode(e).Some?
    ensures var calls := LiveStep(folders, e, rep).calls;
            var node := ExtractNode(e).value;
            && CountUploads(calls) == (if WantsUpload(e) then 1 else 0)
            && (WantsUpload(e) ==> calls[0] == Upload(node.id, SyncFolderId(node.hierarchy, folders), node.name))
            && CountDeletes(calls) == (if e.kind == Deleted then 1 else 0)
            && (forall a :: a in calls && a.DeleteDoc? ==> a.docId == node.id)
  {
    var node := ExtractNode(e).value;
    var d := ProcessEvent(folders, e, node, rep.dispatchOk);
    var calls := LiveStep(folders, e, rep).calls;
    var tail := calls[|d.calls|..];
    assert calls == d.calls + tail;
    assert tail == [] || (|tail| == 1 && tail[0].UpdateTime?);
    CountUploadsAdd(d.calls, tail);
    CountDeletesAdd(d.calls, tail);
  }

  lemma {:induction false} CountUploadsAdd(a: seq<Action>, b: seq<Action>)
    ensures CountUploads(a + b) == CountUploads(a) + CountUploads(b)
    decreases |a|
  {
    if |a| == 0 {
      assert a + b == b;
    } else {
      assert (a + b)[1..] == a[1..] + b;
      CountUploadsAdd(a[1..], b);
    }
  }

  /** updateTime follows only a dispatch that did not throw, and then it is
      the last call, on the folder the as-written index lookup names. */
  lemma UpdateTimeOnlyAfterDispatch(folders: seq<string>, e: Event, rep: Replies)
    requires ExtractNode(e).Some?
    ensures var node := ExtractNode(e).value;
            var d := ProcessEvent(folders, e, node, rep.dispatchOk);
            var live := LiveStep(folders, e, rep);
            && (d.failure.Some? ==> live.calls == d.calls && forall a :: a in live.calls ==> !a.UpdateTime?)
            && (d.failure.None? && UpdateTimeTarget(node.hierarchy, folders).Some? ==>
                  live.calls == d.calls + [UpdateTime(UpdateTimeTarget(node.hierarchy, folders).value, false)])
            && (d.failure.None? && UpdateTimeTarget(node.hierarchy, folders).None? ==>
                  live.calls == d.calls && live.outcome == Thrown(Runtime(IndexOutOfBounds)))
  {
  }

  /** An untracked hierarchy in live mode: the upload is already issued when
      the index -1 lookup throws. */
  lemma UntrackedCreateUploadsThenThrows(folders: seq<string>, id: string, name: string, rep: Replies)
    requires rep.dispatchOk
    ensures var e := Event(Created, true, Some(NodeRes(id, name, [], {}, true)), None);
            LiveStep(folders, e, rep) == Live([Upload(id, "", name)], Thrown(Runtime(IndexOutOfBounds)))
  {
  }

  /** Event types the handler subscribes to (getHandledEventTypes). */
  predicate Subscribed(k: EventKind) {
    k != Other
  }

  /** Delivery through the SDK: the handler runs only for subscribed event
      types that pass its filter, evaluated against the current folder list
      (the filter holds a reference to that list). Delivery never changes
      the folder list or the flag; an event the filter lets through before
      the flag is set is queued and never fails; afterwards it issues its
      live calls and is not queued. */
  function DeliverToContentHandler(s: SyncState, e: Event, rep: Replies): (r: Step)
    ensures r.state.folders == s.folders && r.state.complete == s.complete
    ensures !Subscribed(e.kind) || !ParentFolderTest(s.folders, e) ==> r == Step(s, Done)
    ensures Subscribed(e.kind) && ParentFolderTest(s.folders, e) && !s.complete ==>
              r == Step(s.(queue := s.queue + [e]), Done)
    ensures Subscribed(e.kind) && ParentFolderTest(s.folders, e) && s.complete ==>
              r.state.queue == s.queue && r.state.trace == s.trace + LiveStep(s.folders, e, rep).calls
              && r.outcome != Thrown(IllegalArgument)
  {
    if Subscribed(e.kind) && ParentFolderTest(s.folders, e) then HandleEvent(s, e, rep) else Step(s, Done)
  }

  /** Queue-before-live: before the flag is set, delivery issues no call and
      changes nothing but the queue, where the event is appended when it
      passes the filter. */
  lemma QueueBeforeLive(s: SyncState, e: Event, rep: Replies)
    requires !s.complete
    ensures var r := DeliverToContentHandler(s, e, rep).state;
            && r.trace == s.trace && r.folders == s.folders && !r.complete
            && (r.queue == s.queue || r.queue == s.queue + [e])
            && (r.queue == s.queue + [e] <==> Subscribed(e.kind) && ParentFolderTest(s.folders, e))
  {
  }

  /** Once the flag is set, delivery never queues: the queue, the folder list
      and the flag stay as they are. */
  lemma LiveNeverQueues(s: SyncState, e: Event, rep: Replies)
    requires s.complete
    ensures var r := DeliverToContentHandler(s, e, rep).state;
            r.queue == s.queue && r.folders == s.folders && r.complete
  {
  }
}
