/** App: the start-up sequence. The initial sync runs over every selected
    folder, then the completion flag is set, then the events queued in the
    meantime are drained. Run sequentially: the thread pool's workers handle
    the drained events one after another in queue order. */
module App {
  import opened Common
  import opened RepoEvents
  import opened SharedConfig
  import AlfrescoClient
  import ContentHandler
  import Filters

  /** The calls issued by handling `events` one after another with `step`;
      `replies[i]` is the remote side's answers for `events[i]`. */
  function Sequenced<E, R>(step: (E, R) -> seq<Action>, events: seq<E>, replies: seq<R>): seq<Action>
    requires |replies| == |events|
    decreases |events|
  {
    if |events| == 0 then []
    else
      var n := |events| - 1;
      Sequenced(step, events[..n], replies[..n]) + step(events[n], replies[n])
  }

  lemma {:induction false} SequencedAdd<E, R>(step: (E, R) -> seq<Action>, a: seq<E>, ra: seq<R>, b: seq<E>, rb: seq<R>)
    requires |ra| == |a| && |rb| == |b|
    ensures Sequenced(step, a + b, ra + rb) == Sequenced(step, a, ra) + Sequenced(step, b, rb)
    decreases |b|
  {
    if |b| == 0 {
      assert a + b == a && ra + rb == ra;
    } else {
      var n := |b| - 1;
      assert (a + b)[..|a + b| - 1] == a + b[..n];
      assert (ra + rb)[..|ra + rb| - 1] == ra + rb[..n];
      SequencedAdd(step, a, ra, b[..n], rb[..n]);
    }
  }

  /** The calls issued by handling `events` in live mode, one after another. */
  function DrainCalls(folders: seq<string>, events: seq<Event>, replies: seq<ContentHandler.Replies>): seq<Action>
    requires |replies| == |events|
  {
    Sequenced((e: Event, rep: ContentHandler.Replies) => ContentHandler.LiveStep(folders, e, rep).calls, events, replies)
  }

  /** Failure isolation: handling one batch of drained events issues the same
      calls whatever happened to the events drained before it. */
  lemma DrainCallsAdd(folders: seq<string>, a: seq<Event>, ra: seq<ContentHandler.Replies>,
                      b: seq<Event>, rb: seq<ContentHandler.Replies>)
    requires |ra| == |a| && |rb| == |b|
    ensures DrainCalls(folders, a + b, ra + rb) == DrainCalls(folders, a, ra) + DrainCalls(folders, b, rb)
  {
    SequencedAdd((e: Event, rep: ContentHandler.Replies) => ContentHandler.LiveStep(folders, e, rep).calls, a, ra, b, rb);
  }

  lemma DrainCallsStep(folders: seq<string>, events: seq<Event>, replies: seq<ContentHandler.Replies>, i: nat)
    requires |replies| == |events| && i < |events|
    ensures DrainCalls(folders, events[..i + 1], replies[..i + 1])
            == DrainCalls(folders, events[..i], replies[..i]) + ContentHandler.LiveStep(folders, events[i], replies[i]).calls
  {
    assert events[..i + 1][..i] == events[..i];
    assert replies[..i + 1][..i] == replies[..i];
  }

  /** processEventQueue and handleEvent: poll until the queue is empty and
      submit each polled event once; a handler failure is caught. Because the
      flag is set, no handled event is queued again. */
  method ProcessEventQueue(s: SyncState, replies: seq<ContentHandler.Replies>)
    returns (r: SyncState, submitted: seq<Event>)
    requires s.complete
    requires |replies| == |s.queue|
    ensures submitted == s.queue
    ensures r.queue == [] && r.complete && r.folders == s.folders
    ensures r.trace == s.trace + DrainCalls(s.folders, s.queue, replies)
  {
    r := s;
    submitted := [];
    var i := 0;
    while Poll(r.queue).Some?
      invariant 0 <= i <= |s.queue|
      invariant r.queue == s.queue[i..]
      invariant submitted == s.queue[..i]
      invariant r.complete && r.folders == s.folders
      invariant r.trace == s.trace + DrainCalls(s.folders, s.queue[..i], replies[..i])
      decreases |r.queue|
    {
      var (event, rest) := Poll(r.queue).value;
      r := r.(queue := rest);
      var step := ContentHandler.HandleEvent(r, event, replies[i]);
      r := step.state;
      DrainCallsStep(s.folders, s.queue, replies, i);
      assert s.queue[..i + 1] == s.queue[..i] + [event];
      submitted := submitted + [event];
      i := i + 1;
    }
    assert s.queue[..i] == s.queue && replies[..i] == replies;
  }

  /** processQueuedEvents: an empty queue returns at once without creating a
      pool; otherwise a pool is created, the queue drained, and the pool shut
      down afterwards (the shutdown sits in a finally block). */
  method ProcessQueuedEvents(s: SyncState, replies: seq<ContentHandler.Replies>)
    returns (r: SyncState, poolCreated: bool)
    requires s.complete
    requires |replies| == |s.queue|
    ensures poolCreated <==> |s.queue| > 0
    ensures !poolCreated ==> r == s
    ensures poolCreated ==> r.trace == s.trace + [PoolCreated] + DrainCalls(s.folders, s.queue, replies) + [PoolShutdown]
    ensures r.queue == [] && r.complete && r.folders == s.folders
  {
    if |s.queue| == 0 {
      return s, false;
    }
    poolCreated := true;
    r := s.(trace := s.trace + [PoolCreated]);
    var submitted;
    r, submitted := ProcessEventQueue(r, replies);
    r := r.(trace := r.trace + [PoolShutdown]);
  }

  /** The updateTime calls in a call sequence. */
  function Touches(calls: seq<Action>): seq<Action>
    decreases |calls|
  {
    if |calls| == 0 then []
    else
      var n := |calls| - 1;
      Touches(calls[..n]) + (if calls[n].UpdateTime? then [calls[n]] else [])
  }

  lemma {:induction false} TouchesAdd(a: seq<Action>, b: seq<Action>)
    ensures Touches(a + b) == Touches(a) + Touches(b)
    decreases |b|
  {
    if |b| == 0 {
      assert a + b == a;
    } else {
      assert (a + b)[..|a + b| - 1] == a + b[..|b| - 1];
      TouchesAdd(a, b[..|b| - 1]);
    }
  }

  lemma {:induction false} NoTouchesInUploads(rows: seq<AlfrescoClient.Hit>)
    ensures Touches(AlfrescoClient.Uploads(rows)) == []
    decreases |rows|
  {
    if |rows| > 0 {
      var n := |rows| - 1;
      NoTouchesInUploads(rows[..n]);
      TouchesAdd(AlfrescoClient.Uploads(rows[..n]), [BackfillUpload(rows[n].id, rows[n].name)]);
      assert Touches([BackfillUpload(rows[n].id, rows[n].name)]) == [];
    }
  }

  /** Calls the initial sync may issue: backfill uploads and published updateTimes. */
  predicate BackfillCall(a: Action) {
    a.BackfillUpload? || (a.UpdateTime? && a.published)
  }

  lemma UploadsAreBackfillCalls(rows: seq<AlfrescoClient.Hit>)
    ensures forall a :: a in AlfrescoClient.Uploads(rows) ==> BackfillCall(a)
  {
    AlfrescoClient.UploadsPerRow(rows);
  }

  /** The updateTime(id, true) calls the initial sync owes the folders, in order. */
  function Published(folders: seq<AlfrescoClient.SyncFolder>): (r: seq<Action>)
    ensures |r| == |folders|
    decreases |folders|
  {
    if |folders| == 0 then []
    else Published(folders[..|folders| - 1]) + [UpdateTime(folders[|folders| - 1].id, true)]
  }

  lemma {:induction false} PublishedPerFolder(folders: seq<AlfrescoClient.SyncFolder>)
    ensures forall i :: 0 <= i < |folders| ==> Published(folders)[i] == UpdateTime(folders[i].id, true)
    decreases |folders|
  {
    if |folders| > 0 {
      var init := folders[..|folders| - 1];
      PublishedPerFolder(init);
      assert forall i :: 0 <= i < |init| ==> init[i] == folders[i];
    }
  }

  /** What the initial sync issues for one folder: an upload for every row of
      the pages its do-while fetched, then updateTime(id, true). */
  function FolderBackfill(folder: AlfrescoClient.SyncFolder, pages: seq<AlfrescoClient.Page>): seq<Action>
    requires AlfrescoClient.Stops(pages)
  {
    AlfrescoClient.Uploads(AlfrescoClient.Entries(pages[..AlfrescoClient.Fetched(pages)])) + [UpdateTime(folder.id, true)]
  }

  /** Every folder's page oracle stops. */
  predicate AllStop(pages: seq<seq<AlfrescoClient.Page>>) {
    forall i :: 0 <= i < |pages| ==> AlfrescoClient.Stops(pages[i])
  }

  /** The initial sync's calls over `folders`, folder after folder. */
  function InitialSyncTrace(folders: seq<AlfrescoClient.SyncFolder>, pages: seq<seq<AlfrescoClient.Page>>): seq<Action>
    requires |pages| == |folders| && AllStop(pages)
    decreases |folders|
  {
    if |folders| == 0 then []
    else
      var n := |folders| - 1;
      InitialSyncTrace(folders[..n], pages[..n]) + FolderBackfill(folders[n], pages[n])
  }

  lemma InitialSyncTraceStep(folders: seq<AlfrescoClient.SyncFolder>, pages: seq<seq<AlfrescoClient.Page>>, i: nat)
    requires |pages| == |folders| && AllStop(pages) && i < |folders|
    ensures AllStop(pages[..i]) && AllStop(pages[..i + 1])
    ensures InitialSyncTrace(folders[..i + 1], pages[..i + 1])
            == InitialSyncTrace(folders[..i], pages[..i]) + FolderBackfill(folders[i], pages[i])
  {
    assert folders[..i + 1][..i] == folders[..i];
    assert pages[..i + 1][..i] == pages[..i];
  }

  /** One folder's share of the initial sync: synchronizeDocuments, then
      updateTime(id, true). It uploads exactly the rows of the pages fetched
      and issues only backfill calls, ending with that folder's updateTime. */
  method SyncOneFolder(folder: AlfrescoClient.SyncFolder, maxItems: int, pages: seq<AlfrescoClient.Page>,
                       failing: set<string>)
    returns (count: nat, step: seq<Action>)
    requires folder.updatedDate.Some? && AlfrescoClient.Stops(pages)
    ensures step == AlfrescoClient.Uploads(AlfrescoClient.Entries(pages[..AlfrescoClient.Fetched(pages)]))
                    + [UpdateTime(folder.id, true)]
    ensures count == AlfrescoClient.Succeeded(AlfrescoClient.Entries(pages[..AlfrescoClient.Fetched(pages)]), failing)
    ensures forall a :: a in step ==> BackfillCall(a)
    ensures Touches(step) == [UpdateTime(folder.id, true)]
  {
    var calls, requests;
    count, calls, requests := AlfrescoClient.SynchronizeDocuments(folder, maxItems, pages, failing);
    var rows := AlfrescoClient.Entries(pages[..|requests|]);
    UploadsAreBackfillCalls(rows);
    NoTouchesInUploads(rows);
    TouchesAdd(calls, [UpdateTime(folder.id, true)]);
    step := calls + [UpdateTime(folder.id, true)];
  }

  /** What the initial sync over `folders` may have issued: only backfill
      calls, with the folders' updateTime(id, true) calls in folder order. */
  predicate InitialSyncCalls(backfill: seq<Action>, folders: seq<AlfrescoClient.SyncFolder>) {
    && (forall a :: a in backfill ==> BackfillCall(a))
    && Touches(backfill) == Published(folders)
  }

  /** One folder's calls are backfill calls with a single updateTime, its own. */
  lemma FolderBackfillCalls(folder: AlfrescoClient.SyncFolder, pages: seq<AlfrescoClient.Page>)
    requires AlfrescoClient.Stops(pages)
    ensures forall a :: a in FolderBackfill(folder, pages) ==> BackfillCall(a)
    ensures Touches(FolderBackfill(folder, pages)) == [UpdateTime(folder.id, true)]
  {
    var rows := AlfrescoClient.Entries(pages[..AlfrescoClient.Fetched(pages)]);
    UploadsAreBackfillCalls(rows);
    NoTouchesInUploads(rows);
    TouchesAdd(AlfrescoClient.Uploads(rows), [UpdateTime(folder.id, true)]);
  }

  lemma InitialSyncCallsAdd(backfill: seq<Action>, folders: seq<AlfrescoClient.SyncFolder>,
                            step: seq<Action>, folder: AlfrescoClient.SyncFolder)
    requires InitialSyncCalls(backfill, folders)
    requires forall a :: a in step ==> BackfillCall(a)
    requires Touches(step) == [UpdateTime(folder.id, true)]
    ensures InitialSyncCalls(backfill + step, folders + [folder])
  {
    TouchesAdd(backfill, step);
    assert (folders + [folder])[..|folders|] == folders;
  }

  /** The exact trace meets the coarse description: backfill calls only,
      with one published updateTime per folder, in folder order. */
  lemma {:induction false} InitialSyncTraceCalls(folders: seq<AlfrescoClient.SyncFolder>,
                                                  pages: seq<seq<AlfrescoClient.Page>>)
    requires |pages| == |folders| && AllStop(pages)
    ensures InitialSyncCalls(InitialSyncTrace(folders, pages), folders)
    decreases |folders|
  {
    if |folders| > 0 {
      var n := |folders| - 1;
      InitialSyncTraceCalls(folders[..n], pages[..n]);
      FolderBackfillCalls(folders[n], pages[n]);
      InitialSyncCallsAdd(InitialSyncTrace(folders[..n], pages[..n]), folders[..n],
                          FolderBackfill(folders[n], pages[n]), folders[n]);
      assert folders[..n] + [folders[n]] == folders;
    }
  }

  /** performInitialSync: each selected folder, in order, is synchronized and
      then gets updateTime(id, true). `pages[i]` answers folder i's requests;
      `updateFails` holds the folders whose updateTime throws, which ends the
      sync there with the exception. `attempted` folders were synchronized. */
  method PerformInitialSync(s: SyncState, folders: seq<AlfrescoClient.SyncFolder>, maxItems: int,
                            pages: seq<seq<AlfrescoClient.Page>>, failing: set<string>, updateFails: set<string>)
    returns (r: SyncState, backfill: seq<Action>, processed: seq<nat>, outcome: Outcome)
    requires |pages| == |folders| && AllStop(pages)
    requires forall i :: 0 <= i < |folders| ==> folders[i].updatedDate.Some?
    ensures r == s.(trace := s.trace + backfill)
    ensures |processed| <= |folders|
    ensures backfill == InitialSyncTrace(folders[..|processed|], pages[..|processed|])
    ensures outcome == Done || outcome == Thrown(RemoteFailure)
    ensures outcome == Done <==> forall j :: 0 <= j < |folders| ==> folders[j].id !in updateFails
    ensures outcome == Done ==> |processed| == |folders|
    ensures outcome.Thrown? ==> 0 < |processed| && folders[|processed| - 1].id in updateFails
    ensures forall j :: 0 <= j < |processed| - 1 ==> folders[j].id !in updateFails
  {
    backfill := [];
    processed := [];
    outcome := Done;
    var i := 0;
    while i < |folders|
      invariant 0 <= i <= |folders|
      invariant backfill == InitialSyncTrace(folders[..i], pages[..i])
      invariant |processed| == i
      invariant forall j :: 0 <= j < i ==> folders[j].id !in updateFails
    {
      var count, step := SyncOneFolder(folders[i], maxItems, pages[i], failing);
      InitialSyncTraceStep(folders, pages, i);
      backfill := backfill + step;
      processed := processed + [count];
      if folders[i].id in updateFails {
        outcome := Thrown(RemoteFailure);
        break;
      }
      i := i + 1;
    }
    if outcome == Done {
      assert folders[..i] == folders && pages[..i] == pages;
    }
    r := s.(trace := s.trace + backfill);
  }

  /** run: the initial sync over the folders getFoldersToSync selects, then
      the flag, then the drain. `search` is None when one of
      getFoldersToSync's searches throws. Any exception before the flag is
      set escapes run: the flag stays unset and the queue is kept. Otherwise
      every backfill call precedes every call made for a queued event, and
      each queued event is handled exactly once, in queue order, in live
      mode. */
  method Run(s: SyncState, keys: AlfrescoClient.PropKeys, search: Option<seq<AlfrescoClient.Candidate>>, maxItems: int,
             pages: seq<seq<AlfrescoClient.Page>>, failing: set<string>, updateFails: set<string>,
             replies: seq<ContentHandler.Replies>)
    returns (r: SyncState, backfill: seq<Action>, poolCreated: bool, outcome: Outcome)
    requires !s.complete
    requires search.Some? ==> |pages| == |AlfrescoClient.FoldersToSync(keys, search.value)|
    requires AllStop(pages)
    requires |replies| == |s.queue|
    ensures r.folders == s.folders
    ensures search.None? ==> r == s && backfill == [] && outcome == Thrown(RemoteFailure)
    ensures outcome.Thrown? ==> !r.complete && r.queue == s.queue && !poolCreated && r.trace == s.trace + backfill
    ensures outcome.Done? <==> search.Some? && forall f :: f in AlfrescoClient.FoldersToSync(keys, search.value) ==> f.id !in updateFails
    ensures outcome.Done? ==>
              var selected := AlfrescoClient.FoldersToSync(keys, search.value);
              && r.complete && r.queue == []
              && backfill == InitialSyncTrace(selected, pages)
              && InitialSyncCalls(backfill, selected)
              && (poolCreated <==> |s.queue| > 0)
              && r.trace == s.trace + backfill
                            + (if poolCreated then [PoolCreated] + DrainCalls(s.folders, s.queue, replies) + [PoolShutdown] else [])
  {
    if search.None? {
      return s, [], false, Thrown(RemoteFailure);
    }
    var selected := AlfrescoClient.FoldersToSync(keys, search.value);
    var synced, processed;
    synced, backfill, processed, outcome := PerformInitialSync(s, selected, maxItems, pages, failing, updateFails);
    if outcome.Thrown? {
      return synced, backfill, false, outcome;
    }
    assert selected[..|processed|] == selected && pages[..|processed|] == pages;
    InitialSyncTraceCalls(selected, pages);
    var live := SyncState(true, s.queue, s.folders, s.trace + backfill);
    assert synced.(complete := true) == live;
    r, poolCreated := ProcessQueuedEvents(live, replies);
  }

  /** Events delivered to the content handler while the initial sync runs:
      the trace does not grow and the queue grows by exactly the events that
      pass the filter, in arrival order. */
  function DeliverAll(s: SyncState, events: seq<Event>, replies: seq<ContentHandler.Replies>): SyncState
    requires |replies| == |events|
    decreases |events|
  {
    if |events| == 0 then s
    else DeliverAll(ContentHandler.DeliverToContentHandler(s, events[0], replies[0]).state, events[1..], replies[1..])
  }

  /** The events of `events` ContentHandler's filter lets through. */
  function Relevant(folders: seq<string>, events: seq<Event>): seq<Event>
    decreases |events|
  {
    if |events| == 0 then []
    else
      (if ContentHandler.Subscribed(events[0].kind) && Filters.ParentFolderTest(folders, events[0]) then [events[0]] else [])
      + Relevant(folders, events[1..])
  }

  lemma {:induction false} BackfillingOnlyQueues(s: SyncState, events: seq<Event>, replies: seq<ContentHandler.Replies>)
    requires !s.complete && |replies| == |events|
    ensures DeliverAll(s, events, replies) == s.(queue := s.queue + Relevant(s.folders, events))
    decreases |events|
  {
    if |events| == 0 {
      assert s.queue + [] == s.queue;
    } else {
      var s1 := ContentHandler.DeliverToContentHandler(s, events[0], replies[0]).state;
      ContentHandler.QueueBeforeLive(s, events[0], replies[0]);
      BackfillingOnlyQueues(s1, events[1..], replies[1..]);
    }
  }
}
