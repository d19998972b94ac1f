/** The state shared between the handlers and the application: the initial
    sync flag, the pending event queue, the tracked folder list, and a trace
    of the calls the engine issues to the AI service and the repository. */
module SharedConfig {
  import opened Common
  import opened RepoEvents

  /** A call issued to an external service. Calls are recorded when issued,
      whether or not the remote side then fails. */
  datatype Action =
    | Upload(docId: string, folderId: string, name: string)   // 3-argument processDocument
    | BackfillUpload(docId: string, name: string)             // AlfrescoClient.processDocument
    | DeleteDoc(docId: string)                                // AIClient.deleteDocument
    | DeleteFolderDocs(folderId: string)                      // AIClient.deleteDocumentsFromFolder
    | UpdateTime(folderId: string, published: bool)           // AlfrescoClient.updateTime
    | PoolCreated                                             // the drain's thread pool is created
    | PoolShutdown                                            // ... and shut down

  /** `complete` is the isInitialSyncComplete flag, `queue` the event queue,
      `folders` ContentHandler's folderIdsList. */
  datatype SyncState = SyncState(complete: bool, queue: seq<Event>, folders: seq<string>, trace: seq<Action>)

  /** The state right after start-up: the flag is false and the queue empty. */
  function Initial(folders: seq<string>): (s: SyncState)
    ensures !s.complete
    ensures s.queue == []
    ensures s.folders == folders && s.trace == []
  {
    SyncState(false, [], folders, [])
  }

  /** LinkedBlockingQueue.add on a queue built without a capacity: it never
      refuses an element, so it appends unconditionally. */
  function Offer<T>(q: seq<T>, x: T): (r: seq<T>)
    ensures |r| == |q| + 1 && r[|q|] == x
    ensures forall i :: 0 <= i < |q| ==> r[i] == q[i]
  {
    q + [x]
  }

  /** LinkedBlockingQueue.poll: the head and the rest, or `None` when empty. */
  function Poll<T>(q: seq<T>): (r: Option<(T, seq<T>)>)
    ensures r.None? <==> |q| == 0
    ensures r.Some? ==> [r.value.0] + r.value.1 == q
  {
    if |q| == 0 then None else Some((q[0], q[1..]))
  }

  /** Offers every element of `xs` in turn. */
  function OfferAll<T>(q: seq<T>, xs: seq<T>): seq<T>
    decreases |xs|
  {
    if |xs| == 0 then q else OfferAll(Offer(q, xs[0]), xs[1..])
  }

  /** The elements obtained by polling `q` until it is empty. */
  function PollAll<T>(q: seq<T>): seq<T>
    decreases |q|
  {
    match Poll(q)
    case None => []
    case Some((x, rest)) => [x] + PollAll(rest)
  }

  lemma {:induction false} OfferAllAppends<T>(q: seq<T>, xs: seq<T>)
    ensures OfferAll(q, xs) == q + xs
    decreases |xs|
  {
    if |xs| > 0 {
      OfferAllAppends(Offer(q, xs[0]), xs[1..]);
      assert q + [xs[0]] + xs[1..] == q + xs;
    }
  }

  lemma {:induction false} PollAllIsIdentity<T>(q: seq<T>)
    ensures PollAll(q) == q
    decreases |q|
  {
    if |q| > 0 {
      PollAllIsIdentity(q[1..]);
    }
  }

  /** FIFO: polling a queue that started empty returns the offered elements
      in the order they were offered, each exactly once. */
  lemma {:induction false} QueueIsFifo<T>(xs: seq<T>)
    ensures PollAll(OfferAll([], xs)) == xs
  {
    OfferAllAppends([], xs);
    PollAllIsIdentity(xs);
    assert [] + xs == xs;
  }
}
