/** AlfrescoClient: discovery of the folders to sync, the backfill page loop,
    per-batch success counting, and the watermark properties of updateTime.
    The repository's search API is an oracle: its answers are parameters. */
module AlfrescoClient {
  import opened Common
  import opened SharedConfig

  /** A search result row. Date-valued properties are already parsed to
      integer timestamps; `properties` is `None` when the row has none. */
  datatype Hit = Hit(id: string, name: string, modifiedAt: int, properties: Option<map<string, int>>)

  /** The configured property keys of the two folder watermarks. */
  datatype PropKeys = PropKeys(published: string, updated: string)

  /** AlfrescoSyncFolder: a folder selected for the initial sync. */
  datatype SyncFolder = SyncFolder(id: string, publishedDate: Option<int>, updatedDate: Option<int>, docLastUpdatedDate: int)

  /** getSyncFolders: the ids of the folder search's rows, in order. */
  function GetSyncFolders(rows: seq<Hit>): (ids: seq<string>)
    ensures |ids| == |rows|
    ensures forall i :: 0 <= i < |rows| ==> ids[i] == rows[i].id
  {
    Map((row: Hit) => row.id, rows)
  }

  /** getDateTime: a missing properties map or a missing key gives null. */
  function GetDateTime(row: Hit, key: string): (r: Option<int>)
    ensures r.Some? <==> row.properties.Some? && key in row.properties.value
    ensures r.Some? ==> r.value == row.properties.value[key]
  {
    match row.properties
    case None => None
    case Some(props) => if key in props then Some(props[key]) else None
  }

  /** A folder found by the aspect search, with the rows its newest-document
      search returned (at most one row is asked for; the code reads row 0). */
  datatype Candidate = Candidate(folder: Hit, newest: seq<Hit>)

  /** The selection rule of getFoldersToSync: the folder holds a document,
      has an "updated" watermark, and that watermark is strictly before the
      newest document's modification time. */
  predicate NeedsSync(keys: PropKeys, c: Candidate) {
    && |c.newest| > 0
    && GetDateTime(c.folder, keys.updated).Some?
    && GetDateTime(c.folder, keys.updated).value < c.newest[0].modifiedAt
  }

  /** The AlfrescoSyncFolder record built for a candidate that has a document. */
  function FolderOf(keys: PropKeys, c: Candidate): SyncFolder
    requires |c.newest| > 0
  {
    SyncFolder(c.folder.id, GetDateTime(c.folder, keys.published), GetDateTime(c.folder, keys.updated),
               c.newest[0].modifiedAt)
  }

  /** getFoldersToSync over the search answers: every selected folder has a
      watermark strictly older than its newest document. */
  function FoldersToSync(keys: PropKeys, cs: seq<Candidate>): (r: seq<SyncFolder>)
    ensures |r| <= |cs|
    ensures forall i :: 0 <= i < |r| ==> r[i].updatedDate.Some? && r[i].updatedDate.value < r[i].docLastUpdatedDate
    decreases |cs|
  {
    if |cs| == 0 then []
    else (if NeedsSync(keys, cs[0]) then [FolderOf(keys, cs[0])] else []) + FoldersToSync(keys, cs[1..])
  }

  /** A folder is selected exactly when the selection rule holds of it. */
  lemma {:induction false} FoldersToSyncSelects(keys: PropKeys, cs: seq<Candidate>)
    ensures forall f :: f in FoldersToSync(keys, cs) ==> exists c :: c in cs && NeedsSync(keys, c) && f == FolderOf(keys, c)
    ensures forall c :: c in cs && NeedsSync(keys, c) ==> FolderOf(keys, c) in FoldersToSync(keys, cs)
    decreases |cs|
  {
    if |cs| > 0 {
      FoldersToSyncSelects(keys, cs[1..]);
      assert forall c :: c in cs[1..] ==> c in cs;
      assert forall c :: c in cs ==> c == cs[0] || c in cs[1..];
    }
  }

  /** Selected folders keep the order of the folder search: selection
      distributes over concatenation of the search results. */
  lemma {:induction false} FoldersToSyncKeepsOrder(keys: PropKeys, a: seq<Candidate>, b: seq<Candidate>)
    ensures FoldersToSync(keys, a + b) == FoldersToSync(keys, a) + FoldersToSync(keys, b)
    decreases |a|
  {
    if |a| == 0 {
      assert a + b == b;
    } else {
      assert (a + b)[1..] == a[1..] + b;
      FoldersToSyncKeepsOrder(keys, a[1..], b);
    }
  }

  /** A watermark equal to the newest document's time is not selected, and
      neither is a folder without an "updated" watermark. */
  lemma SkippedFolders(keys: PropKeys, folder: Hit, doc: Hit)
    requires GetDateTime(folder, keys.updated) == Some(doc.modifiedAt)
             || GetDateTime(folder, keys.updated).None?
    ensures FoldersToSync(keys, [Candidate(folder, [doc])]) == []
  {
  }

  /** The "no watermark" defect: a folder that holds documents but was never
      synced (no "updated" property) is never selected for backfill. */
  lemma NeverSyncedFolderIsSkipped()
    ensures var keys := PropKeys("ai:published", "ai:updated");
            var c := Candidate(Hit("f", "folder", 0, Some(map[])), [Hit("d", "doc.pdf", 5, None)]);
            FoldersToSync(keys, [c]) == [] && NeedsSyncIntended(keys, c)
  {
  }

  /** The evidently intended rule: a missing watermark means "never synced". */
  predicate NeedsSyncIntended(keys: PropKeys, c: Candidate) {
    && |c.newest| > 0
    && (GetDateTime(c.folder, keys.updated).None?
        || GetDateTime(c.folder, keys.updated).value < c.newest[0].modifiedAt)
  }

  /** getFoldersToSync with the intended rule. */
  function FoldersToSyncIntended(keys: PropKeys, cs: seq<Candidate>): (r: seq<SyncFolder>)
    ensures |r| <= |cs|
    ensures forall c :: c in cs && |c.newest| > 0 && GetDateTime(c.folder, keys.updated).None?
              ==> FolderOf(keys, c) in r
    ensures forall c :: c in cs && NeedsSync(keys, c) ==> FolderOf(keys, c) in r
    ensures forall f :: f in r ==> f.updatedDate.None? || f.updatedDate.value < f.docLastUpdatedDate
    decreases |cs|
  {
    if |cs| == 0 then []
    else
      var rest := FoldersToSyncIntended(keys, cs[1..]);
      assert forall c :: c in cs ==> c == cs[0] || c in cs[1..];
      (if NeedsSyncIntended(keys, cs[0]) then [FolderOf(keys, cs[0])] else []) + rest
  }

  /** A page of search results. `hasMoreItems` is `None` when the
      pagination (or its flag) is missing. */
  datatype Page = Page(entries: seq<Hit>, hasMoreItems: Option<bool>)

  /** The loop's continuation test: missing pagination counts as false. */
  predicate HasMore(p: Page) {
    p.hasMoreItems == Some(true)
  }

  /** The documents search of executeSearch: content under `ancestor`
      modified at or after `modifiedFrom`, sorted by modification time. */
  datatype SearchRequest = DocumentSearch(ancestor: string, modifiedFrom: int, sortField: string,
                                          ascending: bool, maxItems: int, skipCount: int)

  /** executeSearch's request for a folder: its content modified since the
      folder's watermark, oldest first, one page of maxItems from the start
      of the result. Nothing in it depends on how many pages were fetched. */
  function ExecuteSearchRequest(folder: SyncFolder, maxItems: int): (r: SearchRequest)
    requires folder.updatedDate.Some?
    ensures r.ancestor == folder.id && r.modifiedFrom == folder.updatedDate.value
    ensures r.sortField == "cm:modified" && r.ascending
    ensures r.maxItems == maxItems && r.skipCount == 0
  {
    DocumentSearch(folder.id, folder.updatedDate.value, "cm:modified", true, maxItems, 0)
  }

  /** The calls processDocument issues for a batch, one per row, in order. */
  function Uploads(rows: seq<Hit>): seq<Action>
    decreases |rows|
  {
    if |rows| == 0 then []
    else Uploads(rows[..|rows| - 1]) + [BackfillUpload(rows[|rows| - 1].id, rows[|rows| - 1].name)]
  }

  /** One upload call per row, for that row, in row order. */
  lemma {:induction false} UploadsPerRow(rows: seq<Hit>)
    ensures |Uploads(rows)| == |rows|
    ensures forall i :: 0 <= i < |rows| ==> Uploads(rows)[i] == BackfillUpload(rows[i].id, rows[i].name)
    decreases |rows|
  {
    if |rows| > 0 {
      var init := rows[..|rows| - 1];
      UploadsPerRow(init);
      assert forall i :: 0 <= i < |init| ==> init[i] == rows[i];
    }
  }

  /** The number of rows whose processing succeeds; `failing` holds the ids
      whose content fetch or upload throws. */
  function Succeeded(rows: seq<Hit>, failing: set<string>): nat
    decreases |rows|
  {
    if |rows| == 0 then 0
    else Succeeded(rows[..|rows| - 1], failing) + (if rows[|rows| - 1].id in failing then 0 else 1)
  }

  lemma {:induction false} SucceededAdds(a: seq<Hit>, b: seq<Hit>, failing: set<string>)
    ensures Succeeded(a + b, failing) == Succeeded(a, failing) + Succeeded(b, failing)
    decreases |b|
  {
    if |b| > 0 {
      assert (a + b)[..|a + b| - 1] == a + b[..|b| - 1];
      SucceededAdds(a, b[..|b| - 1], failing);
    } else {
      assert a + b == a;
    }
  }

  /** The count is bounded by the batch and reaches it exactly when no row fails. */
  lemma {:induction false} SucceededBounds(rows: seq<Hit>, failing: set<string>)
    ensures Succeeded(rows, failing) <= |rows|
    ensures Succeeded(rows, failing) == |rows| <==> forall i :: 0 <= i < |rows| ==> rows[i].id !in failing
    decreases |rows|
  {
    if |rows| > 0 {
      var init := rows[..|rows| - 1];
      SucceededBounds(init, failing);
      assert forall i :: 0 <= i < |init| ==> init[i] == rows[i];
    }
  }

  /** processDocumentBatch, run sequentially: every row is processed, a
      failing row does not stop the others, and the count rises by the
      number of rows that succeeded. */
  method ProcessDocumentBatch(entries: seq<Hit>, failing: set<string>) returns (count: nat, calls: seq<Action>)
    ensures calls == Uploads(entries)
    ensures count == Succeeded(entries, failing)
    ensures count <= |entries|
  {
    count := 0;
    calls := [];
    var i := 0;
    while i < |entries|
      invariant 0 <= i <= |entries|
      invariant calls == Uploads(entries[..i])
      invariant count == Succeeded(entries[..i], failing)
    {
      var row := entries[i];
      assert entries[..i + 1][..i] == entries[..i];
      calls := calls + [BackfillUpload(row.id, row.name)];
      if row.id !in failing {
        count := count + 1;
      }
      assert entries[..i + 1][..i] == entries[..i];
      i := i + 1;
    }
    assert entries[..i] == entries;
    SucceededBounds(entries, failing);
  }

  /** The rows of several pages, in order. */
  function Entries(pages: seq<Page>): seq<Hit>
    decreases |pages|
  {
    if |pages| == 0 then [] else Entries(pages[..|pages| - 1]) + pages[|pages| - 1].entries
  }

  lemma EntriesStep(pages: seq<Page>, i: nat)
    requires i < |pages|
    ensures Entries(pages[..i + 1]) == Entries(pages[..i]) + pages[i].entries
  {
    assert pages[..i + 1][..i] == pages[..i];
  }

  lemma {:induction false} UploadsAdd(a: seq<Hit>, b: seq<Hit>)
    ensures Uploads(a + b) == Uploads(a) + Uploads(b)
    decreases |b|
  {
    if |b| > 0 {
      assert (a + b)[..|a + b| - 1] == a + b[..|b| - 1];
      UploadsAdd(a, b[..|b| - 1]);
    } else {
      assert a + b == a;
    }
  }

  /** The page oracle eventually answers "no more items". */
  predicate Stops(pages: seq<Page>) {
    exists k :: 0 <= k < |pages| && !HasMore(pages[k])
  }

  /** The number of answers the do-while consumes: up to and including the
      first one that does not say "more items". */
  function Fetched(pages: seq<Page>): (n: nat)
    requires Stops(pages)
    ensures 1 <= n <= |pages| && !HasMore(pages[n - 1])
    ensures forall j :: 0 <= j < n - 1 ==> HasMore(pages[j])
    decreases |pages|
  {
    if !HasMore(pages[0]) then 1
    else
      assert Stops(pages[1..]) by {
        var k :| 0 <= k < |pages| && !HasMore(pages[k]);
        assert !HasMore(pages[1..][k - 1]);
      }
      var rest := Fetched(pages[1..]);
      assert forall j :: 1 <= j < rest + 1 ==> pages[j] == pages[1..][j - 1];
      1 + rest
  }

  /** synchronizeDocuments: fetch a batch, process it, and repeat while the
      answer says more items exist. `pages[i]` is the repository's answer to
      the i-th request. Every request is the same one: skipCount 0 and the
      folder's fixed watermark. */
  method SynchronizeDocuments(folder: SyncFolder, maxItems: int, pages: seq<Page>, failing: set<string>)
    returns (processed: nat, calls: seq<Action>, requests: seq<SearchRequest>)
    requires folder.updatedDate.Some?
    requires Stops(pages)
    ensures |requests| == Fetched(pages)
    ensures 1 <= |requests| <= |pages|
    ensures !HasMore(pages[|requests| - 1])
    ensures forall j :: 0 <= j < |requests| - 1 ==> HasMore(pages[j])
    ensures forall j :: 0 <= j < |requests| ==>
              requests[j].ancestor == folder.id && requests[j].modifiedFrom == folder.updatedDate.value
              && requests[j].skipCount == 0 && requests[j].maxItems == maxItems && requests[j].ascending
    ensures calls == Uploads(Entries(pages[..|requests|]))
    ensures processed == Succeeded(Entries(pages[..|requests|]), failing)
  {
    StopsLater(pages, 0);
    processed := 0;
    calls := [];
    requests := [];
    var i := 0;
    while true
      invariant 0 <= i < |pages|
      invariant |requests| == i
      invariant forall j :: 0 <= j < i ==> requests[j] == ExecuteSearchRequest(folder, maxItems)
      invariant forall j :: 0 <= j < i ==> HasMore(pages[j])
      invariant calls == Uploads(Entries(pages[..i]))
      invariant processed == Succeeded(Entries(pages[..i]), failing)
      decreases |pages| - i
    {
      requests := requests + [ExecuteSearchRequest(folder, maxItems)];
      var count, batch := ProcessDocumentBatch(pages[i].entries, failing);
      EntriesStep(pages, i);
      UploadsAdd(Entries(pages[..i]), pages[i].entries);
      SucceededAdds(Entries(pages[..i]), pages[i].entries, failing);
      processed := processed + count;
      calls := calls + batch;
      var more := HasMore(pages[i]);
      i := i + 1;
      if !more {
        break;
      }
      StopsLater(pages, i);
    }
  }

  /** Past a prefix of "more items" answers, a stopping answer is still ahead. */
  lemma StopsLater(pages: seq<Page>, i: nat)
    requires Stops(pages)
    requires i <= |pages|
    requires forall j :: 0 <= j < i ==> HasMore(pages[j])
    ensures i < |pages|
  {
    var k :| 0 <= k < |pages| && !HasMore(pages[k]);
    assert k >= i;
  }

  /** A repository that answers a documents search faithfully: the matching
      documents `docs`, in sort order, cut by skipCount and maxItems. */
  function RepositoryPage(docs: seq<Hit>, skip: nat, max: nat): (p: Page)
    ensures HasMore(p) <==> skip + max < |docs|
    ensures skip <= |docs| ==> p.entries == docs[skip..if skip + max < |docs| then skip + max else |docs|]
  {
    var end := if skip + max < |docs| then skip + max else |docs|;
    Page(if skip <= |docs| then docs[skip..end] else [], Some(skip + max < |docs|))
  }

  /** The paging defect: the loop repeats the same request, so a faithful
      repository holding more than maxItems matching documents answers the
      same first page with "more items" every time. No finite run of answers
      stops the loop, and documents past the first page are never fetched. */
  lemma BackfillNeverAdvances(docs: seq<Hit>, max: nat, n: nat)
    requires |docs| > max
    ensures !Stops(seq(n, _ => RepositoryPage(docs, 0, max)))
    ensures RepositoryPage(docs, 0, max).entries == docs[..max]
  {
  }

  /** The evidently intended loop: skipCount advances by maxItems each round,
      so a faithful repository's pages cover every document exactly once. */
  function PagedEntriesIntended(docs: seq<Hit>, max: nat, skip: nat): (r: seq<Hit>)
    requires max > 0 && skip <= |docs|
    ensures r == docs[skip..]
    decreases |docs| - skip
  {
    var p := RepositoryPage(docs, skip, max);
    if HasMore(p) then
      var rest := PagedEntriesIntended(docs, max, skip + max);
      assert docs[skip..] == docs[skip..skip + max] + docs[skip + max..];
      p.entries + rest
    else p.entries
  }

  /** updateTime's property map: "updated" is always set, "published" only
      when asked for, both to the same timestamp `now`. */
  function UpdateTimeProperties(keys: PropKeys, published: bool, now: int): (props: map<string, int>)
    ensures keys.updated in props && props[keys.updated] == now
    ensures keys.published in props <==> published || keys.published == keys.updated
    ensures forall k :: k in props ==> (k == keys.updated || k == keys.published) && props[k] == now
  {
    if published then map[keys.updated := now, keys.published := now] else map[keys.updated := now]
  }
}
