/** IngestionService: tags parsed chunks with their document, folder and
    file name, removes the chunks stored earlier for the same document, then
    stores the new ones. The vector store is a list of chunks; its search is
    an oracle that may return any chunks at all. Lemmas that need the search
    to honour its filter say so in their requires. */
module IngestionService {
  import opened Common
  import opened Documents

  /** The chunks the vector store holds. */
  type Store = seq<Document>

  /** The calls issued to the vector store, in order. */
  datatype StoreCall = Search(filter: string) | Delete(ids: seq<string>) | Add(docs: seq<Document>)

  /** What a similarity search answers: a RuntimeException, or some chunks. */
  datatype SearchAnswer = SearchFailed | Found(docs: seq<Document>)

  /** The filter built by deleteDocuments; the value is not escaped. */
  function FilterExpression(key: string, value: string): string {
    "'" + key + "' == '" + value + "'"
  }

  /** Without quotes in keys and values, distinct pairs give distinct filters. */
  lemma FilterExpressionInjective(k1: string, v1: string, k2: string, v2: string)
    requires '\'' !in k1 && '\'' !in v1 && '\'' !in k2 && '\'' !in v2
    requires FilterExpression(k1, v1) == FilterExpression(k2, v2)
    ensures k1 == k2 && v1 == v2
  {
    var f := FilterExpression(k1, v1);
    // the key ends at the first quote after the opening one
    KeyPrefix(k1, v1);
    KeyPrefix(k2, v2);
    assert k1 == f[1..1 + |k1|] == k2;
    var n := 1 + |k1| + 6;
    assert f[n..|f| - 1] == v1;
    assert f[n..|f| - 1] == v2;
  }

  lemma KeyPrefix(k: string, v: string)
    ensures var f := FilterExpression(k, v);
            |f| > |k| + 1 && f[1..1 + |k|] == k && f[1 + |k|] == '\''
  {
  }

  /** A value holding a quote can make two different (key, value) pairs
      produce the same filter. */
  lemma FilterExpressionCollides()
    ensures FilterExpression("documentId", "x' == 'y") == FilterExpression("documentId' == 'x", "y")
  {
  }

  /** The ids of some chunks, in order. */
  function Ids(docs: seq<Document>): seq<string> {
    Map((d: Document) => d.id, docs)
  }

  /** vectorStore.delete(ids): every chunk with a listed id goes, the rest stay in order. */
  function RemoveIds(store: Store, ids: seq<string>): (r: Store)
    ensures forall d :: d in r <==> d in store && d.id !in ids
    ensures |r| <= |store|
    decreases |store|
  {
    if |store| == 0 then []
    else if store[|store| - 1].id in ids then RemoveIds(store[..|store| - 1], ids)
    else RemoveIds(store[..|store| - 1], ids) + [store[|store| - 1]]
  }

  /** The store and the calls issued by one deletion. */
  datatype Deletion = Deletion(store: Store, calls: seq<StoreCall>)

  /** deleteDocuments: search by `'key' == 'value'`; delete the ids found,
      if any. A failing search or delete is logged and swallowed; a failing
      delete leaves the store as it was. */
  function DeleteDocuments(store: Store, key: string, value: string, answer: SearchAnswer, deleteFails: bool): (r: Deletion)
    ensures 1 <= |r.calls| <= 2 && r.calls[0] == Search(FilterExpression(key, value))
    ensures |r.calls| == 2 <==> answer.Found? && |answer.docs| > 0
    ensures |r.calls| == 2 ==> r.calls[1] == Delete(Ids(answer.docs))
    ensures forall d :: d in r.store ==> d in store
    ensures answer.Found? && !deleteFails ==>
              forall d :: d in store ==> (d in r.store <==> d.id !in Ids(answer.docs))
    ensures answer.SearchFailed? || deleteFails ==> r.store == store
  {
    var search := [Search(FilterExpression(key, value))];
    match answer
    case SearchFailed => Deletion(store, search)
    case Found(docs) =>
      if |docs| == 0 then Deletion(store, search)
      else
        var ids := Ids(docs);
        Deletion(if deleteFails then store else RemoveIds(store, ids), search + [Delete(ids)])
  }

  /** deleteByDocumentId: delete on the "documentId" key. */
  function DeleteByDocumentId(store: Store, documentId: string, answer: SearchAnswer, deleteFails: bool): (r: Deletion)
    ensures |r.calls| > 0 && r.calls[0] == Search(FilterExpression("documentId", documentId))
  {
    DeleteDocuments(store, "documentId", documentId, answer, deleteFails)
  }

  /** deleteByFolderId: delete on the "folderId" key. */
  function DeleteByFolderId(store: Store, folderId: string, answer: SearchAnswer, deleteFails: bool): (r: Deletion)
    ensures |r.calls| > 0 && r.calls[0] == Search(FilterExpression("folderId", folderId))
  {
    DeleteDocuments(store, "folderId", folderId, answer, deleteFails)
  }

  /** The metadata keys addMetadata sets. */
  predicate Tagged(d: Document, documentId: string, folderId: string, fileName: string) {
    && "documentId" in d.metadata && d.metadata["documentId"] == Text(documentId)
    && "folderId" in d.metadata && d.metadata["folderId"] == Text(folderId)
    && "fileName" in d.metadata && d.metadata["fileName"] == Text(fileName)
  }

  /** Whether a chunk is one of a document's, by its "documentId" metadata. */
  predicate BelongsTo(d: Document, documentId: string) {
    "documentId" in d.metadata && d.metadata["documentId"] == Text(documentId)
  }

  /** addMetadata: every chunk gains the three keys; id, content, media and
      all other metadata entries stay. */
  function AddMetadata(chunks: seq<Document>, documentId: string, folderId: string, fileName: string): (r: seq<Document>)
    ensures |r| == |chunks|
    ensures forall i :: 0 <= i < |r| ==>
              && Tagged(r[i], documentId, folderId, fileName)
              && r[i].id == chunks[i].id && r[i].content == chunks[i].content && r[i].media == chunks[i].media
              && r[i].metadata.Keys == chunks[i].metadata.Keys + {"documentId", "folderId", "fileName"}
              && forall k :: k in chunks[i].metadata && k != "documentId" && k != "folderId" && k != "fileName" ==>
                   r[i].metadata[k] == chunks[i].metadata[k]
  {
    seq(|chunks|, i requires 0 <= i < |chunks| =>
          chunks[i].(metadata := chunks[i].metadata["documentId" := Text(documentId)]
                                                    ["folderId" := Text(folderId)]
                                                    ["fileName" := Text(fileName)]))
  }

  /** The store, the calls issued, and how ingest ended. */
  datatype Ingestion = Ingestion(store: Store, calls: seq<StoreCall>, outcome: Outcome)

  /** ingest: `transformed` is what the reader and token splitter produce
      (None when they throw); `answer` and `deleteFails` are the store's
      replies to the search and the delete. */
  function Ingest(store: Store, documentId: string, folderId: string, fileName: string,
                  transformed: Option<seq<Document>>, answer: SearchAnswer, deleteFails: bool): (r: Ingestion)
    ensures transformed.None? <==> r.outcome.Thrown?
    ensures transformed.None? ==> r.store == store && r.calls == []
    ensures transformed.Some? ==>
              var added := AddMetadata(transformed.value, documentId, folderId, fileName);
              && 2 <= |r.calls| <= 3
              && r.calls[0] == Search(FilterExpression("documentId", documentId))
              && r.calls[|r.calls| - 1] == Add(added)
              && (|r.calls| == 3 ==> r.calls[1].Delete?)
    // the frame: a stored chunk goes only if the search returned its id and the delete went through
    ensures transformed.Some? ==>
              forall d :: d in store && (answer.SearchFailed? || deleteFails || d.id !in Ids(answer.docs)) ==> d in r.store
  {
    match transformed
    case None => Ingestion(store, [], Thrown(TransformFailure))
    case Some(chunks) =>
      var added := AddMetadata(chunks, documentId, folderId, fileName);
      var del := DeleteByDocumentId(store, documentId, answer, deleteFails);
      Ingestion(del.store + added, del.calls + [Add(added)], Done)
  }

  /** Upsert: after a successful ingest every new chunk is stored and tagged,
      every chunk the search returned is gone unless it was re-added, and
      every other chunk is one that was stored before. */
  lemma IngestUpserts(store: Store, documentId: string, folderId: string, fileName: string,
                      chunks: seq<Document>, found: seq<Document>)
    ensures var r := Ingest(store, documentId, folderId, fileName, Some(chunks), Found(found), false);
            var added := AddMetadata(chunks, documentId, folderId, fileName);
            && r.outcome == Done
            && (forall d :: d in added ==> d in r.store && Tagged(d, documentId, folderId, fileName))
            && (forall d :: d in r.store && d.id in Ids(found) ==> d in added)
            && (forall d :: d in r.store ==> d in added || d in store)
            && (forall d :: d in store && d.id !in Ids(found) ==> d in r.store)
  {
  }

  /** Ids are unique in the store. */
  predicate UniqueIds(store: Store) {
    forall i, j :: 0 <= i < j < |store| ==> store[i].id != store[j].id
  }

  /** When the search honours its filter (it returns stored chunks of the
      document only) and ids are unique, ingesting a document keeps every
      chunk of every other document. */
  lemma IngestKeepsOtherDocuments(store: Store, documentId: string, folderId: string, fileName: string,
                                  chunks: seq<Document>, found: seq<Document>, deleteFails: bool)
    requires forall d :: d in found ==> d in store && BelongsTo(d, documentId)
    requires UniqueIds(store)
    ensures var r := Ingest(store, documentId, folderId, fileName, Some(chunks), Found(found), deleteFails);
            forall d :: d in store && !BelongsTo(d, documentId) ==> d in r.store
  {
    forall d | d in store && !BelongsTo(d, documentId)
      ensures d.id !in Ids(found)
    {
      if d.id in Ids(found) {
        var k :| 0 <= k < |found| && Ids(found)[k] == d.id && found[k] in found;
        assert false;
      }
    }
  }

  /** When the search returned every stored chunk of the document, the
      document's chunks afterwards are exactly the new ones. */
  lemma IngestReplacesWhenSearchIsComplete(store: Store, documentId: string, folderId: string, fileName: string,
                                           chunks: seq<Document>, found: seq<Document>)
    requires forall d :: d in store && BelongsTo(d, documentId) ==> d.id in Ids(found)
    ensures var r := Ingest(store, documentId, folderId, fileName, Some(chunks), Found(found), false);
            forall d :: d in r.store ==>
              (BelongsTo(d, documentId) <==> d in AddMetadata(chunks, documentId, folderId, fileName))
  {
  }

  /** Failures of the search or the delete are swallowed: the new chunks are
      still added and ingest completes; the old chunks all stay. */
  lemma IngestSurvivesDeleteFailure(store: Store, documentId: string, folderId: string, fileName: string,
                                    chunks: seq<Document>, answer: SearchAnswer, deleteFails: bool)
    requires answer.SearchFailed? || deleteFails
    ensures var r := Ingest(store, documentId, folderId, fileName, Some(chunks), answer, deleteFails);
            r.outcome == Done && r.store == store + AddMetadata(chunks, documentId, folderId, fileName)
  {
  }
}
