/**
 * The two endpoints of the search API (backend/app.py) over the state the
 * server loads at start-up: the lookup dictionary the index builder saved and
 * the list of its keys, which maps a row of the document-term matrix back to
 * a doc id. The similarity scores of the query against every row are an
 * input: the vectoriser and the cosine similarity are outside the model.
 */
module App {
  import opened Wrappers
  import opened Seqs
  import opened OrderedMaps
  import opened BuildIndex
  import opened Ranking

  /** An error answer: HTTP status and message. */
  datatype ApiError = ApiError(status: nat, message: string)

  const MissingQuery: ApiError := ApiError(400, "Missing query parameter 'q'")
  const DocNotFound: ApiError := ApiError(404, "Document not found")

  /** An `IndexError` escaping the handler, which the web framework answers with status 500. */
  const ServerError: ApiError := ApiError(500, "Internal Server Error")

  /** One search result. */
  datatype Hit = Hit(docId: string, title: string, snippet: string, score: real)

  /** The number of results when the request gives no `k`. */
  const DefaultK: int := 10

  /** How many characters of the body text a snippet shows before the ellipsis. */
  const SnippetLength: nat := 150

  /** The state loaded at start-up. */
  datatype Service = Service(lookup: Lookup, indexToDocId: seq<string>) {
    ghost predicate Valid() {
      lookup.Valid() && indexToDocId == lookup.keys
    }
  }

  /** `list(doc_lookup.keys())`: every stored doc id once, in insertion order. */
  function IndexToDocId(lookup: Lookup): (ids: seq<string>)
    requires lookup.Valid()
    ensures Distinct(ids) && |ids| == lookup.Size()
    ensures forall id :: id in ids <==> id in lookup.entries
  {
    KeyCount(lookup);
    lookup.keys
  }

  /** Loading the saved lookup dictionary and deriving the row-to-id list. */
  function Startup(lookup: Lookup): (svc: Service)
    requires lookup.Valid()
    ensures svc.Valid() && svc.lookup == lookup
  {
    Service(lookup, IndexToDocId(lookup))
  }

  /** `doc['text'][:150] + '...'`. */
  function Snippet(text: string): (r: string)
    ensures |text| <= SnippetLength ==> r == text + "..."
    ensures |text| > SnippetLength ==> |r| == SnippetLength + 3 && r[..SnippetLength] == text[..SnippetLength]
    ensures |r| <= SnippetLength + 3 && r[|r| - 3..] == "..."
  {
    (if |text| <= SnippetLength then text else text[..SnippetLength]) + "..."
  }

  /** The `k` of the request: the given number, or `DefaultK` when absent. */
  function RequestedK(k: Option<int>): (n: int)
    ensures k.None? ==> n == DefaultK
    ensures k.Some? ==> n == k.value
  {
    match k
    case None => DefaultK
    case Some(n) => n
  }

  /** The result for row `idx`: its doc id, the stored title, the snippet of the stored text, the score. */
  function HitAt(svc: Service, scores: seq<real>, idx: nat): (h: Hit)
    requires svc.Valid() && idx < |scores| && idx < |svc.indexToDocId|
    ensures h.docId == svc.indexToDocId[idx] && h.docId in svc.lookup.entries
    ensures h.title == svc.lookup.entries[h.docId].title
    ensures h.snippet == Snippet(svc.lookup.entries[h.docId].text)
    ensures h.score == scores[idx]
  {
    var docId := svc.indexToDocId[idx];
    var doc := svc.lookup.entries[docId];
    Hit(docId, doc.title, Snippet(doc.text), scores[idx])
  }

  /**
   * `GET /search?q=...&k=...`: a missing or empty query is a 400 error;
   * otherwise one hit per selected row, best first, unless a selected row has
   * no doc id, which is a 500 error.
   */
  method Search(svc: Service, query: string, k: Option<int>, scores: seq<real>) returns (r: Result<seq<Hit>, ApiError>)
    requires svc.Valid()
    ensures query == [] ==> r == Failure(MissingQuery)
    ensures query != [] && !InRange(TopK(scores, RequestedK(k)), |svc.indexToDocId|) ==> r == Failure(ServerError)
    ensures query != [] && InRange(TopK(scores, RequestedK(k)), |svc.indexToDocId|) ==>
              && r.Success?
              && |r.value| == TopKCount(|scores|, RequestedK(k))
              && forall a :: 0 <= a < |r.value| ==> r.value[a] == HitAt(svc, scores, TopK(scores, RequestedK(k))[a])
    ensures r.Success? ==> forall a, b :: 0 <= a < b < |r.value| ==> r.value[a].score >= r.value[b].score
  {
    var n := RequestedK(k);
    if query == [] {
      return Failure(MissingQuery);
    }
    var top := TopK(scores, n);
    TopKSelects(scores, n);
    var hits: seq<Hit> := [];
    for a := 0 to |top|
      invariant |hits| == a
      invariant forall c :: 0 <= c < a ==> top[c] < |svc.indexToDocId| && hits[c] == HitAt(svc, scores, top[c])
    {
      var idx := top[a];
      if idx >= |svc.indexToDocId| {
        return Failure(ServerError);
      }
      var docId := svc.indexToDocId[idx];
      var doc := svc.lookup.entries[docId];
      var score := scores[idx];
      var snippet := Snippet(doc.text);
      hits := hits + [Hit(docId, doc.title, snippet, score)];
    }
    return Success(hits);
  }

  /** `GET /doc/<doc_id>`: the stored entry of the id, or a 404 error. */
  function GetDocument(svc: Service, docId: string): (r: Result<Entry, ApiError>)
    ensures r.Success? <==> docId in svc.lookup.entries
    ensures r.Success? ==> r.value == svc.lookup.entries[docId]
    ensures r.Failure? ==> r.error == DocNotFound
  {
    if docId in svc.lookup.entries then Success(svc.lookup.entries[docId]) else Failure(DocNotFound)
  }

  /**
   * With distinct doc ids and one score per document, every selected row has
   * a doc id, and the hit for row `idx` shows document `idx`: the search
   * answers with the documents the scores rank.
   */
  lemma SearchShowsRankedDocs(docs: seq<ProcessedDoc>, scores: seq<real>, k: int)
    requires Distinct(Ids(docs)) && |scores| == |docs|
    ensures InRange(TopK(scores, k), |Startup(LookupOf(docs)).indexToDocId|)
    ensures forall a :: 0 <= a < |TopK(scores, k)| ==>
              var idx := TopK(scores, k)[a];
              HitAt(Startup(LookupOf(docs)), scores, idx)
                == Hit(docs[idx].doc.docId, docs[idx].doc.title, Snippet(docs[idx].doc.text), scores[idx])
  {
    var lookup := LookupOf(docs);
    var svc := Startup(lookup);
    var top := TopK(scores, k);
    DistinctIdsAlignRows(docs);
    LookupKeepsLastEntry(docs);
    assert svc.indexToDocId == Ids(docs);
    forall a | 0 <= a < |top|
      ensures top[a] < |svc.indexToDocId|
      ensures HitAt(svc, scores, top[a])
                == Hit(docs[top[a]].doc.docId, docs[top[a]].doc.title, Snippet(docs[top[a]].doc.text), scores[top[a]])
    {
      var idx := top[a];
      assert LastWithId(docs, idx);
      assert lookup.entries[docs[idx].doc.docId] == EntryOf(docs[idx]);
    }
  }

  /**
   * A repeated doc id leaves the id list shorter than the score vector, so a
   * search that selects every row (`k` zero or at least the number of
   * documents) reaches a row without a doc id.
   */
  lemma RepeatedIdsBreakSearch(docs: seq<ProcessedDoc>, scores: seq<real>, k: int)
    requires !Distinct(Ids(docs)) && |scores| == |docs|
    requires k == 0 || k >= |docs|
    ensures !InRange(TopK(scores, k), |Startup(LookupOf(docs)).indexToDocId|)
  {
    RepeatedIdsLoseRows(docs);
    TopKKeepsAll(scores, k);
    var top := TopK(scores, k);
    var last := |docs| - 1;
    assert last in top;
    var a :| 0 <= a < |top| && top[a] == last;
  }

  /**
   * After the build, the document endpoint returns, for a stored id, the
   * entry of the last document with that id, and a 404 error for any other id.
   */
  lemma GetDocumentAfterBuild(docs: seq<ProcessedDoc>)
    ensures forall i :: 0 <= i < |docs| && LastWithId(docs, i) ==>
              GetDocument(Startup(LookupOf(docs)), docs[i].doc.docId) == Success(EntryOf(docs[i]))
    ensures forall id :: id !in Ids(docs) ==> GetDocument(Startup(LookupOf(docs)), id) == Failure(DocNotFound)
  {
    LookupKeysInFirstOrder(docs);
    LookupKeepsLastEntry(docs);
    LookupKeysAreIds(docs);
  }
}
