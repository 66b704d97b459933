/** The client's document cache: fetched documents are kept by unique id and index, and a
    cached copy is served unless a search asks for a different version of it. The server's
    answers are parameters of the operations that fetch. */
module DocumentCache {
  import opened Wrappers

  datatype DocId = DocId(uniqueId: string, indexName: string)

  /** A fetched document: its timestamp is null when there is no document. */
  datatype FetchResult = FetchResult(uniqueId: string, indexName: string, documentTimestamp: Option<int>, hasResultDocument: bool)

  /** A search result: the document and the version the search saw. */
  datatype ScoredResult = ScoredResult(uniqueId: string, indexName: string, timestamp: int)

  datatype FetchDocument = FetchDocument(uniqueId: string, indexName: string, timestamp: Option<int>)

  /** fetchNeeded: nothing cached, or a version asked for that the cached copy does not have
      (a cached copy without a document has none). */
  function FetchNeeded(cached: Option<FetchResult>, timestamp: Option<int>): (r: bool)
  {
    if cached.None? then true
    else if timestamp.Some? then
      if cached.value.documentTimestamp.None? then true
      else cached.value.documentTimestamp.value != timestamp.value
    else false
  }

  /** The cached copy is served exactly when it is there and, if a version is asked for, it
      is that version. */
  lemma CachedCopyServes(cached: Option<FetchResult>, timestamp: Option<int>)
    ensures !FetchNeeded(cached, timestamp) <==>
      cached.Some? && (timestamp.None? || cached.value.documentTimestamp == timestamp)
  {
  }

  function Lookup(cache: map<DocId, FetchResult>, id: DocId): Option<FetchResult>
  {
    if id in cache then Some(cache[id]) else None
  }

  /** The documents of a search that must be fetched, in order. */
  function Needed(srs: seq<ScoredResult>, cache: map<DocId, FetchResult>): seq<FetchDocument>
  {
    if |srs| == 0 then []
    else
      var sr := srs[|srs| - 1];
      Needed(srs[..|srs| - 1], cache) +
        (if FetchNeeded(Lookup(cache, DocId(sr.uniqueId, sr.indexName)), Some(sr.timestamp))
         then [FetchDocument(sr.uniqueId, sr.indexName, Some(sr.timestamp))] else [])
  }

  /** The cached copies a search can use, in order. */
  function FromCache(srs: seq<ScoredResult>, cache: map<DocId, FetchResult>): seq<FetchResult>
  {
    if |srs| == 0 then []
    else
      var sr := srs[|srs| - 1];
      var id := DocId(sr.uniqueId, sr.indexName);
      FromCache(srs[..|srs| - 1], cache) +
        (if FetchNeeded(Lookup(cache, id), Some(sr.timestamp)) then [] else [cache[id]])
  }

  /** Every search result is either fetched or served from the cache, never both; each copy
      served is the version the search saw, and each fetch asks for that version. */
  lemma {:induction false} NeededOrCached(srs: seq<ScoredResult>, cache: map<DocId, FetchResult>)
    ensures |Needed(srs, cache)| + |FromCache(srs, cache)| == |srs|
    ensures forall i :: 0 <= i < |FromCache(srs, cache)| ==>
      exists j :: 0 <= j < |srs| && FromCache(srs, cache)[i].documentTimestamp == Some(srs[j].timestamp)
    ensures forall i :: 0 <= i < |Needed(srs, cache)| ==> Needed(srs, cache)[i].timestamp.Some?
  {
    if |srs| > 0 {
      var init := srs[..|srs| - 1];
      NeededOrCached(init, cache);
      var c := FromCache(srs, cache);
      forall i | 0 <= i < |c|
        ensures exists j :: 0 <= j < |srs| && c[i].documentTimestamp == Some(srs[j].timestamp)
      {
        if i < |FromCache(init, cache)| {
          var j :| 0 <= j < |init| && FromCache(init, cache)[i].documentTimestamp == Some(init[j].timestamp);
          assert srs[j] == init[j];
        } else {
          assert c[i].documentTimestamp == Some(srs[|srs| - 1].timestamp);
        }
      }
    }
  }

  /** The cache after the fetched results that hold a document are put. */
  function PutFetched(cache: map<DocId, FetchResult>, frs: seq<FetchResult>): map<DocId, FetchResult>
  {
    if |frs| == 0 then cache
    else
      var fr := frs[|frs| - 1];
      var c := PutFetched(cache, frs[..|frs| - 1]);
      if fr.hasResultDocument then c[DocId(fr.uniqueId, fr.indexName) := fr] else c
  }

  /** Only results holding a document enter the cache, each under its own id; every other
      entry stays as it was. */
  lemma {:induction false} PutFetchedFacts(cache: map<DocId, FetchResult>, frs: seq<FetchResult>, id: DocId)
    ensures id in cache ==> id in PutFetched(cache, frs)
    ensures id in PutFetched(cache, frs) ==>
      (id in cache && PutFetched(cache, frs)[id] == cache[id]) ||
      exists i :: 0 <= i < |frs| && Entered(frs[i], id) && PutFetched(cache, frs)[id] == frs[i]
  {
    if |frs| > 0 {
      var init := frs[..|frs| - 1];
      PutFetchedFacts(cache, init, id);
      var last := frs[|frs| - 1];
      if id in PutFetched(cache, init) && !Entered(last, id) && !(id in cache && PutFetched(cache, init)[id] == cache[id]) {
        var i :| 0 <= i < |init| && Entered(init[i], id) && PutFetched(cache, init)[id] == init[i];
        assert frs[i] == init[i];
      }
    }
  }

  /** The fetched result goes into the cache under id. */
  predicate Entered(fr: FetchResult, id: DocId)
  {
    fr.hasResultDocument && DocId(fr.uniqueId, fr.indexName) == id
  }

  class ClientDocumentCache {
    var documentCache: map<DocId, FetchResult>

    /** A new, empty cache. */
    constructor ()
      ensures documentCache == map[]
    {
      documentCache := map[];
    }

    /** The cache dropping entries of its own accord to stay within its maximum size; the
        entries it drops are chosen by the cache and given here. */
    method Evict(ids: set<DocId>)
      modifies this
      ensures documentCache == old(documentCache) - ids
      ensures forall id :: id in documentCache ==> id in old(documentCache) && documentCache[id] == old(documentCache)[id]
    {
      documentCache := documentCache - ids;
    }

    /** fetch(uniqueId, indexName, timestamp): the cached copy when it serves, otherwise the
        server's answer, which is cached when it holds a document. */
    method Fetch(uniqueId: string, indexName: string, timestamp: Option<int>, server: FetchDocument -> FetchResult) returns (fr: FetchResult)
      modifies this
      ensures var id := DocId(uniqueId, indexName);
        if FetchNeeded(Lookup(old(documentCache), id), timestamp) then
          fr == server(FetchDocument(uniqueId, indexName, timestamp)) &&
          documentCache == (if fr.hasResultDocument then old(documentCache)[id := fr] else old(documentCache))
        else
          fr == old(documentCache)[id] && documentCache == old(documentCache)
    {
      var id := DocId(uniqueId, indexName);
      var cached := if id in documentCache then Some(documentCache[id]) else None;
      var fetch := FetchNeeded(cached, timestamp);
      if fetch {
        fr := server(FetchDocument(uniqueId, indexName, timestamp));
        if fr.hasResultDocument {
          documentCache := documentCache[id := fr];
        }
      } else {
        fr := cached.value;
      }
    }

    /** fetch(scoredResults): the documents to fetch and the cached copies to use. */
    method Partition(srs: seq<ScoredResult>) returns (resultsFromCache: seq<FetchResult>, fetchDocumentList: seq<FetchDocument>)
      ensures resultsFromCache == FromCache(srs, documentCache)
      ensures fetchDocumentList == Needed(srs, documentCache)
    {
      resultsFromCache := [];
      fetchDocumentList := [];
      var k := 0;
      while k < |srs|
        invariant 0 <= k <= |srs|
        invariant resultsFromCache == FromCache(srs[..k], documentCache)
        invariant fetchDocumentList == Needed(srs[..k], documentCache)
      {
        var sr := srs[k];
        var id := DocId(sr.uniqueId, sr.indexName);
        var fetchResult := if id in documentCache then Some(documentCache[id]) else None;
        assert srs[..k + 1][..k] == srs[..k];
        if FetchNeeded(fetchResult, Some(sr.timestamp)) {
          fetchDocumentList := fetchDocumentList + [FetchDocument(sr.uniqueId, sr.indexName, Some(sr.timestamp))];
        } else {
          resultsFromCache := resultsFromCache + [fetchResult.value];
        }
        k := k + 1;
      }
      assert srs[..|srs|] == srs;
    }

    /** fetch(queryResult): one batch fetch for every result the cache cannot serve, its
        answers followed by the cached copies; no request at all when the cache serves
        everything. */
    method FetchAll(srs: seq<ScoredResult>, server: seq<FetchDocument> -> seq<FetchResult>) returns (results: seq<FetchResult>)
      modifies this
      ensures var needed := Needed(srs, old(documentCache));
        if |needed| > 0 then
          results == server(needed) + FromCache(srs, old(documentCache)) &&
          documentCache == PutFetched(old(documentCache), server(needed))
        else
          results == FromCache(srs, old(documentCache)) && documentCache == old(documentCache)
    {
      var resultsFromCache, fetchDocumentList := Partition(srs);
      if |fetchDocumentList| > 0 {
        var fetched := server(fetchDocumentList);
        var k := 0;
        ghost var start := documentCache;
        while k < |fetched|
          invariant 0 <= k <= |fetched|
          invariant documentCache == PutFetched(start, fetched[..k])
        {
          assert fetched[..k + 1][..k] == fetched[..k];
          if fetched[k].hasResultDocument {
            documentCache := documentCache[DocId(fetched[k].uniqueId, fetched[k].indexName) := fetched[k]];
          }
          k := k + 1;
        }
        assert fetched[..|fetched|] == fetched;
        results := fetched + resultsFromCache;
      } else {
        results := resultsFromCache;
      }
    }
  }
}
