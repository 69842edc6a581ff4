/** `HybridRetriever`: a local similarity search filtered by score, a web
    search through the aggregator client, and the fusion of the two lists. */
module Retriever {
  import opened Py
  import opened Documents
  import opened StableSort
  import opened Deduplication
  import opened Fusion
  import opened Search

  /** The number of neighbours asked of the vector store. */
  const LocalCandidates: int := 5
  /** Chroma reports a distance: a lower score is a closer match. */
  const ScoreThreshold: real := 0.3
  const MaxLocal: nat := 3
  /** `to_documents`' `min_score` default; it filters nothing. */
  const DefaultMinScore: real := 0.7

  /** One `(doc, score)` pair of `similarity_search_with_score`. */
  datatype Scored = Scored(doc: Doc, score: real)

  predicate Passes(x: Scored)
  {
    x.score <= ScoreThreshold
  }

  function DocsOf(s: seq<Scored>): (r: seq<Doc>)
    ensures |r| == |s|
    ensures forall i {:trigger r[i]} :: 0 <= i < |s| ==> r[i] == s[i].doc
  {
    if s == [] then [] else [s[0].doc] + DocsOf(s[1..])
  }

  /** `[doc for doc, score in docs_with_scores if score <= 0.3]`. */
  function Passing(s: seq<Scored>): seq<Doc>
  {
    if s == [] then []
    else
      var earlier := Passing(s[..|s| - 1]);
      if Passes(s[|s| - 1]) then earlier + [s[|s| - 1].doc] else earlier
  }

  /** The positions of the passing pairs, in order. */
  function PassingPositions(s: seq<Scored>): seq<int>
  {
    if s == [] then []
    else
      var earlier := PassingPositions(s[..|s| - 1]);
      if Passes(s[|s| - 1]) then earlier + [|s| - 1] else earlier
  }

  /** The recorded positions are exactly those of the passing pairs. */
  lemma {:induction false} PassingPositionsIff(s: seq<Scored>)
    ensures forall k :: 0 <= k < |PassingPositions(s)| ==> 0 <= PassingPositions(s)[k] < |s|
    ensures forall i :: 0 <= i < |s| ==> (i in PassingPositions(s) <==> Passes(s[i]))
  {
    if s != [] {
      var init := s[..|s| - 1];
      PassingPositionsIff(init);
      var idx := PassingPositions(init);
      var idx' := PassingPositions(s);
      assert idx' == if Passes(s[|s| - 1]) then idx + [|s| - 1] else idx;
      forall i | 0 <= i < |s| ensures i in idx' <==> Passes(s[i]) {
        if i < |init| {
          assert s[i] == init[i];
          assert i in idx' <==> i in idx;
        } else {
          assert i !in idx;
        }
      }
    }
  }

  /** The comprehension keeps exactly the passing pairs, in index order. */
  lemma {:induction false} PassingEmbeds(s: seq<Scored>)
    ensures Embeds(Passing(s), DocsOf(s), PassingPositions(s))
  {
    if s != [] {
      var init := s[..|s| - 1];
      PassingEmbeds(init);
      PassingPositionsIff(init);
      var p, idx, docs := Passing(init), PassingPositions(init), DocsOf(s);
      assert forall k :: 0 <= k < |idx| ==> docs[idx[k]] == DocsOf(init)[idx[k]];
      if Passes(s[|s| - 1]) {
        var p', idx' := p + [s[|s| - 1].doc], idx + [|s| - 1];
        assert forall k :: 0 <= k < |idx| ==> p'[k] == p[k] && idx'[k] == idx[k];
        assert Embeds(p', docs, idx');
      }
    }
  }

  /** The filter of `_get_local_docs`: the passing documents, at most three. */
  function FilterLocal(s: seq<Scored>): (r: seq<Doc>)
    ensures |r| <= MaxLocal
  {
    Take(Passing(s), MaxLocal)
  }

  /** The local documents are the first (at most) three pairs within the
      threshold, in the store's order: a passing pair is left out only when
      three earlier ones were kept. */
  lemma LocalDocsAreFirstPassing(s: seq<Scored>)
    ensures var r := FilterLocal(s);
            exists idx ::
              && Embeds(r, DocsOf(s), idx)
              && (forall k :: 0 <= k < |idx| ==> Passes(s[idx[k]]))
              && (forall i :: 0 <= i < |s| && Passes(s[i]) && i !in idx ==>
                    |r| == MaxLocal && idx[MaxLocal - 1] < i)
  {
    var all := PassingPositions(s);
    PassingEmbeds(s);
    PassingPositionsIff(s);
    var p := Passing(s);
    var n := Min(MaxLocal, |p|);
    var idx := all[..n];
    EmbedsPrefix(p, DocsOf(s), all, n);
    assert FilterLocal(s) == p[..n];
    forall k | 0 <= k < |idx| ensures Passes(s[idx[k]]) {
      assert idx[k] == all[k] && all[k] in all;
    }
    forall i | 0 <= i < |s| && Passes(s[i]) && i !in idx
      ensures n == MaxLocal && idx[MaxLocal - 1] < i
    {
      var m :| 0 <= m < |all| && all[m] == i;
      assert forall k :: 0 <= k < n ==> all[k] in idx;
      assert n <= m;
      assert all[n - 1] < all[m];
    }
  }

  /** What `_get_web_docs` returns, as document values, for the reply to its
      one request: nothing when web search is off or `to_documents` raised,
      otherwise the first `top_k` converted results. */
  function WebValues(enableWeb: bool, topK: int, resp: HttpResponse): (r: seq<DocValue>)
    ensures !enableWeb ==> r == []
    ensures r <= (if enableWeb && AllObjects(ResultsOf(resp)) then HitValues(ResultsOf(resp)) else [])
    ensures topK >= 0 ==> |r| <= topK
    ensures enableWeb && AllObjects(ResultsOf(resp)) && 0 <= topK <= |ResultsOf(resp)| ==> |r| == topK
    ensures enableWeb && AllObjects(ResultsOf(resp)) ==>
              |r| == if topK >= 0 then Min(topK, |ResultsOf(resp)|) else Max(0, |ResultsOf(resp)| + topK)
  {
    if !enableWeb then []
    else
      var items := ResultsOf(resp);
      if AllObjects(items) then SliceTo(HitValues(items), topK) else []
  }

  /** A web result whose `title` is an integer survives the conversion, but
      the merge then slices that title and raises `TypeError`, wherever the
      converted result sits among the candidates: a bad reply gets past the
      fail-soft web search. */
  lemma IntegerTitleRaises(before: seq<Entry>, after: seq<Entry>, d: Doc, fields: map<string, Value>,
                           locals: seq<Doc>, id: Entry -> string)
    requires "title" in fields && fields["title"].Int?
    ensures var v := HitValue(fields);
            MergeSpec(before + [Entry(d, v.content, v.metadata)] + after, locals, id).TypeError?
  {
    var v := HitValue(fields);
    var combined := before + [Entry(d, v.content, v.metadata)] + after;
    MergeRaisesIff(combined, locals, id);
    assert combined[|before|].metadata == v.metadata;
    assert "title" in v.metadata && v.metadata["title"] == fields["title"];
  }

  lemma ValuesSliceTo(docs: seq<Doc>, k: int)
    ensures Values(SliceTo(docs, k)) == SliceTo(Values(docs), k)
  {
  }

  /** Documents paired with the values they hold. */
  function EntriesOf(docs: seq<Doc>, vals: seq<DocValue>): (r: seq<Entry>)
    requires |docs| == |vals|
    ensures |r| == |docs|
    ensures forall i {:trigger r[i]} :: 0 <= i < |docs| ==> r[i] == Entry(docs[i], vals[i].content, vals[i].metadata)
  {
    if docs == [] then [] else [Entry(docs[0], vals[0].content, vals[0].metadata)] + EntriesOf(docs[1..], vals[1..])
  }

  lemma {:induction false} SnapshotAppend(a: seq<Doc>, b: seq<Doc>)
    ensures Snapshot(a + b) == Snapshot(a) + Snapshot(b)
  {
    assert |Snapshot(a + b)| == |Snapshot(a) + Snapshot(b)|;
    forall i | 0 <= i < |a + b| ensures Snapshot(a + b)[i] == (Snapshot(a) + Snapshot(b))[i] {
      if i < |a| {
        assert Snapshot(a)[i] == (Snapshot(a) + Snapshot(b))[i];
      } else {
        assert Snapshot(b)[i - |a|] == (Snapshot(a) + Snapshot(b))[i];
      }
    }
  }

  lemma SnapshotIsEntries(docs: seq<Doc>)
    ensures Snapshot(docs) == EntriesOf(docs, Values(docs))
  {
    assert |Snapshot(docs)| == |EntriesOf(docs, Values(docs))|;
    forall i | 0 <= i < |docs| ensures Snapshot(docs)[i] == EntriesOf(docs, Values(docs))[i] {
      assert Values(docs)[i] == docs[i].Value();
    }
  }

  /** Python's `doc in docs`, scanning left to right. */
  method Contains(docs: seq<Doc>, d: Doc) returns (b: bool)
    ensures b == ContainsEqual(docs, d)
  {
    b := false;
    var k := 0;
    while k < |docs| && !b
      invariant 0 <= k <= |docs|
      invariant b ==> ContainsEqual(docs, d)
      invariant !b ==> forall j :: 0 <= j < k ==> docs[j] != d && docs[j].Value() != d.Value()
    {
      b := docs[k] == d || docs[k].Value() == d.Value();
      k := k + 1;
    }
  }

  /** The first loop of `_merge_results`: over `local_docs + web_docs`,
      `setdefault("source", "local" if doc in local_docs else "web")`, then
      `setdefault("url", "N/A")`. Each document ends up tagged as its original
      metadata says, with "local" exactly for the members of `local_docs`. */
  method TagMetadata(localDocs: seq<Doc>, webDocs: seq<Doc>)
    modifies localDocs`metadata, webDocs`metadata
    ensures forall d :: d in localDocs + webDocs ==> d.metadata == Tagged(old(d.metadata), d in localDocs)
  {
    var all := localDocs + webDocs;
    var i := 0;
    while i < |all|
      invariant 0 <= i <= |all|
      invariant forall d :: d in all ==>
        d.metadata == if d in all[..i] then Tagged(old(d.metadata), d in localDocs) else old(d.metadata)
    {
      var d := all[i];
      var isLocal := Contains(localDocs, d);
      TagStep(localDocs, webDocs, i, isLocal);
      if "source" !in d.metadata {
        d.metadata := d.metadata["source" := if isLocal then LocalSource else WebSource];
      }
      if "url" !in d.metadata {
        d.metadata := d.metadata["url" := MissingUrl];
      }
      PrefixSnoc(all, i);
      i := i + 1;
    }
  }

  /** Why the value comparison of `doc in local_docs` amounts to membership
      where it matters: every local document is tagged before any web
      document is checked, and a document without `source` equals no tagged
      one. */
  lemma TagStep(localDocs: seq<Doc>, webDocs: seq<Doc>, i: int, isLocal: bool)
    requires 0 <= i < |localDocs + webDocs|
    requires forall d :: d in (localDocs + webDocs)[..i] ==> "source" in d.metadata
    requires isLocal == ContainsEqual(localDocs, (localDocs + webDocs)[i])
    ensures "source" !in (localDocs + webDocs)[i].metadata ==> (isLocal <==> (localDocs + webDocs)[i] in localDocs)
  {
    var all := localDocs + webDocs;
    var d := all[i];
    if "source" !in d.metadata {
      if i < |localDocs| {
        assert localDocs[i] == d;
      } else {
        forall k | 0 <= k < |localDocs| ensures localDocs[k] != d && localDocs[k].Value() != d.Value() {
          assert localDocs[k] == all[..i][k];
        }
      }
    }
  }

  /** The second loop of `_merge_results`: keep a document when its
      identifier is not yet in `seen`. */
  method DedupByIdentifier(combined: seq<Entry>, hash: string -> int) returns (merged: seq<Entry>)
    ensures merged == Dedup(combined, IdentifierOf(hash))
  {
    var seen: set<string> := {};
    merged := [];
    for i := 0 to |combined|
      invariant merged == Dedup(combined[..i], IdentifierOf(hash))
      invariant seen == Fingerprints(merged, IdentifierOf(hash))
    {
      var e := combined[i];
      var identifier := Identifier(e, hash);
      PrefixSnoc(combined, i);
      DedupSnoc(combined[..i], e, IdentifierOf(hash));
      if identifier !in seen {
        FingerprintsSnoc(merged, e, IdentifierOf(hash));
        seen := seen + {identifier};
        merged := merged + [e];
      }
    }
    assert combined[..|combined|] == combined;
  }

  /** `HybridRetriever`: its pydantic fields, with the vector store reduced
      to its similarity search. */
  class HybridRetriever {
    /** `vector_db.similarity_search_with_score(query=..., k=...)`. */
    const vectorSearch: (string, int) -> seq<Scored>
    const searxngClient: SearxngClient
    const enableWeb: bool
    const topK: int

    constructor (vectorSearch: (string, int) -> seq<Scored>, searxngClient: SearxngClient, enableWeb: bool, topK: int)
      ensures this.vectorSearch == vectorSearch && this.searxngClient == searxngClient
      ensures this.enableWeb == enableWeb && this.topK == topK
    {
      this.vectorSearch := vectorSearch;
      this.searxngClient := searxngClient;
      this.enableWeb := enableWeb;
      this.topK := topK;
    }

    /** Five neighbours from the store, filtered by score, at most three kept. */
    function GetLocalDocs(query: string): (r: seq<Doc>)
      ensures |r| <= MaxLocal
    {
      FilterLocal(vectorSearch(query, LocalCandidates))
    }

    /** The request `_get_web_docs` sends: `search(query)` with every default. */
    function WebRequest(query: string): (req: Request)
    {
      searxngClient.RequestFor(query, DefaultCategories, searxngClient.defaultEngines, DefaultPage)
    }

    /** Off: `[]` and no request. On: one request, and the first `top_k`
        converted results, or `[]` when the conversion raised. */
    method GetWebDocs(query: string, transport: Request -> HttpResponse) returns (docs: seq<Doc>)
      modifies searxngClient`sent
      ensures !enableWeb ==> searxngClient.sent == old(searxngClient.sent)
      ensures enableWeb ==> searxngClient.sent == old(searxngClient.sent) + [WebRequest(query)]
      ensures Values(docs) == WebValues(enableWeb, topK, transport(WebRequest(query)))
      ensures forall i :: 0 <= i < |docs| ==> fresh(docs[i])
    {
      if !enableWeb {
        return [];
      }
      var results := searxngClient.Search(query, DefaultCategories, searxngClient.defaultEngines, DefaultPage, transport);
      var conversion, _ := searxngClient.ToDocuments(results, DefaultMinScore);
      assert conversion.Converted? ==> forall i :: 0 <= i < |conversion.docs| ==> fresh(conversion.docs[i]);
      match conversion {
        case Converted(all) =>
          docs := SliceTo(all, topK);
          ValuesSliceTo(all, topK);
          assert forall i :: 0 <= i < |docs| ==> docs[i] == all[i];
        case ConversionRaised =>
          docs := [];
      }
    }

    /** `_merge_results`: tag every document in place, then sort, deduplicate
        and truncate; the outcome is the fusion of the snapshot taken before
        tagging. */
    method MergeResults(localDocs: seq<Doc>, webDocs: seq<Doc>, hash: string -> int) returns (r: MergeOutcome<Doc>)
      modifies localDocs`metadata, webDocs`metadata
      ensures forall d :: d in localDocs + webDocs ==> d.metadata == Tagged(old(d.metadata), d in localDocs)
      ensures forall i :: 0 <= i < |localDocs| ==> localDocs[i].metadata == Tagged(old(localDocs[i].metadata), true)
      ensures forall i :: 0 <= i < |webDocs| && webDocs[i] !in localDocs ==>
                webDocs[i].metadata == Tagged(old(webDocs[i].metadata), false)
      ensures r == MapRefs(MergeSpec(old(Snapshot(webDocs + localDocs)), localDocs, IdentifierOf(hash)))
    {
      ghost var before := Snapshot(webDocs + localDocs);
      TagMetadata(localDocs, webDocs);
      var tagged := Snapshot(webDocs + localDocs);
      assert tagged == TagEntries(before, localDocs);
      if !(forall i :: 0 <= i < |tagged| ==> WellTyped(tagged[i])) {
        return TypeError;
      }
      var combined := Ranked(tagged);
      var merged := DedupByIdentifier(combined, hash);
      r := Merged(Refs(Take(merged, MaxMerged)));
    }

    /** The document values `_get_web_docs` gives for `query`. */
    ghost function WebReply(query: string, transport: Request -> HttpResponse): seq<DocValue>
    {
      WebValues(enableWeb, topK, transport(WebRequest(query)))
    }

    /** Local retrieval, then web retrieval, then the merge, one after the
        other. The web side sends its one request (none when off) and
        contributes fresh documents whose values are `WebValues`, so its
        failures surface only as fewer candidates. Every document handed to
        the merge is tagged in place: `url` is defaulted, and `source` is set
        only where it is missing, to "local" for the local documents and to
        "web" for the web ones. A converted web result already carries its
        own `source`, which is "web" only when the result had none. */
    method GetRelevantDocuments(query: string, transport: Request -> HttpResponse, hash: string -> int)
      returns (r: MergeOutcome<Doc>, ghost webDocs: seq<Doc>)
      modifies searxngClient`sent, GetLocalDocs(query)`metadata
      ensures !enableWeb ==> searxngClient.sent == old(searxngClient.sent)
      ensures enableWeb ==> searxngClient.sent == old(searxngClient.sent) + [WebRequest(query)]
      ensures |webDocs| == |WebReply(query, transport)|
      ensures forall i :: 0 <= i < |webDocs| ==> fresh(webDocs[i])
      ensures forall i :: 0 <= i < |webDocs| ==>
                webDocs[i].metadata == Tagged(WebReply(query, transport)[i].metadata, false)
      ensures forall i :: 0 <= i < |webDocs| ==> webDocs[i].content == WebReply(query, transport)[i].content
      ensures var locals, before := GetLocalDocs(query), old(Snapshot(GetLocalDocs(query)));
              forall i :: 0 <= i < |locals| ==> locals[i].metadata == Tagged(before[i].metadata, true)
      ensures r == MapRefs(MergeSpec(
        EntriesOf(webDocs, WebReply(query, transport)) + old(Snapshot(GetLocalDocs(query))),
        GetLocalDocs(query), IdentifierOf(hash)))
    {
      var localDocs := GetLocalDocs(query);
      assert old(allocated(localDocs));
      ghost var localBefore := Snapshot(localDocs);
      var web := GetWebDocs(query, transport);
      webDocs := web;
      ghost var sent := searxngClient.sent;
      ghost var vals := Values(web);
      assert Snapshot(localDocs) == localBefore;
      SnapshotAppend(web, localDocs);
      SnapshotIsEntries(web);
      assert forall i :: 0 <= i < |web| ==> web[i] !in localDocs && web[i].metadata == vals[i].metadata;
      r := MergeResults(localDocs, web, hash);
      assert searxngClient.sent == sent;
    }
  }
}
