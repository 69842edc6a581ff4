# rag_plat retrieval core in Dafny

This project models the retrieval path of rag_plat, a question-answering
assistant. The assistant answers from a local Markdown knowledge file,
indexed in a Chroma vector store, and from web results of a SearXNG
aggregator. The model covers five pieces:

- **Loader** (`loader.dfy`). `DocumentLoader` opens the knowledge file by
  trying a fixed list of text encodings in order. The first encoding that does
  not fail with a decoding or runtime error decides the result. If every
  encoding fails that way, a `RuntimeError` naming the file is raised.
- **Vector store set-up** (`vector_db.dfy`). `VectorDatabase` builds the
  collection from the file's first document when the storage directory is
  missing or empty. Otherwise it opens the persisted collection. Either way
  the collection uses cosine similarity.
- **Search client** (`search.dfy`). `SearxngClient` builds the query
  parameters and sends one request. It returns the reply's `results` array,
  or `[]` on any failure, and never raises. Its `to_documents` turns each
  result into a document with exactly four metadata keys and a labelled
  content string.
- **Hybrid retriever** (`retriever.dfy`). `HybridRetriever` keeps at most
  three local neighbours whose distance is at most 0.3. Web search can be
  switched off, and its failures become an empty list; its results are cut to
  `top_k`. The merge first tags each document's `source` and `url` in place.
  It then sorts by `(-rank if web else 0, len(content))` in descending order,
  drops repeated `title[:30]_hash(content[:200])` identifiers, and keeps
  twelve.
- **Specification modules.** `fusion.dfy`, `dedup.dfy` and `stable_sort.dfy`
  state the merge as functions on value snapshots of the documents. The lemmas
  about it (order, uniqueness, first occurrences kept, stability, when a
  `TypeError` is raised) are proved there. `py.dfy` holds Python's slicing,
  `join`, `split` and integer formatting. `documents.dfy` holds the LangChain
  `Document`: a class whose metadata dictionary is updated in place.

The parts that work step by step are methods with loops and frames. These are
the encoding loop, the conversion loop of `to_documents`, `doc in local_docs`,
and both loops of `_merge_results`. Each method is proved equal to a function
on values, and the properties are proved about those functions.

Parameters stand in for whatever the model cannot see:

- The network, as a function from the request to the reply.
- The text loader, as a function from path and encoding to the documents or
  the exception raised.
- The Markdown splitter.
- The vector store's similarity search.
- Python's `hash`.
- The storage directory, as a value.

Three behaviours of the code differ from what a reader might expect. The model
follows the code in all three.

- **Which HTTP statuses fail.** A reader might expect every non-2xx status to
  fail. `raise_for_status` raises only for statuses 400 to 599
  (`RaisesForStatus`). Any other final status whose body has a `results`
  array is taken as a success.
- **Which documents sort first.** The comment at utils/hybrid_retriver.py:77
  says web results are preferred. Under the sort key as written, a web result
  with a positive `rank` gets a negative first component. It therefore sorts
  after every local document (`RankedWebSortsLast`).
- **A bad web reply can make the whole retrieval raise.** Web search is meant
  to fail softly. But a result whose `title` is an integer converts without
  error, and the merge then slices that title with `[:30]` and raises
  `TypeError` (`IntegerTitleRaises`).

## Model

| member | source | states |
|---|---|---|
| Py.SliceTo | utils/hybrid_retriver.py:66 | `s[:k]` with Python's meaning for negative `k` and for `k` past the end: a prefix of the stated length |
| Py.Take | utils/hybrid_retriver.py:95 | `s[:n]` for `n >= 0`: the prefix of length `min(n, len(s))` |
| Py.Join | utils/search.py:37-38 | `sep.join(parts)`: the empty list joins to "", a single part to itself, and longer lists put `sep` between neighbours; `SplitJoin` undoes it |
| Py.IntToString | utils/hybrid_retriver.py:91 | `str(i)` inside the identifier: the decimal text of `i`, with a leading `-` when it is negative |
| Py.IntToStringShape | utils/hybrid_retriver.py:91 | that text is non-empty, starts with `-` exactly for a negative `i`, and is decimal digits after the sign |
| Py.IntToStringInjective | utils/hybrid_retriver.py:91 | `str` keeps the integer: two integers with the same text are equal |
| Py.SplitJoin | utils/search.py:37-38 | splitting a non-empty list joined with a one-character separator that no part contains gives the list back |
| StableSort.SortDesc | utils/hybrid_retriver.py:78-85 | `sorted(..., key=..., reverse=True)` as an insertion sort that places each element after every greater-key element and every earlier equal-key element; its properties are the three lemmas below |
| StableSort.SortDescSorted | utils/hybrid_retriver.py:78-85 | the sorted list is in descending key order |
| StableSort.SortDescPermutes | utils/hybrid_retriver.py:78-85 | the sorted list is a permutation of its input |
| StableSort.SortDescStable | utils/hybrid_retriver.py:78-85 | elements with equal keys keep their input order, as Python's stable `sorted(..., reverse=True)` does |
| Deduplication.Dedup | utils/hybrid_retriver.py:88-94 | the `seen` loop: an element is kept exactly when no earlier kept element has its identifier; its properties are the lemmas below |
| Deduplication.DedupFingerprints | utils/hybrid_retriver.py:88-94 | the `seen` loop loses no identifier: the kept elements carry every identifier of the input |
| Deduplication.DedupCount | utils/hybrid_retriver.py:88-94 | the `seen` loop keeps exactly one element per distinct identifier of its input |
| Deduplication.DedupUnique | utils/hybrid_retriver.py:88-94 | no two kept elements share an identifier |
| Deduplication.DedupKeepsFirsts | utils/hybrid_retriver.py:88-94 | the kept elements are exactly the first occurrence of each identifier, in input order |
| Deduplication.TakeDedupKeepsFirsts | utils/hybrid_retriver.py:88-95 | after truncation, each kept element is a first occurrence, in order; a first occurrence is missing only when the limit was already reached ahead of it |
| Fusion.Tagged | utils/hybrid_retriver.py:74-75 | `setdefault` of `source` and `url`: existing keys keep their values and missing ones get "local"/"web" and "N/A" |
| Fusion.TaggedStable | utils/hybrid_retriver.py:74-75 | tagging metadata that already has both keys changes nothing |
| Fusion.TagEntries | utils/hybrid_retriver.py:73-75 | every snapshot entry is tagged, with "local" exactly for members of the local list |
| Fusion.KeyOf | utils/hybrid_retriver.py:80-83 | the sort key: `(-rank, len(content))` for a document whose `source` is "web", with `rank` 0 when absent, and `(0, len(content))` for any other |
| Fusion.Identifier | utils/hybrid_retriver.py:91 | the identifier: the first 30 characters of the title ("" when absent), "_", then `str` of the hash of the first 200 characters of the content |
| Fusion.IdentifierKeepsHash | utils/hybrid_retriver.py:91 | for entries with the same 30-character title prefix, identifiers coincide exactly when the hashes of their 200-character content prefixes do |
| Fusion.MergeSpec | utils/hybrid_retriver.py:71-95 | the merge on values: tag every entry, raise `TypeError` when some title is not a string or some web-tagged entry's `rank` is not an integer, otherwise sort, deduplicate by identifier and keep twelve |
| Fusion.Fuse | utils/hybrid_retriver.py:78-95 | the fused list has at most twelve documents |
| Fusion.FuseKeepsFirsts | utils/hybrid_retriver.py:78-95 | the fused list is, in order, first occurrences of identifiers in the sorted candidates; one is dropped only when twelve earlier ones were kept |
| Fusion.FuseOrdered | utils/hybrid_retriver.py:78-95 | the fused list is in descending sort-key order |
| Fusion.FuseUnique | utils/hybrid_retriver.py:88-95 | no two fused documents share an identifier |
| Fusion.FuseFromCandidates | utils/hybrid_retriver.py:78-95 | the fused list is a sub-multiset of the candidates |
| Fusion.FuseCoversFewFingerprints | utils/hybrid_retriver.py:78-95 | when the candidates have at most twelve distinct identifiers, every one of them is represented in the fused list |
| Fusion.RankedWebSortsLast | utils/hybrid_retriver.py:78-85 | a web document with a positive rank is followed only by web documents of equal or greater rank |
| Fusion.UnrankedByLength | utils/hybrid_retriver.py:78-85 | without any `rank`, the fused list is ordered by content length, longest first |
| Fusion.MergeRaisesIff | utils/hybrid_retriver.py:71-95 | the merge raises `TypeError` exactly when some title is not a string, or some web-tagged document has a non-integer rank |
| Fusion.MergeOutputsAreTaggedCandidates | utils/hybrid_retriver.py:71-95 | every merged document is a tagged candidate, and there are at most twelve |
| Search.SearchParams | utils/search.py:35-41 | exactly the keys q, categories, engines, pageno and format; format is "json", and the default categories join to "general" |
| Search.SearchParamsListsRoundTrip | utils/search.py:37-38 | the comma-joined categories and engines split back to the lists given |
| Search.ResultsOf | utils/search.py:43-54 | the `results` array when the status passes `raise_for_status` and the body has one; `[]` on every failure |
| Search.FirstScalar | utils/search.py:59-62 | the position of the first result that is not an object: where the conversion loop raises |
| Search.Stamped | utils/search.py:61-62 | `source` is set to "web" only when absent; every other key is unchanged |
| Search.RaisesForStatus | utils/search.py:50 | `raise_for_status` raises exactly for statuses 400 to 599 |
| Search.HitMetadata | utils/search.py:64-69 | the four metadata keys, each the result's own value or its default ("web", "N/A", "未知引擎", "无标题") |
| Search.HitContent | utils/search.py:71 | the content `标题：{title}\n内容：{content}`, with "" for a missing title or content |
| Search.HitMetadataKeys | utils/search.py:64-69 | a converted document's metadata has exactly source, url, engine and title, each the result's value or its default |
| Search.StampedKeepsValue | utils/search.py:61-71 | stamping `source` does not change the document built from a result, and stamping twice is stamping once |
| Search.HitValues | utils/search.py:57-76 | one document per result, in order, each built from that result alone |
| Search.StampedUpTo | utils/search.py:59-62 | after the loop's first `n` steps, exactly the first `n` results are stamped |
| Search.SearxngClient.constructor | utils/search.py:8-13 | the endpoint is the base URL plus "/search", the headers ask for JSON, and exactly the canary request is sent |
| Search.SearxngClient.RequestFor | utils/search.py:44-49 | the request carries the client's URL, headers and timeout and the search parameters |
| Search.SearxngClient.Search | utils/search.py:30-54 | exactly one request is sent, and the result is `ResultsOf` of its reply (never an exception) |
| Search.SearxngClient.ToDocuments | utils/search.py:57-76 | converts exactly when every result is an object, yielding fresh documents whose values are `HitValues`; results are stamped up to the first non-object |
| Retriever.PassingPositionsIff | utils/hybrid_retriver.py:29 | the recorded positions are exactly those of pairs with score at most 0.3 |
| Retriever.PassingEmbeds | utils/hybrid_retriver.py:29 | the comprehension keeps the passing documents at those positions, in index order |
| Retriever.FilterLocal | utils/hybrid_retriver.py:29 | at most three documents are kept |
| Retriever.LocalDocsAreFirstPassing | utils/hybrid_retriver.py:21-31 | the local documents are the first (at most three) passing pairs in store order; one is left out only after three were kept |
| Retriever.WebValues | utils/hybrid_retriver.py:58-69 | nothing when web search is off or a result is not an object; otherwise a prefix of the converted results whose length is `min(top_k, n)` for `top_k >= 0` and `max(0, n + top_k)` for a negative `top_k`, with `n` results |
| Retriever.IntegerTitleRaises | utils/hybrid_retriver.py:91 | a converted web result whose `title` is an integer makes the merge raise `TypeError`, wherever it sits among the candidates |
| Retriever.Contains | utils/hybrid_retriver.py:74 | `doc in local_docs`: true exactly when some element is the same object or holds an equal value |
| Retriever.TagMetadata | utils/hybrid_retriver.py:73-75 | each document's metadata becomes its tagged original, with "local" exactly for members of `local_docs` |
| Retriever.TagStep | utils/hybrid_retriver.py:74 | for an untagged document, value membership in `local_docs` coincides with object membership |
| Retriever.DedupByIdentifier | utils/hybrid_retriver.py:88-94 | the `seen` loop computes `Dedup` by identifier |
| Retriever.HybridRetriever.constructor | utils/hybrid_retriver.py:12-15 | stores the vector search, the client, the web switch and `top_k` |
| Retriever.HybridRetriever.GetLocalDocs | utils/hybrid_retriver.py:18-31 | at most three documents are returned (which ones: `LocalDocsAreFirstPassing`) |
| Retriever.HybridRetriever.GetWebDocs | utils/hybrid_retriver.py:58-69 | off: no request and `[]`; on: exactly one request, and fresh documents whose values are `WebValues` of the reply |
| Retriever.HybridRetriever.MergeResults | utils/hybrid_retriver.py:71-95 | every document is tagged in place, and the result is the fusion spec of the snapshot of `web_docs + local_docs` taken before tagging |
| Retriever.HybridRetriever.GetRelevantDocuments | utils/hybrid_retriver.py:97-104 | one request is sent when web search is on and none when it is off; the web documents are fresh, and their content and (before tagging) metadata are those of `WebValues`; every document's metadata becomes `Tagged` of its old metadata (`url` defaulted to "N/A", `source` filled in only where missing: "web" for the web documents, "local" for the local ones — a converted web result keeps its own `source`, which is "web" only when the result had none); the result is the merge of the web documents followed by the local documents as they were before tagging |
| Loader.Fallback | core/document_loader.py:15-24 | the encoding loop as a recursion: a decoding or runtime error moves on to the next encoding, anything else ends the loop; a decoding error never escapes, and the only `RuntimeError` raised is the one naming the file |
| Loader.Decisive | core/document_loader.py:18-23 | the deciding position: every earlier encoding failed over, and the one there did not |
| Loader.FallbackDecided | core/document_loader.py:15-24 | the outcome is the deciding encoding's, or the `RuntimeError` naming the file when all failed over (an empty list included) |
| Loader.FallbackSucceedsIff | core/document_loader.py:18-21 | loading succeeds with some documents exactly when an encoding loads them after every earlier one failed over |
| Loader.FallbackRaisesIff | core/document_loader.py:22-24 | the file-naming error exactly when every encoding failed over; any other exception propagates exactly when the first attempt that does not fail over raised it |
| Loader.DocumentLoader.constructor | core/document_loader.py:11-13 | the file path under the project root and the configured encodings, in order |
| Loader.DocumentLoader.LoadWithFallback | core/document_loader.py:15-24 | returns `Fallback`; the encodings attempted are those up to and including the deciding one, in list order |
| Loader.MarkdownProcessor.constructor | core/document_loader.py:30-31 | the three configured header levels, and no metadata handed over yet |
| VectorDb.InitOutcome | core/vector_db.py:26-48 | `_init_vector_db` on values: listing a plain file raises, a populated directory is opened, otherwise the loader's error, `IndexError` for no documents, or a store built from the split first document |
| VectorDb.OpenIgnoresLoader | core/vector_db.py:42-48 | a non-empty directory is opened, whatever the loader or splitter would give, and the processor's metadata is untouched |
| VectorDb.BuiltIff | core/vector_db.py:29-41 | a store is built exactly when the directory is missing or empty and a document loaded; it holds the chunks of the first document's content |
| VectorDb.BuildFailures | core/vector_db.py:32-34 | on the build path a loader error propagates, and an empty document list raises `IndexError` |
| VectorDb.SameStoreSettings | core/vector_db.py:36-48 | both paths use cosine similarity, the persist directory and the embedding model |
| VectorDb.VectorDatabase.constructor | core/vector_db.py:10-15 | loader, processor and embedding model are set first, and the store is the initialisation outcome computed with them |
| VectorDb.VectorDatabase.InitVectorDb | core/vector_db.py:26-48 | the outcome is `InitOutcome`; metadata is handed to the processor only on the build path; nothing is loaded when the store is opened |

## Left out

- Printing: every `print` call, the emoji progress messages and the warning texts of the `except` branches.
- `validate_searxng_connection` (utils/search.py:15-27): only its single canary request is modelled, in the constructor. Its outcome is only printed.
- `requests.get`, `raise_for_status` and `response.json()`: the network is a function from the request to a reply. A reply is a connection failure or a status with a body; a body is non-JSON, JSON without `results`, or the `results` array.
- JSON values: result fields hold strings or integers. Floats, `None`, lists and nested objects are not modelled. A non-object element of `results` stands for any value on which `to_documents` raises.
- Search.SearxngClient.ToDocuments: `result["source"] = "web"` mutates the caller's dictionaries in place. This is modelled as the out-parameter `stamped`, the results list after the loop. `_get_web_docs` discards that list, so no caller can observe the difference.
- The aggregator's settings (`top_k`, base URL, timeout, engine list): configs/settings.py does not define the `SEARCH` dictionary that the retriever and the client read, so these are parameters.
- `_get_es_local_docs` (utils/hybrid_retriver.py:34-56): it is never called, and it uses an attribute the retriever does not have.
- Chroma, HuggingFace embeddings, `TextLoader` and `MarkdownHeaderTextSplitter`: their behaviour is not visible to this model. The similarity search, the text loader and the splitter are function parameters. A store is described by its settings and where its documents came from.
- `MarkdownProcessor.split_document` (core/document_loader.py:33-41): the splitter parameter takes its place, applied to the configured header levels.
- Python's `hash` is salted per process, so it is an uninterpreted function from strings to integers.
- Document equality in `doc in local_docs` compares the whole value (content and metadata); the identifier and type fields of a LangChain document are not modelled.
- Aliasing between metadata dictionaries: each document owns its metadata map. Two documents sharing one dictionary object, whose tagging would then be seen by both, are not modelled.
- Score values are reals compared against 0.3; the store's distance computation is not modelled.
- Paths are strings joined with "/"; `pathlib` normalisation is not modelled. A persist path that exists but is a plain file is modelled as raising `NotADirectoryError` when listed.
- A constructor that raises has no object in Python; here `VectorDatabase.vectorStore` holds the error instead.
- Exceptions from the library calls: `similarity_search_with_score` (utils/hybrid_retriver.py:21, 100), `Chroma.from_documents` and `Chroma(...)` (core/vector_db.py:36, 44), the splitter and `HuggingFaceEmbeddings` (core/vector_db.py:13-15) are total functions here, so none of them raises.
- The store's documents are fixed objects: `vectorSearch` is a function, so each call returns the same `Doc` objects, which still carry the tagging of an earlier call. Chroma builds new documents on every `similarity_search_with_score`. Results do not differ, because tagging twice is tagging once (`TaggedStable`).
- Retriever.HybridRetriever.GetLocalDocs: its own contract states only the bound of three; which documents it keeps is stated by `LocalDocsAreFirstPassing` about `FilterLocal`, the function it returns.
- The LLM, the prompt and the question-answering chain (core/qa_system.py) and the command-line driver (main.py) are not part of this model.
