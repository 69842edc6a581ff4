/** `VectorDatabase`: sets up the loader, the Markdown processor and the
    embedding model, then either builds the vector store from the knowledge
    file or opens the one already persisted. The store itself, the splitter
    and the text loader are outside the model: the storage directory is a
    value, the splitter and the text loader are function parameters, and a
    store is described by what it is created with. */
module VectorDb {
  import opened Py
  import opened Documents
  import opened Loader

  /** The persist directory, relative to the project root. */
  const StorageDir := "/storage/chroma_db"

  /** The embedding model settings: name, device, and the encode options. */
  datatype Embedding = Embedding(name: string, device: string, normalizeEmbeddings: bool, batchSize: nat)

  const M3e := Embedding("moka-ai/m3e-base", "cpu", true, 32)

  /** The collection metadata both paths pass: cosine similarity. */
  const CosineSpace: map<string, string> := map["hnsw:space" := "cosine"]

  /** What the persist directory looks like on disk. */
  datatype Storage = Missing | Directory(entries: set<string>) | PlainFile

  /** How a store came to be: built from these chunks, or opened as persisted. */
  datatype Origin = Built(chunks: seq<DocValue>) | Opened

  /** A Chroma store, by what it was created with. */
  datatype Store = Store(persistDirectory: string, embedding: Embedding, collectionMetadata: map<string, string>, origin: Origin)

  /** The exceptions the initialisation can end in: the loader's error, the
      index into an empty document list, or listing a path that is a file. */
  datatype InitError = LoadError(error: Error) | IndexError | NotADirectoryError

  datatype StoreOutcome = Ready(store: Store) | InitRaised(error: InitError)

  /** The build path runs when the directory is missing or has no entries. */
  predicate NeedsBuild(storage: Storage)
  {
    storage.Missing? || (storage.Directory? && storage.entries == {})
  }

  /** The store initialisation on values: `loaded` is what the loader gives,
      consulted only on the build path, and `split` the splitter over the
      header levels. */
  function InitOutcome(storage: Storage, loaded: LoadResult, split: (seq<(string, string)>, string) -> seq<DocValue>,
                       headers: seq<(string, string)>, persistDirectory: string, embedding: Embedding): StoreOutcome
  {
    if storage.PlainFile? then InitRaised(NotADirectoryError)
    else if !NeedsBuild(storage) then Ready(Store(persistDirectory, embedding, CosineSpace, Opened))
    else match loaded
      case Failure(e) => InitRaised(LoadError(e))
      case Success(docs) =>
        if docs == [] then InitRaised(IndexError)
        else Ready(Store(persistDirectory, embedding, CosineSpace, Built(split(headers, docs[0].content))))
  }

  /** The processor's metadata after the initialisation: the first loaded
      document's, set only on the build path once a document was loaded. */
  function MetadataAfter(storage: Storage, loaded: LoadResult, before: Option<Metadata>): Option<Metadata>
  {
    if NeedsBuild(storage) && loaded.Success? && loaded.docs != [] then Some(loaded.docs[0].metadata) else before
  }

  /** A populated directory is opened whatever the loader and the splitter
      would give: neither is consulted. */
  lemma OpenIgnoresLoader(storage: Storage, l1: LoadResult, l2: LoadResult,
                          s1: (seq<(string, string)>, string) -> seq<DocValue>, s2: (seq<(string, string)>, string) -> seq<DocValue>,
                          headers: seq<(string, string)>, dir: string, embedding: Embedding, before: Option<Metadata>)
    requires storage.Directory? && storage.entries != {}
    ensures InitOutcome(storage, l1, s1, headers, dir, embedding) == InitOutcome(storage, l2, s2, headers, dir, embedding)
    ensures InitOutcome(storage, l1, s1, headers, dir, embedding) == Ready(Store(dir, embedding, CosineSpace, Opened))
    ensures MetadataAfter(storage, l1, before) == before
  {
  }

  /** A store is built exactly when the directory is missing or empty and the
      loader gave at least one document; it holds the chunks of the first
      document's content. */
  lemma BuiltIff(storage: Storage, loaded: LoadResult, split: (seq<(string, string)>, string) -> seq<DocValue>,
                 headers: seq<(string, string)>, dir: string, embedding: Embedding)
    ensures var r := InitOutcome(storage, loaded, split, headers, dir, embedding);
            (r.Ready? && r.store.origin.Built?) <==> (NeedsBuild(storage) && loaded.Success? && loaded.docs != [])
    ensures var r := InitOutcome(storage, loaded, split, headers, dir, embedding);
            r.Ready? && r.store.origin.Built? ==> r.store.origin.chunks == split(headers, loaded.docs[0].content)
  {
  }

  /** On the build path a loader error is raised as it is, and an empty
      document list raises IndexError. */
  lemma BuildFailures(storage: Storage, loaded: LoadResult, split: (seq<(string, string)>, string) -> seq<DocValue>,
                      headers: seq<(string, string)>, dir: string, embedding: Embedding)
    requires NeedsBuild(storage)
    ensures loaded.Failure? ==> InitOutcome(storage, loaded, split, headers, dir, embedding) == InitRaised(LoadError(loaded.error))
    ensures loaded == Success([]) ==> InitOutcome(storage, loaded, split, headers, dir, embedding) == InitRaised(IndexError)
  {
  }

  /** Whichever path runs, the store uses cosine similarity, the persist
      directory and the embedding model it is given. */
  lemma SameStoreSettings(storage: Storage, loaded: LoadResult, split: (seq<(string, string)>, string) -> seq<DocValue>,
                          headers: seq<(string, string)>, dir: string, embedding: Embedding)
    ensures var r := InitOutcome(storage, loaded, split, headers, dir, embedding);
            r.Ready? ==> r.store.persistDirectory == dir && r.store.embedding == embedding && r.store.collectionMetadata == CosineSpace
  {
  }

  class VectorDatabase {
    const persistDirectory: string
    const loader: DocumentLoader
    const processor: MarkdownProcessor
    const embeddingModel: Embedding
    var vectorStore: StoreOutcome

    /** Builds the components first, then the store; a raised initialisation
        is the error held in `vectorStore`. */
    constructor (projectRoot: string, storage: Storage, load: (string, string) -> Attempt,
                 split: (seq<(string, string)>, string) -> seq<DocValue>)
      ensures loader.filePath == projectRoot + SourceFile && loader.encodings == DefaultEncodings
      ensures processor.headers == MarkdownHeaders && embeddingModel == M3e
      ensures persistDirectory == projectRoot + StorageDir
      ensures vectorStore == InitOutcome(storage, Fallback(loader.filePath, loader.encodings, load), split,
                                         MarkdownHeaders, projectRoot + StorageDir, M3e)
      ensures processor.originalMetadata == MetadataAfter(storage, Fallback(loader.filePath, loader.encodings, load), None)
    {
      persistDirectory := projectRoot + StorageDir;
      loader := new DocumentLoader(projectRoot);
      processor := new MarkdownProcessor();
      embeddingModel := M3e;
      new;
      var store, _ := InitVectorDb(storage, load, split);
      vectorStore := store;
    }

    /** Opens the persisted store, or loads the file, hands the first
        document's metadata to the processor, splits its content and builds
        the store from the chunks. `attempted` is the encodings the loader
        tried: none when the store is opened. */
    method InitVectorDb(storage: Storage, load: (string, string) -> Attempt,
                        split: (seq<(string, string)>, string) -> seq<DocValue>)
      returns (r: StoreOutcome, ghost attempted: seq<string>)
      modifies processor
      ensures r == InitOutcome(storage, Fallback(loader.filePath, loader.encodings, load), split,
                               processor.headers, persistDirectory, embeddingModel)
      ensures processor.originalMetadata ==
        MetadataAfter(storage, Fallback(loader.filePath, loader.encodings, load), old(processor.originalMetadata))
      ensures !NeedsBuild(storage) ==> attempted == []
    {
      attempted := [];
      if storage.PlainFile? {
        r := InitRaised(NotADirectoryError);
        return;
      }
      if !NeedsBuild(storage) {
        r := Ready(Store(persistDirectory, embeddingModel, CosineSpace, Opened));
        return;
      }
      var loaded;
      loaded, attempted := loader.LoadWithFallback(load);
      if loaded.Failure? {
        r := InitRaised(LoadError(loaded.error));
        return;
      }
      var rawDocs := loaded.docs;
      if |rawDocs| == 0 {
        r := InitRaised(IndexError);
        return;
      }
      processor.originalMetadata := Some(rawDocs[0].metadata);
      var chunks := split(processor.headers, rawDocs[0].content);
      r := Ready(Store(persistDirectory, embeddingModel, CosineSpace, Built(chunks)));
    }
  }
}
