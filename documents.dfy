/** The passage record shared by every component: langchain's `Document`, an
    object with a text body and a metadata dictionary that callers update in
    place. */
module Documents {

  /** A metadata value. Search results and the fusion key only ever read
      strings and integers (`rank`). */
  datatype Value = Str(s: string) | Int(i: int)

  type Metadata = map<string, Value>

  /** The value a `Document` holds at one moment: what Python's `==` compares. */
  datatype DocValue = DocValue(content: string, metadata: Metadata)

  class Doc {
    /** `page_content`; no operation of the core assigns it. */
    const content: string
    /** `metadata`, a dictionary the fusion step completes in place. */
    var metadata: Metadata

    constructor (content: string, metadata: Metadata)
      ensures this.content == content && this.metadata == metadata
    {
      this.content := content;
      this.metadata := metadata;
    }

    function Value(): (v: DocValue)
      reads this
      ensures v.content == content && v.metadata == metadata
    {
      DocValue(content, metadata)
    }
  }

  /** The values of a list of documents, in order. */
  function Values(docs: seq<Doc>): (r: seq<DocValue>)
    reads docs
    ensures |r| == |docs|
    ensures forall i {:trigger r[i]} :: 0 <= i < |docs| ==> r[i] == docs[i].Value()
  {
    if docs == [] then [] else [docs[0].Value()] + Values(docs[1..])
  }

  lemma ValuesSnoc(docs: seq<Doc>, d: Doc)
    ensures Values(docs + [d]) == Values(docs) + [d.Value()]
  {
  }

  /** Appending a document created since the earlier state keeps every
      element created since then. */
  twostate lemma FreshSnoc(new docs: seq<Doc>, new d: Doc)
    requires forall k :: 0 <= k < |docs| ==> fresh(docs[k])
    requires fresh(d)
    ensures forall k :: 0 <= k < |docs + [d]| ==> fresh((docs + [d])[k])
  {
  }

  /** Python's `doc in docs`: some member is the same object or an equal one. */
  predicate ContainsEqual(docs: seq<Doc>, d: Doc)
    reads docs, d
  {
    exists k :: 0 <= k < |docs| && (docs[k] == d || docs[k].Value() == d.Value())
  }
}
