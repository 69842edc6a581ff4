/** What the fusion step of `HybridRetriever._merge_results` computes, stated
    over snapshots of the documents: tag, sort, deduplicate, truncate. */
module Fusion {
  import opened Py
  import opened Documents
  import opened StableSort
  import opened Deduplication

  /** At most this many fused documents are returned. */
  const MaxMerged: nat := 12
  /** The identifier uses this many leading characters of the title ... */
  const TitlePrefixLength: nat := 30
  /** ... and the hash of this many leading characters of the content. */
  const ContentPrefixLength: nat := 200

  const LocalSource: Value := Str("local")
  const WebSource: Value := Str("web")
  const MissingUrl: Value := Str("N/A")

  /** A document object together with the value it holds during the fusion. */
  datatype Entry = Entry(doc: Doc, content: string, metadata: Metadata)

  datatype MergeOutcome<T> = Merged(docs: seq<T>) | TypeError

  function Snapshot(docs: seq<Doc>): (r: seq<Entry>)
    reads docs
    ensures |r| == |docs|
    ensures forall i {:trigger r[i]} :: 0 <= i < |docs| ==> r[i] == Entry(docs[i], docs[i].content, docs[i].metadata)
  {
    if docs == [] then [] else [Entry(docs[0], docs[0].content, docs[0].metadata)] + Snapshot(docs[1..])
  }

  function Refs(s: seq<Entry>): (r: seq<Doc>)
    ensures |r| == |s|
    ensures forall i {:trigger r[i]} :: 0 <= i < |s| ==> r[i] == s[i].doc
  {
    if s == [] then [] else [s[0].doc] + Refs(s[1..])
  }

  function MapRefs(o: MergeOutcome<Entry>): MergeOutcome<Doc>
  {
    match o
    case Merged(es) => Merged(Refs(es))
    case TypeError => TypeError
  }

  /** `setdefault("source", "local" or "web")` followed by `setdefault("url", "N/A")`. */
  function Tagged(m: Metadata, isLocal: bool): (t: Metadata)
    ensures t.Keys == m.Keys + {"source", "url"}
    ensures forall k :: k in m ==> t[k] == m[k]
    ensures "source" !in m ==> t["source"] == (if isLocal then LocalSource else WebSource)
    ensures "url" !in m ==> t["url"] == MissingUrl
  {
    var withSource := if "source" in m then m else m["source" := if isLocal then LocalSource else WebSource];
    if "url" in withSource then withSource else withSource["url" := MissingUrl]
  }

  /** Tagging a document whose metadata already has both keys changes nothing. */
  lemma TaggedStable(m: Metadata, isLocal: bool)
    requires "source" in m && "url" in m
    ensures Tagged(m, isLocal) == m
  {
  }

  function TagEntries(s: seq<Entry>, locals: seq<Doc>): (r: seq<Entry>)
    ensures |r| == |s|
    ensures forall i {:trigger r[i]} :: 0 <= i < |s| ==>
      r[i] == Entry(s[i].doc, s[i].content, Tagged(s[i].metadata, s[i].doc in locals))
  {
    if s == [] then []
    else [Entry(s[0].doc, s[0].content, Tagged(s[0].metadata, s[0].doc in locals))] + TagEntries(s[1..], locals)
  }

  /** `metadata["source"] == "web"`. */
  predicate IsWeb(m: Metadata)
  {
    "source" in m && m["source"] == WebSource
  }

  /** `metadata.get("rank", 0)` where that is an integer. */
  function RankOf(m: Metadata): int
  {
    if "rank" in m && m["rank"].Int? then m["rank"].i else 0
  }

  /** `metadata.get("title", "")` where that is a string. */
  function TitleOf(m: Metadata): string
  {
    if "title" in m && m["title"].Str? then m["title"].s else ""
  }

  /** The sort key and the identifier can be computed without a TypeError:
      a web document's rank, if present, is an integer (it is negated), and
      any title is a string (it is sliced). */
  predicate WellTyped(e: Entry)
  {
    && (IsWeb(e.metadata) && "rank" in e.metadata ==> e.metadata["rank"].Int?)
    && ("title" in e.metadata ==> e.metadata["title"].Str?)
  }

  /** `(-rank if source == "web" else 0, len(page_content))`. */
  function KeyOf(e: Entry): Key
  {
    Key(if IsWeb(e.metadata) then -RankOf(e.metadata) else 0, |e.content|)
  }

  /** The identifier `f"{title[:30]}_{hash(content[:200])}"`. */
  function Identifier(e: Entry, hash: string -> int): string
  {
    Take(TitleOf(e.metadata), TitlePrefixLength) + "_" + IntToString(hash(Take(e.content, ContentPrefixLength)))
  }

  /** Two entries with the same title prefix share an identifier exactly
      when their content prefixes hash alike: the identifier keeps the hash. */
  lemma IdentifierKeepsHash(a: Entry, b: Entry, hash: string -> int)
    requires Take(TitleOf(a.metadata), TitlePrefixLength) == Take(TitleOf(b.metadata), TitlePrefixLength)
    ensures Identifier(a, hash) == Identifier(b, hash) <==>
            hash(Take(a.content, ContentPrefixLength)) == hash(Take(b.content, ContentPrefixLength))
  {
    var n := |Take(TitleOf(a.metadata), TitlePrefixLength)| + 1;
    if Identifier(a, hash) == Identifier(b, hash) {
      assert Identifier(a, hash)[n..] == IntToString(hash(Take(a.content, ContentPrefixLength)));
      assert Identifier(b, hash)[n..] == IntToString(hash(Take(b.content, ContentPrefixLength)));
      IntToStringInjective(hash(Take(a.content, ContentPrefixLength)), hash(Take(b.content, ContentPrefixLength)));
    }
  }

  function IdentifierOf(hash: string -> int): Entry -> string
  {
    (e: Entry) => Identifier(e, hash)
  }

  /** The sorted candidate list, `combined`. */
  function Ranked(s: seq<Entry>): seq<Entry>
  {
    SortDesc(s, KeyOf)
  }

  /** Sort, drop repeated identifiers, keep the first twelve. */
  function Fuse(s: seq<Entry>, id: Entry -> string): (r: seq<Entry>)
    ensures |r| <= MaxMerged
  {
    Take(Dedup(Ranked(s), id), MaxMerged)
  }

  /** The whole merge on the snapshot of `web_docs + local_docs`. */
  function MergeSpec(combined: seq<Entry>, locals: seq<Doc>, id: Entry -> string): MergeOutcome<Entry>
  {
    var tagged := TagEntries(combined, locals);
    if forall i :: 0 <= i < |tagged| ==> WellTyped(tagged[i]) then Merged(Fuse(tagged, id)) else TypeError
  }

  // ---------------------------------------------------------------------
  // Properties of the fused list

  lemma EmbedsKeepsSorted(r: seq<Entry>, s: seq<Entry>, idx: seq<int>)
    requires Embeds(r, s, idx) && SortedDesc(s, KeyOf)
    ensures SortedDesc(r, KeyOf)
  {
    forall i, j | 0 <= i < j < |r| ensures KeyGe(KeyOf(r[i]), KeyOf(r[j])) {
      assert idx[i] < idx[j];
    }
  }

  /** The fused list is a subsequence of the sorted list in which each kept
      entry is the first with its identifier; a first occurrence is missing
      only when twelve entries were already kept ahead of it. */
  lemma FuseKeepsFirsts(s: seq<Entry>, id: Entry -> string)
    ensures var ranked := Ranked(s);
            var r := Fuse(s, id);
            exists idx ::
              && Embeds(r, ranked, idx)
              && (forall k :: 0 <= k < |idx| ==> FirstOfItsKind(ranked, id, idx[k]))
              && (forall i :: 0 <= i < |ranked| && FirstOfItsKind(ranked, id, i) && i !in idx ==>
                    |r| == MaxMerged && idx[MaxMerged - 1] < i)
  {
    TakeDedupKeepsFirsts(Ranked(s), id, MaxMerged);
  }

  /** The fused list is in non-increasing key order. */
  lemma FuseOrdered(s: seq<Entry>, id: Entry -> string)
    ensures SortedDesc(Fuse(s, id), KeyOf)
  {
    FuseKeepsFirsts(s, id);
    SortDescSorted(s, KeyOf);
    var idx :| Embeds(Fuse(s, id), Ranked(s), idx);
    EmbedsKeepsSorted(Fuse(s, id), Ranked(s), idx);
  }

  /** No two fused entries share an identifier. */
  lemma FuseUnique(s: seq<Entry>, id: Entry -> string)
    ensures var r := Fuse(s, id);
            forall i, j :: 0 <= i < j < |r| ==> id(r[i]) != id(r[j])
  {
    var d := Dedup(Ranked(s), id);
    DedupUnique(Ranked(s), id);
    assert Fuse(s, id) == d[..Min(MaxMerged, |d|)];
  }

  /** Every fused entry is one of the candidates, and none is duplicated
      beyond its multiplicity among them. */
  lemma FuseFromCandidates(s: seq<Entry>, id: Entry -> string)
    ensures multiset(Fuse(s, id)) <= multiset(s)
  {
    var ranked := Ranked(s);
    var fp := id;
    SortDescPermutes(s, KeyOf);
    DedupSubMultiset(ranked, fp);
    var d := Dedup(ranked, fp);
    var n := Min(MaxMerged, |d|);
    assert d == d[..n] + d[n..];
    assert multiset(d) == multiset(d[..n]) + multiset(d[n..]);
  }

  lemma {:induction false} DedupSubMultiset<F>(s: seq<Entry>, fp: Entry -> F)
    ensures multiset(Dedup(s, fp)) <= multiset(s)
  {
    if s != [] {
      var init := s[..|s| - 1];
      DedupSubMultiset(init, fp);
      assert s == init + [s[|s| - 1]];
    }
  }

  /** When at most twelve distinct identifiers occur, every one of them
      survives the fusion. */
  lemma FuseCoversFewFingerprints(s: seq<Entry>, id: Entry -> string)
    requires |Fingerprints(s, id)| <= MaxMerged
    ensures Fingerprints(Fuse(s, id), id) == Fingerprints(s, id)
  {
    var fp := id;
    var ranked := Ranked(s);
    DedupFingerprints(ranked, fp);
    SortDescPermutes(s, KeyOf);
    forall f ensures f in Fingerprints(ranked, fp) <==> f in Fingerprints(s, fp) {
      if f in Fingerprints(ranked, fp) {
        var x :| x in ranked && fp(x) == f;
        assert x in multiset(ranked);
      }
      if f in Fingerprints(s, fp) {
        var x :| x in s && fp(x) == f;
        assert x in multiset(s);
      }
    }
    assert Fingerprints(ranked, fp) == Fingerprints(s, fp);
    DedupCount(ranked, fp);
    var d := Dedup(ranked, fp);
    assert |d| <= MaxMerged;
    assert Fuse(s, id) == d;
  }

  /** As written, a web document with a positive rank gets a negative
      primary key, so it sorts behind every document that is not from the
      web (primary key 0): nothing but web documents follows it. */
  lemma RankedWebSortsLast(s: seq<Entry>, id: Entry -> string)
    ensures var r := Fuse(s, id);
            forall i, j :: 0 <= i < j < |r| && IsWeb(r[i].metadata) && RankOf(r[i].metadata) > 0 ==>
              IsWeb(r[j].metadata) && RankOf(r[j].metadata) >= RankOf(r[i].metadata)
  {
    FuseOrdered(s, id);
  }

  /** Without ranks every primary key is 0, so the fused list is ordered by
      descending content length. */
  lemma UnrankedByLength(s: seq<Entry>, id: Entry -> string)
    requires forall i :: 0 <= i < |s| ==> "rank" !in s[i].metadata
    ensures var r := Fuse(s, id);
            forall i, j :: 0 <= i < j < |r| ==> |r[i].content| >= |r[j].content|
  {
    FuseOrdered(s, id);
    FuseFromCandidates(s, id);
    var r := Fuse(s, id);
    forall i | 0 <= i < |r| ensures KeyOf(r[i]).primary == 0 {
      assert r[i] in multiset(r);
      assert r[i] in multiset(s);
    }
  }

  // ---------------------------------------------------------------------
  // Properties of the whole merge

  /** The merge raises exactly when some candidate has a title that is not a
      string, or is (after tagging) a web document whose rank is not an integer. */
  lemma MergeRaisesIff(combined: seq<Entry>, locals: seq<Doc>, id: Entry -> string)
    ensures MergeSpec(combined, locals, id).TypeError? <==>
      exists i :: 0 <= i < |combined| &&
        var m := combined[i].metadata;
        || ("title" in m && !m["title"].Str?)
        || ("rank" in m && !m["rank"].Int? &&
            (if "source" in m then m["source"] == WebSource else combined[i].doc !in locals))
  {
    var tagged := TagEntries(combined, locals);
    forall i | 0 <= i < |combined|
      ensures WellTyped(tagged[i]) <==>
        var m := combined[i].metadata;
        !(|| ("title" in m && !m["title"].Str?)
          || ("rank" in m && !m["rank"].Int? &&
              (if "source" in m then m["source"] == WebSource else combined[i].doc !in locals)))
    {
      var m := combined[i].metadata;
      var t := tagged[i].metadata;
      assert t == Tagged(m, combined[i].doc in locals);
      assert "title" in t <==> "title" in m;
      assert "rank" in t <==> "rank" in m;
      assert IsWeb(t) <==> (if "source" in m then m["source"] == WebSource else combined[i].doc !in locals);
    }
  }

  /** Every merged entry is a candidate with its metadata completed: the
      missing `source` is "local" exactly for the documents of `local_docs`. */
  lemma MergeOutputsAreTaggedCandidates(combined: seq<Entry>, locals: seq<Doc>, id: Entry -> string)
    ensures var o := MergeSpec(combined, locals, id);
            o.Merged? ==>
              && |o.docs| <= MaxMerged
              && forall x :: x in o.docs ==>
                   exists i :: 0 <= i < |combined| && x.doc == combined[i].doc && x.content == combined[i].content &&
                     x.metadata == Tagged(combined[i].metadata, combined[i].doc in locals)
  {
    var tagged := TagEntries(combined, locals);
    var o := MergeSpec(combined, locals, id);
    if o.Merged? {
      FuseFromCandidates(tagged, id);
      forall x | x in o.docs
        ensures exists i :: 0 <= i < |combined| && x.doc == combined[i].doc && x.content == combined[i].content &&
                  x.metadata == Tagged(combined[i].metadata, combined[i].doc in locals)
      {
        assert x in multiset(o.docs);
        assert x in multiset(tagged);
        var i :| 0 <= i < |tagged| && tagged[i] == x;
      }
    }
  }
}
