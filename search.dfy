/** `SearxngClient`: builds the aggregator request, fails soft on any HTTP or
    decoding problem, and normalises raw result dictionaries into documents.
    The network is a function from the request sent to the reply received. */
module Search {
  import opened Py
  import opened Documents

  const SearchPath := "/search"
  /** The canary query the constructor sends to check the connection. */
  const CanaryQuery := "今天的头条新闻"
  const DefaultCategories: seq<string> := ["general"]
  const DefaultPage: int := 1
  const AcceptJson: map<string, string> := map["Accept" := "application/json"]

  const DefaultSource: Value := Str("web")
  const NoUrl: Value := Str("N/A")
  const UnknownEngine: Value := Str("未知引擎")
  const Untitled: Value := Str("无标题")
  const TitleLabel := "标题："
  const ContentLabel := "\n内容："

  /** An element of the reply's `results` array: normally an object (a
      dictionary of fields), but JSON allows any value there. */
  datatype JsonItem = Object(fields: map<string, Value>) | Scalar(value: Value)

  /** The reply body: not JSON at all, JSON without a `results` key, or the
      `results` array. */
  datatype Body = NotJson | NoResultsKey | Results(items: seq<JsonItem>)

  /** What the HTTP call gives back: a transport failure (connection error,
      timeout) or a response with a status code and a body. */
  datatype HttpResponse = ConnectionFailed | Response(status: int, body: Body)

  /** Everything `requests.get` is given. */
  datatype Request = Request(url: string, params: map<string, Value>, headers: map<string, string>, timeout: real)

  /** `to_documents` either converts every result or raises part-way. */
  datatype Conversion = Converted(docs: seq<Doc>) | ConversionRaised

  /** The query-string parameters of one search call. */
  function SearchParams(query: string, categories: seq<string>, engines: seq<string>, page: int): (p: map<string, Value>)
    ensures p.Keys == {"q", "categories", "engines", "pageno", "format"}
    ensures p["q"] == Str(query) && p["pageno"] == Int(page) && p["format"] == Str("json")
    ensures p["categories"].Str? && p["engines"].Str?
    ensures categories == DefaultCategories ==> p["categories"] == Str("general")
  {
    map["q" := Str(query),
        "categories" := Str(Join(categories, ",")),
        "engines" := Str(Join(engines, ",")),
        "pageno" := Int(page),
        "format" := Str("json")]
  }

  /** The comma-joined lists lose nothing: splitting the parameter at `,`
      gives back the categories and the engines, when none of their names
      holds a comma. */
  lemma SearchParamsListsRoundTrip(query: string, categories: seq<string>, engines: seq<string>, page: int)
    requires categories != [] && engines != []
    requires forall i :: 0 <= i < |categories| ==> ',' !in categories[i]
    requires forall i :: 0 <= i < |engines| ==> ',' !in engines[i]
    ensures var p := SearchParams(query, categories, engines, page);
            Split(p["categories"].s, ',') == categories && Split(p["engines"].s, ',') == engines
  {
    SplitJoin(categories, ',');
    SplitJoin(engines, ',');
  }

  /** `raise_for_status` raises for client (4xx) and server (5xx) errors only. */
  predicate RaisesForStatus(status: int)
  {
    400 <= status < 600
  }

  /** The list `search` returns for a reply: the `results` array when the
      status passes `raise_for_status` and the body has one, otherwise `[]`. */
  function ResultsOf(resp: HttpResponse): (r: seq<JsonItem>)
    ensures resp.Response? && !RaisesForStatus(resp.status) && resp.body.Results? ==> r == resp.body.items
    ensures resp.ConnectionFailed? || RaisesForStatus(resp.status) || !resp.body.Results? ==> r == []
  {
    match resp
    case ConnectionFailed => []
    case Response(status, body) =>
      if RaisesForStatus(status) then []
      else match body
        case Results(items) => items
        case _ => []
  }

  predicate AllObjects(items: seq<JsonItem>)
  {
    forall i :: 0 <= i < |items| ==> items[i].Object?
  }

  /** The position of the first result that is not an object (or the length). */
  function FirstScalar(items: seq<JsonItem>): (n: nat)
    ensures n <= |items|
    ensures forall k :: 0 <= k < n ==> items[k].Object?
    ensures n < |items| ==> items[n].Scalar?
  {
    if items == [] || items[0].Scalar? then 0 else 1 + FirstScalar(items[1..])
  }

  /** `dict.get(key, default)`. */
  function Get(fields: map<string, Value>, key: string, default: Value): Value
  {
    if key in fields then fields[key] else default
  }

  /** The text an f-string substitutes for a value. */
  function Text(v: Value): string
  {
    match v
    case Str(s) => s
    case Int(i) => IntToString(i)
  }

  /** `result["source"] = "web"` when the key is absent. */
  function Stamped(fields: map<string, Value>): (f: map<string, Value>)
    ensures f.Keys == fields.Keys + {"source"}
    ensures forall k :: k in fields ==> f[k] == fields[k]
    ensures "source" !in fields ==> f["source"] == DefaultSource
  {
    if "source" in fields then fields else fields["source" := DefaultSource]
  }

  /** The metadata of the document built from one result: exactly four keys,
      each the result's own value or its default. */
  function HitMetadata(fields: map<string, Value>): (m: Metadata)
  {
    map["source" := Get(fields, "source", DefaultSource),
        "url" := Get(fields, "url", NoUrl),
        "engine" := Get(fields, "engine", UnknownEngine),
        "title" := Get(fields, "title", Untitled)]
  }

  /** The page content `标题：{title}\n内容：{content}`; here a missing title
      reads as the empty string, not as the metadata's default. */
  function HitContent(fields: map<string, Value>): string
  {
    TitleLabel + Text(Get(fields, "title", Str(""))) + ContentLabel + Text(Get(fields, "content", Str("")))
  }

  /** Exactly four keys, each the result's own value or its default. */
  lemma HitMetadataKeys(fields: map<string, Value>)
    ensures HitMetadata(fields).Keys == {"source", "url", "engine", "title"}
    ensures HitMetadata(fields)["source"] == (if "source" in fields then fields["source"] else DefaultSource)
    ensures HitMetadata(fields)["url"] == (if "url" in fields then fields["url"] else NoUrl)
    ensures HitMetadata(fields)["engine"] == (if "engine" in fields then fields["engine"] else UnknownEngine)
    ensures HitMetadata(fields)["title"] == (if "title" in fields then fields["title"] else Untitled)
  {
  }

  function HitValue(fields: map<string, Value>): DocValue
  {
    DocValue(HitContent(fields), HitMetadata(fields))
  }

  /** Stamping `source` changes neither the document built from a result nor
      a result stamped before. */
  lemma StampedKeepsValue(fields: map<string, Value>)
    ensures HitValue(Stamped(fields)) == HitValue(fields)
    ensures Stamped(Stamped(fields)) == Stamped(fields)
  {
  }

  /** The documents a list of object results converts to. */
  function HitValues(items: seq<JsonItem>): (r: seq<DocValue>)
    requires AllObjects(items)
    ensures |r| == |items|
    ensures forall i {:trigger r[i]} :: 0 <= i < |items| ==> r[i] == HitValue(items[i].fields)
  {
    HitValuesUpToAt(items, |items|);
    HitValuesUpTo(items, |items|)
  }

  /** The documents the conversion loop has built from the first `n` results. */
  function HitValuesUpTo(items: seq<JsonItem>, n: nat): (r: seq<DocValue>)
    requires n <= |items| && forall k :: 0 <= k < n ==> items[k].Object?
    ensures |r| == n
  {
    if n == 0 then [] else HitValuesUpTo(items, n - 1) + [HitValue(items[n - 1].fields)]
  }

  lemma {:induction false} HitValuesUpToAt(items: seq<JsonItem>, n: nat)
    requires n <= |items| && forall k :: 0 <= k < n ==> items[k].Object?
    ensures forall k {:trigger HitValuesUpTo(items, n)[k]} :: 0 <= k < n ==> HitValuesUpTo(items, n)[k] == HitValue(items[k].fields)
  {
    if n > 0 {
      HitValuesUpToAt(items, n - 1);
    }
  }

  /** The results list after the conversion loop has stamped its first `n` entries. */
  function StampedUpTo(items: seq<JsonItem>, n: nat): (r: seq<JsonItem>)
    requires n <= |items| && forall k :: 0 <= k < n ==> items[k].Object?
    ensures |r| == |items|
    ensures forall k {:trigger r[k]} :: 0 <= k < n ==> r[k] == Object(Stamped(items[k].fields))
    ensures forall k {:trigger r[k]} :: n <= k < |items| ==> r[k] == items[k]
  {
    if n == 0 then items else StampedUpTo(items, n - 1)[n - 1 := Object(Stamped(items[n - 1].fields))]
  }

  class SearxngClient {
    const baseUrl: string
    const timeout: real
    const headers: map<string, string>
    /** The module-level default of `search`'s `engines` argument. */
    const defaultEngines: seq<string>
    /** Every request this client has sent, oldest first. */
    ghost var sent: seq<Request>

    /** Sets the endpoint, timeout and headers, then sends the canary query
        once; its outcome is only reported. */
    constructor (base: string, timeout: real, defaultEngines: seq<string>, transport: Request -> HttpResponse)
      ensures baseUrl == base + SearchPath
      ensures this.timeout == timeout && headers == AcceptJson && this.defaultEngines == defaultEngines
      ensures sent == [RequestFor(CanaryQuery, DefaultCategories, defaultEngines, DefaultPage)]
    {
      baseUrl := base + SearchPath;
      this.timeout := timeout;
      headers := AcceptJson;
      this.defaultEngines := defaultEngines;
      sent := [];
      new;
      var _ := Search(CanaryQuery, DefaultCategories, defaultEngines, DefaultPage, transport);
    }

    function RequestFor(query: string, categories: seq<string>, engines: seq<string>, page: int): (req: Request)
      ensures req.url == baseUrl && req.headers == headers && req.timeout == timeout
      ensures req.params == SearchParams(query, categories, engines, page)
    {
      Request(baseUrl, SearchParams(query, categories, engines, page), headers, timeout)
    }

    /** Sends one request and returns the reply's results, or `[]` on any
        failure; it never raises. */
    method Search(query: string, categories: seq<string>, engines: seq<string>, page: int,
                  transport: Request -> HttpResponse)
      returns (results: seq<JsonItem>)
      modifies this`sent
      ensures sent == old(sent) + [RequestFor(query, categories, engines, page)]
      ensures results == ResultsOf(transport(RequestFor(query, categories, engines, page)))
    {
      var req := RequestFor(query, categories, engines, page);
      sent := sent + [req];
      var resp := transport(req);
      match resp {
        case ConnectionFailed =>
          results := [];
        case Response(status, body) =>
          if RaisesForStatus(status) {
            results := [];
          } else {
            match body {
              case Results(items) => results := items;
              case _ => results := [];
            }
          }
      }
    }

    /** One document per result, in order, with `minScore` unused. A result
        without `source` gets `source = "web"` written into it; `stamped` is the
        results list afterwards. A result that is not an object raises, after the
        earlier ones were stamped. */
    method ToDocuments(results: seq<JsonItem>, minScore: real) returns (r: Conversion, stamped: seq<JsonItem>)
      ensures r.Converted? <==> AllObjects(results)
      ensures r.Converted? ==> Values(r.docs) == HitValues(results)
      ensures r.Converted? ==> forall i :: 0 <= i < |r.docs| ==> fresh(r.docs[i])
      ensures stamped == StampedUpTo(results, FirstScalar(results))
    {
      var docs: seq<Doc> := [];
      stamped := results;
      var i := 0;
      while i < |results| && results[i].Object?
        invariant 0 <= i <= |results|
        invariant forall k :: 0 <= k < i ==> results[k].Object?
        invariant forall k :: 0 <= k < |docs| ==> fresh(docs[k])
        invariant Values(docs) == HitValuesUpTo(results, i)
        invariant stamped == StampedUpTo(results, i)
      {
        ObjectsExtend(results, i);
        var fields := results[i].fields;
        if "source" !in fields {
          fields := fields["source" := DefaultSource];
        }
        StampedKeepsValue(results[i].fields);
        var d := new Doc(HitContent(fields), HitMetadata(fields));
        stamped := stamped[i := Object(fields)];
        StampedUpToNext(results, i);
        ValuesSnoc(docs, d);
        HitValuesUpToNext(results, i);
        FreshSnoc(docs, d);
        docs := docs + [d];
        i := i + 1;
      }
      FirstScalarAt(results, i);
      if i == |results| {
        assert HitValuesUpTo(results, i) == HitValues(results);
      }
      r := if i < |results| then ConversionRaised else Converted(docs);
    }
  }

  lemma HitValuesUpToNext(items: seq<JsonItem>, i: nat)
    requires i < |items| && forall k :: 0 <= k < i + 1 ==> items[k].Object?
    ensures HitValuesUpTo(items, i + 1) == HitValuesUpTo(items, i) + [HitValue(items[i].fields)]
  {
  }

  lemma StampedUpToNext(items: seq<JsonItem>, i: nat)
    requires i < |items| && forall k :: 0 <= k < i + 1 ==> items[k].Object?
    ensures StampedUpTo(items, i + 1) == StampedUpTo(items, i)[i := Object(Stamped(items[i].fields))]
  {
  }

  lemma ObjectsExtend(items: seq<JsonItem>, i: nat)
    requires i < |items| && (forall k :: 0 <= k < i ==> items[k].Object?) && items[i].Object?
    ensures forall k :: 0 <= k < i + 1 ==> items[k].Object?
  {
  }

  lemma FirstScalarAt(items: seq<JsonItem>, i: nat)
    requires i <= |items| && (forall k :: 0 <= k < i ==> items[k].Object?) && (i < |items| ==> items[i].Scalar?)
    ensures FirstScalar(items) == i
  {
  }
}
