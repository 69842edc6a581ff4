/** `DocumentLoader`: reads the knowledge file, trying one text encoding after
    another until one of them loads. The text loader itself is a function
    from the path and an encoding to what the attempt gives: the documents, or
    the exception it raised. */
module Loader {
  import opened Py
  import opened Documents

  /** The file, relative to the project root. */
  const SourceFile := "/data/藜.md"
  /** The configured encodings, in the order they are tried. */
  const DefaultEncodings: seq<string> := ["utf-8-sig", "utf-8", "gb18030", "gbk", "latin1"]
  /** The message of the error raised when no encoding loads. */
  const CannotLoadPrefix := "无法加载文件 "
  /** The configured header levels to split on, as (marker, metadata key). */
  const MarkdownHeaders: seq<(string, string)> := [("#", "Header1"), ("##", "Header2"), ("###", "Header3")]

  /** The exception classes a load attempt can end in. */
  datatype Error = UnicodeDecodeError | RuntimeError(message: string) | OtherError(name: string)

  /** One `TextLoader(path, encoding).load()`. */
  datatype Attempt = Loaded(docs: seq<DocValue>) | Raised(error: Error)

  /** What `load_with_fallback` returns or raises. */
  datatype LoadResult = Success(docs: seq<DocValue>) | Failure(error: Error)

  /** The `except (UnicodeDecodeError, RuntimeError)` clause. */
  predicate Recoverable(e: Error)
  {
    e.UnicodeDecodeError? || e.RuntimeError?
  }

  /** An attempt that makes the loop go on to the next encoding. */
  predicate FailsOver(a: Attempt)
  {
    a.Raised? && Recoverable(a.error)
  }

  function CannotLoad(path: string): Error
  {
    RuntimeError(CannotLoadPrefix + path)
  }

  /** The attempt with this outcome, as the function's own result. */
  function Outcome(a: Attempt): LoadResult
  {
    match a
    case Loaded(docs) => Success(docs)
    case Raised(e) => Failure(e)
  }

  /** The fallback as a recursion over the encodings. A decoding error never
      escapes, and the only `RuntimeError` raised is the one naming the file. */
  function Fallback(path: string, encodings: seq<string>, load: (string, string) -> Attempt): (r: LoadResult)
    ensures r.Failure? ==> r.error == CannotLoad(path) || r.error.OtherError?
  {
    if encodings == [] then Failure(CannotLoad(path))
    else
      var a := load(path, encodings[0]);
      if FailsOver(a) then Fallback(path, encodings[1..], load) else Outcome(a)
  }

  /** The position of the encoding that decides the outcome: every earlier
      one failed over, and this one (if any is left) did not. */
  function Decisive(path: string, encodings: seq<string>, load: (string, string) -> Attempt): (i: nat)
    ensures i <= |encodings|
    ensures forall j :: 0 <= j < i ==> FailsOver(load(path, encodings[j]))
    ensures i < |encodings| ==> !FailsOver(load(path, encodings[i]))
  {
    if encodings == [] || !FailsOver(load(path, encodings[0])) then 0
    else 1 + Decisive(path, encodings[1..], load)
  }

  /** The outcome is that of the decisive encoding, or the error naming the
      file when every encoding failed over (the empty list included). */
  lemma {:induction false} FallbackDecided(path: string, encodings: seq<string>, load: (string, string) -> Attempt)
    ensures var i := Decisive(path, encodings, load);
            Fallback(path, encodings, load) ==
              if i == |encodings| then Failure(CannotLoad(path)) else Outcome(load(path, encodings[i]))
  {
    if encodings != [] && FailsOver(load(path, encodings[0])) {
      FallbackDecided(path, encodings[1..], load);
    }
  }

  /** The load succeeds with `docs` exactly when some encoding loads them and
      every encoding before it failed over. */
  lemma FallbackSucceedsIff(path: string, encodings: seq<string>, load: (string, string) -> Attempt, docs: seq<DocValue>)
    ensures Fallback(path, encodings, load) == Success(docs) <==>
      exists i :: 0 <= i < |encodings| && load(path, encodings[i]) == Loaded(docs) &&
        forall j :: 0 <= j < i ==> FailsOver(load(path, encodings[j]))
  {
    FallbackDecided(path, encodings, load);
    var d := Decisive(path, encodings, load);
    if exists i :: 0 <= i < |encodings| && load(path, encodings[i]) == Loaded(docs) &&
        forall j :: 0 <= j < i ==> FailsOver(load(path, encodings[j])) {
      var i :| 0 <= i < |encodings| && load(path, encodings[i]) == Loaded(docs) &&
        forall j :: 0 <= j < i ==> FailsOver(load(path, encodings[j]));
      assert d == i;
    }
  }

  /** The error naming the file is raised exactly when every encoding failed
      over; an error of any other class from an attempt is raised as it is. */
  lemma FallbackRaisesIff(path: string, encodings: seq<string>, load: (string, string) -> Attempt)
    ensures Fallback(path, encodings, load) == Failure(CannotLoad(path)) <==>
      forall j :: 0 <= j < |encodings| ==> FailsOver(load(path, encodings[j]))
    ensures forall name :: Fallback(path, encodings, load) == Failure(OtherError(name)) <==>
      exists i :: 0 <= i < |encodings| && load(path, encodings[i]) == Raised(OtherError(name)) &&
        forall j :: 0 <= j < i ==> FailsOver(load(path, encodings[j]))
  {
    FallbackDecided(path, encodings, load);
    var d := Decisive(path, encodings, load);
    forall name ensures Fallback(path, encodings, load) == Failure(OtherError(name)) <==>
      exists i :: 0 <= i < |encodings| && load(path, encodings[i]) == Raised(OtherError(name)) &&
        forall j :: 0 <= j < i ==> FailsOver(load(path, encodings[j]))
    {
      if exists i :: 0 <= i < |encodings| && load(path, encodings[i]) == Raised(OtherError(name)) &&
          forall j :: 0 <= j < i ==> FailsOver(load(path, encodings[j])) {
        var i :| 0 <= i < |encodings| && load(path, encodings[i]) == Raised(OtherError(name)) &&
          forall j :: 0 <= j < i ==> FailsOver(load(path, encodings[j]));
        assert d == i;
      }
    }
  }

  class DocumentLoader {
    const filePath: string
    const encodings: seq<string>

    /** The source file under the project root, and the configured encodings. */
    constructor (projectRoot: string)
      ensures filePath == projectRoot + SourceFile && encodings == DefaultEncodings
    {
      filePath := projectRoot + SourceFile;
      encodings := DefaultEncodings;
    }

    /** Tries the encodings in order and returns the first load that does not
        fail over; `attempted` lists the encodings tried, which stop at the
        decisive one. */
    method LoadWithFallback(load: (string, string) -> Attempt) returns (r: LoadResult, ghost attempted: seq<string>)
      ensures r == Fallback(filePath, encodings, load)
      ensures attempted == encodings[..Min(Decisive(filePath, encodings, load) + 1, |encodings|)]
    {
      FallbackDecided(filePath, encodings, load);
      attempted := [];
      var i := 0;
      while i < |encodings|
        invariant 0 <= i <= |encodings|
        invariant forall j :: 0 <= j < i ==> FailsOver(load(filePath, encodings[j]))
        invariant i <= Decisive(filePath, encodings, load)
        invariant attempted == encodings[..i]
      {
        var encoding := encodings[i];
        attempted := attempted + [encoding];
        PrefixSnoc(encodings, i);
        var attempt := load(filePath, encoding);
        if !FailsOver(attempt) {
          r := Outcome(attempt);
          return;
        }
        i := i + 1;
      }
      r := Failure(CannotLoad(filePath));
    }
  }

  /** `MarkdownProcessor`: the header levels it splits on, and the metadata a
      caller hands it before splitting (an attribute that does not exist
      until then). */
  class MarkdownProcessor {
    const headers: seq<(string, string)>
    var originalMetadata: Option<Metadata>

    constructor ()
      ensures headers == MarkdownHeaders && originalMetadata == None
    {
      headers := MarkdownHeaders;
      originalMetadata := None;
    }
  }
}
