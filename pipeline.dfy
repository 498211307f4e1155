/**
 * The two pieces of src/pipeline.py that are plain data handling: the
 * metadata normalisation of the chunks in `ingest_pdf` (loaders report the
 * page as a 1-based "page_number" or a 0-based "page"; afterwards every chunk
 * carries exactly "title", "page" and "source"), and the list of sources
 * that `query_fincanon` returns beside the answer.
 *
 * Metadata values are Python values of three kinds (None, int, str), with
 * Python's truthiness and the semantics of `or`.
 */
module Pipeline {
  import opened Wrappers

  /** A metadata value. */
  datatype Value = NoneValue | IntValue(i: int) | StrValue(s: string)

  type Metadata = map<string, Value>

  /** Python truthiness: None, 0 and "" are false. */
  predicate Truthy(v: Value) {
    match v
    case NoneValue => false
    case IntValue(i) => i != 0
    case StrValue(s) => |s| > 0
  }

  /** `a or b`: the first operand when it is truthy, the second otherwise. */
  function Or(a: Value, b: Value): (r: Value) {
    if Truthy(a) then a else b
  }

  /** `md.get(key, default)`. */
  function Get(md: Metadata, key: string, default: Value): (r: Value) {
    if key in md then md[key] else default
  }

  /** The exception `page_num + 1` raises when `page_num` is a string. */
  datatype NormalizeError = TypeError

  /**
   * The page of a chunk: "page_number" when truthy, else "page"; shifted by
   * one when the chunk has "page" but no "page_number" at all.
   */
  function PageNumber(md: Metadata): (r: Result<Value, NormalizeError>) {
    var pageNum := Or(Get(md, "page_number", NoneValue), Get(md, "page", NoneValue));
    if "page" in md && "page_number" !in md then
      match pageNum
      case NoneValue => Success(NoneValue)
      case IntValue(i) => Success(IntValue(i + 1))
      case StrValue(_) => Failure(TypeError)
    else Success(pageNum)
  }

  /** The metadata a chunk carries after normalisation. */
  function Normalize(md: Metadata, docTitle: string, pdfPath: string): (r: Result<Metadata, NormalizeError>) {
    match PageNumber(md)
    case Failure(e) => Failure(e)
    case Success(page) =>
      Success(map[
        "title" := StrValue(docTitle),
        "page" := page,
        "source" := Get(md, "source", StrValue(pdfPath))])
  }

  /** A LangChain document: its text and its metadata. */
  datatype Document = Document(pageContent: string, metadata: Metadata)

  /**
   * The normalisation loop over the chunks of one PDF.  Each chunk's
   * metadata is replaced in turn; a chunk whose page cannot be shifted
   * raises, leaving the chunks before it normalised and the rest untouched.
   * `failed` is the index of that chunk.
   */
  method NormalizeChunks(chunks: array<Document>, docTitle: string, pdfPath: string)
    returns (failed: Option<nat>)
    modifies chunks
    ensures failed.Some? ==> failed.value < chunks.Length
    ensures var stop := if failed.Some? then failed.value else chunks.Length;
      && (forall i :: 0 <= i < stop ==>
            Normalize(old(chunks[i].metadata), docTitle, pdfPath) == Success(chunks[i].metadata)
            && chunks[i].pageContent == old(chunks[i].pageContent))
      && (forall i :: stop <= i < chunks.Length ==> chunks[i] == old(chunks[i]))
    ensures failed.Some? ==> Normalize(old(chunks[failed.value].metadata), docTitle, pdfPath).Failure?
  {
    var i := 0;
    while i < chunks.Length
      invariant 0 <= i <= chunks.Length
      invariant forall j :: 0 <= j < i ==>
        Normalize(old(chunks[j].metadata), docTitle, pdfPath) == Success(chunks[j].metadata)
        && chunks[j].pageContent == old(chunks[j].pageContent)
      invariant forall j :: i <= j < chunks.Length ==> chunks[j] == old(chunks[j])
    {
      var md := Normalize(chunks[i].metadata, docTitle, pdfPath);
      if md.Failure? {
        return Some(i);
      }
      chunks[i] := chunks[i].(metadata := md.value);
      i := i + 1;
    }
    return None;
  }

  // ----- Properties of the normalisation -----

  /** Normalised metadata has exactly three keys, the title given and the chunk's own source if it had one. */
  lemma NormalizedShape(md: Metadata, docTitle: string, pdfPath: string)
    ensures Normalize(md, docTitle, pdfPath).Success? <==> PageNumber(md).Success?
    ensures Normalize(md, docTitle, pdfPath).Success? ==>
      var r := Normalize(md, docTitle, pdfPath).value;
      && r.Keys == {"title", "page", "source"}
      && r["title"] == StrValue(docTitle)
      && r["page"] == PageNumber(md).value
      && r["source"] == (if "source" in md then md["source"] else StrValue(pdfPath))
  {
  }

  /** A truthy 1-based "page_number" is kept as it is, whatever "page" says. */
  lemma PageNumberKept(md: Metadata)
    requires "page_number" in md && Truthy(md["page_number"])
    ensures PageNumber(md) == Success(md["page_number"])
  {
  }

  /** A 0-based integer "page" with no "page_number" becomes 1-based: page 0 is page 1. */
  lemma ZeroBasedPageShifted(md: Metadata, i: int)
    requires "page" in md && "page_number" !in md && md["page"] == IntValue(i)
    ensures PageNumber(md) == Success(IntValue(i + 1))
  {
  }

  /** A chunk without either key gets no page. */
  lemma NoPageKnown(md: Metadata)
    requires "page" !in md && ("page_number" !in md || md["page_number"] == NoneValue)
    ensures PageNumber(md) == Success(NoneValue)
  {
  }

  /** The only failure: a string "page" and no "page_number" (`str + 1`). */
  lemma PageFailsExactlyOnStrings(md: Metadata)
    ensures PageNumber(md).Failure?
        <==> "page" in md && "page_number" !in md && md["page"].StrValue?
  {
  }

  /**
   * A falsy "page_number" (None or 0) next to a "page" falls back to "page"
   * without the shift: the 0-based number is kept as it is.
   */
  lemma FalsyPageNumberFallsBackUnshifted(md: Metadata)
    requires "page_number" in md && !Truthy(md["page_number"]) && "page" in md
    ensures PageNumber(md) == Success(md["page"])
  {
  }

  /**
   * Normalising is not idempotent: the result has "page" and no
   * "page_number", so a second pass shifts an integer page once more.
   */
  lemma NormalizingTwiceShiftsAgain(md: Metadata, docTitle: string, pdfPath: string, p: int)
    requires Normalize(md, docTitle, pdfPath).Success?
    requires PageNumber(md) == Success(IntValue(p))
    ensures Normalize(Normalize(md, docTitle, pdfPath).value, docTitle, pdfPath).Success?
    ensures Normalize(Normalize(md, docTitle, pdfPath).value, docTitle, pdfPath).value["page"] == IntValue(p + 1)
  {
    var once := Normalize(md, docTitle, pdfPath).value;
    assert "page" in once && "page_number" !in once;
  }

  // ----- The sources returned by `query_fincanon` -----

  /** The length after which a source's text is cut. */
  const SnippetLength: nat := 200

  /** The number of sources `query_fincanon` returns by default. */
  const DefaultSourceCount: int := 3

  /** A source as returned to the caller: a snippet of the text, and the metadata as it is. */
  datatype Source = Source(content: string, metadata: Metadata)

  /** The first 200 characters followed by "...", for a text longer than 200. */
  function Snippet(s: string): (r: string) {
    if |s| > SnippetLength then s[..SnippetLength] + "..." else s
  }

  /** The length of `xs[:k]` for a list of length `n`, a negative `k` counting from the end. */
  function SliceEnd(n: nat, k: int): (m: nat)
    ensures m <= n
  {
    if k >= 0 then (if k < n then k else n)
    else if n + k > 0 then n + k else 0
  }

  /** The source for a document. */
  function SourceOf(doc: Document): (r: Source) {
    Source(Snippet(doc.pageContent), doc.metadata)
  }

  /** The sources loop: one source per retrieved document among the first `k`, in order. */
  method BuildSources(docs: seq<Document>, k: int := DefaultSourceCount) returns (sources: seq<Source>)
    ensures |sources| == SliceEnd(|docs|, k)
    ensures forall i :: 0 <= i < |sources| ==> sources[i] == SourceOf(docs[i])
  {
    var top := docs[..SliceEnd(|docs|, k)];
    sources := [];
    var i := 0;
    while i < |top|
      invariant 0 <= i <= |top|
      invariant |sources| == i
      invariant forall j :: 0 <= j < i ==> sources[j] == SourceOf(top[j])
    {
      sources := sources + [SourceOf(top[i])];
      i := i + 1;
    }
  }

  // ----- Properties of the sources -----

  /** A snippet has at most 203 characters and starts with the text's first min(|s|, 200). */
  lemma SnippetBounded(s: string)
    ensures |Snippet(s)| <= SnippetLength + 3
    ensures var m := if |s| < SnippetLength then |s| else SnippetLength;
      m <= |Snippet(s)| && Snippet(s)[..m] == s[..m]
  {
  }

  /**
   * A text of at most 200 characters is returned whole; a longer one is
   * returned whole only when it already is 200 characters followed by "...".
   */
  lemma SnippetKeepsShortText(s: string)
    ensures |s| <= SnippetLength ==> Snippet(s) == s
    ensures |s| > SnippetLength ==>
      (Snippet(s) == s <==> |s| == SnippetLength + 3 && s[SnippetLength..] == "...")
  {
    if |s| > SnippetLength && Snippet(s) == s {
      assert |Snippet(s)| == SnippetLength + 3;
      assert s[SnippetLength..] == Snippet(s)[SnippetLength..];
    }
    if |s| == SnippetLength + 3 && s[SnippetLength..] == "..." {
      assert s == s[..SnippetLength] + s[SnippetLength..];
    }
  }

  /** Cutting a snippet again changes nothing. */
  lemma SnippetIdempotent(s: string)
    ensures Snippet(Snippet(s)) == Snippet(s)
  {
    if |s| > SnippetLength {
      var r := Snippet(s);
      assert r[..SnippetLength] == s[..SnippetLength];
    }
  }

  /** With the default `k` at most three sources are returned, and all of them when there are fewer. */
  lemma DefaultSources(docs: seq<Document>)
    ensures SliceEnd(|docs|, DefaultSourceCount) <= 3
    ensures |docs| <= 3 ==> SliceEnd(|docs|, DefaultSourceCount) == |docs|
  {
  }
}
