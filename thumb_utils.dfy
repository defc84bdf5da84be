/** The thumbnail helpers of `src/scripts/thumb-utils.ts`: reading the
    `<head>` of a page chunk by chunk, choosing Open Graph thumbnails from its
    meta tags, and deciding a thumbnail's medium, probing its URL with a HEAD
    request when the medium is not known. The network and the HTML parser are
    parameters: a page fetch is the response status and its decoded body
    chunks, a HEAD probe is the response status and its `content-type`
    header, and the parsed head is its list of `<meta>` elements. */
module ThumbUtils {
  import opened Wrappers
  import Text
  import opened SchemaTypes

  datatype Medium = Image | Video

  datatype ThumbnailAttributes = ThumbnailAttributes(medium: Medium, url: string, thumbType: ThumbnailTypePref)

  /** Why a promise of this module rejects: `fetch` itself rejected (a
      network error), or a successful HEAD response had no `content-type`
      header, so reading it threw. */
  datatype ThumbError = FetchRejected(url: string) | MissingContentType(url: string)

  /** The outcome of `fetch(url, { method: "HEAD" })`. */
  datatype HeadProbe = HeadRejected | HeadResponse(ok: bool, contentType: Option<string>)

  /** The outcome of `fetch(url)` for a page: its status and, when it has a
      body, the text chunks the decoder stream yields. */
  datatype PageFetch = PageRejected | PageResponse(ok: bool, body: Option<seq<string>>)

  /** A `<meta>` element of the parsed head: its `property` attribute and its
      `content` (`""` when absent, as `HTMLMetaElement.content` gives it). */
  datatype MetaTag = MetaTag(property: Option<string>, content: string)

  // ---------------------------------------------------------------------
  // urlToThumbnailAttributes

  /** The medium the caller states: `"image"` and `"video"` are known; any
      other value, `"unknown"` or an absent `medium` attribute included,
      asks for a probe. */
  function KnownMedium(requested: Option<string>): (m: Option<Medium>)
    ensures m == Some(Image) <==> requested == Some("image")
    ensures m == Some(Video) <==> requested == Some("video")
  {
    if requested == Some("image") then Some(Image)
    else if requested == Some("video") then Some(Video)
    else None
  }

  /** `urlToThumbnailAttributes(url, medium, type)`; `probe` stands for the
      HEAD request, which is only made when the medium is not known. */
  function UrlToThumbnailAttributes(url: string, requested: Option<string>, thumbType: ThumbnailTypePref,
                                    probe: string -> HeadProbe): (r: Result<ThumbnailAttributes, ThumbError>)
    ensures r.Ok? ==> r.value.url == url && r.value.thumbType == thumbType
    ensures KnownMedium(requested).Some? ==> r == Ok(ThumbnailAttributes(KnownMedium(requested).value, url, thumbType))
    ensures KnownMedium(requested).None? ==>
      (r.Err? <==> probe(url).HeadRejected? || (probe(url).ok && probe(url).contentType.None?))
    ensures KnownMedium(requested).None? && r.Ok? ==>
      (r.value.medium == Video <==> probe(url).ok && Text.StartsWith(probe(url).contentType.value, "video/"))
  {
    match KnownMedium(requested)
    case Some(m) => Ok(ThumbnailAttributes(m, url, thumbType))
    case None =>
      match probe(url)
      case HeadRejected => Err(FetchRejected(url))
      case HeadResponse(ok, contentType) =>
        if !ok then Ok(ThumbnailAttributes(Image, url, thumbType))
        else if contentType.None? then Err(MissingContentType(url))
        else if Text.StartsWith(contentType.value, "video/") then Ok(ThumbnailAttributes(Video, url, thumbType))
        else Ok(ThumbnailAttributes(Image, url, thumbType))
  }

  /** A known medium is answered without a request: the probe does not
      matter. A failed HEAD response falls back to an image. */
  lemma KnownMediumNeedsNoProbe(url: string, requested: Option<string>, thumbType: ThumbnailTypePref,
                                p: string -> HeadProbe, q: string -> HeadProbe)
    ensures KnownMedium(requested).Some? ==>
      UrlToThumbnailAttributes(url, requested, thumbType, p) == UrlToThumbnailAttributes(url, requested, thumbType, q)
    ensures KnownMedium(requested).None? && p(url) == HeadResponse(false, None) ==>
      UrlToThumbnailAttributes(url, requested, thumbType, p) == Ok(ThumbnailAttributes(Image, url, thumbType))
  {
  }

  // ---------------------------------------------------------------------
  // fetchHead

  /** `/<\/head>/i.test(chunk)`. */
  predicate ClosesHead(chunk: string)
  {
    Text.ContainsIgnoringCase(chunk, "</head>")
  }

  /** The chunks joined in order. */
  function Concat(chunks: seq<string>): string
  {
    if chunks == [] then "" else Concat(chunks[..|chunks| - 1]) + chunks[|chunks| - 1]
  }

  /** How many chunks the reader consumes: up to and including the first
      chunk that itself contains `</head>`, or all of them. */
  function HeadChunks(chunks: seq<string>): (n: nat)
    ensures n <= |chunks|
    ensures |chunks| > 0 ==> n > 0
    ensures n == |chunks| || ClosesHead(chunks[n - 1])
    ensures forall j :: 0 <= j < n - 1 ==> !ClosesHead(chunks[j])
    ensures forall j :: 0 <= j < |chunks| && ClosesHead(chunks[j]) ==> n <= j + 1
  {
    if chunks == [] then 0
    else if ClosesHead(chunks[0]) then 1
    else 1 + HeadChunks(chunks[1..])
  }

  /** What `fetchHead` resolves to for a page fetch. */
  function HeadText(page: PageFetch): Result<string, ThumbError>
  {
    match page
    case PageRejected => Err(FetchRejected(""))
    case PageResponse(ok, body) =>
      if !ok || body.None? then Ok("")
      else Ok(Concat(body.value[..HeadChunks(body.value)]))
  }

  /** `fetchHead(url)`: reads the decoded body chunk by chunk, appending each
      to the result, and stops after the first chunk that contains
      `</head>`; a failed or bodiless response gives the empty string. */
  method FetchHead(page: PageFetch) returns (result: Result<string, ThumbError>)
    ensures result == HeadText(page)
  {
    if page.PageRejected? {
      return Err(FetchRejected(""));
    }
    var text := "";
    if !page.ok || page.body.None? {
      return Ok(text);
    }
    var chunks := page.body.value;
    var i := 0;
    while i < |chunks|
      invariant 0 <= i <= |chunks|
      invariant text == Concat(chunks[..i])
      invariant forall j :: 0 <= j < i ==> !ClosesHead(chunks[j])
    {
      assert chunks[..i + 1][..i] == chunks[..i];
      text := text + chunks[i];
      if ClosesHead(chunks[i]) {
        return Ok(text);
      }
      i := i + 1;
    }
    assert chunks[..i] == chunks;
    return Ok(text);
  }

  lemma {:induction false} ConcatAppend(a: seq<string>, b: seq<string>)
    ensures Concat(a + b) == Concat(a) + Concat(b)
    decreases |b|
  {
    if b == [] {
      assert a + b == a;
    } else {
      var b' := b[..|b| - 1];
      ConcatAppend(a, b');
      assert (a + b)[..|a + b| - 1] == a + b';
    }
  }

  /** The head read is a prefix of the whole body. */
  lemma HeadIsPrefixOfBody(chunks: seq<string>)
    ensures Text.StartsWith(Concat(chunks), Concat(chunks[..HeadChunks(chunks)]))
  {
    var n := HeadChunks(chunks);
    var h, rest := Concat(chunks[..n]), Concat(chunks[n..]);
    assert chunks == chunks[..n] + chunks[n..];
    ConcatAppend(chunks[..n], chunks[n..]);
    assert Concat(chunks) == h + rest;
    assert (h + rest)[..|h|] == h;
  }

  lemma TakeLast(chunks: seq<string>, n: nat)
    requires 0 < n <= |chunks|
    ensures chunks[..n] == chunks[..n - 1] + [chunks[n - 1]]
  {
  }

  /** The head read contains `</head>` whenever some chunk does. */
  lemma HeadHasClosingTag(chunks: seq<string>, j: nat)
    requires j < |chunks| && ClosesHead(chunks[j])
    ensures Text.ContainsIgnoringCase(Concat(chunks[..HeadChunks(chunks)]), "</head>")
  {
    var n := HeadChunks(chunks);
    var m := n - 1;
    var last := chunks[m];
    if n == |chunks| {
      assert m == j;
    }
    assert ClosesHead(last);
    TakeLast(chunks, n);
    ConcatAppend(chunks[..m], [last]);
    assert Concat([last]) == last by {
      assert [last][..0] == [];
    }
    Text.ContainsIgnoringCaseInConcat(Concat(chunks[..m]), last, "</head>");
  }

  // ---------------------------------------------------------------------
  // makeOpenGraphThumbnail and fetchOpenGraphThumb

  /** The Open Graph properties tried, in priority order. */
  const OpenGraphQueries: seq<string> :=
    ["og:image", "og:image:url", "og:image:secure_url", "og:video", "og:video:url", "og:video:secure_url"]

  /** `meta[property*='og:image'],meta[property*='og:video']`. */
  function OpenGraphMetas(metas: seq<MetaTag>): (r: seq<MetaTag>)
    ensures |r| <= |metas|
  {
    if metas == [] then []
    else
      var m := metas[0];
      var keep := m.property.Some? && (Text.Contains(m.property.value, "og:image") || Text.Contains(m.property.value, "og:video"));
      (if keep then [m] else []) + OpenGraphMetas(metas[1..])
  }

  /** `elements.find((e) => e.tag === query)?.content ?? null`: the content
      of the first element whose property is exactly the query. */
  function FindContent(metas: seq<MetaTag>, query: string): (r: Option<string>)
    ensures r.None? <==> forall i :: 0 <= i < |metas| ==> metas[i].property != Some(query)
    ensures r.Some? ==> exists i :: 0 <= i < |metas| && metas[i].property == Some(query) && metas[i].content == r.value
                                  && forall j :: 0 <= j < i ==> metas[j].property != Some(query)
  {
    if metas == [] then None
    else if metas[0].property == Some(query) then Some(metas[0].content)
    else
      var r := FindContent(metas[1..], query);
      if r.Some? then
        ghost var i :| 0 <= i < |metas[1..]| && metas[1..][i].property == Some(query) && metas[1..][i].content == r.value
                        && forall j :: 0 <= j < i ==> metas[1..][j].property != Some(query);
        assert metas[i + 1].property == Some(query) && metas[i + 1].content == r.value;
        assert forall j :: 0 <= j < i + 1 ==> metas[j].property != Some(query) by {
          forall j | 0 <= j < i + 1 ensures metas[j].property != Some(query) {
            if j > 0 { assert metas[j] == metas[1..][j - 1]; }
          }
        }
        r
      else
        assert forall i :: 0 <= i < |metas| ==> metas[i].property != Some(query) by {
          forall i | 0 <= i < |metas| ensures metas[i].property != Some(query) {
            if i > 0 { assert metas[i] == metas[1..][i - 1]; }
          }
        }
        r
  }

  /** The medium a query stands for. */
  function QueryMedium(query: string): string
  {
    if Text.StartsWith(query, "og:image") then "image" else "video"
  }

  /** The thumbnails the queries yield, in query order: one per query that
      some element matches exactly. */
  function OpenGraphThumbnails(queries: seq<string>, elements: seq<MetaTag>): seq<ThumbnailAttributes>
  {
    if queries == [] then []
    else
      var q := queries[|queries| - 1];
      var found := FindContent(elements, q);
      OpenGraphThumbnails(queries[..|queries| - 1], elements)
      + if found.Some? then [ThumbnailAttributes(if QueryMedium(q) == "image" then Image else Video, found.value, OpenGraph)] else []
  }

  /** `makeOpenGraphThumbnail(head)` over the head's meta tags. */
  method MakeOpenGraphThumbnail(metas: seq<MetaTag>) returns (result: seq<ThumbnailAttributes>)
    ensures result == OpenGraphThumbnails(OpenGraphQueries, OpenGraphMetas(metas))
  {
    var elements := OpenGraphMetas(metas);
    var queries := OpenGraphQueries;
    result := [];
    for k := 0 to |queries|
      invariant result == OpenGraphThumbnails(queries[..k], elements)
    {
      var query := queries[k];
      assert queries[..k + 1][..k] == queries[..k];
      var element := FindContent(elements, query);
      if element.Some? {
        // A known medium never probes, so the probe given here is never used.
        var attributes := UrlToThumbnailAttributes(element.value, Some(QueryMedium(query)), OpenGraph,
                                                   _ => HeadRejected);
        result := result + [attributes.value];
      }
    }
    assert queries[..|queries|] == queries;
  }

  /** Each query contributes at most one thumbnail, so there are at most as
      many thumbnails as queries; each is an Open Graph thumbnail whose
      medium follows its query. */
  lemma {:induction false} OpenGraphThumbnailsShape(queries: seq<string>, elements: seq<MetaTag>)
    ensures |OpenGraphThumbnails(queries, elements)| <= |queries|
    ensures forall t :: t in OpenGraphThumbnails(queries, elements) ==>
      t.thumbType == OpenGraph
      && exists q :: q in queries && FindContent(elements, q) == Some(t.url)
                     && (t.medium == Image <==> Text.StartsWith(q, "og:image"))
    decreases |queries|
  {
    if queries != [] {
      var init := queries[..|queries| - 1];
      OpenGraphThumbnailsShape(init, elements);
      forall t | t in OpenGraphThumbnails(queries, elements)
        ensures t.thumbType == OpenGraph
        ensures exists q :: q in queries && FindContent(elements, q) == Some(t.url)
                            && (t.medium == Image <==> Text.StartsWith(q, "og:image"))
      {
        if t in OpenGraphThumbnails(init, elements) {
          var q :| q in init && FindContent(elements, q) == Some(t.url)
                   && (t.medium == Image <==> Text.StartsWith(q, "og:image"));
          assert q in queries;
        } else {
          assert queries[|queries| - 1] in queries;
        }
      }
    }
  }

  /** Queries that no element matches exactly contribute nothing. */
  lemma {:induction false} UnmatchedQueriesYieldNothing(queries: seq<string>, elements: seq<MetaTag>)
    requires forall q :: q in queries ==> forall i :: 0 <= i < |elements| ==> elements[i].property != Some(q)
    ensures OpenGraphThumbnails(queries, elements) == []
    decreases |queries|
  {
    if queries != [] {
      UnmatchedQueriesYieldNothing(queries[..|queries| - 1], elements);
      assert queries[|queries| - 1] in queries;
    }
  }

  /** `OPENGRAPH_REGEX.test(head)`, read as a plain case-insensitive search. */
  predicate MentionsOpenGraph(head: string)
  {
    Text.ContainsIgnoringCase(head, "og:image") || Text.ContainsIgnoringCase(head, "og:video")
  }

  /** `fetchOpenGraphThumb(url)`: `None` (the source's `null`) when the head
      never mentions `og:image` or `og:video`; `parse` stands for
      `DOMParser`, giving the meta tags of a head text. */
  method FetchOpenGraphThumb(page: PageFetch, parse: string -> seq<MetaTag>)
    returns (result: Result<Option<seq<ThumbnailAttributes>>, ThumbError>)
    ensures HeadText(page).Err? ==> result.Err?
    ensures HeadText(page).Ok? && !MentionsOpenGraph(HeadText(page).value) ==> result == Ok(None)
    ensures HeadText(page).Ok? && MentionsOpenGraph(HeadText(page).value) ==>
      result == Ok(Some(OpenGraphThumbnails(OpenGraphQueries, OpenGraphMetas(parse(HeadText(page).value)))))
  {
    var head :- FetchHead(page);
    if MentionsOpenGraph(head) {
      var thumbs := MakeOpenGraphThumbnail(parse(head));
      return Ok(Some(thumbs));
    }
    return Ok(None);
  }
}
