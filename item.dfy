/** The item model of `src/scripts/models/item.ts`: the `RSSItem`
    constructor and `parseContent`, which sanitise a parsed feed entry and
    collect its thumbnail candidates; `insertItems`, which sorts a batch by
    date and stores it; and the part of `fetchItems` that chooses the sources
    to fetch and merges their results. Network, DOM and URL resolution are
    the parameters of a `Network`. */
module Item {
  import opened Wrappers
  import Text
  import Sorting
  import opened SchemaTypes
  import opened ThumbUtils
  import Db

  // ---------------------------------------------------------------------
  // The parsed feed entry

  /** A field of the parser's output that should hold a string: absent, a
      string, or some other value, which is truthy or falsy. */
  datatype Field = Missing | Str(s: string) | NonString(truthy: bool)

  /** `if (content && typeof content !== "string") delete item[field]`:
      a truthy non-string is dropped, anything else is kept. */
  function Sanitised(f: Field): (r: Field)
    ensures r == Missing <==> f == Missing || f == NonString(true)
    ensures r != Missing ==> r == f
  {
    if f == NonString(true) then Missing else f
  }

  /** `field || fallback` on a sanitised field: the string when it is a
      non-empty string, the fallback otherwise. */
  function StringOr(f: Field, fallback: string): (r: string)
    ensures f.Str? && f.s != "" ==> r == f.s
    ensures !(f.Str? && f.s != "") ==> r == fallback
  {
    if f.Str? && f.s != "" then f.s else fallback
  }

  /** `image`: absent, a plain string, or a record whose `$.url` may be
      set. */
  datatype ImageField = NoImage | ImageString(s: string) | ImageRecord(url: Option<string>)

  /** The `$` attributes of a `media:content` element; `mediaType` is set
      only when `type` is a string. */
  datatype MediaAttributes = MediaAttributes(medium: Option<string>, mediaType: Option<string>, url: Option<string>)

  datatype ParserItem = ParserItem(
    title: Field,
    link: Field,
    creator: Field,
    isoDate: Option<int>,
    pubDate: Option<int>,
    thumb: Field,
    content: Field,
    fullContent: Field,
    contentSnippet: Option<string>,
    mediaThumbnails: seq<Option<string>>,
    image: ImageField,
    mediaContent: seq<Option<MediaAttributes>>)

  predicate NonEmpty(o: Option<string>)
  {
    o.Some? && o.value != ""
  }

  /** What the browser and the network answer: a page fetch, the meta tags
      `DOMParser` finds in a head, a HEAD probe, the `src` of the first
      `<img>` of some HTML under a `<base href>` (`None` when there is no
      image), `new URL(url, base).toString()` (`None` when it throws) and
      `htmlDecode`. */
  datatype Network = Network(
    page: string -> PageFetch,
    parseHead: string -> seq<MetaTag>,
    probe: string -> HeadProbe,
    firstImage: (string, string) -> Option<string>,
    resolve: (string, string) -> Option<string>,
    htmlDecode: string -> string)

  /** Why `parseContent` rejects: a fetch or probe failed, or a candidate's
      URL could not be resolved against the item's link. */
  datatype ParseError = ThumbnailFailed(cause: ThumbError) | InvalidUrl(url: string)

  // ---------------------------------------------------------------------
  // Thumbnail candidates

  /** A pending `urlToThumbnailAttributes(url, medium, type)` call. */
  datatype Request = Request(url: string, medium: Option<string>, thumbType: ThumbnailTypePref)

  /** `media:thumbnail` entries with a url, probed. */
  function MediaThumbnailRequests(urls: seq<Option<string>>): (r: seq<Request>)
    ensures forall x :: x in r ==> x.thumbType == MediaThumbnail
  {
    if urls == [] then []
    else (if NonEmpty(urls[0]) then [Request(urls[0].value, Some("unknown"), MediaThumbnail)] else [])
         + MediaThumbnailRequests(urls[1..])
  }

  /** The `media:content` filter: a url, and either medium `"image"` or a
      type starting with `"image/"`. */
  predicate IsMediaImage(c: Option<MediaAttributes>)
  {
    c.Some? && NonEmpty(c.value.url)
    && (c.value.medium == Some("image") || (c.value.mediaType.Some? && Text.StartsWith(c.value.mediaType.value, "image/")))
  }

  /** `media:content` images, with their own `medium` passed through. */
  function MediaContentRequests(cs: seq<Option<MediaAttributes>>): (r: seq<Request>)
    ensures forall x :: x in r ==> x.thumbType == Other
  {
    if cs == [] then []
    else (if IsMediaImage(cs[0]) then [Request(cs[0].value.url.value, cs[0].value.medium, Other)] else [])
         + MediaContentRequests(cs[1..])
  }

  /** `item.link.split("/").slice(0, 3).join("/")`: scheme and host. */
  function LinkOrigin(link: string): string
  {
    var parts := Text.Split(link, '/');
    Text.Join(parts[..if |parts| < 3 then |parts| else 3], '/')
  }

  /** `thumb`, when it is a non-empty string. */
  function ThumbRequests(parsed: ParserItem): (r: seq<Request>)
    ensures forall x :: x in r ==> x.thumbType == Thumb
  {
    var thumb := Sanitised(parsed.thumb);
    if thumb.Str? && thumb.s != "" then [Request(thumb.s, Some("unknown"), Thumb)] else []
  }

  /** `image.$.url`, `image` as a string, media content images, and the
      first image of the content, resolved against the link's origin. */
  function OtherRequests(parsed: ParserItem, link: string, content: string, net: Network): (r: seq<Request>)
    ensures forall x :: x in r ==> x.thumbType == Other
  {
    var img := if content != "" then net.firstImage(content, LinkOrigin(link)) else None;
    (if parsed.image.ImageRecord? && NonEmpty(parsed.image.url) then [Request(parsed.image.url.value, Some("image"), Other)] else [])
    + (if parsed.image.ImageString? && parsed.image.s != "" then [Request(parsed.image.s, Some("image"), Other)] else [])
    + MediaContentRequests(parsed.mediaContent)
    + (if NonEmpty(img) then [Request(img.value, Some("image"), Other)] else [])
  }

  /** Every candidate after Open Graph, in the order `parseContent` tries
      them. */
  function LaterRequests(parsed: ParserItem, link: string, content: string, net: Network): seq<Request>
  {
    MediaThumbnailRequests(parsed.mediaThumbnails) + ThumbRequests(parsed) + OtherRequests(parsed, link, content, net)
  }

  /** The requests made one after another; the first rejection stops the
      sequence, keeping the candidates gathered before it. */
  function ProbeAll(reqs: seq<Request>, probe: string -> HeadProbe): (seq<ThumbnailAttributes>, Option<ThumbError>)
  {
    if reqs == [] then ([], None)
    else
      var (ts, err) := ProbeAll(reqs[..|reqs| - 1], probe);
      var last := reqs[|reqs| - 1];
      if err.Some? then (ts, err)
      else match UrlToThumbnailAttributes(last.url, last.medium, last.thumbType, probe)
        case Ok(t) => (ts + [t], None)
        case Err(e) => (ts, Some(e))
  }

  /** A loop of `item.thumbnails.push(await urlToThumbnailAttributes(…))`. */
  method ProbeEach(reqs: seq<Request>, probe: string -> HeadProbe)
    returns (ts: seq<ThumbnailAttributes>, err: Option<ThumbError>)
    ensures (ts, err) == ProbeAll(reqs, probe)
  {
    ts, err := [], None;
    for i := 0 to |reqs|
      invariant (ts, err) == ProbeAll(reqs[..i], probe)
    {
      assert reqs[..i + 1][..i] == reqs[..i];
      if err.None? {
        var r := UrlToThumbnailAttributes(reqs[i].url, reqs[i].medium, reqs[i].thumbType, probe);
        if r.Err? {
          err := Some(r.error);
        } else {
          ts := ts + [r.value];
        }
      }
    }
    assert reqs[..|reqs|] == reqs;
  }

  lemma {:induction false} ProbeAllAppend(a: seq<Request>, b: seq<Request>, probe: string -> HeadProbe)
    requires ProbeAll(a, probe).1.None?
    ensures ProbeAll(a + b, probe) == (ProbeAll(a, probe).0 + ProbeAll(b, probe).0, ProbeAll(b, probe).1)
    decreases |b|
  {
    if b == [] {
      assert a + b == a;
      assert ProbeAll(a, probe).0 + [] == ProbeAll(a, probe).0;
    } else {
      var b' := b[..|b| - 1];
      ProbeAllAppend(a, b', probe);
      assert (a + b)[..|a + b| - 1] == a + b';
      assert (a + b)[|a + b| - 1] == b[|b| - 1];
      var last := b[|b| - 1];
      var (ts, err) := ProbeAll(b', probe);
      assert ProbeAll(a + b', probe) == (ProbeAll(a, probe).0 + ts, err);
      if err.None? {
        match UrlToThumbnailAttributes(last.url, last.medium, last.thumbType, probe)
        case Ok(t) =>
          assert ProbeAll(b, probe) == (ts + [t], None);
          assert ProbeAll(a + b, probe) == ((ProbeAll(a, probe).0 + ts) + [t], None);
          assert (ProbeAll(a, probe).0 + ts) + [t] == ProbeAll(a, probe).0 + (ts + [t]);
        case Err(e) =>
      }
    }
  }

  /** Each candidate answers the request at its own position, keeping its
      url and its type. */
  lemma {:induction false} ProbeAllAnswersInOrder(reqs: seq<Request>, probe: string -> HeadProbe)
    ensures var ts := ProbeAll(reqs, probe).0;
      |ts| <= |reqs|
      && (ProbeAll(reqs, probe).1.None? ==> |ts| == |reqs|)
      && forall i :: 0 <= i < |ts| ==> ts[i].url == reqs[i].url && ts[i].thumbType == reqs[i].thumbType
    decreases |reqs|
  {
    if reqs != [] {
      var init := reqs[..|reqs| - 1];
      ProbeAllAnswersInOrder(init, probe);
      var ts := ProbeAll(reqs, probe).0;
      forall i | 0 <= i < |ts| ensures ts[i].url == reqs[i].url && ts[i].thumbType == reqs[i].thumbType {
        if i < |ProbeAll(init, probe).0| {
          assert reqs[i] == init[i];
        }
      }
    }
  }

  /** The Open Graph candidates of the item's link: none without a link or
      when the head never mentions `og:image`/`og:video`. */
  function OpenGraphCandidates(parsed: ParserItem, net: Network): Result<seq<ThumbnailAttributes>, ThumbError>
  {
    var link := Sanitised(parsed.link);
    if !(link.Str? && link.s != "") then Ok([])
    else match HeadText(net.page(link.s))
      case Err(e) => Err(e)
      case Ok(head) =>
        if MentionsOpenGraph(head) then Ok(OpenGraphThumbnails(OpenGraphQueries, OpenGraphMetas(net.parseHead(head))))
        else Ok([])
  }

  /** All candidates, unresolved, with the rejection that stopped the
      collection, if any. */
  function Collected(parsed: ParserItem, link: string, content: string, net: Network): (seq<ThumbnailAttributes>, Option<ThumbError>)
  {
    match OpenGraphCandidates(parsed, net)
    case Err(e) => ([], Some(e))
    case Ok(og) =>
      var (ts, err) := ProbeAll(LaterRequests(parsed, link, content, net), net.probe);
      (og + ts, err)
  }

  /** `thumbnails.map((t) => ({ …t, url: new URL(t.url, item.link).toString() }))`;
      the first url that throws is the error. */
  function ResolveAll(ts: seq<ThumbnailAttributes>, base: string, resolve: (string, string) -> Option<string>): (r: Result<seq<ThumbnailAttributes>, string>)
    ensures r.Ok? ==> |r.value| == |ts| && forall i :: 0 <= i < |ts| ==>
      resolve(ts[i].url, base).Some? && r.value[i] == ts[i].(url := resolve(ts[i].url, base).value)
    ensures r.Err? ==> exists i :: 0 <= i < |ts| && ts[i].url == r.error && resolve(ts[i].url, base).None?
                                  && forall j :: 0 <= j < i ==> resolve(ts[j].url, base).Some?
  {
    if ts == [] then Ok([])
    else
      var head := resolve(ts[0].url, base);
      if head.None? then Err(ts[0].url)
      else match ResolveAll(ts[1..], base, resolve)
        case Err(u) =>
          ghost var i :| 0 <= i < |ts[1..]| && ts[1..][i].url == u && resolve(ts[1..][i].url, base).None?
            && forall j :: 0 <= j < i ==> resolve(ts[1..][j].url, base).Some?;
          assert ts[i + 1] == ts[1..][i];
          assert forall j :: 1 <= j < i + 1 ==> ts[j] == ts[1..][j - 1];
          Err(u)
        case Ok(rest) =>
          assert forall i :: 1 <= i < |ts| ==> ts[i] == ts[1..][i - 1];
          Ok([ts[0].(url := head.value)] + rest)
  }

  /** `item.thumbnails.at(0)?.url`, deleted when it is a non-empty string
      that starts with neither `https://` nor `http://`. */
  function PrimaryThumb(ts: seq<ThumbnailAttributes>): (r: Option<string>)
    ensures ts == [] ==> r.None?
    ensures r.Some? ==> r.value == ts[0].url
    ensures r.Some? ==> r.value == "" || Text.StartsWith(r.value, "https://") || Text.StartsWith(r.value, "http://")
    ensures ts != [] && r.None? ==> ts[0].url != "" && !Text.StartsWith(ts[0].url, "https://") && !Text.StartsWith(ts[0].url, "http://")
  {
    if ts == [] then None
    else
      var u := ts[0].url;
      if u != "" && !Text.StartsWith(u, "https://") && !Text.StartsWith(u, "http://") then None else Some(u)
  }

  /** The order in which the kinds of candidate are tried. */
  function TypeRank(t: ThumbnailTypePref): int
  {
    match t
    case OpenGraph => 0
    case MediaThumbnail => 1
    case Thumb => 2
    case Other => 3
  }

  function RequestRank(r: Request): int
  {
    TypeRank(r.thumbType)
  }

  function ThumbRank(t: ThumbnailAttributes): int
  {
    TypeRank(t.thumbType)
  }

  lemma SortedAppend<T>(a: seq<T>, b: seq<T>, key: T -> int)
    requires Sorting.SortedBy(a, key) && Sorting.SortedBy(b, key)
    requires forall i, j :: 0 <= i < |a| && 0 <= j < |b| ==> key(a[i]) <= key(b[j])
    ensures Sorting.SortedBy(a + b, key)
  {
    var c := a + b;
    forall i, j | 0 <= i < j < |c| ensures key(c[i]) <= key(c[j]) {
      if j < |a| {
        assert c[i] == a[i] && c[j] == a[j];
      } else if i >= |a| {
        assert c[i] == b[i - |a|] && c[j] == b[j - |a|];
      } else {
        assert c[i] == a[i] && c[j] == b[j - |a|];
      }
    }
  }

  /** Requests that all have one rank are sorted by rank. */
  lemma OneRankSorted(s: seq<Request>, rank: int)
    requires forall x :: x in s ==> RequestRank(x) == rank
    ensures Sorting.SortedBy(s, RequestRank)
  {
    forall i, j | 0 <= i < j < |s| ensures RequestRank(s[i]) <= RequestRank(s[j]) {
      assert s[i] in s && s[j] in s;
    }
  }

  lemma AppendRank(a: seq<Request>, b: seq<Request>, lo: int, hi: int)
    requires Sorting.SortedBy(a, RequestRank) && Sorting.SortedBy(b, RequestRank)
    requires forall x :: x in a ==> RequestRank(x) <= lo
    requires forall x :: x in b ==> hi <= RequestRank(x)
    requires lo <= hi
    ensures Sorting.SortedBy(a + b, RequestRank)
  {
    forall i, j | 0 <= i < |a| && 0 <= j < |b| ensures RequestRank(a[i]) <= RequestRank(b[j]) {
      assert a[i] in a && b[j] in b;
    }
    SortedAppend(a, b, RequestRank);
  }

  /** The later requests run from media thumbnails through `thumb` to the
      other kinds, never going back to an earlier kind. */
  lemma LaterRequestsInOrder(parsed: ParserItem, link: string, content: string, net: Network)
    ensures Sorting.SortedBy(LaterRequests(parsed, link, content, net), RequestRank)
    ensures forall x :: x in LaterRequests(parsed, link, content, net) ==> 1 <= RequestRank(x)
  {
    var g1 := MediaThumbnailRequests(parsed.mediaThumbnails);
    var g2 := ThumbRequests(parsed);
    var others := OtherRequests(parsed, link, content, net);
    OneRankSorted(g1, 1);
    OneRankSorted(g2, 2);
    OneRankSorted(others, 3);
    AppendRank(g1, g2, 1, 2);
    AppendRank(g1 + g2, others, 2, 3);
    assert LaterRequests(parsed, link, content, net) == (g1 + g2) + others;
  }

  /** The candidates come in the fixed order of kinds: Open Graph, then
      media thumbnails, then `thumb`, then the rest; this holds of what was
      gathered even when a request stopped the collection. */
  lemma CandidatesInPriorityOrder(parsed: ParserItem, link: string, content: string, net: Network)
    ensures Sorting.SortedBy(Collected(parsed, link, content, net).0, ThumbRank)
  {
    match OpenGraphCandidates(parsed, net)
    case Err(_) =>
    case Ok(og) =>
      var reqs := LaterRequests(parsed, link, content, net);
      var ts := ProbeAll(reqs, net.probe).0;
      LaterRequestsInOrder(parsed, link, content, net);
      ProbeAllAnswersInOrder(reqs, net.probe);
      if og != [] {
        var head := HeadText(net.page(Sanitised(parsed.link).s)).value;
        OpenGraphThumbnailsShape(OpenGraphQueries, OpenGraphMetas(net.parseHead(head)));
      }
      assert forall t :: t in og ==> ThumbRank(t) == 0;
      forall i, j | 0 <= i < j < |ts| ensures ThumbRank(ts[i]) <= ThumbRank(ts[j]) {
        assert RequestRank(reqs[i]) <= RequestRank(reqs[j]);
      }
      forall i, j | 0 <= i < j < |og| ensures ThumbRank(og[i]) <= ThumbRank(og[j]) {
        assert og[i] in og && og[j] in og;
      }
      forall i, j | 0 <= i < |og| && 0 <= j < |ts| ensures ThumbRank(og[i]) <= ThumbRank(ts[j]) {
        assert og[i] in og && reqs[j] in reqs;
      }
      SortedAppend(og, ts, ThumbRank);
  }

  /** Resolution keeps the candidates' order and kinds. */
  lemma ResolvedKeepsOrder(ts: seq<ThumbnailAttributes>, base: string, resolve: (string, string) -> Option<string>)
    requires Sorting.SortedBy(ts, ThumbRank)
    requires ResolveAll(ts, base, resolve).Ok?
    ensures Sorting.SortedBy(ResolveAll(ts, base, resolve).value, ThumbRank)
  {
    var r := ResolveAll(ts, base, resolve).value;
    forall i, j | 0 <= i < j < |r| ensures ThumbRank(r[i]) <= ThumbRank(r[j]) {
      assert ThumbRank(r[i]) == ThumbRank(ts[i]) && ThumbRank(r[j]) == ThumbRank(ts[j]);
    }
  }

  // ---------------------------------------------------------------------
  // RSSItem

  /** The item's date: `isoDate`, else `pubDate`, else the fetch time. */
  function ItemDate(parsed: ParserItem, now: int): (d: int)
    ensures parsed.isoDate.Some? ==> d == parsed.isoDate.value
    ensures parsed.isoDate.None? && parsed.pubDate.Some? ==> d == parsed.pubDate.value
    ensures parsed.isoDate.None? && parsed.pubDate.None? ==> d == now
  {
    parsed.isoDate.GetOr(parsed.pubDate.GetOr(now))
  }

  /** The creator after sanitising: a string is kept, anything else is
      absent. */
  function CreatorOf(f: Field): (r: Option<string>)
    ensures r.Some? <==> f.Str?
    ensures f.Str? ==> r.value == f.s
  {
    if f.Str? then Some(f.s) else None
  }

  class RSSItem {
    var iid: int
    var source: int
    var title: string
    var link: string
    var date: int
    var fetchedDate: int
    var thumb: Option<string>
    var thumbnails: seq<ThumbnailAttributes>
    var content: string
    var snippet: string
    var creator: Option<string>
    var hasRead: bool
    var starred: bool
    var hidden: bool
    var notify: bool
    var serviceRef: Option<string>

    /** The object as a stored row. */
    function Value(): Db.ItemEntry
      reads this
    {
      Db.ItemEntry(iid, source, title, link, date, fetchedDate, thumb, thumbnails, content, snippet,
                   creator, hasRead, starred, hidden, notify, serviceRef)
    }

    /** `new RSSItem(item, source)`; `now` is the clock and `untitled` the
        localised placeholder title. An item has no key (0) until it is
        stored, and no content, snippet or thumbnails until `ParseContent`. */
    constructor (parsed: ParserItem, sid: int, now: int, untitled: string)
      ensures iid == 0 && source == sid
      ensures title == StringOr(Sanitised(parsed.title), untitled)
      ensures link == StringOr(Sanitised(parsed.link), "")
      ensures fetchedDate == now && date == ItemDate(parsed, now)
      ensures creator == CreatorOf(Sanitised(parsed.creator))
      ensures !hasRead && !starred && !hidden && !notify
      ensures thumb.None? && thumbnails == [] && content == "" && snippet == "" && serviceRef.None?
    {
      var t := Sanitised(parsed.title);
      var l := Sanitised(parsed.link);
      var c := Sanitised(parsed.creator);
      iid := 0;
      source := sid;
      title := StringOr(t, untitled);
      link := StringOr(l, "");
      fetchedDate := now;
      date := ItemDate(parsed, now);
      creator := CreatorOf(c);
      hasRead, starred, hidden, notify := false, false, false, false;
      thumb, thumbnails, content, snippet, serviceRef := None, [], "", "", None;
    }

    /** `RSSItem.parseContent(item, parsed)`: sets the content and snippet,
        then the thumbnails and the primary thumbnail as `ParseOutcome`
        describes; nothing else changes. */
    method ParseContent(parsed: ParserItem, net: Network) returns (error: Option<ParseError>)
      modifies this
      ensures iid == old(iid) && source == old(source) && title == old(title) && link == old(link)
      ensures date == old(date) && fetchedDate == old(fetchedDate) && creator == old(creator)
      ensures hasRead == old(hasRead) && starred == old(starred) && hidden == old(hidden)
      ensures notify == old(notify) && serviceRef == old(serviceRef)
      ensures (content, snippet) == ContentOf(parsed, net.htmlDecode)
      ensures (thumbnails, thumb, error) == ParseOutcome(parsed, link, content, net, old(thumb))
    {
      content, snippet := ContentOf(parsed, net.htmlDecode).0, ContentOf(parsed, net.htmlDecode).1;
      thumbnails, thumb, error := GatherThumbnails(parsed, link, content, net, thumb);
    }
  }

  /** The content and snippet: the full content when it is a non-empty
      string, otherwise the content (or `""`) and the decoded snippet. */
  function ContentOf(parsed: ParserItem, htmlDecode: string -> string): (r: (string, string))
    ensures var full := Sanitised(parsed.fullContent);
      full.Str? && full.s != "" ==> r == (full.s, htmlDecode(full.s))
    ensures var full := Sanitised(parsed.fullContent);
      !(full.Str? && full.s != "") ==> r == (StringOr(Sanitised(parsed.content), ""), htmlDecode(parsed.contentSnippet.GetOr("")))
  {
    var full := Sanitised(parsed.fullContent);
    if full.Str? && full.s != "" then (full.s, htmlDecode(full.s))
    else (StringOr(Sanitised(parsed.content), ""), htmlDecode(parsed.contentSnippet.GetOr("")))
  }

  /** What `parseContent` leaves in `thumbnails` and `thumb`, and how it
      settles: a rejection keeps the candidates gathered before it,
      unresolved, and the old `thumb`. */
  function ParseOutcome(parsed: ParserItem, link: string, content: string, net: Network, oldThumb: Option<string>)
    : (seq<ThumbnailAttributes>, Option<string>, Option<ParseError>)
  {
    var (ts, err) := Collected(parsed, link, content, net);
    if err.Some? then (ts, oldThumb, Some(ThumbnailFailed(err.value)))
    else match ResolveAll(ts, link, net.resolve)
      case Err(u) => (ts, oldThumb, Some(InvalidUrl(u)))
      case Ok(rs) => (rs, PrimaryThumb(rs), None)
  }

  /** The thumbnail half of `parseContent`, step by step. */
  method GatherThumbnails(parsed: ParserItem, link: string, content: string, net: Network, oldThumb: Option<string>)
    returns (thumbnails: seq<ThumbnailAttributes>, thumb: Option<string>, error: Option<ParseError>)
    ensures (thumbnails, thumb, error) == ParseOutcome(parsed, link, content, net, oldThumb)
  {
    thumbnails, thumb := [], oldThumb;
    var linkF := Sanitised(parsed.link);
    if linkF.Str? && linkF.s != "" {
      var head := FetchHead(net.page(linkF.s));
      if head.Err? {
        return thumbnails, thumb, Some(ThumbnailFailed(head.error));
      }
      if MentionsOpenGraph(head.value) {
        var og := MakeOpenGraphThumbnail(net.parseHead(head.value));
        thumbnails := thumbnails + og;
        assert thumbnails == og;
      }
      assert OpenGraphCandidates(parsed, net) == Ok(thumbnails);
    }
    assert OpenGraphCandidates(parsed, net) == Ok(thumbnails);
    var reqs := LaterRequests(parsed, link, content, net);
    var ts, err := ProbeEach(reqs, net.probe);
    thumbnails := thumbnails + ts;
    if err.Some? {
      return thumbnails, thumb, Some(ThumbnailFailed(err.value));
    }
    var resolved := ResolveAll(thumbnails, link, net.resolve);
    if resolved.Err? {
      return thumbnails, thumb, Some(InvalidUrl(resolved.error));
    }
    thumbnails := resolved.value;
    thumb := PrimaryThumb(thumbnails);
    error := None;
  }

  /** After a successful parse the thumbnails are resolved candidates in
      priority order and `thumb` is the first one's url, when that is
      `http(s)` or empty; after a rejection `thumb` is untouched. */
  lemma ParseOutcomeShape(parsed: ParserItem, link: string, content: string, net: Network, oldThumb: Option<string>)
    ensures var (ts, thumb, error) := ParseOutcome(parsed, link, content, net, oldThumb);
      Sorting.SortedBy(ts, ThumbRank)
      && (error.Some? ==> thumb == oldThumb)
      && (error.None? ==> thumb == PrimaryThumb(ts))
  {
    CandidatesInPriorityOrder(parsed, link, content, net);
    var (ts, err) := Collected(parsed, link, content, net);
    if err.None? && ResolveAll(ts, link, net.resolve).Ok? {
      ResolvedKeepsOrder(ts, link, net.resolve);
    }
  }

  // ---------------------------------------------------------------------
  // insertItems

  function DateOf(e: Db.ItemEntry): int
  {
    e.date
  }

  /** The rows of `s`, the first `|keys|` of them given those keys. */
  function Keyed(s: seq<Db.ItemEntry>, keys: seq<int>): (r: seq<Db.ItemEntry>)
    requires |keys| <= |s|
    ensures |r| == |s|
    ensures forall i :: 0 <= i < |keys| ==> r[i] == s[i].(iid := keys[i])
    ensures forall i :: |keys| <= i < |s| ==> r[i] == s[i]
  {
    seq(|s|, i requires 0 <= i < |s| => if i < |keys| then s[i].(iid := keys[i]) else s[i])
  }

  /** `insertItems(items)`: sorts the batch by date, oldest first and
      stable, adds it in one `bulkAdd` and writes each returned key into
      the item at the same position. `None` when `bulkAdd` rejects. */
  method InsertItems(items: seq<Db.ItemEntry>, table: Db.ItemsTable) returns (r: Option<seq<Db.ItemEntry>>)
    requires table.Valid()
    modifies table
    ensures table.Valid()
    ensures var (t, keys, ok) := Db.BulkAdded(old(table.State()), Sorting.SortBy(items, DateOf));
      table.State() == t && (ok ==> r == Some(Keyed(Sorting.SortBy(items, DateOf), keys))) && (!ok ==> r.None?)
  {
    var sorted := Sorting.SortBy(items, DateOf);
    var keys, ok := table.BulkAdd(sorted);
    if !ok {
      return None;
    }
    var inserted := sorted;
    for i := 0 to |keys|
      invariant |inserted| == |sorted|
      invariant forall j :: 0 <= j < i ==> inserted[j] == sorted[j].(iid := keys[j])
      invariant forall j :: i <= j < |sorted| ==> inserted[j] == sorted[j]
    {
      inserted := inserted[i := inserted[i].(iid := keys[i])];
    }
    assert inserted == Keyed(sorted, keys);
    return Some(inserted);
  }

  /** The entry with its key cleared, as it was before it was stored. */
  function Unkeyed(e: Db.ItemEntry): Db.ItemEntry
  {
    e.(iid := 0)
  }

  /** A batch of new items comes back whole, oldest first, the same items
      with consecutive keys from the generator, each stored under its key. */
  lemma {:induction false} InsertedItems(items: seq<Db.ItemEntry>, s: Db.ItemsState)
    requires Db.ItemsInvariant(s.rows, s.nextKey)
    requires forall i :: 0 <= i < |items| ==> items[i].iid == 0
    ensures var sorted := Sorting.SortBy(items, DateOf);
      var (t, keys, ok) := Db.BulkAdded(s, sorted);
      var r := Keyed(sorted, keys);
      ok && |r| == |items| && Sorting.SortedBy(r, DateOf)
      && multiset(sorted) == multiset(items)
      && (forall i :: 0 <= i < |r| ==> r[i].iid == s.nextKey + i && Unkeyed(r[i]) == sorted[i])
      && (forall i :: 0 <= i < |r| ==> r[i].iid in t.rows && t.rows[r[i].iid] == r[i])
  {
    var sorted := Sorting.SortBy(items, DateOf);
    Sorting.SortByIsSortedPermutation(items, DateOf);
    forall i | 0 <= i < |sorted| ensures sorted[i].iid == 0 {
      assert sorted[i] in multiset(items);
    }
    Db.FreshBatchGetsConsecutiveKeys(s, sorted);
    var (t, keys, ok) := Db.BulkAdded(s, sorted);
    var r := Keyed(sorted, keys);
    forall i, j | 0 <= i < j < |r| ensures DateOf(r[i]) <= DateOf(r[j]) {
      assert DateOf(r[i]) == DateOf(sorted[i]) && DateOf(r[j]) == DateOf(sorted[j]);
    }
    forall i | 0 <= i < |r| ensures Unkeyed(r[i]) == sorted[i] {
      assert sorted[i].iid == 0;
    }
  }

  // ---------------------------------------------------------------------
  // fetchItems

  /** A JavaScript truthiness test on an optional string. */
  predicate Truthy(o: Option<string>)
  {
    o.Some? && o.value != ""
  }

  /** A source is due when it is not synced through a service and either
      its last fetch lies in the future or `fetchFrequency` minutes have
      passed since it; a source never fetched counts as fetched at 0. */
  predicate IsDue(s: Db.SourceEntry, now: int)
  {
    var last := s.lastFetched.GetOr(0);
    !Truthy(s.serviceRef) && (last > now || last + s.fetchFrequency * 60000 <= now)
  }

  function DueSources(sources: seq<Db.SourceEntry>, now: int): (r: seq<Db.SourceEntry>)
    ensures |r| <= |sources|
  {
    if sources == [] then []
    else (if IsDue(sources[0], now) then [sources[0]] else []) + DueSources(sources[1..], now)
  }

  /** `sourcesState[sid]`: the first source with that id. */
  function Lookup(sources: seq<Db.SourceEntry>, sid: int): (r: Option<Db.SourceEntry>)
    ensures r.Some? ==> r.value in sources && r.value.sid == sid
    ensures r.None? ==> forall s :: s in sources ==> s.sid != sid
  {
    if sources == [] then None
    else if sources[0].sid == sid then Some(sources[0])
    else Lookup(sources[1..], sid)
  }

  datatype FetchError = UnknownSource(sid: int) | StoreFailed

  /** The explicitly named sources that are not synced through a service,
      in the order named; an id with no source makes the thunk throw. */
  function NamedSources(sources: seq<Db.SourceEntry>, sids: seq<int>): Result<seq<Db.SourceEntry>, FetchError>
  {
    if sids == [] then Ok([])
    else match Lookup(sources, sids[0])
      case None => Err(UnknownSource(sids[0]))
      case Some(s) =>
        match NamedSources(sources, sids[1..])
        case Err(e) => Err(e)
        case Ok(rest) => Ok((if Truthy(s.serviceRef) then [] else [s]) + rest)
  }

  /** The sources `fetchItems(background, sids)` fetches, in
      `Object.values` order (ascending id) when no ids are given; nothing
      while a fetch or a sync is running. */
  function SourcesToFetch(fetching: bool, syncing: bool, sids: Option<seq<int>>, sources: seq<Db.SourceEntry>, now: int)
    : Result<Option<seq<Db.SourceEntry>>, FetchError>
  {
    if fetching || syncing then Ok(None)
    else if sids.None? then Ok(Some(DueSources(sources, now)))
    else match NamedSources(sources, sids.value)
      case Err(e) => Err(e)
      case Ok(r) => Ok(Some(r))
  }

  /** Without ids, exactly the due sources are fetched, in order. */
  lemma {:induction false} DueSourcesAreTheDueOnes(sources: seq<Db.SourceEntry>, now: int)
    ensures forall s :: s in DueSources(sources, now) <==> s in sources && IsDue(s, now)
    decreases |sources|
  {
    if sources != [] {
      DueSourcesAreTheDueOnes(sources[1..], now);
      assert sources == [sources[0]] + sources[1..];
    }
  }

  /** With ids, the result fails exactly when some id names no source; when
      it succeeds it holds the named sources that have no service, and only
      those. */
  lemma {:induction false} NamedSourcesSpec(sources: seq<Db.SourceEntry>, sids: seq<int>)
    ensures NamedSources(sources, sids).Err? <==> exists i :: 0 <= i < |sids| && Lookup(sources, sids[i]).None?
    ensures NamedSources(sources, sids).Ok? ==> forall s ::
      s in NamedSources(sources, sids).value <==>
        !Truthy(s.serviceRef) && exists i :: 0 <= i < |sids| && Lookup(sources, sids[i]) == Some(s)
    decreases |sids|
  {
    if sids != [] {
      NamedSourcesSpec(sources, sids[1..]);
      forall i | 1 <= i < |sids| ensures sids[i] == sids[1..][i - 1] { }
      if Lookup(sources, sids[0]).Some? && NamedSources(sources, sids[1..]).Ok? {
        var rest := NamedSources(sources, sids[1..]).value;
        forall s | s in NamedSources(sources, sids).value
          ensures exists i :: 0 <= i < |sids| && Lookup(sources, sids[i]) == Some(s)
        {
          if s !in rest {
            assert Lookup(sources, sids[0]) == Some(s);
          } else {
            var i :| 0 <= i < |sids[1..]| && Lookup(sources, sids[1..][i]) == Some(s);
            assert Lookup(sources, sids[i + 1]) == Some(s);
          }
        }
      }
    }
  }

  /** How `Promise.allSettled` reports one source's fetch. */
  datatype Settled = Fulfilled(items: seq<Db.ItemEntry>) | Rejected

  /** The items of the fulfilled fetches, in source order. */
  function Gathered(results: seq<Settled>): (r: seq<Db.ItemEntry>)
  {
    if results == [] then []
    else Gathered(results[..|results| - 1]) + (match results[|results| - 1] case Fulfilled(items) => items case Rejected => [])
  }

  /** The sources whose fetch was rejected, in order. */
  function Failed(results: seq<Settled>, sources: seq<Db.SourceEntry>): (r: seq<int>)
    requires |results| == |sources|
    ensures |r| <= |results|
  {
    if results == [] then []
    else Failed(results[..|results| - 1], sources[..|sources| - 1])
         + (if results[|results| - 1].Rejected? then [sources[|sources| - 1].sid] else [])
  }

  /** `results.map((r, i) => …)`: collects the fulfilled items and reports
      each rejected source. */
  method MergeResults(results: seq<Settled>, sources: seq<Db.SourceEntry>) returns (items: seq<Db.ItemEntry>, failed: seq<int>)
    requires |results| == |sources|
    ensures items == Gathered(results) && failed == Failed(results, sources)
  {
    items, failed := [], [];
    for i := 0 to |results|
      invariant items == Gathered(results[..i]) && failed == Failed(results[..i], sources[..i])
    {
      assert results[..i + 1][..i] == results[..i];
      assert sources[..i + 1][..i] == sources[..i];
      match results[i]
      case Fulfilled(fetched) => items := items + fetched;
      case Rejected => failed := failed + [sources[i].sid];
    }
    assert results[..|results|] == results;
    assert sources[..|sources|] == sources;
  }

  /** Every fulfilled item is gathered, and only those; none is lost or
      counted twice. */
  lemma {:induction false} GatheredCounts(results: seq<Settled>)
    ensures forall x :: x in Gathered(results) <==> exists i :: 0 <= i < |results| && results[i].Fulfilled? && x in results[i].items
    ensures |Gathered(results)| == FulfilledCount(results)
    decreases |results|
  {
    if results != [] {
      var init := results[..|results| - 1];
      GatheredCounts(init);
      forall i | 0 <= i < |init| ensures init[i] == results[i] { }
    }
  }

  /** The number of items the fulfilled fetches returned. */
  function FulfilledCount(results: seq<Settled>): nat
  {
    if results == [] then 0
    else FulfilledCount(results[..|results| - 1]) + (match results[|results| - 1] case Fulfilled(items) => |items| case Rejected => 0)
  }

  /** A source is reported as failed exactly when its fetch was rejected. */
  lemma {:induction false} FailedAreTheRejected(results: seq<Settled>, sources: seq<Db.SourceEntry>)
    requires |results| == |sources|
    ensures forall sid :: sid in Failed(results, sources) <==> exists i :: 0 <= i < |results| && results[i].Rejected? && sources[i].sid == sid
    decreases |results|
  {
    if results != [] {
      var n := |results| - 1;
      FailedAreTheRejected(results[..n], sources[..n]);
      forall i | 0 <= i < n ensures results[..n][i] == results[i] && sources[..n][i] == sources[i] { }
    }
  }

  /** What one `fetchItems` run leaves behind: the stored items, newest
      first as the reducer receives them, and the sources that failed. */
  datatype FetchReport = FetchReport(inserted: seq<Db.ItemEntry>, failed: seq<int>)

  function Reversed<T>(s: seq<T>): (r: seq<T>)
    ensures |r| == |s| && forall i :: 0 <= i < |s| ==> r[i] == s[|s| - 1 - i]
  {
    if s == [] then [] else Reversed(s[1..]) + [s[0]]
  }

  /** `fetchItems(background, sids)` after the service sync: picks the
      sources, fetches each (`fetchSource` stands for `RSSSource.fetchItems`),
      merges the results and inserts them. `Ok(None)` when nothing runs. */
  method FetchItems(fetching: bool, syncing: bool, sids: Option<seq<int>>, sources: seq<Db.SourceEntry>, now: int,
                    fetchSource: Db.SourceEntry -> Settled, table: Db.ItemsTable)
    returns (r: Result<Option<FetchReport>, FetchError>)
    requires table.Valid()
    modifies table
    ensures table.Valid()
    ensures match SourcesToFetch(fetching, syncing, sids, sources, now)
      case Err(e) => r == Err(e) && table.State() == old(table.State())
      case Ok(None) => r == Ok(None) && table.State() == old(table.State())
      case Ok(Some(chosen)) =>
        var results := seq(|chosen|, i requires 0 <= i < |chosen| => fetchSource(chosen[i]));
        var sorted := Sorting.SortBy(Gathered(results), DateOf);
        var (t, keys, ok) := Db.BulkAdded(old(table.State()), sorted);
        table.State() == t
        && (ok ==> r == Ok(Some(FetchReport(Reversed(Keyed(sorted, keys)), Failed(results, chosen)))))
        && (!ok ==> r == Err(StoreFailed))
  {
    var plan := SourcesToFetch(fetching, syncing, sids, sources, now);
    if plan.Err? {
      return Err(plan.error);
    }
    if plan.value.None? {
      return Ok(None);
    }
    var chosen := plan.value.value;
    var results: seq<Settled> := [];
    for i := 0 to |chosen|
      invariant |results| == i && forall j :: 0 <= j < i ==> results[j] == fetchSource(chosen[j])
    {
      results := results + [fetchSource(chosen[i])];
    }
    assert results == seq(|chosen|, i requires 0 <= i < |chosen| => fetchSource(chosen[i]));
    var items, failed := MergeResults(results, chosen);
    var inserted := InsertItems(items, table);
    if inserted.None? {
      return Err(StoreFailed);
    }
    return Ok(Some(FetchReport(Reversed(inserted.value), failed)));
  }
}
