/** The `/api/check-website` handler: fetch a URL, classify the answer as a
    feed or a page, and extract title, description, main content and (for
    feeds) the latest items. The HTTP request is an input (`Upstream`), and
    so are the texts the HTML/XML parser would select from the body. */
module CheckWebsiteRoute {
  import opened Results
  import opened Text
  import opened Seqs
  import opened Records

  /** The texts of one RSS `item`: its `title`, `description`,
      `content:encoded`, `content`, `pubDate` and `published` children. */
  datatype RssItemNode = RssItemNode(
    title: string, description: string, encodedContent: string, content: string,
    pubDate: string, published: string)

  /** The texts of one Atom `entry`: `title`, `summary`, `content`,
      `published` and `updated`. */
  datatype AtomEntryNode = AtomEntryNode(
    title: string, summary: string, content: string, published: string, updated: string)

  /** The body parsed in XML mode: the texts of `channel > title`,
      `feed > title`, `channel > description`, `feed > subtitle`, and every
      `item` and `entry` element in document order. */
  datatype FeedDocument = FeedDocument(
    channelTitle: string, feedTitle: string, channelDescription: string, feedSubtitle: string,
    items: seq<RssItemNode>, entries: seq<AtomEntryNode>)

  /** The body parsed as HTML: the text of `title`, the `content` attribute of
      the description metas (absent when there is none), `select(sel)` = the
      text of the elements matching a content selector once their script,
      style, noscript and iframe descendants are removed (absent when nothing
      matches), and the text of every `p` element in document order. */
  datatype HtmlDocument = HtmlDocument(
    titleText: string,
    metaDescription: Option<string>,
    ogDescription: Option<string>,
    select: string -> Option<string>,
    paragraphs: seq<string>)

  /** What `fetch(url)` produced: a response with its status, the
      `content-type` and `last-modified` headers and its parsed body, or a
      transport failure. */
  datatype Upstream =
    | Response(status: nat, contentType: Option<string>, lastModified: Option<string>,
               asFeed: FeedDocument, asHtml: HtmlDocument)
    | NetworkFailure

  datatype ApiReply = ApiOk(data: WebsiteData) | ApiError(status: nat, message: string)

  const ItemsPerKind: nat := 3
  const ItemTextLimit: nat := 200
  const ItemSummaryLimit: nat := 100
  const FeedMainContentLimit: nat := 500
  const SelectorMinLength: nat := 100
  const ParagraphMinLength: nat := 40

  const ContentSelectors: seq<string> := [
    "article", "main", ".content", "#content", ".post-content",
    ".entry-content", ".article-content", ".post", "#main-content"
  ]

  /** A 2xx status (`response.ok`). */
  predicate IsOk(status: nat) {
    200 <= status <= 299
  }

  /** The feed heuristic: the content type mentions `xml`, or the URL, as
      given, contains `.xml`, `/rss`, `/feed` or `/atom` (case-sensitive). */
  predicate IsXml(contentType: string, url: string) {
    Contains(contentType, "xml") || Contains(url, ".xml") || Contains(url, "/rss")
    || Contains(url, "/feed") || Contains(url, "/atom")
  }

  // ---------------------------------------------------------------------
  // Feed branch

  function RssItem(n: RssItemNode): (it: FeedItem)
    ensures it.title == n.title
    ensures it.description <= n.description && |it.description| == Min(|n.description|, ItemTextLimit)
    ensures it.content <= OrElse(n.encodedContent, n.content)
    ensures |it.content| == Min(|OrElse(n.encodedContent, n.content)|, ItemTextLimit)
    ensures it.pubDate == OrElse(n.pubDate, n.published)
  {
    FeedItem(n.title, Take(n.description, ItemTextLimit),
             Take(OrElse(n.encodedContent, n.content), ItemTextLimit),
             OrElse(n.pubDate, n.published))
  }

  function AtomItem(n: AtomEntryNode): (it: FeedItem)
    ensures it.title == n.title
    ensures it.description <= n.summary && |it.description| == Min(|n.summary|, ItemTextLimit)
    ensures it.content <= n.content && |it.content| == Min(|n.content|, ItemTextLimit)
    ensures it.pubDate == OrElse(n.published, n.updated)
  {
    FeedItem(n.title, Take(n.summary, ItemTextLimit), Take(n.content, ItemTextLimit),
             OrElse(n.published, n.updated))
  }

  /** The first three RSS items, then the first three Atom entries, each in
      document order. */
  function FeedItemsOf(doc: FeedDocument): (items: seq<FeedItem>)
    ensures |items| == Min(ItemsPerKind, |doc.items|) + Min(ItemsPerKind, |doc.entries|)
    ensures |items| <= 2 * ItemsPerKind
    ensures forall i :: 0 <= i < Min(ItemsPerKind, |doc.items|) ==> items[i] == RssItem(doc.items[i])
    ensures forall i :: 0 <= i < Min(ItemsPerKind, |doc.entries|) ==>
              items[Min(ItemsPerKind, |doc.items|) + i] == AtomItem(doc.entries[i])
  {
    Map(Take(doc.items, ItemsPerKind), RssItem) + Map(Take(doc.entries, ItemsPerKind), AtomItem)
  }

  /** `${title}\n${(description || content || "").substring(0, 100)}`. */
  function ItemSummary(it: FeedItem): string {
    it.title + "\n" + Take(OrElse(it.description, it.content), ItemSummaryLimit)
  }

  /** The items' summaries joined by blank lines, cut to 500 characters. */
  function FeedMainContent(items: seq<FeedItem>): (r: string)
    ensures |r| <= FeedMainContentLimit
    ensures r <= Join(Map(items, ItemSummary), "\n\n")
    ensures |r| == Min(|Join(Map(items, ItemSummary), "\n\n")|, FeedMainContentLimit)
  {
    Take(Join(Map(items, ItemSummary), "\n\n"), FeedMainContentLimit)
  }

  /** The main content opens with the newest item's summary (as much of it as
      fits in 500 characters), and when nothing is cut every item's title
      appears in it, followed by a line break. */
  lemma FeedMainContentShowsItems(items: seq<FeedItem>)
    ensures items != [] ==> Take(ItemSummary(items[0]), FeedMainContentLimit) <= FeedMainContent(items)
    ensures |Join(Map(items, ItemSummary), "\n\n")| <= FeedMainContentLimit ==>
              forall i :: 0 <= i < |items| ==> Contains(FeedMainContent(items), items[i].title + "\n")
  {
    var summaries := Map(items, ItemSummary);
    var joined := Join(summaries, "\n\n");
    if items != [] {
      JoinStartsWithFirst(summaries, "\n\n");
      var first := Take(ItemSummary(items[0]), FeedMainContentLimit);
      assert first == ItemSummary(items[0])[..|first|];
      assert first == joined[..|first|];
    }
    if |joined| <= FeedMainContentLimit {
      JoinContainsParts(summaries, "\n\n");
      forall i | 0 <= i < |items|
        ensures Contains(FeedMainContent(items), items[i].title + "\n")
      {
        var it := items[i];
        assert summaries[i] == (it.title + "\n") + Take(OrElse(it.description, it.content), ItemSummaryLimit);
        ContainsPrefixOfSub(joined, it.title + "\n", Take(OrElse(it.description, it.content), ItemSummaryLimit));
      }
    }
  }

  function FeedData(doc: FeedDocument, now: int): (d: WebsiteData)
    ensures d.isRssFeed
    ensures d.feedItems == Some(FeedItemsOf(doc))
    ensures d.title <= OrElse(doc.channelTitle, doc.feedTitle)
    ensures |d.title| == Min(|OrElse(doc.channelTitle, doc.feedTitle)|, TitleLimit)
    ensures d.description <= OrElse(doc.channelDescription, doc.feedSubtitle)
    ensures |d.description| == Min(|OrElse(doc.channelDescription, doc.feedSubtitle)|, DescriptionLimit)
    ensures d.mainContent == FeedMainContent(FeedItemsOf(doc))
  {
    var items := FeedItemsOf(doc);
    WebsiteData(
      title := Take(OrElse(doc.channelTitle, doc.feedTitle), TitleLimit),
      description := Take(OrElse(doc.channelDescription, doc.feedSubtitle), DescriptionLimit),
      mainContent := Take(FeedMainContent(items), FeedMainContentLimit),
      isRssFeed := true,
      feedItems := Some(items),
      lastModified := None,
      checkedAt := now)
  }

  // ---------------------------------------------------------------------
  // HTML branch

  /** The whitespace-collapsed text a content selector yields, if it
      matched anything. */
  function Candidate(doc: HtmlDocument, selector: string): Option<string> {
    match doc.select(selector)
    case None => None
    case Some(t) => Some(Collapse(t))
  }

  function Candidates(doc: HtmlDocument): (cs: seq<Option<string>>)
    ensures |cs| == |ContentSelectors|
    ensures forall i :: 0 <= i < |cs| ==> cs[i] == Candidate(doc, ContentSelectors[i])
  {
    Map(ContentSelectors, s => Candidate(doc, s))
  }

  /** The selector loop: a candidate replaces the current text only when it
      is strictly longer. */
  function PickLongest(cs: seq<Option<string>>, best: string): (r: string)
    ensures |r| >= |best|
    ensures forall i :: 0 <= i < |cs| && cs[i].Some? ==> |cs[i].value| <= |r|
    decreases |cs|
  {
    if cs == [] then best
    else
      var next := if cs[0].Some? && |cs[0].value| > |best| then cs[0].value else best;
      PickLongest(cs[1..], next)
  }

  /** The text `PickLongest` keeps is the first candidate of maximal length,
      or the starting text when no candidate is longer. */
  lemma {:induction false} PickLongestIsFirstLongest(cs: seq<Option<string>>, best: string)
    ensures var r := PickLongest(cs, best);
      || (r == best && forall i :: 0 <= i < |cs| && cs[i].Some? ==> |cs[i].value| <= |best|)
      || (exists i :: 0 <= i < |cs| && cs[i] == Some(r) && |r| > |best|
            && forall j :: 0 <= j < i && cs[j].Some? ==> |cs[j].value| < |r|)
    decreases |cs|
  {
    if cs != [] {
      var next := if cs[0].Some? && |cs[0].value| > |best| then cs[0].value else best;
      var r := PickLongest(cs, best);
      assert r == PickLongest(cs[1..], next);
      PickLongestIsFirstLongest(cs[1..], next);
      if r == next {
        if next == best {
          assert forall i :: 0 <= i < |cs[1..]| && cs[1..][i].Some? ==> |cs[1..][i].value| <= |best|;
          forall i | 0 <= i < |cs| && cs[i].Some?
            ensures |cs[i].value| <= |best|
          {
            if i > 0 {
              assert cs[i] == cs[1..][i - 1];
            }
          }
        } else {
          assert cs[0] == Some(r);
        }
      } else {
        var i :| 0 <= i < |cs[1..]| && cs[1..][i] == Some(r) && |r| > |next|
               && forall j :: 0 <= j < i && cs[1..][j].Some? ==> |cs[1..][j].value| < |r|;
        assert cs[i + 1] == Some(r);
        forall j | 0 <= j < i + 1 && cs[j].Some?
          ensures |cs[j].value| < |r|
        {
          if j > 0 {
            assert cs[j] == cs[1..][j - 1];
          } else {
            assert |cs[0].value| <= |next|;
          }
        }
      }
    }
  }

  /** The trimmed paragraphs longer than 40 characters, in document order. */
  function KeptParagraphs(paragraphs: seq<string>): (kept: seq<string>)
    ensures forall k :: 0 <= k < |kept| ==> |kept[k]| > ParagraphMinLength
    ensures forall i :: (0 <= i < |paragraphs| && |Trim(paragraphs[i])| > ParagraphMinLength)
                        ==> Trim(paragraphs[i]) in kept
    ensures forall k :: 0 <= k < |kept| ==> kept[k] in Map(paragraphs, Trim)
    ensures IsSubsequence(kept, Map(paragraphs, Trim))
  {
    var trimmed := Map(paragraphs, Trim);
    assert forall i :: 0 <= i < |paragraphs| ==> trimmed[i] == Trim(paragraphs[i]);
    Filter(trimmed, t => |t| > ParagraphMinLength)
  }

  /** A kept paragraph is kept as often as it occurs among the trimmed
      paragraphs, and a short one not at all. */
  lemma KeptParagraphsKeepRepeats(paragraphs: seq<string>, t: string)
    ensures multiset(KeptParagraphs(paragraphs))[t] ==
              if |t| > ParagraphMinLength then multiset(Map(paragraphs, Trim))[t] else 0
  {
    FilterMultiset(Map(paragraphs, Trim), t => |t| > ParagraphMinLength);
  }

  /** The paragraph fallback text: kept paragraphs joined by blank lines,
      cut to 1000 characters. */
  function ParagraphFallback(paragraphs: seq<string>): (r: string)
    ensures |r| <= MainContentLimit
    ensures r <= Join(KeptParagraphs(paragraphs), "\n\n")
    ensures |r| == Min(|Join(KeptParagraphs(paragraphs), "\n\n")|, MainContentLimit)
  {
    Take(Join(KeptParagraphs(paragraphs), "\n\n"), MainContentLimit)
  }

  /** The page's main content: the longest selector text; when that is
      shorter than 100 characters the paragraph text replaces it if strictly
      longer; the result is cut to 1000 characters. */
  function HtmlMainContent(doc: HtmlDocument): (r: string)
    ensures |r| <= MainContentLimit
    ensures var sel := PickLongest(Candidates(doc), "");
      && (|sel| >= SelectorMinLength ==> r == Take(sel, MainContentLimit))
      && ((|sel| < SelectorMinLength && |ParagraphFallback(doc.paragraphs)| > |sel|)
          ==> r == ParagraphFallback(doc.paragraphs))
      && (|sel| < SelectorMinLength && |ParagraphFallback(doc.paragraphs)| <= |sel| ==> r == sel)
  {
    var sel := PickLongest(Candidates(doc), "");
    var chosen :=
      if sel == "" || |sel| < SelectorMinLength then
        var p := ParagraphFallback(doc.paragraphs);
        if |p| > |sel| then p else sel
      else sel;
    Take(chosen, MainContentLimit)
  }

  /** `$('meta[name="description"]').attr("content") ||
      $('meta[property="og:description"]').attr("content") || ""`. */
  function MetaDescription(doc: HtmlDocument): (r: string)
    ensures Present(doc.metaDescription) ==> r == doc.metaDescription.value
    ensures !Present(doc.metaDescription) && Present(doc.ogDescription) ==> r == doc.ogDescription.value
    ensures !Present(doc.metaDescription) && !Present(doc.ogDescription) ==> r == ""
  {
    OrElse(OrEmpty(doc.metaDescription), OrEmpty(doc.ogDescription))
  }

  function HtmlData(doc: HtmlDocument, lastModified: Option<string>, now: int): (d: WebsiteData)
    ensures !d.isRssFeed && d.feedItems.None?
    ensures d.title == Take(Trim(doc.titleText), TitleLimit)
    ensures d.description <= MetaDescription(doc)
    ensures |d.description| == Min(|MetaDescription(doc)|, DescriptionLimit)
    ensures d.mainContent == HtmlMainContent(doc) && |d.mainContent| <= MainContentLimit
    ensures Present(lastModified) ==> d.lastModified == lastModified
    ensures !Present(lastModified) ==> d.lastModified.None?
  {
    WebsiteData(
      title := Take(Trim(doc.titleText), TitleLimit),
      description := Take(MetaDescription(doc), DescriptionLimit),
      mainContent := HtmlMainContent(doc),
      isRssFeed := false,
      feedItems := None,
      lastModified := if Present(lastModified) then lastModified else None,
      checkedAt := now)
  }

  // ---------------------------------------------------------------------
  // The handler

  /** The bounds every successful answer of the route respects. */
  predicate WithinRouteBounds(d: WebsiteData) {
    && |d.title| <= TitleLimit
    && |d.description| <= DescriptionLimit
    && |d.mainContent| <= MainContentLimit
    && (d.feedItems.Some? ==>
          |d.feedItems.value| <= 2 * ItemsPerKind
          && forall i :: 0 <= i < |d.feedItems.value| ==>
               |d.feedItems.value[i].description| <= ItemTextLimit
               && |d.feedItems.value[i].content| <= ItemTextLimit)
  }

  /** `GET /api/check-website?url=...`. A missing or empty `url` is a 400;
      a transport failure or a non-2xx answer is a 500; otherwise the body is
      read as a feed or as a page according to `IsXml`. */
  function Get(url: Option<string>, upstream: Upstream, now: int): (r: ApiReply)
    ensures r == ApiError(400, "URL is required") <==> !Present(url)
    ensures (Present(url) && (upstream.NetworkFailure? || !IsOk(upstream.status)))
            ==> r == ApiError(500, "Failed to check website")
    ensures r.ApiOk? <==> Present(url) && upstream.Response? && IsOk(upstream.status)
    ensures r.ApiOk? ==> WithinRouteBounds(r.data)
    ensures r.ApiOk? ==> (r.data.isRssFeed <==> IsXml(OrEmpty(upstream.contentType), url.value))
    ensures r.ApiOk? && r.data.isRssFeed ==> r.data.feedItems == Some(FeedItemsOf(upstream.asFeed))
    ensures r.ApiOk? && !r.data.isRssFeed ==> r.data.mainContent == HtmlMainContent(upstream.asHtml)
  {
    if !Present(url) then ApiError(400, "URL is required")
    else match upstream
      case NetworkFailure => ApiError(500, "Failed to check website")
      case Response(status, contentType, lastModified, asFeed, asHtml) =>
        if !IsOk(status) then ApiError(500, "Failed to check website")
        else if IsXml(OrEmpty(contentType), url.value) then ApiOk(FeedData(asFeed, now))
        else ApiOk(HtmlData(asHtml, lastModified, now))
  }
}
