/** The client-side helpers of the tracker: the call that asks the
    check-website route about a URL, the metadata comparison
    `hasWebsiteChanged` and the URL test `isRssFeed`. */
module WebsiteChecker {
  import opened Results
  import opened Text
  import opened Records
  import opened CheckWebsiteRoute

  const CacheBusterKey: string := "_cb="

  /** The URL with a `_cb=<timestamp>` parameter appended, joined with `&`
      when the URL already has a query and with `?` otherwise. The URL is
      kept as a prefix, exactly one separator follows it, and the timestamp
      can be read back from the end. */
  function CacheBustedUrl(url: string, t: nat): (r: string)
    ensures url <= r && |r| == |url| + 1 + |CacheBusterKey| + |NatToString(t)|
    ensures r[|url|] == (if Contains(url, "?") then '&' else '?')
    ensures r[|url| + 1..|url| + 1 + |CacheBusterKey|] == CacheBusterKey
    ensures r[|url| + 1 + |CacheBusterKey|..] == NatToString(t)
    ensures ParseNat(r[|url| + 1 + |CacheBusterKey|..]) == t
    ensures Contains(r, "?")
  {
    var sep := if Contains(url, "?") then "&" else "?";
    CacheBusterFacts(url, sep, t);
    QueryMarkPresent(url, sep, t);
    url + CacheBuster(sep, t)
  }

  /** The appended part: separator, key and timestamp. */
  function CacheBuster(sep: string, t: nat): string {
    sep + CacheBusterKey + NatToString(t)
  }

  lemma CacheBusterFacts(url: string, sep: string, t: nat)
    requires |sep| == 1
    ensures var r := url + CacheBuster(sep, t);
            && url <= r && |r| == |url| + 1 + |CacheBusterKey| + |NatToString(t)| && r[|url|] == sep[0]
            && r[|url| + 1..|url| + 1 + |CacheBusterKey|] == CacheBusterKey
            && r[|url| + 1 + |CacheBusterKey|..] == NatToString(t)
            && ParseNat(r[|url| + 1 + |CacheBusterKey|..]) == t
  {
    var r := url + CacheBuster(sep, t);
    assert r[..|url|] == url;
    assert r[|url| + 1 + |CacheBusterKey|..] == NatToString(t);
    assert r[|url| + 1..|url| + 1 + |CacheBusterKey|] == CacheBusterKey;
    ParseNatToString(t);
  }

  lemma QueryMarkPresent(url: string, sep: string, t: nat)
    requires sep == (if Contains(url, "?") then "&" else "?")
    ensures Contains(url + CacheBuster(sep, t), "?")
  {
    var r := url + CacheBuster(sep, t);
    if sep == "&" {
      ContainsExtend(url, CacheBuster(sep, t), "?");
    } else {
      assert "?" <= r[|url|..];
      ContainsIffOccurs(r, "?");
    }
  }

  /** `checkWebsiteForUpdates(url)`: the route's answer for the cache-busted
      URL at time `now`; any error answer becomes `None`. */
  function CheckWebsiteForUpdates(url: string, now: nat, route: string -> ApiReply): (r: Option<WebsiteData>)
    ensures r.Some? <==> route(CacheBustedUrl(url, now)).ApiOk?
    ensures r.Some? ==> r.value == route(CacheBustedUrl(url, now)).data
  {
    match route(CacheBustedUrl(url, now))
    case ApiOk(data) => Some(data)
    case ApiError(_, _) => None
  }

  /** One of the marks `isRssFeed` looks for starts `t`. */
  predicate FeedMarkAt(t: string) {
    ".xml" <= t || "/rss" <= t || "/feed" <= t || "/atom" <= t
  }

  /** `isRssFeed(url)`: the URL, as given and case-sensitively, contains
      `.xml`, `/rss`, `/feed` or `/atom` at some position. */
  predicate IsRssFeed(url: string): (b: bool)
    ensures b <==> exists i :: 0 <= i <= |url| && FeedMarkAt(url[i..])
  {
    IsRssFeedOccurs(url);
    Contains(url, ".xml") || Contains(url, "/rss") || Contains(url, "/feed") || Contains(url, "/atom")
  }

  lemma IsRssFeedOccurs(url: string)
    ensures (Contains(url, ".xml") || Contains(url, "/rss") || Contains(url, "/feed") || Contains(url, "/atom"))
            <==> exists i :: 0 <= i <= |url| && FeedMarkAt(url[i..])
  {
    ContainsIffOccurs(url, ".xml");
    ContainsIffOccurs(url, "/rss");
    ContainsIffOccurs(url, "/feed");
    ContainsIffOccurs(url, "/atom");
    if exists i :: 0 <= i <= |url| && FeedMarkAt(url[i..]) {
      var i :| 0 <= i <= |url| && FeedMarkAt(url[i..]);
      assert ".xml" <= url[i..] || "/rss" <= url[i..] || "/feed" <= url[i..] || "/atom" <= url[i..];
    }
    if Contains(url, ".xml") {
      var i :| 0 <= i <= |url| && ".xml" <= url[i..];
      assert FeedMarkAt(url[i..]);
    } else if Contains(url, "/rss") {
      var i :| 0 <= i <= |url| && "/rss" <= url[i..];
      assert FeedMarkAt(url[i..]);
    } else if Contains(url, "/feed") {
      var i :| 0 <= i <= |url| && "/feed" <= url[i..];
      assert FeedMarkAt(url[i..]);
    } else if Contains(url, "/atom") {
      var i :| 0 <= i <= |url| && "/atom" <= url[i..];
      assert FeedMarkAt(url[i..]);
    }
  }

  /** The route's feed test is the content-type test or this URL test. */
  lemma IsXmlSplits(contentType: string, url: string)
    ensures IsXml(contentType, url) <==> Contains(contentType, "xml") || IsRssFeed(url)
  {
  }

  /** A character the cache-busting suffix is made of. */
  predicate IsSuffixChar(c: char) {
    c == '?' || c == '&' || c == '_' || c == 'c' || c == 'b' || c == '=' || '0' <= c <= '9'
  }

  lemma SuffixCharNotInFeedMarks(c: char)
    requires IsSuffixChar(c)
    ensures c !in ".xml" && c !in "/rss" && c !in "/feed" && c !in "/atom"
  {
    var x, r, f, a := ".xml", "/rss", "/feed", "/atom";
    assert forall k :: 0 <= k < |x| ==> x[k] in {'.', 'x', 'm', 'l'};
    assert forall k :: 0 <= k < |r| ==> r[k] in {'/', 'r', 's'};
    assert forall k :: 0 <= k < |f| ==> f[k] in {'/', 'f', 'e', 'd'};
    assert forall k :: 0 <= k < |a| ==> a[k] in {'/', 'a', 't', 'o', 'm'};
  }

  /** Appending suffix characters never changes whether a URL looks like a
      feed. */
  lemma SuffixKeepsFeedTest(url: string, suffix: string)
    requires forall i :: 0 <= i < |suffix| ==> IsSuffixChar(suffix[i])
    ensures IsRssFeed(url + suffix) <==> IsRssFeed(url)
  {
    forall i | 0 <= i < |suffix|
      ensures suffix[i] !in ".xml" && suffix[i] !in "/rss" && suffix[i] !in "/feed" && suffix[i] !in "/atom"
    {
      SuffixCharNotInFeedMarks(suffix[i]);
    }
    ContainsAppendForeign(url, suffix, ".xml");
    ContainsAppendForeign(url, suffix, "/rss");
    ContainsAppendForeign(url, suffix, "/feed");
    ContainsAppendForeign(url, suffix, "/atom");
  }

  lemma CacheBusterSuffixChars(sep: string, t: nat)
    requires sep == "&" || sep == "?"
    ensures forall i :: 0 <= i < |CacheBuster(sep, t)| ==> IsSuffixChar(CacheBuster(sep, t)[i])
  {
    var d := NatToString(t);
    var suffix := CacheBuster(sep, t);
    forall i | 0 <= i < |suffix|
      ensures IsSuffixChar(suffix[i])
    {
      if i >= 1 + |CacheBusterKey| {
        assert suffix[i] == d[i - 1 - |CacheBusterKey|];
      }
    }
  }

  /** The cache buster never changes whether a URL looks like a feed. */
  lemma CacheBusterKeepsFeedTest(url: string, t: nat)
    ensures IsRssFeed(CacheBustedUrl(url, t)) <==> IsRssFeed(url)
  {
    var sep := if Contains(url, "?") then "&" else "?";
    CacheBusterSuffixChars(sep, t);
    SuffixKeepsFeedTest(url, CacheBuster(sep, t));
  }

  /** What the client sees when the route runs on the cache-busted URL:
      data within the route's bounds exactly when the upstream answered 2xx,
      and a feed reading exactly when the content type mentions `xml` or the
      URL the user gave looks like a feed. */
  lemma ClientSeesRoute(url: string, now: nat, upstream: string -> Upstream, serverNow: int)
    ensures var r := CheckWebsiteForUpdates(url, now, u => Get(Some(u), upstream(u), serverNow));
            var up := upstream(CacheBustedUrl(url, now));
            && (r.Some? <==> up.Response? && IsOk(up.status))
            && (r.Some? ==> WithinRouteBounds(r.value))
            && (r.Some? ==> (r.value.isRssFeed <==> Contains(OrEmpty(up.contentType), "xml") || IsRssFeed(url)))
  {
    var b := CacheBustedUrl(url, now);
    assert Present(Some(b));
    CacheBusterKeepsFeedTest(url, now);
    var up := upstream(b);
    if up.Response? {
      IsXmlSplits(OrEmpty(up.contentType), b);
    }
  }

  // ---------------------------------------------------------------------
  // hasWebsiteChanged

  /** The fields `hasWebsiteChanged` reads; an absent optional field is
      `None`. */
  datatype SiteData = SiteData(title: string, description: Option<string>, mainContent: Option<string>)

  /** The first 100 characters of the main content are what is compared. */
  const ComparedContentLength: nat := 100

  /** Both values are present (non-empty) and differ. */
  predicate BothPresentAndDiffer(a: Option<string>, b: Option<string>) {
    Present(a) && Present(b) && a.value != b.value
  }

  /** `hasWebsiteChanged(currentData, newData)`; a missing side is `None`. */
  function HasWebsiteChanged(current: Option<SiteData>, next: Option<SiteData>): (b: bool)
    ensures current.None? || next.None? ==> !b
    ensures current.Some? && next.Some? && current.value.title != next.value.title ==> b
    ensures b ==> current.Some? && next.Some?
    ensures b && current.value.title == next.value.title ==>
              BothPresentAndDiffer(current.value.description, next.value.description)
              || (Present(current.value.mainContent) && Present(next.value.mainContent)
                  && Take(current.value.mainContent.value, ComparedContentLength)
                     != Take(next.value.mainContent.value, ComparedContentLength))
    ensures current.Some? && next.Some? && BothPresentAndDiffer(current.value.description, next.value.description) ==> b
    ensures (current.Some? && next.Some? && Present(current.value.mainContent) && Present(next.value.mainContent)
             && Take(current.value.mainContent.value, ComparedContentLength)
                != Take(next.value.mainContent.value, ComparedContentLength)) ==> b
  {
    if current.None? || next.None? then false
    else
      var c, n := current.value, next.value;
      if c.title != n.title then true
      else if BothPresentAndDiffer(c.description, n.description) then true
      else if Present(c.mainContent) && Present(n.mainContent)
              && Take(c.mainContent.value, ComparedContentLength) != Take(n.mainContent.value, ComparedContentLength)
      then true
      else false
  }

  /** Comparing data with itself finds no change. */
  lemma NoChangeAgainstItself(d: SiteData)
    ensures !HasWebsiteChanged(Some(d), Some(d))
  {
  }

  /** The comparison does not depend on which side is the current one. */
  lemma HasWebsiteChangedSymmetric(a: Option<SiteData>, b: Option<SiteData>)
    ensures HasWebsiteChanged(a, b) == HasWebsiteChanged(b, a)
  {
  }

  /** An edit of the main content beyond its first 100 characters is not a
      change. */
  lemma EditBeyondComparedLengthIgnored(d: SiteData, head: string, tail1: string, tail2: string)
    requires |head| >= ComparedContentLength
    ensures !HasWebsiteChanged(Some(d.(mainContent := Some(head + tail1))),
                               Some(d.(mainContent := Some(head + tail2))))
  {
    assert Take(head + tail1, ComparedContentLength) == Take(head, ComparedContentLength);
    assert Take(head + tail2, ComparedContentLength) == Take(head, ComparedContentLength);
  }

  /** A description or main content that disappears (or becomes empty) is
      not a change. */
  lemma DroppedFieldsIgnored(d: SiteData)
    ensures !HasWebsiteChanged(Some(d), Some(d.(description := None, mainContent := None)))
    ensures !HasWebsiteChanged(Some(d), Some(d.(description := Some(""), mainContent := Some(""))))
  {
  }

  /** A new description, both sides having one, is a change. */
  lemma NewDescriptionIsChange(d: SiteData, description: string)
    requires Present(d.description) && description != "" && description != d.description.value
    ensures HasWebsiteChanged(Some(d), Some(d.(description := Some(description))))
  {
  }
}
