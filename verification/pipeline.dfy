/** Facts that span several files: what the first refresh after an add
    reports, depending on which add path and which refresh run meet. */
module Pipeline {
  import opened Results
  import opened Text
  import opened Records
  import opened Urls
  import CheckWebsiteRoute
  import AddWebsiteDialog
  import WebsiteForm
  import ContentFeed
  import WebsiteFeed

  /** A host name that cannot pass for the leading space of a refresh
      snapshot with an empty title. */
  predicate PlainHost(h: string) {
    h == "" || h[0] != ' '
  }

  /** Two strings of different lengths, or with different first characters,
      differ. */
  lemma SnapshotsDiffer(a: string, b: string)
    requires |a| != |b| || (a != [] && b != [] && a[0] != b[0])
    ensures a != b
  {
  }

  /** The snapshot the dialog stores for route-bounded data is never the
      refresh snapshot of the same data. `title` is the title the dialog
      stored: the fetched one cut to its bound, or the host name. */
  lemma AddSnapshotIsNotRefreshSnapshot(d: WebsiteData, title: string, added: string)
    requires CheckWebsiteRoute.WithinRouteBounds(d)
    requires d.title != "" ==> title <= d.title && |title| == Min(|d.title|, TitleLimit)
    requires d.title == "" ==> PlainHost(title)
    requires added <= title + " " + d.description
    requires |added| == Min(|title + " " + d.description|, SnapshotLimit)
    ensures added != ContentFeed.RefreshSnapshot(d)
  {
    var m := Take(d.mainContent, ContentFeed.SnapshotContentLimit);
    var full := d.title + " " + d.description + " " + m;
    var refreshed := ContentFeed.RefreshSnapshot(d);
    assert |refreshed| == Min(|full|, SnapshotLimit);
    if d.title != "" {
      assert title == d.title;
      SnapshotsDiffer(added, refreshed);
    } else {
      assert full == " " + d.description + " " + m;
      if title == "" {
        SnapshotsDiffer(added, refreshed);
      } else {
        assert added[0] == title[0];
        assert refreshed[0] == full[0] == ' ';
        SnapshotsDiffer(added, refreshed);
      }
    }
  }

  /** A site added through the dialog is reported as changed by the first
      refresh of the main feed, even when the page has not changed: the add
      snapshot is title and description, the refresh snapshot also holds the
      main content, so the two never agree. */
  lemma DialogAddThenRefreshReportsChange(url: string, fetch: string -> Option<WebsiteData>,
                                          hostOf: string -> Option<string>, itemId: string,
                                          now: int, later: int)
    requires AddWebsiteDialog.AddWebsite(url, fetch, hostOf, itemId, now).Ok?
    requires CheckWebsiteRoute.WithinRouteBounds(fetch(WithHttps(url)).value)
    requires PlainHost(HostnameOr(WithHttps(url), hostOf))
    ensures var w := AddWebsiteDialog.AddWebsite(url, fetch, hostOf, itemId, now).value;
            ContentFeed.CheckSite(w, fetch, later).Changed?
  {
    var w := AddWebsiteDialog.AddWebsite(url, fetch, hostOf, itemId, now).value;
    var d := fetch(WithHttps(url)).value;
    assert w.url == WithHttps(url) && w.url != "";
    assert w.description.value == d.description;
    AddSnapshotIsNotRefreshSnapshot(d, w.title, w.contentSnapshot.value);
  }

  /** A site added through the form and refreshed by the signed-in feed is
      skipped within the hour and, after it, found unchanged when the page
      says the same. */
  lemma FormAddThenFeedRefresh(url: string, fetch: string -> Option<WebsiteData>,
                               hostOf: string -> Option<string>, itemId: string, now: int, later: int)
    requires WebsiteForm.AddFromForm(url, fetch, hostOf, itemId, now).Ok?
    ensures var w := WebsiteForm.AddFromForm(url, fetch, hostOf, itemId, now).value;
            && (now <= later < now + WebsiteFeed.RecheckInterval ==> WebsiteFeed.CheckSite(w, fetch, later).Skipped?)
            && (later >= now + WebsiteFeed.RecheckInterval ==>
                  WebsiteFeed.CheckSite(w, fetch, later) == WebsiteFeed.Touched(itemId, later))
  {
  }

  /** A site added through the dialog with a non-empty title, within the
      route's bounds, is also found unchanged by the signed-in feed's
      refresh once the hour has passed: its snapshot agrees there. */
  lemma DialogAddThenFeedRefreshTouches(url: string, fetch: string -> Option<WebsiteData>,
                                        hostOf: string -> Option<string>, itemId: string,
                                        now: int, later: int)
    requires AddWebsiteDialog.AddWebsite(url, fetch, hostOf, itemId, now).Ok?
    requires CheckWebsiteRoute.WithinRouteBounds(fetch(WithHttps(url)).value)
    requires fetch(WithHttps(url)).value.title != ""
    requires later >= now + WebsiteFeed.RecheckInterval
    ensures var w := AddWebsiteDialog.AddWebsite(url, fetch, hostOf, itemId, now).value;
            WebsiteFeed.CheckSite(w, fetch, later) == WebsiteFeed.Touched(itemId, later)
  {
    var w := AddWebsiteDialog.AddWebsite(url, fetch, hostOf, itemId, now).value;
    var d := fetch(WithHttps(url)).value;
    assert w.title == d.title && w.description.value == d.description;
    assert w.contentSnapshot == Some(WebsiteFeed.TitleSnapshot(d));
  }
}
