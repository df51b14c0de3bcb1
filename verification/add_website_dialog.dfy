/** The add dialog of the main feed: normalise the URL, ask the route about
    it, and insert a new record whose texts are cut to the storage bounds. */
module AddWebsiteDialog {
  import opened Results
  import opened Text
  import opened Records
  import opened Urls
  import WebsiteChecker

  const FetchError: string := "Could not fetch website details"
  const DefaultCategory: string := "Uncategorized"

  /** `handleSubmit` after the store check: `fetch` is what
      `checkWebsiteForUpdates` returns for the normalised URL, `hostOf` the
      platform URL parser and `itemId` the id the store assigns. Without data
      nothing is inserted and the submit fails; otherwise the record holds
      the normalised URL, texts cut to their bounds (an empty title replaced
      by the host name), a title-and-description snapshot, and `now` as
      creation, update, change and check time. */
  function AddWebsite(url: string, fetch: string -> Option<WebsiteData>, hostOf: string -> Option<string>,
                      itemId: string, now: int): (r: Result<Website>)
    ensures fetch(WithHttps(url)).None? <==> r == Err(FetchError)
    ensures r.Ok? ==>
              var d, w := fetch(WithHttps(url)).value, r.value;
              && w.itemId == itemId && w.url == WithHttps(url) && HasHttpScheme(w.url)
              && (d.title != "" ==> w.title <= d.title && |w.title| == Min(|d.title|, TitleLimit))
              && (d.title == "" ==> w.title == HostnameOr(WithHttps(url), hostOf))
              && w.description.Some? && w.description.value <= d.description
              && |w.description.value| == Min(|d.description|, DescriptionLimit)
              && w.mainContent.Some? && w.mainContent.value <= d.mainContent
              && |w.mainContent.value| == Min(|d.mainContent|, MainContentLimit)
              && w.contentSnapshot.Some? && w.contentSnapshot.value <= w.title + " " + w.description.value
              && |w.contentSnapshot.value| == Min(|w.title + " " + w.description.value|, SnapshotLimit)
              && w.previousSnapshot.None?
              && w.feedItems == Some(if d.feedItems.Some? then StoredFeedItems(d.feedItems.value) else [])
              && StoredItemsBounded(w.feedItems.value)
              && w.category == DefaultCategory && w.contentChanged
              && w.createdAt == now && w.updatedAt == Some(now) && w.contentChangedAt == Some(now)
              && w.lastChecked == Some(now)
              && (w.isRssFeed <==> d.isRssFeed || WebsiteChecker.IsRssFeed(w.url))
  {
    var formatted := WithHttps(url);
    match fetch(formatted)
    case None => Err(FetchError)
    case Some(d) =>
      var items := if d.feedItems.Some? then StoredFeedItems(d.feedItems.value) else [];
      StoredFeedItemsBounded(if d.feedItems.Some? then d.feedItems.value else []);
      var title := if d.title != "" then Take(d.title, TitleLimit) else HostnameOr(formatted, hostOf);
      var description := Take(d.description, DescriptionLimit);
      var mainContent := Take(d.mainContent, MainContentLimit);
      Ok(Website(
        itemId, formatted, title, Some(description), DefaultCategory,
        now, Some(now), Some(now),
        Some(Take(title + " " + description, SnapshotLimit)), None, Some(mainContent),
        true, Some(now),
        d.isRssFeed || WebsiteChecker.IsRssFeed(formatted),
        Some(items)))
  }

  /** Adding the same text again does not change the URL that is stored. */
  lemma AddStoresNormalisedUrl(url: string, fetch: string -> Option<WebsiteData>,
                               hostOf: string -> Option<string>, itemId: string, now: int)
    requires AddWebsite(url, fetch, hostOf, itemId, now).Ok?
    requires fetch(WithHttps(WithHttps(url))).Some?
    ensures AddWebsite(AddWebsite(url, fetch, hostOf, itemId, now).value.url, fetch, hostOf, itemId, now).value.url
            == AddWebsite(url, fetch, hostOf, itemId, now).value.url
  {
    WithHttpsIdempotent(url);
  }
}
