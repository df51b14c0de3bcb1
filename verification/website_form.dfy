/** The add form of the signed-in feed page: the same normalisation and
    fetch as the dialog, but the texts are stored as fetched and the record
    carries no content fields. */
module WebsiteForm {
  import opened Results
  import opened Text
  import opened Records
  import opened Urls

  const FetchError: string := "Could not fetch website details"
  const DefaultCategory: string := "Uncategorized"

  /** `handleSubmit` after the store check. Without data nothing is inserted
      and the submit fails; otherwise the record holds the normalised URL,
      the fetched title (the host name when empty) and description, and the
      snapshot title + " " + description, uncut; `now` is its creation,
      update and check time, and it has no change mark, content or feed
      items. */
  function AddFromForm(url: string, fetch: string -> Option<WebsiteData>, hostOf: string -> Option<string>,
                       itemId: string, now: int): (r: Result<Website>)
    ensures fetch(WithHttps(url)).None? <==> r == Err(FetchError)
    ensures r.Ok? ==>
              var d, w := fetch(WithHttps(url)).value, r.value;
              && w.itemId == itemId && w.url == WithHttps(url) && HasHttpScheme(w.url)
              && w.title == (if d.title != "" then d.title else HostnameOr(WithHttps(url), hostOf))
              && w.description == Some(d.description)
              && w.contentSnapshot == Some(d.title + " " + d.description)
              && w.category == DefaultCategory
              && w.createdAt == now && w.updatedAt == Some(now) && w.lastChecked == Some(now)
              && w.previousSnapshot.None? && w.mainContent.None? && w.feedItems.None?
              && !w.contentChanged && w.contentChangedAt.None? && !w.isRssFeed
  {
    var formatted := WithHttps(url);
    match fetch(formatted)
    case None => Err(FetchError)
    case Some(d) =>
      Ok(Website(
        itemId, formatted, OrElse(d.title, HostnameOr(formatted, hostOf)), Some(OrElse(d.description, "")),
        DefaultCategory, now, Some(now), Some(now),
        Some(d.title + " " + d.description), None, None,
        false, None, false, None))
  }
}
