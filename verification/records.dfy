/** The records the tracker stores and exchanges. Timestamps are integers
    (milliseconds); a field that may be missing, or that the code tests for
    truthiness, is an `Option`. */
module Records {
  import opened Results
  import opened Text

  /** Size bounds the stored records respect. */
  const TitleLimit: nat := 100
  const DescriptionLimit: nat := 200
  const MainContentLimit: nat := 1000
  const SnapshotLimit: nat := 500
  const StoredFeedItemCount: nat := 3
  const StoredItemFieldLimit: nat := 100

  datatype FeedItem = FeedItem(title: string, description: string, content: string, pubDate: string)

  /** The JSON the check route answers with, as `checkWebsiteForUpdates`
      returns it; `feedItems` is only present for feeds and `lastModified`
      only for pages. */
  datatype WebsiteData = WebsiteData(
    title: string,
    description: string,
    mainContent: string,
    isRssFeed: bool,
    feedItems: Option<seq<FeedItem>>,
    lastModified: Option<string>,
    checkedAt: int)

  /** A tracked site as the store holds it. An absent `isRssFeed` or
      `contentChanged` reads as `false`. */
  datatype Website = Website(
    itemId: string,
    url: string,
    title: string,
    description: Option<string>,
    category: string,
    createdAt: int,
    updatedAt: Option<int>,
    lastChecked: Option<int>,
    contentSnapshot: Option<string>,
    previousSnapshot: Option<string>,
    mainContent: Option<string>,
    contentChanged: bool,
    contentChangedAt: Option<int>,
    isRssFeed: bool,
    feedItems: Option<seq<FeedItem>>)

  /** JavaScript truthiness of an optional string. */
  predicate Present(o: Option<string>) {
    o.Some? && o.value != ""
  }

  /** `o || ""`. */
  function OrEmpty(o: Option<string>): (r: string)
    ensures Present(o) <==> r != ""
    ensures Present(o) ==> Some(r) == o
  {
    o.GetOr("")
  }

  /** One fetched feed item cut down for storage (`substring(0, 100)` on its
      texts, `""` for a missing description or content). */
  function StoredFeedItem(item: FeedItem): (r: FeedItem)
    ensures r.title <= item.title && |r.title| <= StoredItemFieldLimit
    ensures r.description <= item.description && |r.description| <= StoredItemFieldLimit
    ensures r.content <= item.content && |r.content| <= StoredItemFieldLimit
    ensures |r.title| == Min(|item.title|, StoredItemFieldLimit)
    ensures |r.description| == Min(|item.description|, StoredItemFieldLimit)
    ensures |r.content| == Min(|item.content|, StoredItemFieldLimit)
    ensures r.pubDate == item.pubDate
  {
    FeedItem(Take(item.title, StoredItemFieldLimit), Take(item.description, StoredItemFieldLimit),
             Take(item.content, StoredItemFieldLimit), item.pubDate)
  }

  /** `feedItems.slice(0, 3).map(...)`: at most three items, the first ones
      fetched, each cut down for storage. */
  function StoredFeedItems(items: seq<FeedItem>): (r: seq<FeedItem>)
    ensures |r| == Min(StoredFeedItemCount, |items|)
    ensures forall i :: 0 <= i < |r| ==> r[i] == StoredFeedItem(items[i])
  {
    var first := Take(items, StoredFeedItemCount);
    seq(|first|, i requires 0 <= i < |first| => StoredFeedItem(first[i]))
  }

  /** Every string a stored feed item holds is within its bound. */
  predicate StoredItemsBounded(items: seq<FeedItem>) {
    && |items| <= StoredFeedItemCount
    && forall i :: 0 <= i < |items| ==>
         |items[i].title| <= StoredItemFieldLimit
         && |items[i].description| <= StoredItemFieldLimit
         && |items[i].content| <= StoredItemFieldLimit
  }

  lemma StoredFeedItemsBounded(items: seq<FeedItem>)
    ensures StoredItemsBounded(StoredFeedItems(items))
  {
  }
}
