/** The main feed page: its ordering by latest content change, the refresh
    run that fetches every site in batches of five and writes a change record
    or a check time for each, and the search/highlights filter. */
module ContentFeed {
  import opened Results
  import opened Text
  import opened Seqs
  import opened Sorting
  import opened Batching
  import opened Records

  /** How much of the fetched main content enters the snapshot. */
  const SnapshotContentLimit: nat := 200

  /** Milliseconds in the three days of the highlights tab. */
  const HighlightWindow: int := 3 * 24 * 60 * 60 * 1000

  /** The time a site last changed: `contentChangedAt`, else `updatedAt`,
      else `createdAt`. */
  function ChangeKey(w: Website): int {
    if w.contentChangedAt.Some? then w.contentChangedAt.value
    else if w.updatedAt.Some? then w.updatedAt.value
    else w.createdAt
  }

  /** `sortWebsitesByContentChange(sites)`: the same sites, most recent
      change first. */
  function SortByContentChange(sites: seq<Website>): (r: seq<Website>)
    ensures SortedDesc(r, ChangeKey)
    ensures multiset(r) == multiset(sites)
  {
    SortDesc(sites, ChangeKey)
  }

  // ---------------------------------------------------------------------
  // One site

  /** The refresh snapshot: title, description and the first 200 characters
      of the main content joined by spaces, cut to 500. */
  function RefreshSnapshot(d: WebsiteData): (r: string)
    ensures |r| <= SnapshotLimit
    ensures r <= d.title + " " + d.description + " " + Take(d.mainContent, SnapshotContentLimit)
    ensures |r| == Min(|d.title + " " + d.description + " " + Take(d.mainContent, SnapshotContentLimit)|, SnapshotLimit)
  {
    var parts := [d.title, d.description, Take(d.mainContent, SnapshotContentLimit)];
    assert Join(parts, " ") == d.title + " " + d.description + " " + Take(d.mainContent, SnapshotContentLimit) by {
      var m := Take(d.mainContent, SnapshotContentLimit);
      assert parts == [d.title] + [d.description, m];
      assert [d.description, m] == [d.description] + [m];
      JoinCons(d.description, [m], " ");
      JoinCons(d.title, [d.description, m], " ");
    }
    Take(Join(parts, " "), SnapshotLimit)
  }

  /** The fields a detected change writes. */
  datatype ChangeWrite = ChangeWrite(
    title: string,
    description: Option<string>,
    previousSnapshot: string,
    contentSnapshot: string,
    mainContent: string,
    updatedAt: int,
    contentChangedAt: int,
    contentChanged: bool,
    lastChecked: int,
    feedItems: Option<seq<FeedItem>>,
    isRssFeed: bool)

  /** What checking one site did: nothing (no URL, or no data came back),
      a check-time write, or a change write. */
  datatype Outcome =
    | NoUrl
    | NoData
    | Touched(itemId: string, lastChecked: int)
    | Changed(itemId: string, write: ChangeWrite)

  predicate IsChange(o: Outcome) {
    o.Changed?
  }

  /** The change record for site `w` given fetched data `d`. */
  function ChangeRecord(w: Website, d: WebsiteData, now: int): (c: ChangeWrite)
    ensures c.title == (if d.title != "" then d.title else w.title)
    ensures d.description != "" ==> c.description == Some(Take(d.description, DescriptionLimit))
    ensures d.description == "" ==> c.description == w.description
    ensures c.previousSnapshot <= OrEmpty(w.contentSnapshot)
    ensures |c.previousSnapshot| == Min(|OrEmpty(w.contentSnapshot)|, SnapshotLimit)
    ensures c.contentSnapshot == RefreshSnapshot(d)
    ensures c.mainContent <= d.mainContent && |c.mainContent| == Min(|d.mainContent|, MainContentLimit)
    ensures c.updatedAt == now && c.contentChangedAt == now && c.lastChecked == now && c.contentChanged
    ensures d.feedItems.Some? ==> c.feedItems == Some(StoredFeedItems(d.feedItems.value))
    ensures d.feedItems.None? ==> c.feedItems == w.feedItems
    ensures c.isRssFeed <==> d.isRssFeed || w.isRssFeed
  {
    ChangeWrite(
      OrElse(d.title, w.title),
      if d.description != "" then Some(Take(d.description, DescriptionLimit)) else w.description,
      Take(OrEmpty(w.contentSnapshot), SnapshotLimit),
      RefreshSnapshot(d),
      Take(d.mainContent, MainContentLimit),
      now, now, true, now,
      if d.feedItems.Some? then Some(StoredFeedItems(d.feedItems.value)) else w.feedItems,
      d.isRssFeed || w.isRssFeed)
  }

  /** One site of a refresh at time `now`; `fetch` is what
      `checkWebsiteForUpdates` returned for each URL in this run. A site
      changed exactly when its stored snapshot (`""` if none) differs from
      the refresh snapshot of the fetched data. */
  function CheckSite(w: Website, fetch: string -> Option<WebsiteData>, now: int): (o: Outcome)
    ensures w.url == "" <==> o == NoUrl
    ensures w.url != "" && fetch(w.url).None? <==> o == NoData
    ensures (w.url != "" && fetch(w.url).Some?) ==>
              && (o.Changed? <==> OrEmpty(w.contentSnapshot) != RefreshSnapshot(fetch(w.url).value))
              && (o.Changed? ==> o.itemId == w.itemId && o.write == ChangeRecord(w, fetch(w.url).value, now))
              && (o.Touched? ==> o.itemId == w.itemId && o.lastChecked == now)
  {
    if w.url == "" then NoUrl
    else match fetch(w.url)
      case None => NoData
      case Some(d) =>
        if OrEmpty(w.contentSnapshot) != RefreshSnapshot(d) then Changed(w.itemId, ChangeRecord(w, d, now))
        else Touched(w.itemId, now)
  }

  /** The stored site after the outcome's write: the store merges the
      written fields into the record and keeps the others. */
  function Apply(w: Website, o: Outcome): Website {
    match o
    case NoUrl => w
    case NoData => w
    case Touched(_, t) => w.(lastChecked := Some(t))
    case Changed(_, c) =>
      w.(title := c.title, description := c.description,
         previousSnapshot := Some(c.previousSnapshot), contentSnapshot := Some(c.contentSnapshot),
         mainContent := Some(c.mainContent), updatedAt := Some(c.updatedAt),
         contentChangedAt := Some(c.contentChangedAt), contentChanged := c.contentChanged,
         lastChecked := Some(c.lastChecked), feedItems := c.feedItems, isRssFeed := c.isRssFeed)
  }

  /** An unchanged site only gets its check time; identity, snapshots and
      change time are untouched, and any site keeps its id, URL, category
      and creation time. */
  lemma ApplyKeepsIdentity(w: Website, fetch: string -> Option<WebsiteData>, now: int)
    ensures var a := Apply(w, CheckSite(w, fetch, now));
            a.itemId == w.itemId && a.url == w.url && a.category == w.category && a.createdAt == w.createdAt
    ensures CheckSite(w, fetch, now).Touched? ==>
              Apply(w, CheckSite(w, fetch, now)) == w.(lastChecked := Some(now))
  {
  }

  /** After a change has been written, checking again with the same data
      finds nothing new: the refresh is idempotent. */
  lemma RecheckAfterChangeTouches(w: Website, fetch: string -> Option<WebsiteData>, now: int, later: int)
    requires CheckSite(w, fetch, now).Changed?
    ensures var a := Apply(w, CheckSite(w, fetch, now));
            CheckSite(a, fetch, later) == Touched(w.itemId, later)
  {
  }

  /** After a change, the stored previous snapshot is the snapshot stored
      before it, which was at most 500 characters long when written by a
      refresh. */
  lemma PreviousSnapshotIsOldSnapshot(w: Website, fetch: string -> Option<WebsiteData>, now: int)
    requires CheckSite(w, fetch, now).Changed?
    requires |OrEmpty(w.contentSnapshot)| <= SnapshotLimit
    ensures Apply(w, CheckSite(w, fetch, now)).previousSnapshot == Some(OrEmpty(w.contentSnapshot))
  {
  }

  // ---------------------------------------------------------------------
  // The refresh run

  /** A site whose fetched data gives a refresh snapshot other than the
      stored one (`""` if none). */
  predicate SnapshotMoved(w: Website, fetch: string -> Option<WebsiteData>) {
    w.url != "" && fetch(w.url).Some? && OrEmpty(w.contentSnapshot) != RefreshSnapshot(fetch(w.url).value)
  }

  /** `refreshWebsites()` of the main feed: the shared run with this page's
      per-site check. It finds updates ("Websites refreshed") exactly when
      some site's snapshot moved. */
  function Refresh(hasStore: bool, isRefreshing: bool, websites: seq<Website>,
                   fetch: string -> Option<WebsiteData>, now: int): (r: Option<Report<Outcome>>)
    ensures r.None? <==> !hasStore || isRefreshing || websites == []
    ensures r.Some? ==> Outcomes(r.value.events) == Map(websites, w => CheckSite(w, fetch, now))
    ensures r.Some? ==> (r.value.updatedCount == 0 <==> forall i :: 0 <= i < |websites| ==> !SnapshotMoved(websites[i], fetch))
    ensures r.Some? ==> r.value.updatedCount == Count(websites, w => SnapshotMoved(w, fetch))
  {
    CountMapped(websites, w => CheckSite(w, fetch, now), IsChange, w => SnapshotMoved(w, fetch));
    Run(hasStore, isRefreshing, websites, w => CheckSite(w, fetch, now), IsChange)
  }

  /** The stored sites after the run's writes. */
  function Stored(websites: seq<Website>, outcomes: seq<Outcome>): (r: seq<Website>)
    requires |outcomes| == |websites|
    ensures |r| == |websites|
    ensures forall i :: 0 <= i < |r| ==> r[i] == Apply(websites[i], outcomes[i])
  {
    seq(|websites|, i requires 0 <= i < |websites| => Apply(websites[i], outcomes[i]))
  }

  /** A run reports updates exactly when some site's stored snapshot differs
      from its refresh snapshot, and a second run with the same data reports
      none. */
  lemma RefreshTwiceFindsNothingNew(websites: seq<Website>, fetch: string -> Option<WebsiteData>,
                                    now: int, later: int)
    requires websites != []
    ensures var r := Refresh(true, false, websites, fetch, now).value;
            var after := Stored(websites, Outcomes(r.events));
            Refresh(true, false, after, fetch, later).value.updatedCount == 0
  {
    var r := Refresh(true, false, websites, fetch, now).value;
    var after := Stored(websites, Outcomes(r.events));
    forall i | 0 <= i < |after|
      ensures !SnapshotMoved(after[i], fetch)
    {
      SettledAfterApply(websites[i], fetch, now);
    }
  }

  /** A site, once its outcome is written, has a snapshot that the same data
      no longer moves. */
  lemma SettledAfterApply(w: Website, fetch: string -> Option<WebsiteData>, now: int)
    ensures !SnapshotMoved(Apply(w, CheckSite(w, fetch, now)), fetch)
  {
  }


  // ---------------------------------------------------------------------
  // filteredWebsites

  /** The search: a non-empty field whose lower-cased text contains the
      lower-cased query, among title, description, URL, category and main
      content. */
  predicate MatchesSearch(w: Website, q: string) {
    || (w.title != "" && Contains(Lower(w.title), q))
    || (Present(w.description) && Contains(Lower(w.description.value), q))
    || (w.url != "" && Contains(Lower(w.url), q))
    || (w.category != "" && Contains(Lower(w.category), q))
    || (Present(w.mainContent) && Contains(Lower(w.mainContent.value), q))
  }

  /** Changed within the last three days. */
  predicate IsRecent(w: Website, now: int) {
    ChangeKey(w) > now - HighlightWindow
  }

  function SearchTest(q: string): Website -> bool {
    w => MatchesSearch(w, q)
  }

  function RecentTest(now: int): Website -> bool {
    w => IsRecent(w, now)
  }

  /** `filteredWebsites`: a non-empty search decides alone (the tab is then
      ignored); otherwise the highlights tab keeps the recent sites and any
      other tab keeps all. The result keeps the order of the list. */
  function FilteredWebsites(sites: seq<Website>, query: string, activeTab: string, now: int): (r: seq<Website>)
    ensures IsSubsequence(r, sites)
    ensures query != "" ==>
              (forall i :: 0 <= i < |r| ==> MatchesSearch(r[i], Lower(query)))
              && (forall i :: 0 <= i < |sites| && MatchesSearch(sites[i], Lower(query)) ==> sites[i] in r)
    ensures query == "" && activeTab == "highlights" ==>
              (forall i :: 0 <= i < |r| ==> IsRecent(r[i], now))
              && (forall i :: 0 <= i < |sites| && IsRecent(sites[i], now) ==> sites[i] in r)
    ensures query == "" && activeTab != "highlights" ==> r == sites
  {
    if query != "" then Filter(sites, SearchTest(Lower(query)))
    else if activeTab == "highlights" then Filter(sites, RecentTest(now))
    else
      SubsequenceReflexive(sites);
      sites
  }

  /** While searching, the tab makes no difference. */
  lemma SearchIgnoresTab(sites: seq<Website>, query: string, tab1: string, tab2: string, now: int)
    requires query != ""
    ensures FilteredWebsites(sites, query, tab1, now) == FilteredWebsites(sites, query, tab2, now)
  {
  }
}
