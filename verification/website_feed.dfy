/** The signed-in feed page: its ordering by update time, the category
    list, the refresh run that skips sites checked within the last hour, and
    the search and category filters. */
module WebsiteFeed {
  import opened Results
  import opened Text
  import opened Seqs
  import opened Sorting
  import opened Batching
  import opened Records

  /** A site checked less than this many milliseconds ago is skipped. */
  const RecheckInterval: int := 60 * 60 * 1000

  /** The category shown for a site without one. */
  const Uncategorized: string := "Uncategorized"

  /** `updatedAt`, else `createdAt`. */
  function UpdateKey(w: Website): int {
    if w.updatedAt.Some? then w.updatedAt.value else w.createdAt
  }

  /** The order the change handler gives the sites: latest update first. */
  function SortByUpdate(sites: seq<Website>): (r: seq<Website>)
    ensures SortedDesc(r, UpdateKey)
    ensures multiset(r) == multiset(sites)
  {
    SortDesc(sites, UpdateKey)
  }

  function CategoryOf(w: Website): string {
    OrElse(w.category, Uncategorized)
  }

  /** The category list: each site's category (an empty one shown as
      "Uncategorized"), without repeats, in order of first appearance. */
  function Categories(sites: seq<Website>): (r: seq<string>)
    ensures forall i, j :: 0 <= i < j < |r| ==> r[i] != r[j]
    ensures forall i :: 0 <= i < |sites| ==> CategoryOf(sites[i]) in r
    ensures forall i :: 0 <= i < |r| ==> r[i] != "" && exists k :: 0 <= k < |sites| && r[i] == CategoryOf(sites[k])
  {
    var all := Map(sites, CategoryOf);
    var r := Distinct(all);
    assert forall i :: 0 <= i < |sites| ==> all[i] == CategoryOf(sites[i]);
    assert forall i :: 0 <= i < |r| ==> exists k :: 0 <= k < |sites| && r[i] == CategoryOf(sites[k]) by {
      forall i | 0 <= i < |r|
        ensures exists k :: 0 <= k < |sites| && r[i] == CategoryOf(sites[k])
      {
        var k :| 0 <= k < |all| && all[k] == r[i];
        assert r[i] == CategoryOf(sites[k]);
      }
    }
    r
  }

  // ---------------------------------------------------------------------
  // One site

  /** The snapshot this page compares: title and description. */
  function TitleSnapshot(d: WebsiteData): string {
    d.title + " " + d.description
  }

  /** The fields a detected change writes. `previousSnapshot` is the stored
      snapshot as it was, absent when there was none. */
  datatype FeedWrite = FeedWrite(
    title: string,
    description: Option<string>,
    previousSnapshot: Option<string>,
    contentSnapshot: string,
    updatedAt: int,
    lastChecked: int)

  /** What checking one site did: skipped (checked within the hour), no
      data came back, a check-time write, or a change write. */
  datatype Outcome =
    | Skipped
    | NoData
    | Touched(itemId: string, lastChecked: int)
    | Changed(itemId: string, write: FeedWrite)

  predicate IsChange(o: Outcome) {
    o.Changed?
  }

  /** Checked less than an hour before `now`. */
  predicate CheckedRecently(w: Website, now: int) {
    w.lastChecked.Some? && w.lastChecked.value > now - RecheckInterval
  }

  /** The change record: fetched title and description, each falling back to
      the stored one when empty; the old snapshot moves to
      `previousSnapshot`. */
  function FeedChangeRecord(w: Website, d: WebsiteData, now: int): (c: FeedWrite)
    ensures c.title == (if d.title != "" then d.title else w.title)
    ensures c.description == (if d.description != "" then Some(d.description) else w.description)
    ensures c.previousSnapshot == w.contentSnapshot && c.contentSnapshot == TitleSnapshot(d)
    ensures c.updatedAt == now && c.lastChecked == now
  {
    FeedWrite(OrElse(d.title, w.title), if d.description != "" then Some(d.description) else w.description,
              w.contentSnapshot, TitleSnapshot(d), now, now)
  }

  /** One site of a refresh at time `now`, `fetch` answering for each URL.
      A recently checked site is not fetched at all; otherwise it changed
      exactly when its stored snapshot (possibly absent) is not the
      fetched title and description. */
  function CheckSite(w: Website, fetch: string -> Option<WebsiteData>, now: int): (o: Outcome)
    ensures CheckedRecently(w, now) <==> o == Skipped
    ensures !CheckedRecently(w, now) && fetch(w.url).None? <==> o == NoData
    ensures (!CheckedRecently(w, now) && fetch(w.url).Some?) ==>
              && (o.Changed? <==> w.contentSnapshot != Some(TitleSnapshot(fetch(w.url).value)))
              && (o.Changed? ==> o.itemId == w.itemId && o.write == FeedChangeRecord(w, fetch(w.url).value, now))
              && (o.Touched? ==> o.itemId == w.itemId && o.lastChecked == now)
  {
    if CheckedRecently(w, now) then Skipped
    else match fetch(w.url)
      case None => NoData
      case Some(d) =>
        if w.contentSnapshot != Some(TitleSnapshot(d)) then Changed(w.itemId, FeedChangeRecord(w, d, now))
        else Touched(w.itemId, now)
  }

  /** A skipped site does not depend on what a fetch would return. */
  lemma SkipIgnoresFetch(w: Website, f1: string -> Option<WebsiteData>, f2: string -> Option<WebsiteData>, now: int)
    requires CheckedRecently(w, now)
    ensures CheckSite(w, f1, now) == CheckSite(w, f2, now) == Skipped
  {
  }

  /** The stored site after the outcome's write (fields merged). */
  function Apply(w: Website, o: Outcome): Website {
    match o
    case Skipped => w
    case NoData => w
    case Touched(_, t) => w.(lastChecked := Some(t))
    case Changed(_, c) =>
      w.(title := c.title, description := c.description, previousSnapshot := c.previousSnapshot,
         contentSnapshot := Some(c.contentSnapshot), updatedAt := Some(c.updatedAt),
         lastChecked := Some(c.lastChecked))
  }

  /** A write never touches identity, URL, category, creation time, main
      content or the change flags; an unchanged site only gets its check
      time. */
  lemma ApplyKeepsUntouchedFields(w: Website, fetch: string -> Option<WebsiteData>, now: int)
    ensures var a := Apply(w, CheckSite(w, fetch, now));
            && a.itemId == w.itemId && a.url == w.url && a.category == w.category
            && a.createdAt == w.createdAt && a.mainContent == w.mainContent
            && a.contentChanged == w.contentChanged && a.contentChangedAt == w.contentChangedAt
            && a.feedItems == w.feedItems
    ensures CheckSite(w, fetch, now).Touched? ==> Apply(w, CheckSite(w, fetch, now)) == w.(lastChecked := Some(now))
  {
  }

  /** After a write, the site is skipped for the next hour; after that, the
      same data is not a change. */
  lemma AfterWrite(w: Website, fetch: string -> Option<WebsiteData>, now: int, later: int)
    requires CheckSite(w, fetch, now).Changed? || CheckSite(w, fetch, now).Touched?
    ensures var a := Apply(w, CheckSite(w, fetch, now));
            && (now <= later < now + RecheckInterval ==> CheckSite(a, fetch, later) == Skipped)
            && (later >= now + RecheckInterval ==> CheckSite(a, fetch, later) == Touched(w.itemId, later))
  {
  }

  // ---------------------------------------------------------------------
  // The refresh run

  /** A site the run fetches (not checked within the hour) whose fetched
      title and description are not its stored snapshot. */
  predicate SnapshotMoved(w: Website, fetch: string -> Option<WebsiteData>, now: int) {
    !CheckedRecently(w, now) && fetch(w.url).Some? && w.contentSnapshot != Some(TitleSnapshot(fetch(w.url).value))
  }

  /** `refreshWebsites()` of the signed-in feed: the shared run with this
      page's per-site check. It finds updates exactly when some site due
      for a check has a moved snapshot. */
  function Refresh(hasStore: bool, isRefreshing: bool, websites: seq<Website>,
                   fetch: string -> Option<WebsiteData>, now: int): (r: Option<Report<Outcome>>)
    ensures r.None? <==> !hasStore || isRefreshing || websites == []
    ensures r.Some? ==> Outcomes(r.value.events) == Map(websites, w => CheckSite(w, fetch, now))
    ensures r.Some? ==> (r.value.updatedCount == 0 <==> forall i :: 0 <= i < |websites| ==> !SnapshotMoved(websites[i], fetch, now))
    ensures r.Some? ==> r.value.updatedCount == Count(websites, w => SnapshotMoved(w, fetch, now))
  {
    CountMapped(websites, w => CheckSite(w, fetch, now), IsChange, w => SnapshotMoved(w, fetch, now));
    Run(hasStore, isRefreshing, websites, w => CheckSite(w, fetch, now), IsChange)
  }

  /** When every site was checked within the hour, a run fetches nothing and
      reports no update. */
  lemma AllRecentNothingUpdated(websites: seq<Website>, fetch: string -> Option<WebsiteData>, now: int)
    requires websites != []
    requires forall i :: 0 <= i < |websites| ==> CheckedRecently(websites[i], now)
    ensures var r := Refresh(true, false, websites, fetch, now).value;
            var outs: seq<Outcome> := Outcomes(r.events);
            r.updatedCount == 0 && forall i :: 0 <= i < |outs| ==> outs[i] == Skipped
  {
  }

  // ---------------------------------------------------------------------
  // The display filters

  /** The search on this page: title, description, URL or category, lower
      cased, contains the lower-cased query. */
  predicate MatchesSearch(w: Website, q: string) {
    || Contains(Lower(w.title), q)
    || (w.description.Some? && Contains(Lower(w.description.value), q))
    || Contains(Lower(w.url), q)
    || Contains(Lower(w.category), q)
  }

  function SearchFilter(query: string): Website -> bool {
    (w: Website) => query == "" || MatchesSearch(w, Lower(query))
  }

  function CategoryFilter(category: string): Website -> bool {
    (w: Website) => category == "" || w.category == category
  }

  /** The list shown: the search filter, then the category filter. */
  function Displayed(sites: seq<Website>, query: string, category: string): (r: seq<Website>)
    ensures IsSubsequence(r, sites)
    ensures forall i :: 0 <= i < |r| ==>
              (query == "" || MatchesSearch(r[i], Lower(query))) && (category == "" || r[i].category == category)
    ensures forall i :: 0 <= i < |sites| ==>
              (query == "" || MatchesSearch(sites[i], Lower(query))) && (category == "" || sites[i].category == category)
              ==> sites[i] in r
    ensures query == "" && category == "" ==> r == sites
  {
    var searched := Filter(sites, SearchFilter(query));
    var r := Filter(searched, CategoryFilter(category));
    FilterTwice(sites, SearchFilter(query), CategoryFilter(category));
    SubsequenceTransitive(r, searched, sites);
    r
  }

  /** Choosing "Uncategorized" shows only sites whose category is that word:
      a site without a category is listed under it but not shown by it. */
  lemma UncategorizedHidesEmptyCategory(w: Website)
    requires w.category == ""
    ensures CategoryOf(w) == Uncategorized
    ensures Displayed([w], "", Uncategorized) == []
  {
  }
}
