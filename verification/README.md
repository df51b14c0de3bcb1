# Change detection of a website and RSS tracker, in Dafny

The tracker keeps a list of web pages and feeds per user. For each one it asks its
own route, `/api/check-website`, for a short description of the page or feed and
stores it. A refresh fetches every site again, builds a snapshot string from the
answer and compares it with the stored snapshot. When they differ, it records
the change: the old snapshot, the new one, the time, and a few fields cut to
storage bounds. A feed entry later shows the words that are new in the snapshot.
A separate server action fingerprints a page by hashing its text. Before hashing,
it strips what changes without meaning, such as scripts, times and the words
today/yesterday/tomorrow.

This project models that pipeline as pure functions over strings and records and
proves what each step promises.

- The route (`CheckWebsiteRoute`) decides between feed and page. From a feed it
  keeps three RSS items and three Atom entries. From a page it picks the longest
  content-selector text, with a paragraph fallback.
- The server action (`Actions`) normalises the URL, strips noise and compares
  hashes. The day-word removal and the white-space collapse are modelled
  character by character.
- The client helpers (`WebsiteChecker`) build the cache-busting URL, compare site
  metadata and test a URL for feed markers.
- `WebsiteItem` holds the word-level difference shown for a changed site, the
  latest feed post and the click target.
- The two refresh runs (`ContentFeed`, `WebsiteFeed`) are modelled as a fold over
  batches of five (`Batching`). Each site is processed on its own. A pause event
  separates consecutive batches. The runs also cover the sort orders, the
  category list and the list filters.
- The two add paths (`AddWebsiteDialog`, `WebsiteForm`) build the initial record.
  `BookmarkList` holds the bookmark search.
- `Pipeline` states facts across files. A site added through the dialog is
  always reported as changed by the main feed's first refresh, because the two
  snapshots are built differently. A site added through the form is found
  unchanged by the signed-in feed after the hour's skip.

Shared pieces:
- `Text` models the JavaScript string operations the code uses: `substring`,
  `trim`, `\s`, `split(/\s+/).filter(Boolean)`, `join`, `includes`, ASCII
  `toLowerCase`, and decimal numerals.
- `Seqs` models `filter`, `Array.from(new Set(...))`, counting and
  order-preserving subsequences.
- `Sorting` is a stable descending sort by an integer key.
- `Records` holds the stored record and the storage bounds.

Modelling choices:
- Timestamps are integers (milliseconds).
- Optional record fields are `Option`.
- JavaScript `a || b` on strings is `OrElse`.
- The fetch, the HTML/XML parser, SHA-256 and the platform URL parser are
  parameters of the functions that use them.

The category filter of the signed-in feed compares the stored category exactly.
A site without a category is listed under "Uncategorized", but choosing that
entry hides it (`WebsiteFeed.UncategorizedHidesEmptyCategory`).

## Model

| member | source | states |
|---|---|---|
| `CheckWebsiteRoute.Get` | app/api/check-website/route.ts:4-182 | A missing or empty `url` is a 400 and nothing else is; a transport failure or non-2xx answer is a 500; a 2xx answer is data within the route's bounds, read as a feed exactly when the content type contains `xml` or the URL contains `.xml`, `/rss`, `/feed` or `/atom` (case-sensitive) |
| `CheckWebsiteRoute.RssItem` | app/api/check-website/route.ts:49-67 | An RSS item keeps its title; its description and its content (`content:encoded`, else `content`) are exactly the first 200 characters of the source text, or all of it when shorter; the date is `pubDate`, else `published` |
| `CheckWebsiteRoute.AtomItem` | app/api/check-website/route.ts:70-85 | An Atom entry keeps its title; its description is exactly the first 200 characters of its summary and its content the first 200 of its content (all of it when shorter); the date is `published`, else `updated` |
| `CheckWebsiteRoute.FeedItemsOf` | app/api/check-website/route.ts:46-85 | At most three RSS items followed by at most three Atom entries, in document order, never more than six |
| `CheckWebsiteRoute.FeedMainContent` | app/api/check-website/route.ts:87-91 | Exactly the first 500 characters (all when shorter) of the blank-line join of each item's title, a line break, and the first 100 characters of its description, else its content |
| `CheckWebsiteRoute.FeedMainContentShowsItems` | app/api/check-website/route.ts:87-91 | The main content opens with the newest item's summary, as much of it as fits in 500 characters; when the join is not cut, every item's title followed by a line break occurs in it |
| `CheckWebsiteRoute.FeedData` | app/api/check-website/route.ts:93-100 | A feed answer is marked as a feed, carries the items and their main content, and has as title exactly the first 100 characters and as description the first 200 characters of the channel's (else the Atom feed's) text |
| `CheckWebsiteRoute.Candidates` | app/api/check-website/route.ts:117-136 | One candidate per content selector, in the listed order; each is the selector's white-space-collapsed text, or nothing when the selector matched no element |
| `CheckWebsiteRoute.PickLongest` | app/api/check-website/route.ts:129-141 | The kept text is at least as long as the starting text and as every candidate |
| `CheckWebsiteRoute.PickLongestIsFirstLongest` | app/api/check-website/route.ts:137-139 | The kept text is the starting text when no candidate is longer, and otherwise the first candidate of maximal length (the strict comparison lets an earlier selector win a tie) |
| `CheckWebsiteRoute.KeptParagraphs` | app/api/check-website/route.ts:146-154 | Exactly the trimmed paragraphs longer than 40 characters, in document order |
| `CheckWebsiteRoute.KeptParagraphsKeepRepeats` | app/api/check-website/route.ts:146-154 | A paragraph longer than 40 characters is kept as many times as it occurs among the trimmed paragraphs, and a shorter one never |
| `CheckWebsiteRoute.ParagraphFallback` | app/api/check-website/route.ts:146-156 | The blank-line join of the kept paragraphs cut to its first 1000 characters |
| `CheckWebsiteRoute.HtmlMainContent` | app/api/check-website/route.ts:114-164 | At most 1000 characters; the selector text when it has 100 characters or more; otherwise the paragraph text if strictly longer, else the selector text |
| `CheckWebsiteRoute.MetaDescription` | app/api/check-website/route.ts:107-110 | The meta description when non-empty, else the Open Graph description when non-empty, else empty |
| `CheckWebsiteRoute.HtmlData` | app/api/check-website/route.ts:105-176 | A page answer is not a feed and has no items; its title is the trimmed `<title>` text cut to 100; its description exactly the first 200 characters of the meta description; its main content as above; a non-empty last-modified header is kept with its value, and an absent or empty one is absent |
| `Actions.RequestUrl` | app/actions.ts:19-22 | `https://` is prepended exactly when the URL lacks an `http://`/`https://` prefix in any letter case; the result always has one |
| `Actions.RequestUrlIdempotent` | app/actions.ts:19-22 | Normalising twice is normalising once |
| `Actions.StripRelativeDays` | app/actions.ts:81 | `replace(/\b(today\|yesterday\|tomorrow)\b/gi, "")` as a left-to-right scanner that deletes boundary-delimited day words in any letter case; it only deletes characters, so the result is an order-preserving subsequence of the text and never longer (what it deletes is pinned by the day-word lemmas below) |
| `Actions.DayWordRemoved` | app/actions.ts:81 | A whole word today, yesterday or tomorrow, in any letter case and between word boundaries, is removed and the text around it is processed as if it were absent |
| `Actions.StripSplitsAtBoundary` | app/actions.ts:81 | The removal never looks across a non-word character: a text ending in one is processed independently of what follows |
| `Actions.DayWordSwap` | app/actions.ts:81 | Replacing one relative-day word by another does not change the stripped text |
| `Actions.NoDayWordKeepsText` | app/actions.ts:81 | Nothing but day words is removed: a text in which no whole today, yesterday or tomorrow (any letter case, word boundaries on both sides) occurs is returned unchanged |
| `Actions.ExtractMainContent` | app/actions.ts:66-90 | When an earlier removal throws, the page is returned unchanged; otherwise the result has no leading, trailing or doubled white space and is the space-join of the words of the day-stripped text |
| `Actions.CheckWebsiteUpdates` | app/actions.ts:16-60 | An unparsable URL or transport failure is an error; a non-2xx answer is the error "Failed to fetch website: status statusText"; otherwise the hash of the extracted content is returned and a change is reported exactly when a previous hash is non-empty and differs from it, so never on the first observation |
| `Actions.RecheckReportsNoChange` | app/actions.ts:47-50 | Checking again against the hash just returned, with the page the same, reports no change |
| `Actions.DayWordSwapHashesEqual` | app/actions.ts:44-47 | Two pages whose texts, after the earlier removals, differ only in one relative-day word get the same hash |
| `WebsiteChecker.CacheBustedUrl` | utils/website-checker.ts:7-8 | The URL is kept as a prefix, followed by `&` when it already contains `?` and by `?` otherwise, then `_cb=` and the timestamp, which reads back from the end |
| `WebsiteChecker.CheckWebsiteForUpdates` | utils/website-checker.ts:4-30 | The route's data for the cache-busted URL, or nothing when the route answers with an error |
| `WebsiteChecker.CacheBusterKeepsFeedTest` | utils/website-checker.ts:7-8 | Adding the cache buster never changes whether a URL contains `.xml`, `/rss`, `/feed` or `/atom` |
| `WebsiteChecker.ClientSeesRoute` | utils/website-checker.ts:4-30 | Through the route, the client gets data within the route's bounds exactly when the upstream answers 2xx, read as a feed exactly when the content type mentions `xml` or the URL the user gave looks like a feed |
| `WebsiteChecker.IsRssFeed` | utils/website-checker.ts:61-63 | `isRssFeed`: true exactly when `.xml`, `/rss`, `/feed` or `/atom` occurs, case-sensitively, at some position of the URL as given |
| `WebsiteChecker.IsXmlSplits` | utils/website-checker.ts:61-63 | The route's feed test is the content-type test or the URL test of `isRssFeed` |
| `WebsiteChecker.HasWebsiteChanged` | utils/website-checker.ts:35-56 | Missing data is never a change; a different title always is; with equal titles a change means both descriptions are non-empty and differ, or both main contents are non-empty and differ in their first 100 characters |
| `WebsiteChecker.NoChangeAgainstItself` | utils/website-checker.ts:39-55 | Data compared with itself is unchanged |
| `WebsiteChecker.HasWebsiteChangedSymmetric` | utils/website-checker.ts:39-55 | The comparison does not depend on argument order |
| `WebsiteChecker.EditBeyondComparedLengthIgnored` | utils/website-checker.ts:48-53 | Edits of the main content after its first 100 characters are not a change |
| `WebsiteChecker.DroppedFieldsIgnored` | utils/website-checker.ts:45-53 | A description or main content that disappears or becomes empty is not a change |
| `WebsiteChecker.NewDescriptionIsChange` | utils/website-checker.ts:45 | A different non-empty description, the old one non-empty, is a change |
| `WebsiteItem.NewWords` | components/website-item.tsx:54-59 | The tokens of the new snapshot absent from the old one, each such token included, in the new snapshot's order |
| `WebsiteItem.NewWordsKeepRepeats` | components/website-item.tsx:59 | A new token appears as often as in the new snapshot |
| `WebsiteItem.ContentDifference` | components/website-item.tsx:48-67 | Without both snapshots, the main content or empty; otherwise the new tokens joined by single spaces, whose words are exactly those tokens, or the main content or empty when there are none |
| `WebsiteItem.DifferenceWordsAreNew` | components/website-item.tsx:57-59 | Every shown word is in the new snapshot and not in the old one, and every such word is shown |
| `WebsiteItem.NoNewWordsShowsMainContent` | components/website-item.tsx:61-66 | When no token of the new snapshot is new, the main content (or empty) is shown |
| `WebsiteItem.EqualSnapshotsShowMainContent` | components/website-item.tsx:61-66 | Equal snapshots show the main content (or empty) |
| `WebsiteItem.AppendedWordShown` | components/website-item.tsx:54-62 | Old "A B C" and new "A B C D" show "D" |
| `WebsiteItem.LatestPostTitle` | components/website-item.tsx:70-75 | The first feed item's title when there are items, otherwise nothing |
| `WebsiteItem.LatestOfStoredFeed` | components/website-item.tsx:70-75 | For stored items, the latest post is the first fetched title cut to 100 characters |
| `WebsiteItem.ClickTarget` | components/website-item.tsx:85-96 | An empty URL opens nothing; otherwise the URL, with `https://` prepended only when it lacks an `http://`/`https://` prefix |
| `WebsiteItem.ClickTargetStable` | components/website-item.tsx:85-96 | The target of a target is the same target |
| `ContentFeed.SortByContentChange` | components/content-feed.tsx:48-55 | A permutation of the sites in descending order of change time, else update time, else creation time |
| `ContentFeed.RefreshSnapshot` | components/content-feed.tsx:161-167 | The space-join of title, description and the first 200 characters of the main content, cut to its first 500 characters |
| `ContentFeed.ChangeRecord` | components/content-feed.tsx:172-201 | A change writes the fetched title (else the stored one); the description cut to 200 (else the stored one); exactly the first 500 characters of the old snapshot (all when shorter) as previous; the refresh snapshot; exactly the first 1000 characters of the main content; `now` as update, change and check time; the changed flag; the first three fetched items cut for storage (else the stored items); and the feed flag of either side |
| `ContentFeed.CheckSite` | components/content-feed.tsx:154-214 | A site without URL or without data is not updated; otherwise it changed exactly when its stored snapshot (empty if none) differs from the refresh snapshot, and then carries the change record; an unchanged site is touched at `now` |
| `ContentFeed.ApplyKeepsIdentity` | components/content-feed.tsx:183-213 | A write never alters id, URL, category or creation time; an unchanged site gets only its check time |
| `ContentFeed.RecheckAfterChangeTouches` | components/content-feed.tsx:161-170 | After a change is stored, the same data is no longer a change |
| `ContentFeed.PreviousSnapshotIsOldSnapshot` | components/content-feed.tsx:169-191 | After a change, the previous snapshot is the snapshot stored before it |
| `ContentFeed.Refresh` | components/content-feed.tsx:132-238 | No run without a store, while refreshing, or with no sites; otherwise each site is checked once, in list order, and the number of updated sites the toast reports is the number of sites with a URL and data whose refresh snapshot differs from the stored one (zero exactly when there is none) |
| `ContentFeed.Stored` | components/content-feed.tsx:183-213 | The stored list after a run has one entry per site, each the site with its outcome's write applied |
| `ContentFeed.RefreshTwiceFindsNothingNew` | components/content-feed.tsx:161-214 | A second run with the same data right after the first reports no update |
| `ContentFeed.FilteredWebsites` | components/content-feed.tsx:240-261 | An order-preserving subsequence; with a query, exactly the sites whose non-empty title, description, URL, category or main content contains it, ignoring case; otherwise on the highlights tab exactly the sites changed within three days; otherwise all sites |
| `ContentFeed.SearchIgnoresTab` | components/content-feed.tsx:241-250 | While a query is typed the tab makes no difference |
| `WebsiteFeed.SortByUpdate` | components/website-feed.tsx:56-60 | A permutation of the sites in descending order of update time, else creation time |
| `WebsiteFeed.Categories` | components/website-feed.tsx:70 | No category twice; every site's category, an empty one as "Uncategorized", is listed, and nothing else |
| `WebsiteFeed.FeedChangeRecord` | components/website-feed.tsx:184-196 | A change writes the fetched title and description, each falling back to the stored one when empty; moves the stored snapshot to previous; stores title + " " + description as snapshot; and sets update and check time |
| `WebsiteFeed.CheckSite` | components/website-feed.tsx:169-209 | A site checked within the last hour is skipped; otherwise no data means no update; otherwise it changed exactly when the stored snapshot is not title + " " + description |
| `WebsiteFeed.SkipIgnoresFetch` | components/website-feed.tsx:170-176 | A skipped site's outcome does not depend on the fetch |
| `WebsiteFeed.ApplyKeepsUntouchedFields` | components/website-feed.tsx:184-208 | A write never alters id, URL, category, creation time, main content, change marks or feed items; an unchanged site gets only its check time |
| `WebsiteFeed.AfterWrite` | components/website-feed.tsx:170-208 | After any write the site is skipped for an hour, and afterwards the same data is not a change |
| `WebsiteFeed.Refresh` | components/website-feed.tsx:147-228 | The same guard as the main feed; each site is checked once, in list order, and the number of updated sites is the number of sites not checked within the hour that got data whose title + " " + description is not their snapshot (zero exactly when there is none) |
| `WebsiteFeed.AllRecentNothingUpdated` | components/website-feed.tsx:170-176 | When every site was checked within the hour, every site is skipped and nothing is updated |
| `WebsiteFeed.Displayed` | components/website-feed.tsx:298-318 | An order-preserving subsequence holding exactly the sites that pass the case-insensitive search on title, description, URL and category and the exact category filter; empty filters keep all |
| `WebsiteFeed.UncategorizedHidesEmptyCategory` | components/website-feed.tsx:70 | A site with empty category is listed under "Uncategorized" but filtering by it hides the site |
| `AddWebsiteDialog.AddWebsite` | components/add-website-dialog.tsx:34-95 | Without data the add fails with "Could not fetch website details"; otherwise the record has the normalised URL; the title cut to 100 (the host name when empty); the description cut to 200; the main content cut to 1000; the snapshot title + " " + description cut to 500; no previous snapshot; at most three stored items (none when the feed had none); category "Uncategorized"; the changed flag; `now` as every time; and the feed flag from the data or the URL |
| `AddWebsiteDialog.AddStoresNormalisedUrl` | components/add-website-dialog.tsx:39-42 | Adding the stored URL again stores the same URL |
| `WebsiteForm.AddFromForm` | components/website-form.tsx:21-60 | Without data the add fails; otherwise the record has the normalised URL, the fetched title (the host name when empty) and description uncut, the snapshot title + " " + description, category "Uncategorized", `now` as creation, update and check time, and no change mark, content or items |
| `BookmarkList.FilterBookmarks` | components/bookmark-list.tsx:31-40 | An order-preserving subsequence; all sites for an empty query, else exactly those whose non-empty title, URL or category contains the query, ignoring case |
| `BookmarkList.OnlySearchedFieldsMatter` | components/bookmark-list.tsx:35-39 | Description and content are never searched |
| `BookmarkList.LongerQueryNarrows` | components/bookmark-list.tsx:34-39 | A site found by a query is found by every non-empty prefix of it |
| `Batching.Batches` | components/content-feed.tsx:144-150 | `ceil(n/5)` consecutive slices that together are the list, every one but the last holding exactly five sites and the last one to five |
| `Batching.Process` | components/content-feed.tsx:147-222 | The outcomes are the step applied to every site in order; the delays sit exactly at every sixth event, so one follows each full batch of five and none follows the last batch; the event at position k, when not a delay, is the outcome of site k - k/6 |
| `Batching.Run` | components/content-feed.tsx:132-222 | The refresh loop shared by both feeds: nothing without a store, while a run is going on, or for an empty list; otherwise one step per site in order, one delay between consecutive batches and none at the end, and an updated count equal to the number of sites whose outcome is a change, as `updatedCount++` counts them |
| `Seqs.CountIsFilterLength` | components/content-feed.tsx:141-202 | The count of sites satisfying a test is the length of the list filtered by that test |
| `Records.StoredFeedItems` | components/content-feed.tsx:174-180 | The first three items (all when fewer), each with title, description and content exactly their first 100 characters (all when shorter) and the date unchanged |
| `Pipeline.DialogAddThenRefreshReportsChange` | components/add-website-dialog.tsx:75 | A site added through the dialog is reported changed by the main feed's first refresh with the same data, given route-bounded data and a host name not starting with a space |
| `Pipeline.FormAddThenFeedRefresh` | components/website-form.tsx:58 | A site added through the form is skipped by the signed-in feed within the hour and found unchanged after it, given the same data |
| `Pipeline.DialogAddThenFeedRefreshTouches` | components/add-website-dialog.tsx:72-75 | A site added through the dialog with a non-empty title is found unchanged by the signed-in feed after the hour, given the same route-bounded data |
| `Text.Collapse` | app/actions.ts:84 | `replace(/\s+/g, " ").trim()` leaves no leading, trailing or doubled white space and equals the space-join of the words |
| `Text.CollapseIdempotent` | app/actions.ts:84 | Collapsing twice is collapsing once |
| `Text.WordsOfJoin` | components/website-item.tsx:54-59 | Splitting the space-join of tokens gives back the tokens |
| `Urls.WithHttps` | components/add-website-dialog.tsx:39-42 | `https://` is prepended exactly when the URL lacks an `http://`/`https://` prefix (case-sensitive); the result always has one |
| `Urls.WithHttpsIdempotent` | components/website-form.tsx:26-29 | Normalising twice is normalising once |

## Left out

- Network I/O is not modelled. The HTTP requests of the route, the server action and the client, and the JSON encoding of the route's answer, are parameters: the upstream answer, `fetch`, and the route as a function of its `url` parameter.
- HTML and XML parsing is not modelled. Its results are inputs: the texts of the feed's channel, items and entries, each selector's text after script/style removal, and the paragraph texts.
- SHA-256 is an uninterpreted `hash` parameter.
- The platform URL parser is a parameter. It covers `new URL(...)` validation and serialisation in the server action and the host name used as the default title. The `www.` stripping of the displayed host name in a feed entry is not modelled.
- The script, style, comment, `<time>` and clock-time removals of the server action are an abstract list of steps, each of which may throw. Only the day-word removal and the white-space collapse are modelled concretely.
- `toLowerCase` is ASCII-only. Non-ASCII letters are not case-folded in the searches.
- Dates are integer milliseconds. The highlights tab uses exactly three days of 86,400,000 ms, ignoring daylight-saving shifts of `setDate`. Unparsable dates, which sort as NaN in the source, are not represented.
- A refresh run uses one `now` for all its writes. The source reads the clock per write and per skip test. The form add likewise uses one `now` for its creation, update and check times, where the source reads the clock three times.
- String lengths count Unicode scalar values, as Dafny strings do. JavaScript `length` and `substring` count UTF-16 code units, so for text with characters outside the Basic Multilingual Plane (emoji, for example) every cut (100, 200, 500, 1000), the first-100 comparison, the 40- and 100-character thresholds and the longest-candidate choice count differently, and `substring` may split a surrogate pair there; the model does not represent that.
- `Promise.allSettled` concurrency inside a batch, the one-second `setTimeout`, and rejected per-site promises are not modelled. Sites are processed one after another, and a pause event stands for the delay.
- Store behaviour is not modelled: the Userbase store, database opening, inserts that fail, deletes, the manual update handler, and the reload after a run. `Apply` assumes that an update merges the written fields into the stored record and keeps the others.
- The `if (!userbase) return` guard of the add paths is not modelled. `AddWebsite` and `AddFromForm` start after it.
- Toasts, rendering, the compact view, and the order in which later feed items are displayed are not modelled.
- `Sorting.SortDesc`: the sort is stable, as JavaScript's `sort` is, but only ordering and permutation are stated.
- `CheckWebsiteRoute.Get`: the route's log output and the exact error thrown inside it are not modelled. Every failure after the `url` check is the same 500 answer.
