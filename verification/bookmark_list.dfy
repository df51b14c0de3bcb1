/** The search box of the bookmark list. */
module BookmarkList {
  import opened Results
  import opened Text
  import opened Seqs
  import opened Records

  /** A non-empty title, URL or category whose lower-cased text contains the
      lower-cased query; description and content are not searched. */
  predicate MatchesBookmark(w: Website, q: string) {
    || (w.title != "" && Contains(Lower(w.title), q))
    || (w.url != "" && Contains(Lower(w.url), q))
    || (w.category != "" && Contains(Lower(w.category), q))
  }

  function BookmarkTest(query: string): Website -> bool {
    (w: Website) => query == "" || MatchesBookmark(w, Lower(query))
  }

  /** `filteredWebsites`: every site for an empty query, else the matching
      sites, in list order. */
  function FilterBookmarks(sites: seq<Website>, query: string): (r: seq<Website>)
    ensures IsSubsequence(r, sites)
    ensures query == "" ==> r == sites
    ensures forall i :: 0 <= i < |r| ==> query == "" || MatchesBookmark(r[i], Lower(query))
    ensures forall i :: 0 <= i < |sites| && (query == "" || MatchesBookmark(sites[i], Lower(query))) ==> sites[i] in r
  {
    Filter(sites, BookmarkTest(query))
  }

  /** Sites that agree on title, URL and category are kept or dropped
      together, whatever their other fields. */
  lemma OnlySearchedFieldsMatter(w1: Website, w2: Website, query: string)
    requires w1.title == w2.title && w1.url == w2.url && w1.category == w2.category
    ensures (FilterBookmarks([w1], query) == [w1]) <==> (FilterBookmarks([w2], query) == [w2])
  {
    assert [w1][1..] == [] && [w2][1..] == [];
  }

  /** Typing more narrows the list: a site found by a longer query is found
      by its non-empty prefix. */
  lemma LongerQueryNarrows(sites: seq<Website>, query: string, more: string)
    requires query != ""
    ensures forall i :: 0 <= i < |sites| && sites[i] in FilterBookmarks(sites, query + more)
              ==> sites[i] in FilterBookmarks(sites, query)
  {
    forall i | 0 <= i < |sites| && sites[i] in FilterBookmarks(sites, query + more)
      ensures sites[i] in FilterBookmarks(sites, query)
    {
      var r := FilterBookmarks(sites, query + more);
      var j :| 0 <= j < |r| && r[j] == sites[i];
      assert MatchesBookmark(sites[i], Lower(query + more));
      LowerAppend(query, more);
      NarrowerMatch(sites[i], Lower(query), Lower(more));
    }
  }

  lemma NarrowerMatch(w: Website, q: string, extra: string)
    requires MatchesBookmark(w, q + extra)
    ensures MatchesBookmark(w, q)
  {
    if w.title != "" && Contains(Lower(w.title), q + extra) {
      ContainsPrefixOfSub(Lower(w.title), q, extra);
    } else if w.url != "" && Contains(Lower(w.url), q + extra) {
      ContainsPrefixOfSub(Lower(w.url), q, extra);
    } else {
      ContainsPrefixOfSub(Lower(w.category), q, extra);
    }
  }
}
