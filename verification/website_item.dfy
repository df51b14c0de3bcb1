/** The text helpers of a feed entry: the word-level difference between the
    two stored snapshots, the latest feed post, and the URL a click opens. */
module WebsiteItem {
  import opened Results
  import opened Text
  import opened Seqs
  import opened Records
  import Urls

  /** The test `!oldWordsSet.has(word)`. */
  function NotAmong(ws: seq<string>): string -> bool {
    w => w !in ws
  }

  /** The white-space separated tokens of `current` that do not occur among
      those of `previous`, in `current`'s order and with its repetitions. */
  function NewWords(previous: string, current: string): (ws: seq<string>)
    ensures AllTokens(ws)
    ensures forall i :: 0 <= i < |ws| ==> ws[i] in Words(current) && ws[i] !in Words(previous)
    ensures forall i :: 0 <= i < |Words(current)| && Words(current)[i] !in Words(previous)
              ==> Words(current)[i] in ws
    ensures IsSubsequence(ws, Words(current))
  {
    var cur := Words(current);
    var ws := Filter(cur, NotAmong(Words(previous)));
    assert forall i :: 0 <= i < |ws| ==> IsToken(ws[i]) by {
      forall i | 0 <= i < |ws|
        ensures IsToken(ws[i])
      {
        var j :| 0 <= j < |cur| && cur[j] == ws[i];
        assert IsToken(cur[j]);
      }
    }
    ws
  }

  /** A repeated new token is kept as often as the new snapshot has it. */
  lemma NewWordsKeepRepeats(previous: string, current: string, w: string)
    requires w !in Words(previous)
    ensures multiset(NewWords(previous, current))[w] == multiset(Words(current))[w]
  {
    FilterMultiset(Words(current), NotAmong(Words(previous)));
  }

  /** `getContentDifference()`: with both snapshots present, the new tokens
      joined by single spaces, unless there are none; otherwise, and in that
      case, the main content or `""`. */
  function ContentDifference(w: Website): (r: string)
    ensures !Present(w.previousSnapshot) || !Present(w.contentSnapshot) ==> r == OrEmpty(w.mainContent)
    ensures Present(w.previousSnapshot) && Present(w.contentSnapshot) ==>
              var delta := NewWords(w.previousSnapshot.value, w.contentSnapshot.value);
              && (delta == [] ==> r == OrEmpty(w.mainContent))
              && (delta != [] ==> r == Join(delta, " ") && Words(r) == delta)
  {
    if !Present(w.previousSnapshot) || !Present(w.contentSnapshot) then OrEmpty(w.mainContent)
    else
      var delta := NewWords(w.previousSnapshot.value, w.contentSnapshot.value);
      var joined := Join(delta, " ");
      WordsOfJoin(delta);
      if delta != [] then
        JoinStartsWithFirst(delta, " ");
        assert IsToken(delta[0]);
        joined
      else OrEmpty(w.mainContent)
  }

  /** Every word of a shown difference is in the new snapshot and not in the
      old one, and every such word is shown. */
  lemma DifferenceWordsAreNew(w: Website)
    requires Present(w.previousSnapshot) && Present(w.contentSnapshot)
    requires NewWords(w.previousSnapshot.value, w.contentSnapshot.value) != []
    ensures var shown := Words(ContentDifference(w));
            var cur, prev := Words(w.contentSnapshot.value), Words(w.previousSnapshot.value);
            && (forall i :: 0 <= i < |shown| ==> shown[i] in cur && shown[i] !in prev)
            && (forall i :: 0 <= i < |cur| && cur[i] !in prev ==> cur[i] in shown)
  {
  }

  /** A new snapshot with no token outside the old one (equal snapshots in
      particular) shows the main content. */
  lemma NoNewWordsShowsMainContent(w: Website)
    requires Present(w.previousSnapshot) && Present(w.contentSnapshot)
    requires forall i :: 0 <= i < |Words(w.contentSnapshot.value)| ==>
               Words(w.contentSnapshot.value)[i] in Words(w.previousSnapshot.value)
    ensures ContentDifference(w) == OrEmpty(w.mainContent)
  {
    assert NewWords(w.previousSnapshot.value, w.contentSnapshot.value) == [];
  }

  lemma EqualSnapshotsShowMainContent(w: Website)
    requires Present(w.previousSnapshot) && w.contentSnapshot == w.previousSnapshot
    ensures ContentDifference(w) == OrEmpty(w.mainContent)
  {
    NoNewWordsShowsMainContent(w);
  }

  lemma SnapshotWords()
    ensures Words("A B C") == ["A", "B", "C"]
    ensures Words("A B C D") == ["A", "B", "C", "D"]
  {
    assert Join(["A", "B", "C"], " ") == "A B C";
    assert Join(["A", "B", "C", "D"], " ") == "A B C D";
    WordsOfJoin(["A", "B", "C"]);
    WordsOfJoin(["A", "B", "C", "D"]);
  }

  lemma KeptTail()
    ensures Filter(["A", "B", "C", "D"], NotAmong(["A", "B", "C"])) == ["D"]
  {
    var p := NotAmong(["A", "B", "C"]);
    assert Filter(["D"], p) == ["D"] by { assert ["D"][1..] == []; }
    assert Filter(["C", "D"], p) == ["D"] by { assert ["C", "D"][1..] == ["D"]; }
    assert Filter(["B", "C", "D"], p) == ["D"] by { assert ["B", "C", "D"][1..] == ["C", "D"]; }
    assert ["A", "B", "C", "D"][1..] == ["B", "C", "D"];
  }

  /** One appended word is exactly what is shown. */
  lemma AppendedWordShown(w: Website)
    requires w.previousSnapshot == Some("A B C") && w.contentSnapshot == Some("A B C D")
    ensures ContentDifference(w) == "D"
  {
    SnapshotWords();
    KeptTail();
    assert NewWords("A B C", "A B C D") == ["D"];
  }

  /** `getLatestPostTitle()`: the first feed item's title, if there is one. */
  function LatestPostTitle(w: Website): (r: Option<string>)
    ensures r.Some? <==> w.feedItems.Some? && w.feedItems.value != []
    ensures r.Some? ==> r.value == w.feedItems.value[0].title
  {
    match w.feedItems
    case Some(items) => if items != [] then Some(items[0].title) else None
    case None => None
  }

  /** The latest post of a stored feed is the first fetched item's title, cut
      to its storage bound. */
  lemma LatestOfStoredFeed(w: Website, fetched: seq<FeedItem>)
    requires w.feedItems == Some(StoredFeedItems(fetched))
    ensures fetched == [] ==> LatestPostTitle(w).None?
    ensures fetched != [] ==> LatestPostTitle(w) == Some(Take(fetched[0].title, StoredItemFieldLimit))
  {
  }

  /** The URL `handleClick` opens: nothing for an empty URL, otherwise the URL
      with `https://` prepended when it lacks an `http://`/`https://`
      prefix (case-sensitive). */
  function ClickTarget(url: string): (r: Option<string>)
    ensures r.None? <==> url == ""
    ensures r.Some? ==> Urls.HasHttpScheme(r.value) && (r.value == url || r.value == "https://" + url)
    ensures r.Some? && Urls.HasHttpScheme(url) ==> r.value == url
  {
    if url == "" then None else Some(Urls.WithHttps(url))
  }

  /** Opening the target of a target opens the same page. */
  lemma ClickTargetStable(url: string)
    requires url != ""
    ensures ClickTarget(ClickTarget(url).value) == ClickTarget(url)
  {
    Urls.WithHttpsIdempotent(url);
  }
}
