/** The server action `checkWebsiteUpdates` and its helper
    `extractMainContent`: fetch a page, strip the parts that change without
    meaning (scripts, styles, comments, `<time>` elements, clock times, the
    words today/yesterday/tomorrow, white-space runs), hash what is left and
    compare it with the previous hash. SHA-256 is the parameter `hash`. */
module Actions {
  import opened Results
  import opened Text
  import opened Seqs

  /** What `fetch` produced: a response (status, status text and body text),
      or a transport failure carrying its error message. */
  datatype Reply = Reply(status: nat, statusText: string, body: string) | TransportFailure(message: string)

  datatype UpdateCheckResult = UpdateCheckResult(contentHash: string, hasChanged: bool)

  /** `/^https?:\/\//i.test(u)`. */
  predicate HasHttpSchemeIgnoringCase(u: string) {
    "http://" <= Lower(u) || "https://" <= Lower(u)
  }

  /** The URL that is fetched: `https://` is prepended exactly when the input
      lacks an `http://`/`https://` prefix in any letter case. */
  function RequestUrl(url: string): (r: string)
    ensures HasHttpSchemeIgnoringCase(r)
    ensures HasHttpSchemeIgnoringCase(url) <==> r == url
    ensures !HasHttpSchemeIgnoringCase(url) ==> r == "https://" + url
  {
    if HasHttpSchemeIgnoringCase(url) then url
    else
      LowerAppend("https://", url);
      assert Lower("https://") == "https://";
      "https://" + url
  }

  lemma RequestUrlIdempotent(url: string)
    ensures RequestUrl(RequestUrl(url)) == RequestUrl(url)
  {
  }

  // ---------------------------------------------------------------------
  // /\b(today|yesterday|tomorrow)\b/gi

  /** The word `w` (lower case) starts `s`, in any letter case, and a word
      boundary follows it. */
  predicate MatchesAt(s: string, w: string) {
    |w| <= |s| && Lower(s[..|w|]) == w && (|s| == |w| || !IsWordChar(s[|w|]))
  }

  /** Length of the relative-day word the regular expression matches at the
      start of `s` (the alternatives tried in order), or 0. */
  function DayWordAt(s: string): (n: nat)
    ensures n <= |s|
  {
    if MatchesAt(s, "today") then 5
    else if MatchesAt(s, "yesterday") then 9
    else if MatchesAt(s, "tomorrow") then 8
    else 0
  }

  /** The global replacement, scanning left to right. `afterWord` says
      whether the character before `s` is a word character, in which case
      no word boundary precedes `s` and nothing can match there. */
  function StripDays(s: string, afterWord: bool): string
    decreases |s|
  {
    if s == [] then []
    else
      var n := if afterWord then 0 else DayWordAt(s);
      if n > 0 then StripDays(s[n..], true)
      else [s[0]] + StripDays(s[1..], IsWordChar(s[0]))
  }

  /** The scanner only deletes characters. */
  lemma {:induction false} StripDaysDeletesOnly(s: string, afterWord: bool)
    ensures |StripDays(s, afterWord)| <= |s|
    ensures IsSubsequence(StripDays(s, afterWord), s)
    decreases |s|
  {
    if s != [] {
      var n := if afterWord then 0 else DayWordAt(s);
      if n > 0 {
        StripDaysDeletesOnly(s[n..], true);
        SuffixIsSubsequence(s, n);
        SubsequenceTransitive(StripDays(s[n..], true), s[n..], s);
      } else {
        StripDaysDeletesOnly(s[1..], IsWordChar(s[0]));
        var r := StripDays(s, afterWord);
        assert r == [s[0]] + StripDays(s[1..], IsWordChar(s[0]));
        assert r[1..] == StripDays(s[1..], IsWordChar(s[0]));
      }
    }
  }

  /** `content.replace(/\b(today|yesterday|tomorrow)\b/gi, "")`: the
      scanner started with a word boundary before the text. It only deletes
      characters, keeping the order of the rest. */
  function StripRelativeDays(s: string): (r: string)
    ensures |r| <= |s|
    ensures IsSubsequence(r, s)
  {
    StripDaysDeletesOnly(s, false);
    StripDays(s, false)
  }

  /** One of the three words, in any letter case. */
  predicate IsDayWord(w: string) {
    Lower(w) == "today" || Lower(w) == "yesterday" || Lower(w) == "tomorrow"
  }

  /** The left edge of a word: `s` is empty or starts with a non-word
      character. */
  predicate StartsAtBoundary(s: string) {
    s == [] || !IsWordChar(s[0])
  }

  /** The right edge of a word: `s` is empty or ends with a non-word
      character. */
  predicate EndsAtBoundary(s: string) {
    s == [] || !IsWordChar(s[|s| - 1])
  }

  predicate IsLowerWord(w: string) {
    forall k :: 0 <= k < |w| ==> 'a' <= w[k] <= 'z'
  }

  lemma LowerLetterIsWordChar(c: char)
    requires 'a' <= ToLower(c) <= 'z'
    ensures IsWordChar(c)
  {
  }

  lemma DayWordsAreLower()
    ensures IsLowerWord("today") && IsLowerWord("yesterday") && IsLowerWord("tomorrow")
  {
    var t := "today";
    assert forall k :: 0 <= k < 5 ==> t[k] in {'t', 'o', 'd', 'a', 'y'};
    var y := "yesterday";
    assert forall k :: 0 <= k < 9 ==> y[k] in {'y', 'e', 's', 't', 'r', 'd', 'a'};
    var m := "tomorrow";
    assert forall k :: 0 <= k < 8 ==> m[k] in {'t', 'o', 'm', 'r', 'w'};
  }

  /** A match cannot run over a non-word character, so whether `w` matches at
      the start of `a + r` is decided inside `a` when `a` ends with one. */
  lemma MatchDecidedInside(a: string, r: string, w: string)
    requires a != [] && !IsWordChar(a[|a| - 1])
    requires w != [] && IsLowerWord(w)
    ensures MatchesAt(a + r, w) == MatchesAt(a, w)
  {
    var s := a + r;
    if |w| < |a| {
      assert s[..|w|] == a[..|w|];
      assert s[|w|] == a[|w|];
    } else {
      var k := |a| - 1;
      assert s[k] == a[k];
      if |w| <= |s| && Lower(s[..|w|]) == w {
        assert ToLower(s[k]) == Lower(s[..|w|])[k] == w[k];
        LowerLetterIsWordChar(s[k]);
        assert false;
      }
      if |w| <= |a| && Lower(a[..|w|]) == w {
        assert ToLower(a[k]) == Lower(a[..|w|])[k] == w[k];
        LowerLetterIsWordChar(a[k]);
        assert false;
      }
    }
  }

  /** At the start of a text that ends with a non-word character, the day
      word found is the same whatever follows, and it ends inside the text. */
  lemma DayWordDecidedInside(a: string, r: string)
    requires a != [] && !IsWordChar(a[|a| - 1])
    ensures DayWordAt(a + r) == DayWordAt(a)
    ensures DayWordAt(a) < |a|
  {
    DayWordsAreLower();
    MatchDecidedInside(a, r, "today");
    MatchDecidedInside(a, r, "yesterday");
    MatchDecidedInside(a, r, "tomorrow");
    var n := DayWordAt(a);
    if n == |a| {
      var w := if n == 5 then "today" else if n == 9 then "yesterday" else "tomorrow";
      assert MatchesAt(a, w);
      assert ToLower(a[n - 1]) == Lower(a[..n])[n - 1] == w[n - 1];
      LowerLetterIsWordChar(a[n - 1]);
    }
  }

  lemma DropFromConcat(a: string, r: string, n: nat)
    requires n <= |a|
    ensures (a + r)[n..] == a[n..] + r
  {
  }

  /** Stripping a text that ends at a word boundary does not look past it:
      the rest is stripped as if it started the text. */
  lemma {:induction false} StripSplitsAtBoundary(a: string, r: string, afterWord: bool)
    requires a != [] && !IsWordChar(a[|a| - 1])
    ensures StripDays(a + r, afterWord) == StripDays(a, afterWord) + StripDays(r, false)
    decreases |a|
  {
    var s := a + r;
    assert s[0] == a[0];
    DayWordDecidedInside(a, r);
    var n := if afterWord then 0 else DayWordAt(a);
    if n > 0 {
      DropFromConcat(a, r, n);
      StripSplitsAtBoundary(a[n..], r, true);
    } else {
      DropFromConcat(a, r, 1);
      if |a| > 1 {
        StripSplitsAtBoundary(a[1..], r, IsWordChar(a[0]));
      }
    }
  }

  lemma DayWordMatches(w: string, b: string)
    requires IsDayWord(w) && StartsAtBoundary(b)
    ensures DayWordAt(w + b) == |w|
  {
    var s := w + b;
    assert s[..|w|] == w;
    if |w| < |s| {
      assert s[|w|] == b[0];
    }
    LowerPrefix(s, |w|);
    if Lower(w) == "yesterday" {
      assert Lower(s)[0] == 'y';
      assert Lower(s[..5])[0] == 'y';
    } else if Lower(w) == "tomorrow" {
      assert Lower(s)[..5] == Lower(s[..5]) by { LowerPrefix(s, 5); }
      assert Lower(s)[2] == 'm';
      assert Lower(s[..5])[2] == 'm';
    }
  }

  /** A text that starts at a word boundary is stripped the same whatever
      precedes it. */
  lemma StripAfterBoundary(b: string)
    requires StartsAtBoundary(b)
    ensures StripDays(b, true) == StripDays(b, false)
  {
    if b != [] {
      if MatchesAt(b, "today") || MatchesAt(b, "yesterday") || MatchesAt(b, "tomorrow") {
        DayWordsAreLower();
        var w := if MatchesAt(b, "today") then "today" else if MatchesAt(b, "yesterday") then "yesterday" else "tomorrow";
        assert ToLower(b[0]) == Lower(b[..|w|])[0] == w[0];
        LowerLetterIsWordChar(b[0]);
      }
    }
  }

  /** A relative-day word at the very start is dropped. */
  lemma DayWordDroppedAtStart(w: string, b: string)
    requires IsDayWord(w) && StartsAtBoundary(b)
    ensures StripRelativeDays(w + b) == StripRelativeDays(b)
  {
    DayWordMatches(w, b);
    assert (w + b)[|w|..] == b;
    assert StripDays(w + b, false) == StripDays(b, true);
    StripAfterBoundary(b);
  }

  /** A text that ends at a word boundary is stripped separately from what
      follows it. */
  lemma StripAfterEdge(a: string, t: string)
    requires EndsAtBoundary(a)
    ensures StripRelativeDays(a + t) == StripRelativeDays(a) + StripRelativeDays(t)
  {
    if a == [] {
      assert a + t == t;
    } else {
      StripSplitsAtBoundary(a, t, false);
    }
  }

  /** A day word the scanner finds at the start of `s` is a whole day word:
      one of the three words in some letter case, with a word boundary after
      it. */
  lemma DayWordFound(s: string)
    requires DayWordAt(s) > 0
    ensures IsDayWord(s[0..DayWordAt(s)]) && StartsAtBoundary(s[DayWordAt(s)..])
  {
    var n := DayWordAt(s);
    if n < |s| {
      assert s[n..][0] == s[n];
    }
  }

  /** The scanner changes nothing when no whole day word starts where it may
      match: at the start unless `afterWord`, and after a non-word
      character. */
  lemma {:induction false} StripKeepsText(s: string, afterWord: bool)
    requires forall i, j ::
               (0 <= i <= j <= |s| && (if i == 0 then !afterWord else !IsWordChar(s[i - 1]))
                && StartsAtBoundary(s[j..])) ==> !IsDayWord(s[i..j])
    ensures StripDays(s, afterWord) == s
    decreases |s|
  {
    if s != [] {
      if !afterWord && DayWordAt(s) > 0 {
        DayWordFound(s);
        assert false;
      }
      var t := s[1..];
      forall i, j | 0 <= i <= j <= |t| && (if i == 0 then !IsWordChar(s[0]) else !IsWordChar(t[i - 1]))
                    && StartsAtBoundary(t[j..])
        ensures !IsDayWord(t[i..j])
      {
        assert t[i..j] == s[i + 1..j + 1];
        assert t[j..] == s[j + 1..];
        if i > 0 {
          assert t[i - 1] == s[i];
        }
      }
      StripKeepsText(t, IsWordChar(s[0]));
      assert [s[0]] + t == s;
    }
  }

  /** Nothing but day words is removed: a text in which no whole day word
      (any letter case, word boundaries on both sides) occurs is returned
      unchanged. */
  lemma NoDayWordKeepsText(s: string)
    requires forall i, j ::
               (0 <= i <= j <= |s| && EndsAtBoundary(s[..i]) && StartsAtBoundary(s[j..])) ==> !IsDayWord(s[i..j])
    ensures StripRelativeDays(s) == s
  {
    forall i, j | 0 <= i <= j <= |s| && (if i == 0 then true else !IsWordChar(s[i - 1]))
                  && StartsAtBoundary(s[j..])
      ensures !IsDayWord(s[i..j])
    {
      if i > 0 {
        assert s[..i][i - 1] == s[i - 1];
      }
    }
    StripKeepsText(s, false);
  }

  /** A whole relative-day word, in any letter case, is removed: the rest of
      the text is stripped as if the word were not there. */
  lemma DayWordRemoved(a: string, w: string, b: string)
    requires EndsAtBoundary(a) && IsDayWord(w) && StartsAtBoundary(b)
    ensures StripRelativeDays(a + w + b) == StripRelativeDays(a) + StripRelativeDays(b)
  {
    var t := w + b;
    assert a + w + b == a + t;
    DayWordDroppedAtStart(w, b);
    StripAfterEdge(a, t);
  }

  /** Replacing one relative-day word by another leaves the stripped text
      unchanged. */
  lemma DayWordSwap(a: string, w1: string, w2: string, b: string)
    requires EndsAtBoundary(a) && IsDayWord(w1) && IsDayWord(w2) && StartsAtBoundary(b)
    ensures StripRelativeDays(a + w1 + b) == StripRelativeDays(a + w2 + b)
  {
    DayWordRemoved(a, w1, b);
    DayWordRemoved(a, w2, b);
  }

  // ---------------------------------------------------------------------
  // extractMainContent and checkWebsiteUpdates

  /** The regular-expression removals that precede the day-word step (script
      elements, style elements, comments, `<time>` elements, clock times), in
      order; `None` stands for a removal that throws. */
  function ApplyRules(rules: seq<string -> Option<string>>, s: string): Option<string>
    decreases |rules|
  {
    if rules == [] then Some(s)
    else match rules[0](s)
      case None => None
      case Some(t) => ApplyRules(rules[1..], t)
  }

  /** The noise-stripped text of a page. When a removal throws, the page is
      returned unchanged; otherwise the result is collapsed: no white space
      at either end and no two white-space characters in a row. */
  function ExtractMainContent(html: string, rules: seq<string -> Option<string>>): (r: string)
    ensures ApplyRules(rules, html).None? ==> r == html
    ensures ApplyRules(rules, html).Some? ==>
              IsCollapsed(r) && r == Join(Words(StripRelativeDays(ApplyRules(rules, html).value)), " ")
  {
    match ApplyRules(rules, html)
    case None => html
    case Some(t) => Collapse(StripRelativeDays(t))
  }

  /** `response.ok`. */
  predicate IsOk(status: nat) {
    200 <= status <= 299
  }

  function FetchFailure(status: nat, statusText: string): string {
    "Failed to fetch website: " + NatToString(status) + " " + statusText
  }

  /** The message `new URL(...)` throws for a string it cannot parse. */
  const InvalidUrl: string := "Invalid URL"

  /** `checkWebsiteUpdates(url, previousHash)`. `parseUrl` is the platform
      URL parser (its serialisation, or `None` when it throws) and `fetch`
      answers for the serialised URL. An unparsable URL or a transport
      failure is rethrown; a non-2xx answer throws a message naming status
      and status text; otherwise the result carries the hash of the
      extracted content and reports a change exactly when a previous hash
      exists and differs from it. */
  function CheckWebsiteUpdates(url: string, previousHash: string, parseUrl: string -> Option<string>,
                               fetch: string -> Reply, rules: seq<string -> Option<string>>,
                               hash: string -> string)
    : (r: Result<UpdateCheckResult>)
    ensures parseUrl(RequestUrl(url)).None? ==> r == Err(InvalidUrl)
    ensures parseUrl(RequestUrl(url)).Some? ==>
              var reply := fetch(parseUrl(RequestUrl(url)).value);
              && (reply.TransportFailure? ==> r == Err(reply.message))
              && (reply.Reply? && !IsOk(reply.status) ==> r == Err(FetchFailure(reply.status, reply.statusText)))
              && (r.Ok? <==> reply.Reply? && IsOk(reply.status))
              && (r.Ok? ==> r.value.contentHash == hash(ExtractMainContent(reply.body, rules)))
    ensures r.Ok? ==> (r.value.hasChanged <==> previousHash != "" && previousHash != r.value.contentHash)
    ensures r.Ok? && previousHash == "" ==> !r.value.hasChanged
  {
    match parseUrl(RequestUrl(url))
    case None => Err(InvalidUrl)
    case Some(target) =>
      match fetch(target)
      case TransportFailure(message) => Err(message)
      case Reply(status, statusText, body) =>
        if !IsOk(status) then Err(FetchFailure(status, statusText))
        else
          var contentHash := hash(ExtractMainContent(body, rules));
          Ok(UpdateCheckResult(contentHash, previousHash != "" && previousHash != contentHash))
  }

  /** Checking again against the hash a check just returned, with the page
      unchanged, reports no change. */
  lemma RecheckReportsNoChange(url: string, previousHash: string, parseUrl: string -> Option<string>,
                               fetch: string -> Reply, rules: seq<string -> Option<string>>,
                               hash: string -> string)
    requires CheckWebsiteUpdates(url, previousHash, parseUrl, fetch, rules, hash).Ok?
    ensures var h := CheckWebsiteUpdates(url, previousHash, parseUrl, fetch, rules, hash).value.contentHash;
            var again := CheckWebsiteUpdates(url, h, parseUrl, fetch, rules, hash);
            again.Ok? && again.value.contentHash == h && !again.value.hasChanged
  {
  }

  /** Two pages whose texts, after the earlier removals, differ only in one
      relative-day word hash the same, so the swap is not reported as a
      change. */
  lemma DayWordSwapHashesEqual(html1: string, html2: string, rules: seq<string -> Option<string>>,
                               hash: string -> string, a: string, w1: string, w2: string, b: string)
    requires ApplyRules(rules, html1) == Some(a + w1 + b)
    requires ApplyRules(rules, html2) == Some(a + w2 + b)
    requires EndsAtBoundary(a) && IsDayWord(w1) && IsDayWord(w2) && StartsAtBoundary(b)
    ensures hash(ExtractMainContent(html1, rules)) == hash(ExtractMainContent(html2, rules))
  {
    DayWordSwap(a, w1, w2, b);
  }
}
