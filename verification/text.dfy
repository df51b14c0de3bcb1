/** The JavaScript string operations the tracker relies on, over `seq<char>`:
    `substring(0, n)`, `includes`, `startsWith`, `trim`, `toLowerCase`
    (ASCII letters only), `split(/\s+/)`, `replace(/\s+/g, " ")` and `join`. */
module Text {

  function Min(a: int, b: int): int {
    if a <= b then a else b
  }

  /** `s.substring(0, n)` (also `slice(0, n)` on arrays): the first `n`
      elements, or all of `s` when it is shorter. */
  function Take<T>(s: seq<T>, n: nat): (r: seq<T>)
    ensures |r| == Min(|s|, n)
    ensures r <= s
  {
    if |s| <= n then s else s[..n]
  }

  /** `a || b` on two strings: the empty string is falsy. */
  function OrElse(a: string, b: string): string {
    if a != "" then a else b
  }

  /** The characters JavaScript's `\s` matches, which are also the ones
      `trim()` removes: the white space and line terminator characters. */
  predicate IsSpace(c: char) {
    var n := c as int;
    n == 0x20 || (0x09 <= n <= 0x0D) || n == 0xA0 || n == 0x1680
    || (0x2000 <= n <= 0x200A) || n == 0x2028 || n == 0x2029
    || n == 0x202F || n == 0x205F || n == 0x3000 || n == 0xFEFF
  }

  /** The characters of the regular-expression class `\w`. */
  predicate IsWordChar(c: char) {
    ('a' <= c <= 'z') || ('A' <= c <= 'Z') || ('0' <= c <= '9') || c == '_'
  }

  function ToLower(c: char): char {
    if 'A' <= c <= 'Z' then (c as int + 32) as char else c
  }

  /** `toLowerCase()`, restricted to the ASCII letters. */
  function Lower(s: string): (r: string)
    ensures |r| == |s|
    ensures forall i :: 0 <= i < |s| ==> r[i] == ToLower(s[i])
  {
    seq(|s|, i requires 0 <= i < |s| => ToLower(s[i]))
  }

  lemma LowerAppend(a: string, b: string)
    ensures Lower(a + b) == Lower(a) + Lower(b)
  {
  }

  lemma LowerPrefix(s: string, n: nat)
    requires n <= |s|
    ensures Lower(s[..n]) == Lower(s)[..n]
  {
  }

  /** `s.includes(sub)`, written as the scan `includes` performs. */
  predicate Contains(s: string, sub: string)
    decreases |s|
  {
    sub <= s || (s != [] && Contains(s[1..], sub))
  }

  /** `Contains` holds exactly when `sub` occurs at some position of `s`. */
  lemma {:induction false} ContainsIffOccurs(s: string, sub: string)
    ensures Contains(s, sub) <==> exists i :: 0 <= i <= |s| && sub <= s[i..]
    decreases |s|
  {
    assert s[0..] == s;
    if s == [] {
      if exists i :: 0 <= i <= |s| && sub <= s[i..] {
        var i :| 0 <= i <= |s| && sub <= s[i..];
        assert i == 0;
      }
    } else {
      ContainsIffOccurs(s[1..], sub);
      if Contains(s, sub) && !(sub <= s) {
        var i :| 0 <= i <= |s[1..]| && sub <= s[1..][i..];
        assert s[1..][i..] == s[i + 1..];
        assert 0 <= i + 1 <= |s| && sub <= s[i + 1..];
      }
      if exists i :: 0 <= i <= |s| && sub <= s[i..] {
        var i :| 0 <= i <= |s| && sub <= s[i..];
        if i > 0 {
          assert s[1..][i - 1..] == s[i..];
          assert Contains(s[1..], sub);
        }
      }
    }
  }

  /** A string contains anything that one of its prefixes contains. */
  lemma {:induction false} ContainsExtend(s: string, t: string, sub: string)
    requires Contains(s, sub)
    ensures Contains(s + t, sub)
    decreases |s|
  {
    if !(sub <= s) {
      assert s != [];
      ContainsExtend(s[1..], t, sub);
      assert (s + t)[1..] == s[1..] + t;
    }
  }

  /** A string contains anything its suffix contains. */
  lemma {:induction false} ContainsAfter(s: string, t: string, sub: string)
    requires Contains(t, sub)
    ensures Contains(s + t, sub)
    decreases |s|
  {
    if s == [] {
      assert s + t == t;
    } else {
      ContainsAfter(s[1..], t, sub);
      assert (s + t)[1..] == s[1..] + t;
    }
  }

  /** A string that contains `a + b` contains `a`. */
  lemma ContainsPrefixOfSub(s: string, a: string, b: string)
    requires Contains(s, a + b)
    ensures Contains(s, a)
  {
    ContainsIffOccurs(s, a + b);
    ContainsIffOccurs(s, a);
    var i :| 0 <= i <= |s| && a + b <= s[i..];
    assert a <= s[i..];
  }

  /** Appending characters that do not occur in `sub` cannot create an
      occurrence of it. */
  lemma ContainsAppendForeign(s: string, t: string, sub: string)
    requires sub != []
    requires forall i :: 0 <= i < |t| ==> t[i] !in sub
    ensures Contains(s + t, sub) <==> Contains(s, sub)
  {
    ContainsIffOccurs(s + t, sub);
    ContainsIffOccurs(s, sub);
    if Contains(s + t, sub) {
      var i :| 0 <= i <= |s + t| && sub <= (s + t)[i..];
      var k := i + |sub| - 1;
      assert (s + t)[k] == sub[|sub| - 1];
      assert k < |s|;
      assert sub <= s[i..];
    }
    if Contains(s, sub) {
      ContainsExtend(s, t, sub);
    }
  }

  // ---------------------------------------------------------------------
  // Trimming, tokens and whitespace collapse

  /** `trimStart()`: drops the leading white space. */
  function TrimStart(s: string): (r: string)
    ensures |r| <= |s|
    ensures r == [] || !IsSpace(r[0])
  {
    if s != [] && IsSpace(s[0]) then TrimStart(s[1..]) else s
  }

  /** `trimEnd()`: drops the trailing white space. */
  function TrimEnd(s: string): (r: string)
    ensures r <= s
    ensures r == [] || !IsSpace(r[|r| - 1])
    ensures forall i :: |r| <= i < |s| ==> IsSpace(s[i])
  {
    if s != [] && IsSpace(s[|s| - 1]) then TrimEnd(s[..|s| - 1]) else s
  }

  /** `trim()`. */
  function Trim(s: string): string {
    TrimEnd(TrimStart(s))
  }

  /** Length of the run of non-white-space characters that starts `s`. */
  function WordLen(s: string): (n: nat)
    ensures n <= |s|
    ensures forall i :: 0 <= i < n ==> !IsSpace(s[i])
    ensures n < |s| ==> IsSpace(s[n])
  {
    if s != [] && !IsSpace(s[0]) then 1 + WordLen(s[1..]) else 0
  }

  /** A token: a non-empty string without white space. */
  predicate IsToken(w: string) {
    w != [] && forall i :: 0 <= i < |w| ==> !IsSpace(w[i])
  }

  predicate AllTokens(ws: seq<string>) {
    forall k :: 0 <= k < |ws| ==> IsToken(ws[k])
  }

  /** `s.split(/\s+/).filter(Boolean)`: the maximal runs of non-white-space
      characters of `s`, in order. */
  function Words(s: string): (ws: seq<string>)
    ensures AllTokens(ws)
    decreases |s|
  {
    var t := TrimStart(s);
    if t == [] then []
    else
      var n := WordLen(t);
      [t[..n]] + Words(t[n..])
  }

  /** `parts.join(sep)`. */
  function Join(parts: seq<string>, sep: string): string
    decreases |parts|
  {
    if |parts| == 0 then ""
    else if |parts| == 1 then parts[0]
    else parts[0] + sep + Join(parts[1..], sep)
  }

  /** `s.replace(/\s+/g, " ")`: every maximal run of white space becomes one
      space. */
  function SquashRuns(s: string): string
    decreases |s|
  {
    if s == [] then []
    else if IsSpace(s[0]) then " " + SquashRuns(TrimStart(s[1..]))
    else [s[0]] + SquashRuns(s[1..])
  }

  /** A string in the form `replace(/\s+/g, " ").trim()` produces: no white
      space at either end, no two white-space characters in a row, and every
      white-space character a plain space. */
  predicate IsCollapsed(t: string) {
    && (t != [] ==> !IsSpace(t[0]) && !IsSpace(t[|t| - 1]))
    && (forall i :: 0 <= i < |t| - 1 && IsSpace(t[i]) ==> !IsSpace(t[i + 1]))
    && (forall i :: 0 <= i < |t| && IsSpace(t[i]) ==> t[i] == ' ')
  }

  /** `s.replace(/\s+/g, " ").trim()`. The result is collapsed, and it is the
      same as joining the tokens of `s` with single spaces. */
  function Collapse(s: string): (r: string)
    ensures IsCollapsed(r)
    ensures r == Join(Words(s), " ")
  {
    CollapseIsJoinedWords(s);
    JoinedTokensAreCollapsed(Words(s));
    Trim(SquashRuns(s))
  }

  // ---------------------------------------------------------------------
  // Proofs about tokens

  lemma JoinCons(w: string, ws: seq<string>, sep: string)
    requires ws != []
    ensures Join([w] + ws, sep) == w + sep + Join(ws, sep)
  {
    assert ([w] + ws)[1..] == ws;
  }

  lemma {:induction false} JoinedTokensAreCollapsed(ws: seq<string>)
    requires AllTokens(ws)
    ensures IsCollapsed(Join(ws, " "))
    decreases |ws|
  {
    if |ws| > 1 {
      JoinedTokensAreCollapsed(ws[1..]);
      var w := ws[0];
      var rest := Join(ws[1..], " ");
      var t := w + " " + rest;
      assert t == Join(ws, " ");
      assert IsToken(w);
      assert rest != [] && !IsSpace(rest[0]) by {
        assert IsToken(ws[1..][0]);
        JoinStartsWithFirst(ws[1..], " ");
      }
      assert forall i :: 0 <= i < |w| ==> t[i] == w[i];
      assert t[|w|] == ' ';
      assert forall i :: |w| < i < |t| ==> t[i] == rest[i - |w| - 1];
      forall i | 0 <= i < |t| - 1 && IsSpace(t[i])
        ensures !IsSpace(t[i + 1])
      {
        assert i >= |w|;
        if i > |w| {
          assert t[i + 1] == rest[i - |w|];
        }
      }
    } else if |ws| == 1 {
      assert IsToken(ws[0]);
    }
  }

  /** Every part occurs in the joined text. */
  lemma {:induction false} JoinContainsParts(parts: seq<string>, sep: string)
    ensures forall i :: 0 <= i < |parts| ==> Contains(Join(parts, sep), parts[i])
    decreases |parts|
  {
    if |parts| > 1 {
      JoinContainsParts(parts[1..], sep);
      var rest := Join(parts[1..], sep);
      assert Join(parts, sep) == parts[0] + sep + rest;
      forall i | 0 <= i < |parts|
        ensures Contains(Join(parts, sep), parts[i])
      {
        if i > 0 {
          assert parts[i] == parts[1..][i - 1];
          ContainsAfter(parts[0] + sep, rest, parts[i]);
        }
      }
    }
  }

  lemma {:induction false} JoinStartsWithFirst(ws: seq<string>, sep: string)
    requires ws != []
    ensures ws[0] <= Join(ws, sep)
    decreases |ws|
  {
  }

  /** After a word: `SquashRuns` copies the word and continues behind it. */
  lemma ConsAssoc(x: char, a: string, b: string)
    ensures [x] + (a + b) == ([x] + a) + b
  {
  }

  lemma {:induction false} SquashWord(t: string)
    requires t != [] && !IsSpace(t[0])
    ensures SquashRuns(t) == t[..WordLen(t)] + SquashRuns(t[WordLen(t)..])
    decreases |t|
  {
    var n := WordLen(t);
    if |t| > 1 && !IsSpace(t[1]) {
      var u := t[1..];
      assert SquashRuns(t) == [t[0]] + SquashRuns(u);
      assert WordLen(u) == n - 1;
      SquashWord(u);
      assert u[..n - 1] == t[1..n];
      assert u[n - 1..] == t[n..];
      assert [t[0]] + t[1..n] == t[..n];
      ConsAssoc(t[0], t[1..n], SquashRuns(t[n..]));
    } else {
      assert n == 1;
      assert t[..1] == [t[0]];
    }
  }

  /** The words of a string that starts with a word: that word, then the
      words of the rest. */
  lemma WordsAtWord(s: string)
    requires s != [] && !IsSpace(s[0])
    ensures Words(s) == [s[..WordLen(s)]] + Words(s[WordLen(s)..])
  {
    assert TrimStart(s) == s;
  }

  /** A white-space run squashes to one space and does not separate words
      differently from the text behind it. */
  lemma AtSpaceRun(r: string)
    requires r != [] && IsSpace(r[0])
    ensures SquashRuns(r) == " " + SquashRuns(TrimStart(r[1..]))
    ensures Words(r) == Words(TrimStart(r[1..]))
  {
    var r' := TrimStart(r[1..]);
    assert TrimStart(r) == r';
    assert TrimStart(r') == r';
  }

  /** A word, then a space, then the squashed rest in one of its two shapes,
      is the joined words in one of the two shapes. */
  lemma SquashCons(w: string, rest: string, ws: seq<string>)
    requires ws == [] ==> rest == []
    requires ws != [] ==> rest == Join(ws, " ") || rest == Join(ws, " ") + " "
    ensures w + (" " + rest) == Join([w] + ws, " ") || w + (" " + rest) == Join([w] + ws, " ") + " "
  {
    if ws == [] {
      assert [w] + ws == [w];
      assert w + (" " + rest) == w + " ";
    } else {
      JoinCons(w, ws, " ");
      if rest == Join(ws, " ") {
        assert w + (" " + rest) == w + " " + Join(ws, " ");
      } else {
        assert w + (" " + rest) == w + " " + Join(ws, " ") + " ";
      }
    }
  }

  /** A string that does not start with white space squashes to its joined
      tokens, followed by one space when it ends in white space. */
  lemma {:induction false} SquashShape(s: string)
    requires s == [] || !IsSpace(s[0])
    ensures SquashRuns(s) == Join(Words(s), " ")
         || SquashRuns(s) == Join(Words(s), " ") + " "
    decreases |s|
  {
    if s != [] {
      var n := WordLen(s);
      var w := s[..n];
      var r := s[n..];
      SquashWord(s);
      WordsAtWord(s);
      if r == [] {
        assert SquashRuns(s) == w;
        assert Words(s) == [w];
      } else {
        var r' := TrimStart(r[1..]);
        AtSpaceRun(r);
        SquashShape(r');
        assert Words(r') == [] ==> r' == [];
        SquashCons(w, SquashRuns(r'), Words(r'));
      }
    }
  }

  /** The two shapes `SquashRuns` can give, for a string that starts with
      white space. */
  lemma SquashLeadingSpace(s: string)
    requires s != [] && IsSpace(s[0])
    ensures SquashRuns(s) == " " + Join(Words(s), " ")
         || SquashRuns(s) == " " + Join(Words(s), " ") + " "
  {
    var s' := TrimStart(s[1..]);
    assert TrimStart(s) == s';
    assert TrimStart(s') == s' by {
      if s' != [] { assert !IsSpace(s'[0]); }
    }
    assert Words(s) == Words(s');
    SquashShape(s');
  }

  lemma CollapseIsJoinedWords(s: string)
    ensures Trim(SquashRuns(s)) == Join(Words(s), " ")
  {
    JoinedTokensAreCollapsed(Words(s));
    TrimPaddings(Join(Words(s), " "));
    if s != [] && IsSpace(s[0]) {
      SquashLeadingSpace(s);
    } else {
      SquashShape(s);
    }
  }

  /** Dropping leading white space from a string that starts with a word,
      with or without one space in front and one behind. */
  lemma TrimStartPadded(j: string)
    requires j != [] && !IsSpace(j[0])
    ensures TrimStart(j) == j && TrimStart(" " + j) == j
    ensures TrimStart(j + " ") == j + " " && TrimStart(" " + j + " ") == j + " "
  {
    assert (" " + j)[1..] == j;
    assert (j + " ")[0] == j[0];
    assert (" " + j + " ")[1..] == j + " ";
  }

  /** Dropping trailing white space from a string that ends in a word, with
      or without one space behind. */
  lemma TrimEndPadded(j: string)
    requires j != [] && !IsSpace(j[|j| - 1])
    ensures TrimEnd(j) == j && TrimEnd(j + " ") == j
  {
    assert (j + " ")[..|j|] == j;
  }

  /** Trimming a collapsed string with a space added on either side or
      both gives it back. */
  lemma TrimPaddings(j: string)
    requires IsCollapsed(j)
    ensures Trim(j) == j && Trim(j + " ") == j && Trim(" " + j) == j && Trim(" " + j + " ") == j
  {
    if j == [] {
      assert j + " " == " " == " " + j;
      assert TrimStart(" ") == [];
      assert " " + j + " " == "  ";
      assert TrimStart("  ") == [];
    } else {
      TrimStartPadded(j);
      TrimEndPadded(j);
    }
  }

  /** Splitting tokens joined by single spaces gives the tokens back. */
  lemma {:induction false} WordsOfJoin(ws: seq<string>)
    requires AllTokens(ws)
    ensures Words(Join(ws, " ")) == ws
    decreases |ws|
  {
    if |ws| == 1 {
      var w := ws[0];
      assert IsToken(w);
      assert TrimStart(w) == w;
      assert WordLen(w) == |w| by {
        assert w + "" == w;
        TokenWordLen(w, "");
      }
      assert w[..|w|] == w && w[|w|..] == [];
      assert Words(w[|w|..]) == [];
      assert Join(ws, " ") == w;
    } else if |ws| > 1 {
      var w := ws[0];
      var rest := Join(ws[1..], " ");
      assert IsToken(w);
      assert AllTokens(ws[1..]);
      assert IsToken(ws[1..][0]);
      JoinStartsWithFirst(ws[1..], " ");
      var t := w + (" " + rest);
      assert t == Join(ws, " ");
      assert TrimStart(t) == t;
      TokenWordLen(w, " " + rest);
      assert t[|w|..] == " " + rest;
      assert TrimStart(" " + rest) == rest by {
        assert (" " + rest)[1..] == rest;
      }
      assert Words(" " + rest) == Words(rest);
      WordsOfJoin(ws[1..]);
      assert ws == [w] + ws[1..];
    }
  }

  lemma {:induction false} TokenWordLen(w: string, r: string)
    requires IsToken(w)
    requires r == [] || IsSpace(r[0])
    ensures WordLen(w + r) == |w|
    decreases |w|
  {
    if |w| > 1 {
      assert IsToken(w[1..]);
      assert (w + r)[1..] == w[1..] + r;
      TokenWordLen(w[1..], r);
    } else {
      assert (w + r)[1..] == r;
    }
  }

  /** Collapsing twice is the same as collapsing once. */
  lemma CollapseIdempotent(s: string)
    ensures Collapse(Collapse(s)) == Collapse(s)
  {
    WordsOfJoin(Words(s));
  }

  // ---------------------------------------------------------------------
  // Decimal numerals

  function DigitChar(d: nat): char
    requires d < 10
  {
    ('0' as int + d) as char
  }

  /** `String(n)` for a non-negative integer: its decimal numeral. */
  function NatToString(n: nat): (r: string)
    ensures r != []
    ensures forall i :: 0 <= i < |r| ==> '0' <= r[i] <= '9'
  {
    if n < 10 then [DigitChar(n)] else NatToString(n / 10) + [DigitChar(n % 10)]
  }

  /** Reads a string of decimal digits back into a number. */
  function ParseNat(s: string): nat
    requires forall i :: 0 <= i < |s| ==> '0' <= s[i] <= '9'
  {
    if s == [] then 0 else 10 * ParseNat(s[..|s| - 1]) + (s[|s| - 1] as int - '0' as int)
  }

  lemma {:induction false} ParseNatToString(n: nat)
    ensures ParseNat(NatToString(n)) == n
  {
    if n >= 10 {
      ParseNatToString(n / 10);
      var s := NatToString(n);
      assert s[..|s| - 1] == NatToString(n / 10);
    }
  }
}
