/** `[...sites].sort((a, b) => key(b) - key(a))`: a stable sort into
    descending order of an integer key, written as an insertion sort. */
module Sorting {

  predicate SortedDesc<T>(s: seq<T>, key: T -> int) {
    forall i, j :: 0 <= i < j < |s| ==> key(s[i]) >= key(s[j])
  }

  /** Inserts `x` in front of the first element whose key is not larger than
      its own, so that `x` precedes the elements with an equal key. */
  function InsertDesc<T(==)>(x: T, s: seq<T>, key: T -> int): (r: seq<T>)
    requires SortedDesc(s, key)
    ensures SortedDesc(r, key)
    ensures multiset(r) == multiset(s) + multiset{x}
    decreases |s|
  {
    if s == [] || key(x) >= key(s[0]) then [x] + s
    else
      var r' := InsertDesc(x, s[1..], key);
      InsertedTailBelowHead(x, s, r', key);
      assert s == [s[0]] + s[1..];
      [s[0]] + r'
  }

  lemma InsertedTailBelowHead<T>(x: T, s: seq<T>, r': seq<T>, key: T -> int)
    requires s != [] && SortedDesc(s, key) && key(x) < key(s[0])
    requires SortedDesc(r', key)
    requires multiset(r') == multiset(s[1..]) + multiset{x}
    ensures SortedDesc([s[0]] + r', key)
  {
    forall j | 0 <= j < |r'|
      ensures key(s[0]) >= key(r'[j])
    {
      assert r'[j] in multiset(r');
      if r'[j] != x {
        assert r'[j] in multiset(s[1..]);
        var k :| 0 <= k < |s[1..]| && s[1..][k] == r'[j];
        assert s[k + 1] == r'[j];
      }
    }
  }

  /** The sort: a permutation of `s` in descending key order. */
  function SortDesc<T(==)>(s: seq<T>, key: T -> int): (r: seq<T>)
    ensures SortedDesc(r, key)
    ensures multiset(r) == multiset(s)
    decreases |s|
  {
    if s == [] then []
    else
      assert s == [s[0]] + s[1..];
      InsertDesc(s[0], SortDesc(s[1..], key), key)
  }
}
