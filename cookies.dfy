/**
 * The cookie value the store files away, and the ordering by creation index
 * that `getAllCookies` sorts its output into.
 */
module Cookies {
  import opened Wrappers

  /**
   * A cookie as the store sees it: the three coordinates it is filed under,
   * its creation index (absent on cookies that never had one), and the rest
   * of the jar-defined attributes, which the store never interprets.
   */
  datatype Cookie = Cookie(
    domain: string,
    path: string,
    key: string,
    creationIndex: Option<int>,
    attributes: string)

  /** The sort key of the comparator `(c.creationIndex || 0)`: a missing index counts as 0. */
  function SortKey(c: Cookie): int {
    c.creationIndex.GetOr(0)
  }

  predicate SortedByCreation(s: seq<Cookie>) {
    forall i, j :: 0 <= i < j < |s| ==> SortKey(s[i]) <= SortKey(s[j])
  }

  /**
   * Inserts `c` into a sorted sequence in front of the first element whose key
   * is not smaller, so that `c` stays ahead of later cookies with the same key.
   */
  function Insert(c: Cookie, s: seq<Cookie>): (r: seq<Cookie>)
    ensures multiset(r) == multiset(s) + multiset{c}
    ensures |r| == |s| + 1
    ensures r[0] == c || (s != [] && r[0] == s[0])
  {
    if s == [] then [c]
    else if SortKey(c) <= SortKey(s[0]) then [c] + s
    else
      assert s == [s[0]] + s[1..];
      [s[0]] + Insert(c, s[1..])
  }

  /** Inserting into a sorted sequence keeps it sorted. */
  lemma {:induction false} InsertSorted(c: Cookie, s: seq<Cookie>)
    requires SortedByCreation(s)
    ensures SortedByCreation(Insert(c, s))
  {
    if s == [] {
    } else if SortKey(c) <= SortKey(s[0]) {
      SortedCons(c, s);
    } else {
      InsertSorted(c, s[1..]);
      SortedCons(s[0], Insert(c, s[1..]));
    }
  }

  /** A cookie no later than the head of a sorted sequence can go in front of it. */
  lemma SortedCons(x: Cookie, t: seq<Cookie>)
    requires SortedByCreation(t)
    requires t != [] ==> SortKey(x) <= SortKey(t[0])
    ensures SortedByCreation([x] + t)
  {
    var r := [x] + t;
    forall i, j | 0 <= i < j < |r|
      ensures SortKey(r[i]) <= SortKey(r[j])
    {
      if i == 0 {
        assert SortKey(t[0]) <= SortKey(t[j - 1]);
      } else {
        assert r[i] == t[i - 1] && r[j] == t[j - 1];
      }
    }
  }

  /**
   * Ascending order by creation index, a permutation of the input. Stands
   * for `Array.prototype.sort` with the store's comparator; the order among
   * cookies with equal keys is not specified.
   */
  function SortByCreation(s: seq<Cookie>): (r: seq<Cookie>)
    ensures SortedByCreation(r)
    ensures multiset(r) == multiset(s)
  {
    if s == [] then []
    else
      assert s == [s[0]] + s[1..];
      InsertSorted(s[0], SortByCreation(s[1..]));
      Insert(s[0], SortByCreation(s[1..]))
  }
}
