/**
 * The in-memory cookie index of the FTP cookie store: a three-level map
 * domain -> path -> key -> cookie, and the pure meaning of every lookup and
 * update the store performs on it. The store's methods are proved against
 * the functions of this module.
 */
module CookieIndex {
  import opened Wrappers
  import opened Cookies

  type KeyMap = map<string, Cookie>
  type PathMap = map<string, KeyMap>
  type Index = map<string, PathMap>

  /** The cookie filed at (d, p, k), if any. */
  function Get(idx: Index, d: string, p: string, k: string): Option<Cookie> {
    if d in idx && p in idx[d] && k in idx[d][p] then Some(idx[d][p][k]) else None
  }

  /** The path-level container (d, p) exists, possibly empty. */
  predicate HasPath(idx: Index, d: string, p: string) {
    d in idx && p in idx[d]
  }

  /** A path argument counts only when it is a non-empty string (JavaScript truthiness). */
  predicate Given(path: Option<string>) {
    path.Some? && path.value != ""
  }

  // ---------------------------------------------------------------------------
  // findCookie

  /**
   * The three answers of `findCookie`: `undefined` when the domain or the
   * path level is missing, `null` when only the key is missing, the cookie
   * otherwise.
   */
  datatype FindResult = Undefined | Null | Found(cookie: Cookie)

  function Find(idx: Index, d: string, p: string, k: string): (r: FindResult)
    ensures r.Found? <==> Get(idx, d, p, k).Some?
    ensures r.Found? ==> Get(idx, d, p, k) == Some(r.cookie)
    ensures r == Undefined <==> !HasPath(idx, d, p)
    ensures r == Null <==> HasPath(idx, d, p) && Get(idx, d, p, k) == None
  {
    if d !in idx then Undefined
    else if p !in idx[d] then Undefined
    else if k in idx[d][p] then Found(idx[d][p][k])
    else Null
  }

  // ---------------------------------------------------------------------------
  // putCookie

  /**
   * Files `c` under its own domain, path and key, creating the missing
   * domain and path levels. Every other triple keeps its cookie.
   */
  function Put(idx: Index, c: Cookie): (r: Index)
    ensures Get(r, c.domain, c.path, c.key) == Some(c)
    ensures forall d, p, k :: (d, p, k) != (c.domain, c.path, c.key) ==> Get(r, d, p, k) == Get(idx, d, p, k)
    ensures r.Keys == idx.Keys + {c.domain}
    ensures forall d, p :: HasPath(r, d, p) <==> HasPath(idx, d, p) || (d == c.domain && p == c.path)
  {
    var pm := if c.domain in idx then idx[c.domain] else map[];
    var km := if c.path in pm then pm[c.path] else map[];
    idx[c.domain := pm[c.path := km[c.key := c]]]
  }

  /** A run of `putCookie` calls, in order. */
  function PutAll(idx: Index, cookies: seq<Cookie>): Index
    decreases |cookies|
  {
    if cookies == [] then idx
    else Put(PutAll(idx, cookies[..|cookies| - 1]), cookies[|cookies| - 1])
  }

  /** The last cookie of the run filed at (d, p, k), if any. */
  function LastAt(cookies: seq<Cookie>, d: string, p: string, k: string): Option<Cookie>
    decreases |cookies|
  {
    if cookies == [] then None
    else
      var c := cookies[|cookies| - 1];
      if (c.domain, c.path, c.key) == (d, p, k) then Some(c)
      else LastAt(cookies[..|cookies| - 1], d, p, k)
  }

  /**
   * After a run of puts, each triple holds the last cookie put there, and
   * a triple no put touched holds what it held before.
   */
  lemma {:induction false} LastPutWins(idx: Index, cookies: seq<Cookie>, d: string, p: string, k: string)
    ensures Get(PutAll(idx, cookies), d, p, k) ==
      if LastAt(cookies, d, p, k).Some? then LastAt(cookies, d, p, k) else Get(idx, d, p, k)
    decreases |cookies|
  {
    if cookies != [] {
      LastPutWins(idx, cookies[..|cookies| - 1], d, p, k);
    }
  }

  // ---------------------------------------------------------------------------
  // removeCookie

  /**
   * Deletes the leaf (d, p, k) when it is present. Containers are never
   * pruned, even when they become empty; an absent triple changes nothing.
   */
  function Remove(idx: Index, d: string, p: string, k: string): (r: Index)
    ensures Get(r, d, p, k) == None
    ensures forall d', p', k' :: (d', p', k') != (d, p, k) ==> Get(r, d', p', k') == Get(idx, d', p', k')
    ensures r.Keys == idx.Keys
    ensures forall d', p' :: HasPath(r, d', p') <==> HasPath(idx, d', p')
    ensures Get(idx, d, p, k) == None ==> r == idx
  {
    if Get(idx, d, p, k).Some? then idx[d := idx[d][p := idx[d][p] - {k}]] else idx
  }

  // ---------------------------------------------------------------------------
  // removeCookies

  /** The triples `removeCookies(d, path)` deletes. */
  predicate InRange(d: string, path: Option<string>, d': string, p': string) {
    d' == d && (!Given(path) || p' == path.value)
  }

  /**
   * With a path given, drops the path map (d, path); without one, drops the
   * whole domain d. An absent domain changes nothing; other domains are
   * untouched.
   */
  function RemoveRange(idx: Index, d: string, path: Option<string>): (r: Index)
    ensures d !in idx ==> r == idx
    ensures forall d', p', k' :: Get(r, d', p', k') == if InRange(d, path, d', p') then None else Get(idx, d', p', k')
    ensures forall d', p' :: HasPath(r, d', p') <==> HasPath(idx, d', p') && !InRange(d, path, d', p')
    ensures r.Keys == if d in idx && !Given(path) then idx.Keys - {d} else idx.Keys
    ensures forall d' :: d' in idx && d' != d ==> d' in r && r[d'] == idx[d']
  {
    if d in idx then
      if Given(path) then idx[d := idx[d] - {path.value}] else idx - {d}
    else idx
  }

  // ---------------------------------------------------------------------------
  // The index's data invariant

  /** Every cookie is filed under its own domain, path and key. */
  ghost predicate WellFiled(idx: Index) {
    forall d, p, k :: Get(idx, d, p, k).Some? ==> Filed(Get(idx, d, p, k).value, d, p, k)
  }

  predicate Filed(c: Cookie, d: string, p: string, k: string) {
    c.domain == d && c.path == p && c.key == k
  }

  /** In a well-filed index, `findCookie` finds only a cookie whose own coordinates were asked for. */
  lemma FindWellFiled(idx: Index, d: string, p: string, k: string)
    requires WellFiled(idx)
    ensures Find(idx, d, p, k).Found? ==> Filed(Find(idx, d, p, k).cookie, d, p, k)
  {
    if Find(idx, d, p, k).Found? {
      assert Get(idx, d, p, k).Some?;
    }
  }

  lemma PutWellFiled(idx: Index, c: Cookie)
    requires WellFiled(idx)
    ensures WellFiled(Put(idx, c))
  {
    var r := Put(idx, c);
    forall d, p, k | Get(r, d, p, k).Some?
      ensures Filed(Get(r, d, p, k).value, d, p, k)
    {
      if (d, p, k) != (c.domain, c.path, c.key) {
        assert Get(r, d, p, k) == Get(idx, d, p, k);
      }
    }
  }

  /** An index built by puts alone, from the empty index, is well filed. */
  lemma {:induction false} PutAllWellFiled(cookies: seq<Cookie>)
    ensures WellFiled(PutAll(map[], cookies))
    decreases |cookies|
  {
    if cookies == [] {
      assert forall d, p, k :: Get(map[], d, p, k) == None;
    } else {
      PutAllWellFiled(cookies[..|cookies| - 1]);
      PutWellFiled(PutAll(map[], cookies[..|cookies| - 1]), cookies[|cookies| - 1]);
    }
  }

  lemma RemoveWellFiled(idx: Index, d: string, p: string, k: string)
    requires WellFiled(idx)
    ensures WellFiled(Remove(idx, d, p, k))
  {
    var r := Remove(idx, d, p, k);
    forall d', p', k' | Get(r, d', p', k').Some?
      ensures Filed(Get(r, d', p', k').value, d', p', k')
    {
      assert Get(r, d', p', k') == Get(idx, d', p', k');
    }
  }

  lemma RemoveRangeWellFiled(idx: Index, d: string, path: Option<string>)
    requires WellFiled(idx)
    ensures WellFiled(RemoveRange(idx, d, path))
  {
    var r := RemoveRange(idx, d, path);
    forall d', p', k' | Get(r, d', p', k').Some?
      ensures Filed(Get(r, d', p', k').value, d', p', k')
    {
      assert Get(r, d', p', k') == Get(idx, d', p', k');
    }
  }

  // ---------------------------------------------------------------------------
  // The cookies an index holds, counted with multiplicity

  ghost function Pick<K>(s: set<K>): K
    requires s != {}
  {
    var k :| k in s; k
  }

  /** The sum of `f` over the values of `m`, in no particular order. */
  ghost function SumOver<K, V>(m: map<K, V>, f: V -> multiset<Cookie>): multiset<Cookie>
    decreases |m|
  {
    if m == map[] then multiset{}
    else
      var k := Pick(m.Keys);
      assert |(m - {k}).Keys| < |m.Keys| by {
        assert (m - {k}).Keys + {k} == m.Keys;
      }
      f(m[k]) + SumOver(m - {k}, f)
  }

  ghost function Single(c: Cookie): multiset<Cookie> {
    multiset{c}
  }

  ghost function KeyLeaves(km: KeyMap): multiset<Cookie> {
    SumOver(km, Single)
  }

  ghost function PathLeaves(pm: PathMap): multiset<Cookie> {
    SumOver(pm, KeyLeaves)
  }

  /** Every leaf cookie of the index, once per triple it is filed under. */
  ghost function Leaves(idx: Index): multiset<Cookie> {
    SumOver(idx, PathLeaves)
  }

  /** Any entry can be taken out first: the sum does not depend on the order. */
  lemma {:induction false} SumOverSplit<K, V>(m: map<K, V>, f: V -> multiset<Cookie>, k: K)
    requires k in m
    ensures SumOver(m, f) == f(m[k]) + SumOver(m - {k}, f)
    decreases |m|
  {
    var j := Pick(m.Keys);
    assert (m - {j}).Keys + {j} == m.Keys;
    if j != k {
      SumOverSplit(m - {j}, f, k);
      SumOverSplit(m - {k}, f, j);
      assert m - {j} - {k} == m - {k} - {j};
    }
  }

  /** Replacing the value under `k` replaces its share of the sum. */
  lemma SumOverUpdate<K, V>(m: map<K, V>, f: V -> multiset<Cookie>, k: K, v: V)
    ensures SumOver(m[k := v], f) + (if k in m then f(m[k]) else multiset{}) == SumOver(m, f) + f(v)
  {
    SumOverSplit(m[k := v], f, k);
    assert m[k := v] - {k} == m - {k};
    if k in m {
      SumOverSplit(m, f, k);
    } else {
      assert m - {k} == m;
    }
  }

  /** Removing the entry under `k` removes its share of the sum. */
  lemma SumOverRemove<K, V>(m: map<K, V>, f: V -> multiset<Cookie>, k: K)
    ensures SumOver(m - {k}, f) + (if k in m then f(m[k]) else multiset{}) == SumOver(m, f)
  {
    if k in m {
      SumOverSplit(m, f, k);
    } else {
      assert m - {k} == m;
    }
  }

  lemma {:induction false} InSumOver<K, V>(m: map<K, V>, f: V -> multiset<Cookie>, x: Cookie)
    ensures x in SumOver(m, f) <==> exists k :: k in m && x in f(m[k])
    decreases |m|
  {
    if m != map[] {
      var j := Pick(m.Keys);
      assert (m - {j}).Keys + {j} == m.Keys;
      InSumOver(m - {j}, f, x);
      if x in SumOver(m, f) && x !in f(m[j]) {
        var k :| k in m - {j} && x in f((m - {j})[k]);
        assert k in m && x in f(m[k]);
      }
      if exists k :: k in m && x in f(m[k]) {
        var k :| k in m && x in f(m[k]);
        if k != j {
          assert k in m - {j} && x in f((m - {j})[k]);
        }
      }
    }
  }

  lemma InKeyLeaves(km: KeyMap, c: Cookie)
    ensures c in KeyLeaves(km) <==> exists k :: k in km && km[k] == c
  {
    InSumOver(km, Single, c);
  }

  /** `Leaves` holds exactly the cookies filed somewhere in the index. */
  lemma InLeaves(idx: Index, c: Cookie)
    ensures c in Leaves(idx) <==> exists d, p, k :: Get(idx, d, p, k) == Some(c)
  {
    InSumOver(idx, PathLeaves, c);
    if c in Leaves(idx) {
      var d :| d in idx && c in PathLeaves(idx[d]);
      InSumOver(idx[d], KeyLeaves, c);
      var p :| p in idx[d] && c in KeyLeaves(idx[d][p]);
      InKeyLeaves(idx[d][p], c);
      var k :| k in idx[d][p] && idx[d][p][k] == c;
      assert Get(idx, d, p, k) == Some(c);
    }
    if exists d, p, k :: Get(idx, d, p, k) == Some(c) {
      var d, p, k :| Get(idx, d, p, k) == Some(c);
      InKeyLeaves(idx[d][p], c);
      InSumOver(idx[d], KeyLeaves, c);
    }
  }

  /** What a cookie occupying the triple (d, p, k) contributes to `Leaves`. */
  function Occupant(idx: Index, d: string, p: string, k: string): multiset<Cookie> {
    match Get(idx, d, p, k)
    case Some(c) => multiset{c}
    case None => multiset{}
  }

  /**
   * After `Put`, the leaves are the old ones with `c` added and the cookie
   * it displaced (if any) taken out.
   */
  lemma {:induction false} LeavesAfterPut(idx: Index, c: Cookie)
    ensures Leaves(Put(idx, c)) + Occupant(idx, c.domain, c.path, c.key) == Leaves(idx) + multiset{c}
  {
    var pm := if c.domain in idx then idx[c.domain] else map[];
    var km := if c.path in pm then pm[c.path] else map[];
    var km' := km[c.key := c];
    var pm' := pm[c.path := km'];
    var occupant := Occupant(idx, c.domain, c.path, c.key);
    assert Put(idx, c) == idx[c.domain := pm'];
    assert PathLeaves(map[]) == multiset{} && KeyLeaves(map[]) == multiset{};
    assert (if c.domain in idx then PathLeaves(idx[c.domain]) else multiset{}) == PathLeaves(pm);
    assert (if c.path in pm then KeyLeaves(pm[c.path]) else multiset{}) == KeyLeaves(km);
    assert (if c.key in km then Single(km[c.key]) else multiset{}) == occupant;
    SumOverUpdate(idx, PathLeaves, c.domain, pm');
    SumOverUpdate(pm, KeyLeaves, c.path, km');
    SumOverUpdate(km, Single, c.key, c);
    Telescope(Leaves(Put(idx, c)), PathLeaves(pm), Leaves(idx), PathLeaves(pm'),
              KeyLeaves(km), KeyLeaves(km'), occupant, multiset{c});
  }

  /** Chaining the three levels: the container terms cancel. */
  lemma Telescope(a: multiset<Cookie>, p: multiset<Cookie>, l: multiset<Cookie>, p': multiset<Cookie>,
                  k: multiset<Cookie>, k': multiset<Cookie>, o: multiset<Cookie>, n: multiset<Cookie>)
    requires a + p == l + p'
    requires p' + k == p + k'
    requires k' + o == k + n
    ensures a + o == l + n
  {
    forall x: Cookie
      ensures (a + o)[x] == (l + n)[x]
    {
      assert (a + p)[x] == (l + p')[x];
      assert (p' + k)[x] == (p + k')[x];
      assert (k' + o)[x] == (k + n)[x];
    }
  }

  /** After `Remove`, the leaves are the old ones less the cookie removed. */
  lemma {:induction false} LeavesAfterRemove(idx: Index, d: string, p: string, k: string)
    ensures Leaves(Remove(idx, d, p, k)) + Occupant(idx, d, p, k) == Leaves(idx)
  {
    if Get(idx, d, p, k).Some? {
      var pm := idx[d];
      var km := pm[p];
      var km' := km - {k};
      var pm' := pm[p := km'];
      var occupant := Occupant(idx, d, p, k);
      SumOverUpdate(idx, PathLeaves, d, pm');
      SumOverUpdate(pm, KeyLeaves, p, km');
      SumOverRemove(km, Single, k);
      assert KeyLeaves(km') + occupant == KeyLeaves(km) + multiset{};
      Telescope(Leaves(Remove(idx, d, p, k)), PathLeaves(pm), Leaves(idx), PathLeaves(pm'),
                KeyLeaves(km), KeyLeaves(km'), occupant, multiset{});
    }
  }

  /** The cookies `RemoveRange` drops. */
  ghost function RangeLeaves(idx: Index, d: string, path: Option<string>): multiset<Cookie> {
    if d !in idx then multiset{}
    else if !Given(path) then PathLeaves(idx[d])
    else if path.value in idx[d] then KeyLeaves(idx[d][path.value])
    else multiset{}
  }

  /** After `RemoveRange`, the leaves are the old ones less the dropped range. */
  lemma {:induction false} LeavesAfterRemoveRange(idx: Index, d: string, path: Option<string>)
    ensures Leaves(RemoveRange(idx, d, path)) + RangeLeaves(idx, d, path) == Leaves(idx)
  {
    if d in idx {
      if Given(path) {
        var pm := idx[d];
        var pm' := pm - {path.value};
        var dropped := RangeLeaves(idx, d, path);
        SumOverUpdate(idx, PathLeaves, d, pm');
        SumOverRemove(pm, KeyLeaves, path.value);
        assert Leaves(RemoveRange(idx, d, path)) + PathLeaves(pm) == Leaves(idx) + PathLeaves(pm');
        assert PathLeaves(pm') + dropped == PathLeaves(pm);
        forall x: Cookie
          ensures (Leaves(RemoveRange(idx, d, path)) + dropped)[x] == Leaves(idx)[x]
        {
          assert (Leaves(RemoveRange(idx, d, path)) + PathLeaves(pm))[x] == (Leaves(idx) + PathLeaves(pm'))[x];
          assert (PathLeaves(pm') + dropped)[x] == PathLeaves(pm)[x];
        }
      } else {
        SumOverRemove(idx, PathLeaves, d);
      }
    }
  }

  /** Putting the same cookie twice is the same as putting it once. */
  lemma PutIdempotent(idx: Index, c: Cookie)
    ensures Put(Put(idx, c), c) == Put(idx, c)
  {
    var once := Put(idx, c);
    assert once[c.domain][c.path][c.key := c] == once[c.domain][c.path];
    assert once[c.domain][c.path := once[c.domain][c.path]] == once[c.domain];
  }

  // ---------------------------------------------------------------------------
  // findCookies

  /** The domains `findCookies` visits: `permuteDomain(domain) || [domain]`. */
  function Candidates(permuted: Option<seq<string>>, domain: string): seq<string> {
    permuted.GetOr([domain])
  }

  /**
   * The path filter `findCookies` builds: every path when no path is given,
   * otherwise the paths `pathMatch` accepts for the request path.
   */
  function PathFilter(path: Option<string>, pathMatch: (string, string) -> bool): string -> bool {
    p => !Given(path) || pathMatch(path.value, p)
  }

  function KeepAll(p: string): bool {
    true
  }

  /** The path maps of one domain that `keep` accepts. */
  function Selected(pm: PathMap, keep: string -> bool): (r: PathMap)
    ensures forall p :: p in r <==> p in pm && keep(p)
    ensures forall p :: p in r ==> r[p] == pm[p]
  {
    map p | p in pm && keep(p) :: pm[p]
  }

  lemma SelectedAll(pm: PathMap)
    ensures Selected(pm, KeepAll) == pm
  {
  }

  /** Taking one path out of a domain map, filtered or not. */
  lemma SelectedStep(pm: PathMap, keep: string -> bool, p: string)
    requires p in pm
    ensures PathLeaves(Selected(pm, keep)) ==
      (if keep(p) then KeyLeaves(pm[p]) else multiset{}) + PathLeaves(Selected(pm - {p}, keep))
  {
    var s := Selected(pm, keep);
    assert Selected(pm - {p}, keep) == s - {p};
    SumOverRemove(s, KeyLeaves, p);
  }

  /** What the loop over the candidate domains collects, with multiplicity. */
  ghost function Matching(idx: Index, domains: seq<string>, keep: string -> bool): multiset<Cookie> {
    if domains == [] then multiset{}
    else
      (if domains[0] in idx then PathLeaves(Selected(idx[domains[0]], keep)) else multiset{})
      + Matching(idx, domains[1..], keep)
  }

  /**
   * A cookie is collected exactly when it is filed under one of the
   * candidate domains, at a path the filter accepts. Candidate domains
   * missing from the index contribute nothing.
   */
  lemma {:induction false} InMatching(idx: Index, domains: seq<string>, keep: string -> bool, c: Cookie)
    ensures c in Matching(idx, domains, keep) <==>
      exists d, p, k :: d in domains && keep(p) && Get(idx, d, p, k) == Some(c)
  {
    if domains != [] {
      var d0 := domains[0];
      InMatching(idx, domains[1..], keep, c);
      var here := if d0 in idx then PathLeaves(Selected(idx[d0], keep)) else multiset{};
      if d0 in idx {
        InSumOver(Selected(idx[d0], keep), KeyLeaves, c);
      }
      if c in here {
        var p :| p in Selected(idx[d0], keep) && c in KeyLeaves(Selected(idx[d0], keep)[p]);
        InKeyLeaves(idx[d0][p], c);
        var k :| k in idx[d0][p] && idx[d0][p][k] == c;
        assert Get(idx, d0, p, k) == Some(c);
      }
      if exists d, p, k :: d in domains && keep(p) && Get(idx, d, p, k) == Some(c) {
        var d, p, k :| d in domains && keep(p) && Get(idx, d, p, k) == Some(c);
        if d == d0 {
          InKeyLeaves(idx[d0][p], c);
          assert p in Selected(idx[d0], keep);
        } else {
          assert d in domains[1..];
        }
      }
    }
  }
}
