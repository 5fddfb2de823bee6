/**
 * The FTP-backed cookie store: the `idx` field that every operation reads or
 * rewrites in place, and the synchronisation rule around it. Every mutating
 * operation ends by uploading the whole index; `connect` installs the
 * downloaded snapshot only when one was decoded. The remote file is not
 * modelled byte by byte: the ghost field `persisted` records the index it
 * holds as far as this store knows.
 */
module FtpStore {
  import opened Wrappers
  import opened StoreErrors
  import opened Cookies
  import opened CookieIndex
  import FilePath
  import Snapshot

  /** Pushes every cookie of one path map onto the results, one entry per key. */
  method CollectKeys(results: seq<Cookie>, pathIndex: KeyMap) returns (out: seq<Cookie>)
    ensures multiset(out) == multiset(results) + KeyLeaves(pathIndex)
  {
    out := results;
    var rest := pathIndex;
    while rest != map[]
      invariant multiset(out) + KeyLeaves(rest) == multiset(results) + KeyLeaves(pathIndex)
      decreases |rest|
    {
      var key :| key in rest;
      SumOverSplit(rest, Single, key);
      assert (rest - {key}).Keys + {key} == rest.Keys;
      out := out + [rest[key]];
      rest := rest - {key};
    }
  }

  /**
   * One domain's share of a search: every path map of `domainIndex` that
   * `keep` accepts has all its cookies pushed onto the results. This is the
   * `pathMatcher` closure of `findCookies` (`matchAll` keeps every path,
   * `matchRFC` the ones `pathMatch` accepts) and the inner loops of
   * `getAllCookies`.
   */
  method CollectPaths(results: seq<Cookie>, domainIndex: PathMap, keep: string -> bool) returns (out: seq<Cookie>)
    ensures multiset(out) == multiset(results) + PathLeaves(Selected(domainIndex, keep))
  {
    out := results;
    var rest := domainIndex;
    while rest != map[]
      invariant multiset(out) + PathLeaves(Selected(rest, keep)) == multiset(results) + PathLeaves(Selected(domainIndex, keep))
      decreases |rest|
    {
      out, rest := CollectPath(out, rest, keep);
    }
    assert Selected(rest, keep) == map[];
  }

  /** One turn of the loop over a domain's paths: one path is visited and dropped from `rest`. */
  method CollectPath(results: seq<Cookie>, rest: PathMap, keep: string -> bool)
    returns (out: seq<Cookie>, rest': PathMap)
    requires rest != map[]
    ensures |rest'| < |rest|
    ensures multiset(out) + PathLeaves(Selected(rest', keep)) == multiset(results) + PathLeaves(Selected(rest, keep))
  {
    var p :| p in rest;
    SelectedStep(rest, keep, p);
    assert (rest - {p}).Keys + {p} == rest.Keys;
    out := results;
    if keep(p) {
      out := CollectKeys(results, rest[p]);
    }
    rest' := rest - {p};
  }

  /** The three nested `forEach` loops of `getAllCookies`, before the sort. */
  method Flatten(index: Index) returns (flat: seq<Cookie>)
    ensures multiset(flat) == Leaves(index)
  {
    flat := [];
    var rest := index;
    while rest != map[]
      invariant multiset(flat) + Leaves(rest) == Leaves(index)
      decreases |rest|
    {
      flat, rest := CollectDomain(flat, rest);
    }
  }

  /** One turn of the outer loop of `getAllCookies`: one domain is visited and dropped from `rest`. */
  method CollectDomain(results: seq<Cookie>, rest: Index) returns (out: seq<Cookie>, rest': Index)
    requires rest != map[]
    ensures |rest'| < |rest|
    ensures multiset(out) + Leaves(rest') == multiset(results) + Leaves(rest)
  {
    var domain :| domain in rest;
    SumOverSplit(rest, PathLeaves, domain);
    assert (rest - {domain}).Keys + {domain} == rest.Keys;
    SelectedAll(rest[domain]);
    out := CollectPaths(results, rest[domain], KeepAll);
    rest' := rest - {domain};
  }

  class FtpCookieStore {
    /** The in-memory index, domain -> path -> key -> cookie. */
    var idx: Index
    /** The index the remote file holds, as far as this store knows. */
    ghost var persisted: Option<Index>
    const filePath: string
    const destinationDir: string
    const filename: string

    /** The remote file holds exactly the in-memory index. */
    ghost predicate Synced()
      reads this
    {
      persisted == Some(idx)
    }

    constructor (location: FilePath.Location)
      ensures idx == map[] && persisted == None
      ensures filePath == location.filePath
      ensures destinationDir == location.destinationDir && filename == location.filename
    {
      idx := map[];
      persisted := None;
      filePath := location.filePath;
      destinationDir := location.destinationDir;
      filename := location.filename;
    }

    /**
     * `new FtpCookieStore(filePath)`: refuses a falsy path, otherwise starts
     * with an empty index at the normalised location.
     */
    static method Create(filePath: string) returns (r: Result<FtpCookieStore, StoreError>)
      ensures r.Failure? <==> filePath == ""
      ensures r.Failure? ==> r.error == UnknownFilePath
      ensures r.Success? ==> fresh(r.value) && r.value.idx == map[] && r.value.persisted == None
      ensures r.Success? ==>
                (FilePath.Locate(filePath) ==
                 Success(FilePath.Location(r.value.filePath, r.value.destinationDir, r.value.filename)))
    {
      match FilePath.Locate(filePath)
      case Failure(e) =>
        r := Failure(e);
      case Success(location) =>
        var store := new FtpCookieStore(location);
        r := Success(store);
    }

    /**
     * Connects and loads the remote file. `listing` is the names found in
     * the destination directory, `chunks` the downloaded text and `parse`
     * the JSON decoder. A missing host is refused before anything else;
     * a file the parser rejects fails the connect and changes nothing; a
     * decoded snapshot replaces the index wholesale, without checking that
     * it is `WellFiled`; no snapshot leaves the index as it was. The load is
     * the corrected `Snapshot.Load`: as written, every file whose text is
     * not blank is refused (see `Snapshot.AsWrittenRejectsSavedFile`).
     */
    method Connect(host: string, listing: seq<string>, chunks: seq<string>, parse: string -> Snapshot.Parsed)
      returns (r: Outcome<StoreError>)
      modifies this`idx, this`persisted
      ensures host == "" ==> r == Fail(UnknownHostname) && idx == old(idx) && persisted == old(persisted)
      ensures host != "" ==>
        var loaded := Snapshot.Load(filename in listing, chunks, parse, filePath);
        match loaded
        case Failure(e) => r == Fail(e) && idx == old(idx) && persisted == old(persisted)
        case Success(snapshot) =>
          && r == Pass
          && persisted == snapshot
          && idx == (if snapshot.Some? then snapshot.value else old(idx))
    {
      if host == "" {
        return Fail(UnknownHostname);
      }
      var loaded := Snapshot.Load(filename in listing, chunks, parse, filePath);
      match loaded
      case Failure(e) =>
        r := Fail(e);
      case Success(snapshot) =>
        if snapshot.Some? {
          idx := snapshot.value;
        }
        persisted := snapshot;
        r := Pass;
    }

    /** `findCookie`: an exact lookup; see `CookieIndex.Find`. */
    function FindCookie(domain: string, path: string, key: string): (r: FindResult)
      reads this
      ensures r.Found? ==> Get(idx, domain, path, key) == Some(r.cookie)
      ensures r == Undefined <==> !HasPath(idx, domain, path)
      ensures r == Null <==> HasPath(idx, domain, path) && Get(idx, domain, path, key) == None
    {
      Find(idx, domain, path, key)
    }

    /**
     * `findCookies`: every cookie filed under a candidate domain
     * (`permuteDomain`'s answer, or the domain itself when it has none) at a
     * path the path filter accepts. An empty domain finds nothing.
     */
    method FindCookies(domain: string, path: Option<string>, allowSpecialUseDomain: bool,
                       permuteDomain: (string, bool) -> Option<seq<string>>,
                       pathMatch: (string, string) -> bool)
      returns (results: seq<Cookie>)
      ensures domain == "" ==> results == []
      ensures domain != "" ==>
        multiset(results) ==
          Matching(idx, Candidates(permuteDomain(domain, allowSpecialUseDomain), domain), PathFilter(path, pathMatch))
    {
      results := [];
      if domain == "" {
        return;
      }
      var keep := PathFilter(path, pathMatch);
      var domains := Candidates(permuteDomain(domain, allowSpecialUseDomain), domain);
      var i := 0;
      while i < |domains|
        invariant 0 <= i <= |domains|
        invariant multiset(results) + Matching(idx, domains[i..], keep) == Matching(idx, domains, keep)
      {
        assert domains[i..][1..] == domains[i + 1..];
        var domainIndex := if domains[i] in idx then Some(idx[domains[i]]) else None;
        if domainIndex.Some? {
          results := CollectPaths(results, domainIndex.value, keep);
        }
        i := i + 1;
      }
    }

    /** Uploads the whole index, replacing the remote file. */
    method SaveToFtp()
      modifies this`persisted
      ensures Synced()
    {
      persisted := Some(idx);
    }

    /**
     * `putCookie`: files the cookie under its own coordinates, creating the
     * missing levels, then uploads the whole index.
     */
    method PutCookie(cookie: Cookie)
      modifies this`idx, this`persisted
      ensures idx == Put(old(idx), cookie)
      ensures WellFiled(old(idx)) ==> WellFiled(idx)
      ensures Synced()
    {
      if WellFiled(idx) { PutWellFiled(idx, cookie); }
      if cookie.domain !in idx {
        idx := idx[cookie.domain := map[]];
      }
      var domainIndex := idx[cookie.domain];
      if cookie.path !in domainIndex {
        domainIndex := domainIndex[cookie.path := map[]];
      }
      var pathIndex := domainIndex[cookie.path];
      idx := idx[cookie.domain := domainIndex[cookie.path := pathIndex[cookie.key := cookie]]];
      ghost var pm := if cookie.domain in old(idx) then old(idx)[cookie.domain] else map[];
      assert pathIndex == if cookie.path in pm then pm[cookie.path] else map[];
      assert domainIndex[cookie.path := pathIndex[cookie.key := cookie]] == pm[cookie.path := pathIndex[cookie.key := cookie]];
      assert idx == old(idx)[cookie.domain := pm[cookie.path := pathIndex[cookie.key := cookie]]];
      SaveToFtp();
    }

    /** `updateCookie`: the old cookie is ignored; the new one is put. */
    method UpdateCookie(oldCookie: Cookie, newCookie: Cookie)
      modifies this`idx, this`persisted
      ensures idx == Put(old(idx), newCookie)
      ensures WellFiled(old(idx)) ==> WellFiled(idx)
      ensures Synced()
    {
      PutCookie(newCookie);
    }

    /** `removeCookie`: deletes the one leaf if present, then uploads. */
    method RemoveCookie(domain: string, path: string, key: string)
      modifies this`idx, this`persisted
      ensures idx == Remove(old(idx), domain, path, key)
      ensures WellFiled(old(idx)) ==> WellFiled(idx)
      ensures Synced()
    {
      if WellFiled(idx) { RemoveWellFiled(idx, domain, path, key); }
      if domain in idx && path in idx[domain] && key in idx[domain][path] {
        idx := idx[domain := idx[domain][path := idx[domain][path] - {key}]];
      }
      SaveToFtp();
    }

    /** `removeCookies`: drops one path map, or the whole domain when no path is given, then uploads. */
    method RemoveCookies(domain: string, path: Option<string>)
      modifies this`idx, this`persisted
      ensures idx == RemoveRange(old(idx), domain, path)
      ensures WellFiled(old(idx)) ==> WellFiled(idx)
      ensures Synced()
    {
      if WellFiled(idx) { RemoveRangeWellFiled(idx, domain, path); }
      if domain in idx {
        if Given(path) {
          idx := idx[domain := idx[domain] - {path.value}];
        } else {
          idx := idx - {domain};
        }
      }
      SaveToFtp();
    }

    /** `removeAllCookies`: empties the index and uploads the empty index. */
    method RemoveAllCookies()
      modifies this`idx, this`persisted
      ensures idx == map[] && Leaves(idx) == multiset{} && WellFiled(idx)
      ensures Synced()
    {
      idx := map[];
      SaveToFtp();
    }

    /**
     * `getAllCookies`: every leaf cookie, once per triple it is filed under,
     * in ascending creation index.
     */
    method GetAllCookies() returns (cookies: seq<Cookie>)
      ensures multiset(cookies) == Leaves(idx)
      ensures SortedByCreation(cookies)
    {
      var flat := Flatten(idx);
      cookies := SortByCreation(flat);
    }
  }
}
