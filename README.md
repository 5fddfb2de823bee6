# FTP cookie store, modelled in Dafny

`FtpCookieStore` is a cookie store for the tough-cookie cookie jar. It keeps every cookie in an
in-memory index `idx`, a three-level map domain -> path -> key -> cookie, and mirrors that index to
one JSON file on an FTP server. `connect` downloads the file once and installs what it decodes.
Every mutating operation (`putCookie`, `updateCookie`, `removeCookie`, `removeCookies`,
`removeAllCookies`) rewrites the index and then uploads the whole index, replacing the file.

The model has seven modules:

- `Wrappers` (wrappers.dfy): `Option`, `Result` and `Outcome`.
- `StoreErrors` (errors.dfy): the three errors the store throws.
- `Cookies` (cookies.dfy): the cookie value, the sort key `creationIndex || 0`, and the sort
  `getAllCookies` applies.
- `CookieIndex` (cookie_index.dfy): the index as a value. It holds the pure meaning of each lookup and
  update (`Find`, `Put`, `Remove`, `RemoveRange`, `Matching`) and `Leaves`, the multiset of all leaf
  cookies. It also holds `WellFiled`, the index's data invariant: every cookie is filed under its
  own domain, path and key. Lemmas relate these functions and show that every update keeps the
  invariant.
- `FilePath` (file_path.dfy): how the constructor normalises the file path.
- `Snapshot` (snapshot.dfy): how `_loadFromFtp` turns the downloaded text into the snapshot that
  `connect` installs. It covers the buffer as written and the corrected buffer (see Findings).
- `FtpStore` (ftp_store.dfy): the class `FtpCookieStore`.
  - Its field `idx` is updated in place by each mutating method.
  - A ghost field `persisted` records the index the remote file holds, as far as the store knows.
  - Each mutating method ends with `Synced()`, i.e. `persisted == Some(idx)`: a full overwrite,
    not a merge.
  - `Connect` replaces `idx` only when a snapshot was decoded.
  - The nested loops of `findCookies` and `getAllCookies` are methods with loop invariants, proved
    against `Matching` and `Leaves`.

The domain permutation (`permuteDomain`) and the path matcher (`pathMatch`) come from tough-cookie.
They are parameters of `FindCookies`, so its result is specified relative to them. The same goes for
the JSON decoder (`parse`) and for the FTP directory listing and downloaded chunks given to
`Connect`.

Points where the model follows the code's own behaviour:

- There is no connection state machine and no "not connected" error. Every operation works on `idx`
  whether or not `connect` ran.
- `findCookie` keeps its two "not found" answers: `undefined` when the domain or path level is
  missing, `null` when only the key is missing (`CookieIndex.FindResult`).
- Emptied containers are never pruned. `removeCookie` leaves an empty key map in place.
- A path argument of `removeCookies` or `findCookies` counts only when it is a non-empty string.
  An empty path drops the whole domain, or matches every path.

## Model

| member | source | states |
|---|---|---|
| `Cookies.SortByCreation` | lib/tough-cookie-ftp-store.js:353-355 | The result is sorted ascending by `creationIndex`, with a missing index read as 0, and is a permutation of the input |
| `Cookies.Insert` | lib/tough-cookie-ftp-store.js:353-355 | Adds exactly the one cookie, and puts it first or keeps the old head |
| `Cookies.InsertSorted` | lib/tough-cookie-ftp-store.js:353-355 | Inserting into a sequence sorted by creation index keeps it sorted |
| `CookieIndex.Find` | lib/tough-cookie-ftp-store.js:123-131 | Found exactly when domain, path and key are all present, and then it is the stored cookie; `undefined` exactly when the domain or path level is missing; `null` exactly when only the key is missing |
| `CookieIndex.Put` | lib/tough-cookie-ftp-store.js:218-225 | The cookie is filed at its own domain/path/key; every other triple keeps its cookie; the domain and path containers gain exactly the cookie's own |
| `CookieIndex.LastPutWins` | lib/tough-cookie-ftp-store.js:218-225 | After a run of puts, each triple holds the last cookie put there, and an untouched triple holds its old cookie |
| `CookieIndex.PutIdempotent` | lib/tough-cookie-ftp-store.js:218-225 | Putting the same cookie twice leaves the same index as putting it once |
| `CookieIndex.LeavesAfterPut` | lib/tough-cookie-ftp-store.js:218-225 | The multiset of all cookies gains the new cookie and loses only the cookie it displaced |
| `CookieIndex.Remove` | lib/tough-cookie-ftp-store.js:264-271 | Only the leaf (d, p, k) disappears; all other triples and all containers stay, even emptied ones; an absent triple leaves the index identical |
| `CookieIndex.LeavesAfterRemove` | lib/tough-cookie-ftp-store.js:264-271 | The multiset of all cookies loses exactly the removed cookie, if there was one |
| `CookieIndex.FindWellFiled` | lib/tough-cookie-ftp-store.js:123-131 | In an index where every cookie is filed under its own domain, path and key, `findCookie` returns only a cookie with the coordinates asked for |
| `CookieIndex.PutWellFiled` | lib/tough-cookie-ftp-store.js:218-225 | Filing a cookie under its own coordinates keeps every cookie filed under its own coordinates |
| `CookieIndex.PutAllWellFiled` | lib/tough-cookie-ftp-store.js:218-225 | An index built from the empty index by puts alone has every cookie filed under its own coordinates |
| `CookieIndex.RemoveWellFiled` | lib/tough-cookie-ftp-store.js:264-271 | Deleting a leaf keeps every remaining cookie filed under its own coordinates |
| `CookieIndex.RemoveRangeWellFiled` | lib/tough-cookie-ftp-store.js:291-298 | Dropping a path map or domain keeps every remaining cookie filed under its own coordinates |
| `CookieIndex.RemoveRange` | lib/tough-cookie-ftp-store.js:291-298 | An absent domain changes nothing; with a path given only that path map goes; with a falsy path the whole domain goes; other domains are untouched |
| `CookieIndex.LeavesAfterRemoveRange` | lib/tough-cookie-ftp-store.js:291-298 | The multiset of all cookies loses exactly the cookies of the dropped path map or domain |
| `CookieIndex.InLeaves` | lib/tough-cookie-ftp-store.js:340-351 | A cookie is among the flattened leaves exactly when it is filed under some domain, path and key |
| `CookieIndex.InMatching` | lib/tough-cookie-ftp-store.js:169-200 | A cookie is collected by the search exactly when it is filed under a candidate domain at a path the filter accepts; candidate domains missing from the index contribute nothing |
| `CookieIndex.SumOverSplit` | lib/tough-cookie-ftp-store.js:340-351 | The multiset of cookies collected from a map does not depend on the order its keys are visited in |
| `FtpStore.CollectKeys` | lib/tough-cookie-ftp-store.js:174-176 | Pushes every cookie of one path map onto the results, once per key |
| `FtpStore.CollectPaths` | lib/tough-cookie-ftp-store.js:169-190 | Pushes every cookie of the path maps the filter accepts in one domain (`matchAll` / `matchRFC`) |
| `FtpStore.FtpCookieStore.FindCookie` | lib/tough-cookie-ftp-store.js:123-131 | `undefined` exactly when the domain or path level is missing, `null` exactly when only the key is missing, otherwise the cookie filed at the triple |
| `FtpStore.FtpCookieStore.FindCookies` | lib/tough-cookie-ftp-store.js:157-203 | An empty domain finds nothing; otherwise the results are exactly, with multiplicity, the cookies under `permuteDomain(domain)` (or `[domain]` when it gives none) at paths `pathMatch` accepts, or at every path when no path is given |
| `FtpStore.CollectPath` | lib/tough-cookie-ftp-store.js:180-189 | One turn of the loop over a domain's paths: the pushed cookies plus those still to visit are unchanged, and one path fewer remains |
| `FtpStore.Flatten` | lib/tough-cookie-ftp-store.js:340-351 | The flattened list is a permutation of all leaf cookies of the index, one entry per (domain, path, key) |
| `FtpStore.CollectDomain` | lib/tough-cookie-ftp-store.js:341-350 | One turn of the loop over domains: the pushed cookies plus those still to visit are unchanged, and one domain fewer remains |
| `FtpStore.FtpCookieStore.GetAllCookies` | lib/tough-cookie-ftp-store.js:336-358 | The result is a permutation of all leaf cookies of `idx`, sorted ascending by creation index |
| `FtpStore.FtpCookieStore.PutCookie` | lib/tough-cookie-ftp-store.js:218-229 | The new index is `Put` of the old one, and the remote snapshot is the whole new index; a well-filed index stays well filed |
| `FtpStore.FtpCookieStore.UpdateCookie` | lib/tough-cookie-ftp-store.js:245-247 | The old cookie is ignored: the effect is `putCookie` of the new cookie |
| `FtpStore.FtpCookieStore.RemoveCookie` | lib/tough-cookie-ftp-store.js:264-275 | The new index is `Remove` of the old one, and the remote snapshot is the whole new index; a well-filed index stays well filed |
| `FtpStore.FtpCookieStore.RemoveCookies` | lib/tough-cookie-ftp-store.js:291-302 | The new index is `RemoveRange` of the old one, and the remote snapshot is the whole new index; a well-filed index stays well filed |
| `FtpStore.FtpCookieStore.RemoveAllCookies` | lib/tough-cookie-ftp-store.js:316-321 | The index is empty, so it has no cookies, and the remote snapshot is the empty index |
| `FtpStore.FtpCookieStore.SaveToFtp` | lib/tough-cookie-ftp-store.js:440-448 | The remote snapshot becomes the whole current index |
| `FtpStore.FtpCookieStore.Connect` | lib/tough-cookie-ftp-store.js:72-98 | A missing host fails first with "Unknown hostname"; a corrupt file fails and changes nothing; a decoded snapshot replaces `idx` wholesale, unchecked; no snapshot leaves `idx` as it was. The load is the corrected `Snapshot.Load`, not the code as written (see Findings) |
| `FtpStore.FtpCookieStore.Create` | lib/tough-cookie-ftp-store.js:22-47 | A falsy path fails with "Unknown file path"; otherwise a fresh store with an empty index at the normalised location |
| `FtpStore.FtpCookieStore.constructor` | lib/tough-cookie-ftp-store.js:37-43 | The index starts empty and the location fields are set |
| `FilePath.StripDot` | lib/tough-cookie-ftp-store.js:41 | Exactly one leading '.' is removed, and nothing else |
| `FilePath.LastSlash` | lib/tough-cookie-ftp-store.js:42-43 | The position of the last '/' or -1: a '/' stands there and none after it |
| `FilePath.SplitRoundTrip` | lib/tough-cookie-ftp-store.js:42-43 | For a path whose last '/' is past its first character, directory, '/' and file name put back together rebuild the path |
| `FilePath.Locate` | lib/tough-cookie-ftp-store.js:40-47 | Fails exactly on the empty path; otherwise the file path is the given one less one leading '.'. The file name holds no '/'; without a '/' the directory is "." and the file name is the whole path; with only a leading '/' the directory is "/"; otherwise directory, '/' and file name rebuild the path |
| `FilePath.BasenameHasNoSlash` | lib/tough-cookie-ftp-store.js:43 | The file name never holds a '/' |
| `Snapshot.AccumulateText` | lib/tough-cookie-ftp-store.js:393-398 | A buffer holding text ends up holding that text followed by every chunk |
| `Snapshot.Download` | lib/tough-cookie-ftp-store.js:385-398 | With the buffer started empty, the downloaded text is exactly the concatenation of the decoded chunks |
| `Snapshot.AsWrittenPrefix` | lib/tough-cookie-ftp-store.js:385-398 | As written, the buffer holds "null" followed by the file's text, never the file's text alone |
| `Snapshot.LoadAsWritten` | lib/tough-cookie-ftp-store.js:384-424 | As written: a missing file or a download of no chunks gives no snapshot; otherwise the parser sees "null" followed by the file's text, and fails, gives no snapshot on JSON `null` (a blank file), or yields the index it decodes from that text |
| `Snapshot.Load` | lib/tough-cookie-ftp-store.js:384-424 | Corrected: a missing or empty file gives no snapshot; otherwise the parser sees exactly the file's text: rejected text fails naming the file, JSON `null` gives no snapshot, a decoded index is the snapshot |
| `Snapshot.Decode` | lib/tough-cookie-ftp-store.js:402-423 | A missing file, an empty buffer or JSON `null` give no snapshot; text the parser rejects fails with "Could not parse cookie file" for that path; a decoded index is the snapshot |
| `Snapshot.LoadRoundTrip` | lib/tough-cookie-ftp-store.js:384-424 | Loading a file whose text decodes to index x yields x |
| `Snapshot.AsWrittenRejectsSavedFile` | lib/tough-cookie-ftp-store.js:385-410 | As written, a saved file is refused as corrupt; the corrected load returns its index |

## Left out

- The FTP transport is not modelled: `client.access`, `ensureDir`, `list`, `downloadTo`, `uploadFrom`, `close` and `disconnect` are network I/O. The directory listing and the downloaded chunks are parameters of `Connect`. Uploads always succeed, so transport errors and the stale remote they leave are not modelled.
- `JSON.stringify`, `JSON.parse` and `Cookie.fromJSON` are foreign serialisation. Decoding is the parameter `parse`, which yields a malformed-text error, JSON `null` or an index. Other JSON values (numbers, strings, arrays) and leaves that `Cookie.fromJSON` turns into `null` are not modelled.
- `permuteDomain` and `pathMatch` belong to tough-cookie and are parameters of `FindCookies`.
- Async functions and callbacks are not modelled: each operation returns its result.
- FtpStore.FtpCookieStore.FindCookies: on a falsy domain `findCookies` calls back with `[]` and then, having no `return`, calls back a second time with whatever the search found. The model returns only the first answer, the empty result.
- The argument shuffle that lets `allowSpecialUseDomain` be the callback is not modelled, nor are the option defaults (`objectAssignDeep`), the debug flag and `_inspect`. They are configuration and debugging.
- JavaScript object semantics are not modelled: prototype keys such as `constructor` or `__proto__` that `idx[domain]` would find, and the coercion of non-string keys. Domains, paths and keys are strings; a domain is falsy only when empty.
- The test `key !== null` in `getAllCookies` is always true for object keys, so the model has no branch for it.
- `path.dirname` and `path.basename` are modelled as a split at the last '/'. Trailing and repeated slashes are not treated as Node's path module treats them. Reading `filePath[0]` of an undefined path throws a TypeError, and that is not modelled either.
- Object identity and aliasing of cookies are not modelled. The store files the caller's own cookie object (lib/tough-cookie-ftp-store.js:225) and hands stored objects back (lines 129, 175, 185, 347), so a caller that mutates a returned cookie, as the jar does when it updates `lastAccessed`, changes `idx` without an upload. `Cookie` here is an immutable value, so `Synced()` holds after every mutating method but does not capture such changes.
- Snapshot.Download: `chunks` are the already-decoded pieces of the file. The code decodes each received buffer on its own (`chunk.toString()`, lib/tough-cookie-ftp-store.js:395), so a multi-byte UTF-8 character split across two buffers becomes replacement characters; that per-chunk decoding is not modelled, and the downloaded text equals the file's text only when no character is split.
- FtpStore.FtpCookieStore.Connect: the load is modelled by the corrected `Snapshot.Load`. As written, the buffer starts as `null`, so every existing file whose text is not blank is refused with "Could not parse cookie file" and a saved index is never installed (see Findings, `Snapshot.LoadAsWritten`).
- FtpStore.FtpCookieStore.Connect: a decoded snapshot is installed without any check that it is `CookieIndex.WellFiled`, as the code does no check. The mutating methods preserve `WellFiled` but cannot restore it.
- FtpStore.FtpCookieStore.FindCookies: the results are stated as a multiset. Their order (candidate domains in turn, then object key order) is not stated, because object key order is not modelled.
- FtpStore.FtpCookieStore.GetAllCookies: the order among cookies with equal creation indexes is not stated. Neither the stability of `Array.prototype.sort` nor the flattening order (object key order) is modelled.

## Findings

| source | as written | input that shows it | evidently intended | confidence | as-written member | corrected member |
|---|---|---|---|---|---|---|
| lib/tough-cookie-ftp-store.js:385-410 | the download buffer `data` starts as `null` and grows with `data += chunk`, so the parser receives "null" followed by the file's text | any file the store has saved, e.g. the single chunk `{}`: the parser gets `null{}`, rejects it, and `connect` throws "Could not parse cookie file" | the buffer starts as the empty text, so the parser receives the file's text and a saved index loads back | high (not executed) | `Snapshot.AsWrittenRejectsSavedFile` | `Snapshot.LoadRoundTrip` |
