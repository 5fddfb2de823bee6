/**
 * How the store's constructor turns the configured file path into the
 * remote file it reads and writes: one leading '.' is dropped, and the
 * result is split into the directory to create and the file name to look
 * for in that directory's listing.
 */
module FilePath {
  import opened Wrappers
  import opened StoreErrors

  /** The remote location of the snapshot file. */
  datatype Location = Location(filePath: string, destinationDir: string, filename: string)

  /** Drops exactly one leading '.', so that "./cookies.json" names "/cookies.json". */
  function StripDot(fp: string): (r: string)
    ensures fp == (if |fp| > 0 && fp[0] == '.' then "." else "") + r
  {
    if |fp| > 0 && fp[0] == '.' then fp[1..] else fp
  }

  /** The position of the last '/' in `s`, or -1 when there is none. */
  function LastSlash(s: string): (r: int)
    ensures -1 <= r < |s|
    ensures r >= 0 ==> s[r] == '/'
    ensures forall i :: r < i < |s| ==> s[i] != '/'
  {
    if s == [] then -1
    else if s[|s| - 1] == '/' then |s| - 1
    else LastSlash(s[..|s| - 1])
  }

  /** Everything before the last '/': "." without a slash, "/" for a slash in front. */
  function Dirname(s: string): string {
    var i := LastSlash(s);
    if i < 0 then "." else if i == 0 then "/" else s[..i]
  }

  /** Everything after the last '/'. */
  function Basename(s: string): string {
    s[LastSlash(s) + 1..]
  }

  /** The file name holds no '/'. */
  lemma BasenameHasNoSlash(s: string)
    ensures '/' !in Basename(s)
  {
    var i := LastSlash(s);
    forall j | 0 <= j < |Basename(s)|
      ensures Basename(s)[j] != '/'
    {
      assert Basename(s)[j] == s[i + 1 + j];
    }
  }

  /**
   * A path with a '/' after its first character is its directory, a '/'
   * and its file name.
   */
  lemma SplitRoundTrip(s: string)
    requires LastSlash(s) > 0
    ensures Dirname(s) + "/" + Basename(s) == s
  {
    var i := LastSlash(s);
    assert s == s[..i] + [s[i]] + s[i + 1..];
  }

  /**
   * The constructor's path handling: a falsy (empty) path is refused with
   * "Unknown file path"; any other path has one leading '.' stripped before
   * it is split. The check is made on the path as given, so "." is accepted
   * and leaves an empty file path. A path without '/' lives in ".", one
   * whose only '/' is in front lives in "/".
   */
  function Locate(filePath: string): (r: Result<Location, StoreError>)
    ensures r.Failure? <==> filePath == ""
    ensures r.Success? ==> filePath == (if filePath[0] == '.' then "." else "") + r.value.filePath
    ensures r.Success? ==> '/' !in r.value.filename
    ensures r.Success? && LastSlash(r.value.filePath) < 0 ==>
      r.value.destinationDir == "." && r.value.filename == r.value.filePath
    ensures r.Success? && LastSlash(r.value.filePath) == 0 ==>
      r.value.destinationDir == "/" && "/" + r.value.filename == r.value.filePath
    ensures r.Success? && LastSlash(r.value.filePath) > 0 ==>
      r.value.destinationDir + "/" + r.value.filename == r.value.filePath
  {
    if filePath == "" then Failure(UnknownFilePath)
    else
      var fp := StripDot(filePath);
      BasenameHasNoSlash(fp);
      assert LastSlash(fp) > 0 ==> Dirname(fp) + "/" + Basename(fp) == fp by {
        if LastSlash(fp) > 0 { SplitRoundTrip(fp); }
      }
      assert LastSlash(fp) == 0 ==> "/" + Basename(fp) == fp by {
        if LastSlash(fp) == 0 { assert fp == [fp[0]] + fp[1..]; }
      }
      Success(Location(fp, Dirname(fp), Basename(fp)))
  }
}
