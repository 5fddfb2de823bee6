/**
 * The load half of the synchronisation protocol: how the downloaded text of
 * the remote cookie file becomes the snapshot `connect` installs. The
 * transfer delivers the file as a sequence of text chunks; `JSON.parse`
 * together with `Cookie.fromJSON` on every leaf is a parameter, `parse`.
 */
module Snapshot {
  import opened Wrappers
  import opened StoreErrors
  import opened CookieIndex

  /** What parsing a text and reviving its leaves yields. */
  datatype Parsed = Malformed | JsonNull | JsonIndex(index: Index)

  function Concat(chunks: seq<string>): string {
    if chunks == [] then "" else chunks[0] + Concat(chunks[1..])
  }

  /** JavaScript `buffer += chunk`: a null buffer reads as the text "null". */
  function Append(buffer: Option<string>, chunk: string): string {
    match buffer
    case None => "null" + chunk
    case Some(b) => b + chunk
  }

  /** The download sink's write callback, run once per chunk. */
  function Accumulate(buffer: Option<string>, chunks: seq<string>): Option<string>
    decreases chunks
  {
    if chunks == [] then buffer else Accumulate(Some(Append(buffer, chunks[0])), chunks[1..])
  }

  /** A buffer that already holds text ends up holding that text and every chunk. */
  lemma {:induction false} AccumulateText(s: string, chunks: seq<string>)
    ensures Accumulate(Some(s), chunks) == Some(s + Concat(chunks))
    decreases chunks
  {
    if chunks != [] {
      assert Append(Some(s), chunks[0]) == s + chunks[0];
      AccumulateText(s + chunks[0], chunks[1..]);
      assert s + chunks[0] + Concat(chunks[1..]) == s + (chunks[0] + Concat(chunks[1..]));
    } else {
      assert s + Concat(chunks) == s;
    }
  }

  /** The buffer as the store declares it: starting from `null`. */
  function DownloadAsWritten(chunks: seq<string>): Option<string> {
    Accumulate(None, chunks)
  }

  /**
   * As written, any download of at least one chunk yields the file's text
   * behind the four characters "null", so the text handed to the parser is
   * never the file's own.
   */
  lemma AsWrittenPrefix(chunks: seq<string>)
    requires chunks != []
    ensures DownloadAsWritten(chunks) == Some("null" + Concat(chunks))
    ensures DownloadAsWritten(chunks) != Some(Concat(chunks))
  {
    AccumulateText("null" + chunks[0], chunks[1..]);
    assert "null" + chunks[0] + Concat(chunks[1..]) == "null" + (chunks[0] + Concat(chunks[1..]));
  }

  /** The corrected buffer, starting from the empty text: exactly the file's text. */
  function Download(chunks: seq<string>): (r: Option<string>)
    ensures r == Some(Concat(chunks))
  {
    AccumulateText("", chunks);
    assert "" + Concat(chunks) == Concat(chunks);
    Accumulate(Some(""), chunks)
  }

  /** JavaScript truthiness of the buffer: neither null nor empty. */
  predicate Truthy(buffer: Option<string>) {
    buffer.Some? && buffer.value != ""
  }

  /**
   * The decision `_loadFromFtp` makes once the download is over. A missing
   * file, an empty buffer and a file holding JSON `null` all give no
   * snapshot; a buffer the parser rejects is an error naming the file;
   * anything else is the snapshot to install.
   */
  function Decode(fileExists: bool, buffer: Option<string>, parse: string -> Parsed, filePath: string)
    : (r: Result<Option<Index>, StoreError>)
    ensures r.Failure? <==> fileExists && Truthy(buffer) && parse(buffer.value) == Malformed
    ensures r.Failure? ==> r.error == CorruptCookieFile(filePath)
    ensures !fileExists || !Truthy(buffer) ==> r == Success(None)
    ensures fileExists && Truthy(buffer) && parse(buffer.value).JsonIndex? ==>
      r == Success(Some(parse(buffer.value).index))
    ensures fileExists && Truthy(buffer) && parse(buffer.value).JsonNull? ==> r == Success(None)
  {
    if !fileExists || !Truthy(buffer) then Success(None)
    else
      match parse(buffer.value)
      case Malformed => Failure(CorruptCookieFile(filePath))
      case JsonNull => Success(None)
      case JsonIndex(x) => Success(Some(x))
  }

  /**
   * Loading as written: the download buffer starts as `null`. A file that
   * arrives in at least one chunk reaches the parser behind "null", so even
   * a file of empty chunks reads as JSON `null`.
   */
  function LoadAsWritten(fileExists: bool, chunks: seq<string>, parse: string -> Parsed, filePath: string)
    : (r: Result<Option<Index>, StoreError>)
    ensures !fileExists || chunks == [] ==> r == Success(None)
    ensures r.Failure? <==> fileExists && chunks != [] && parse("null" + Concat(chunks)) == Malformed
    ensures r.Failure? ==> r.error == CorruptCookieFile(filePath)
    ensures fileExists && chunks != [] && parse("null" + Concat(chunks)).JsonIndex? ==>
      r == Success(Some(parse("null" + Concat(chunks)).index))
    ensures fileExists && chunks != [] && parse("null" + Concat(chunks)).JsonNull? ==> r == Success(None)
  {
    if chunks != [] then
      AsWrittenPrefix(chunks);
      Decode(fileExists, DownloadAsWritten(chunks), parse, filePath)
    else
      Decode(fileExists, DownloadAsWritten(chunks), parse, filePath)
  }

  /**
   * Loading with the corrected buffer; this is what `connect` uses. The
   * parser sees exactly the file's text: a missing or empty file gives no
   * snapshot, text the parser rejects is an error naming the file, and
   * text that decodes to an index gives that index.
   */
  function Load(fileExists: bool, chunks: seq<string>, parse: string -> Parsed, filePath: string)
    : (r: Result<Option<Index>, StoreError>)
    ensures !fileExists || Concat(chunks) == "" ==> r == Success(None)
    ensures r.Failure? <==> fileExists && Concat(chunks) != "" && parse(Concat(chunks)) == Malformed
    ensures r.Failure? ==> r.error == CorruptCookieFile(filePath)
    ensures fileExists && Concat(chunks) != "" && parse(Concat(chunks)).JsonIndex? ==>
      r == Success(Some(parse(Concat(chunks)).index))
    ensures fileExists && Concat(chunks) != "" && parse(Concat(chunks)).JsonNull? ==> r == Success(None)
  {
    Decode(fileExists, Download(chunks), parse, filePath)
  }

  /**
   * Round trip: when the file holds a non-empty text that the parser maps
   * back to index x (for the store's own uploads, `JSON.stringify` of x),
   * loading it yields x.
   */
  lemma LoadRoundTrip(x: Index, text: string, chunks: seq<string>, parse: string -> Parsed, filePath: string)
    requires Concat(chunks) == text && text != ""
    requires parse(text) == JsonIndex(x)
    ensures Load(true, chunks, parse, filePath) == Success(Some(x))
  {
  }

  /**
   * As written, the same file is refused: the parser sees "null" in front of
   * the saved text, which a JSON parser rejects (no text may follow the
   * value `null`), so every connect after a save fails.
   */
  lemma AsWrittenRejectsSavedFile(x: Index, text: string, chunks: seq<string>, parse: string -> Parsed, filePath: string)
    requires Concat(chunks) == text && text != ""
    requires parse(text) == JsonIndex(x)
    requires parse("null" + text) == Malformed
    ensures LoadAsWritten(true, chunks, parse, filePath) == Failure(CorruptCookieFile(filePath))
    ensures Load(true, chunks, parse, filePath) == Success(Some(x))
  {
    AsWrittenPrefix(chunks);
  }
}
