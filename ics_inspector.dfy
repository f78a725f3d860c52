/**
 * The calendar debugging page src/app/calendar/ICSInspector.tsx: it normalises the typed URL,
 * fetches it through the same-origin proxy, reads the body chunk by chunk under a two-megabyte
 * cap, and checks that the text looks like an iCalendar file before handing it to the
 * expansion library. The proxy call, `encodeURIComponent` and the UTF-8 decoder are parameters.
 */
module IcsInspector {
  import opened Common
  import opened Text

  /**
   * `normalizeIcsUrl`: the trimmed text with a leading `webcal://` replaced by `https://`.
   * The proxy route spells out the same normalisation and uses this definition.
   */
  function NormalizeIcsUrl(raw: string): (r: string)
    ensures StartsWith(Trim(raw), "webcal://") ==> r == "https://" + Trim(raw)[9..]
    ensures !StartsWith(Trim(raw), "webcal://") ==> r == Trim(raw)
  {
    var trimmed := Trim(raw);
    if StartsWith(trimmed, "webcal://") then "https://" + trimmed[9..] else trimmed
  }

  /** Normalising twice gives what normalising once gives. */
  lemma NormalizeIdempotent(raw: string)
    ensures NormalizeIcsUrl(NormalizeIcsUrl(raw)) == NormalizeIcsUrl(raw)
  {
    var t := Trim(raw);
    TrimIdempotent(raw);
    var n := NormalizeIcsUrl(raw);
    if StartsWith(t, "webcal://") {
      assert n[0] == 'h';
      assert n[|n| - 1] == if |t| == 9 then '/' else t[|t| - 1];
      TrimOfUnpadded(n);
      assert !StartsWith(n, "webcal://");
    }
  }

  /** `/^https?:\/\//i`. */
  predicate HasHttpScheme(s: string) {
    StartsWith(Lower(s), "http://") || StartsWith(Lower(s), "https://")
  }

  /** A `webcal://` address always passes the scheme check once normalised. */
  lemma WebcalPassesSchemeCheck(raw: string)
    requires StartsWith(Trim(raw), "webcal://")
    ensures HasHttpScheme(NormalizeIcsUrl(raw))
  {
    var n := NormalizeIcsUrl(raw);
    assert Lower(n)[..8] == "https://";
  }

  /** `MAX_ICS_BYTES`. */
  const MaxIcsBytes: nat := 2_000_000

  const EmptyUrlError := "Enter an .ics URL first"
  const SchemeError := "Only http(s) URLs are supported"
  const TooLargeError := "ICS file too large (>2MB)"
  const FetchFailedError := "Failed to fetch"
  const NotIcsError := "This doesn't look like a .ics file."

  /** The running byte total of a sequence of chunks. */
  function TotalBytes(chunks: seq<seq<bv8>>): nat {
    if chunks == [] then 0 else TotalBytes(chunks[..|chunks| - 1]) + |chunks[|chunks| - 1]|
  }

  /** `Buffer.concat(chunks)`: the bytes of every chunk, in arrival order. */
  function Concat(chunks: seq<seq<bv8>>): (r: seq<bv8>)
    ensures |r| == TotalBytes(chunks)
  {
    if chunks == [] then [] else Concat(chunks[..|chunks| - 1]) + chunks[|chunks| - 1]
  }

  /** The running total only grows as chunks arrive. */
  lemma {:induction false} TotalBytesMonotone(chunks: seq<seq<bv8>>, i: nat, j: nat)
    requires i <= j <= |chunks|
    ensures TotalBytes(chunks[..i]) <= TotalBytes(chunks[..j])
  {
    if i < j {
      assert chunks[..j][..j - 1] == chunks[..j - 1];
      TotalBytesMonotone(chunks, i, j - 1);
    }
  }

  /** How the reader loop ended: every chunk kept, or stopped after `consumed` chunks. */
  datatype StreamRead = Complete(chunks: seq<seq<bv8>>) | TooLarge(consumed: nat)

  /**
   * The `while (true)` reader loop: add each chunk's length to the total, stop with an error as
   * soon as the total passes the cap, otherwise keep the chunk. A body of exactly the cap is read.
   */
  method ReadStream(stream: seq<seq<bv8>>) returns (r: StreamRead)
    ensures r.Complete? <==> TotalBytes(stream) <= MaxIcsBytes
    ensures r.Complete? ==> r.chunks == stream
    ensures r.TooLarge? ==>
      && 1 <= r.consumed <= |stream|
      && TotalBytes(stream[..r.consumed]) > MaxIcsBytes
      && TotalBytes(stream[..r.consumed - 1]) <= MaxIcsBytes
  {
    var chunks: seq<seq<bv8>> := [];
    var total := 0;
    var i := 0;
    while i < |stream|
      invariant 0 <= i <= |stream|
      invariant chunks == stream[..i]
      invariant total == TotalBytes(stream[..i]) && total <= MaxIcsBytes
    {
      var value := stream[i];
      i := i + 1;
      assert stream[..i][..i - 1] == stream[..i - 1];
      total := total + |value|;
      if total > MaxIcsBytes {
        TotalBytesMonotone(stream, i, |stream|);
        assert stream[..|stream|] == stream;
        return TooLarge(i);
      }
      chunks := chunks + [value];
    }
    assert stream[..i] == stream;
    return Complete(chunks);
  }

  /** What `fetch(proxied)` gave: a non-ok status, a readable body, a body with no reader, or an exception. */
  datatype FetchResponse =
    | NotOk(status: nat, statusText: string)
    | Streamed(stream: seq<seq<bv8>>)
    | Whole(text: string)
    | NetworkError(message: string)

  /** The same-origin proxy address for a normalised URL. */
  function ProxiedUrl(normalized: string, encode: string -> string): (r: string)
    ensures StartsWith(r, "/api/ics?url=") && r[13..] == encode(normalized)
  {
    "/api/ics?url=" + encode(normalized)
  }

  /** The normalised URL gets past both guards, so the proxy is asked. */
  predicate Requested(url: string) {
    NormalizeIcsUrl(url) != "" && HasHttpScheme(NormalizeIcsUrl(url))
  }

  /** `err?.message || "Failed to fetch"`. */
  function ErrorMessage(message: string): (r: string)
    ensures r != ""
    ensures message != "" ==> r == message
  {
    if message == "" then FetchFailedError else message
  }

  class Inspector {
    var url: string
    var rawIcs: Option<string>
    var error: Option<string>
    var loading: bool

    constructor()
      ensures url == "" && rawIcs.None? && error.None? && !loading
    {
      url := "";
      rawIcs := None;
      error := None;
      loading := false;
    }

    /** Typing in the URL box. */
    method SetUrl(u: string)
      modifies this
      ensures url == u && rawIcs == old(rawIcs) && error == old(error) && loading == old(loading)
    {
      url := u;
    }

    /**
     * `handleFetch`: clear the error and the text, then either keep the fetched text or record
     * exactly one error message; loading is over on every path.
     */
    method HandleFetch(fetch: string -> FetchResponse, encode: string -> string, decode: seq<bv8> -> string)
      modifies this
      ensures url == old(url) && !loading
      ensures error.None? <==> rawIcs.Some?
      ensures NormalizeIcsUrl(url) == "" ==> error == Some(EmptyUrlError)
      ensures NormalizeIcsUrl(url) != "" && !HasHttpScheme(NormalizeIcsUrl(url)) ==> error == Some(SchemeError)
      ensures Requested(url) ==>
        match fetch(ProxiedUrl(NormalizeIcsUrl(url), encode))
        case NotOk(status, statusText) =>
          error == Some("Request failed: " + NatToString(status) + " " + statusText)
        case Streamed(stream) =>
          if TotalBytes(stream) > MaxIcsBytes then error == Some(TooLargeError)
          else rawIcs == Some(decode(Concat(stream)))
        case Whole(text) =>
          if |text| > MaxIcsBytes then error == Some(TooLargeError) else rawIcs == Some(text)
        case NetworkError(message) => error == Some(ErrorMessage(message))
    {
      error := None;
      loading := true;
      rawIcs := None;
      var normalizedUrl := NormalizeIcsUrl(url);
      if normalizedUrl == "" {
        error := Some(EmptyUrlError);
      } else if !HasHttpScheme(normalizedUrl) {
        error := Some(SchemeError);
      } else {
        var res := fetch(ProxiedUrl(normalizedUrl, encode));
        match res {
          case NotOk(status, statusText) =>
            error := Some("Request failed: " + NatToString(status) + " " + statusText);
          case Streamed(stream) =>
            var read := ReadStream(stream);
            if read.TooLarge? {
              error := Some(TooLargeError);
            } else {
              rawIcs := Some(decode(Concat(read.chunks)));
            }
          case Whole(text) =>
            if |text| > MaxIcsBytes {
              error := Some(TooLargeError);
            } else {
              rawIcs := Some(text);
            }
          case NetworkError(message) =>
            error := Some(ErrorMessage(message));
        }
      }
      loading := false;
    }
  }

  /** `/BEGIN:VCALENDAR/i.test(text)`, with ASCII case folding. */
  predicate LooksLikeIcs(text: string) {
    Contains(Upper(text), "BEGIN:VCALENDAR")
  }

  /** Case does not matter to the check. */
  lemma SniffIgnoresCase(text: string)
    ensures LooksLikeIcs(Lower(text)) <==> LooksLikeIcs(text)
    ensures LooksLikeIcs(Upper(text)) <==> LooksLikeIcs(text)
  {
    assert Upper(Lower(text)) == Upper(text);
    assert Upper(Upper(text)) == Upper(text);
  }

  /** A text holding the header literally, anywhere, passes the check. */
  lemma HeaderAnywhereAccepted(text: string, i: nat)
    requires OccursAt(text, "BEGIN:VCALENDAR", i)
    ensures LooksLikeIcs(text)
  {
    assert Upper(text)[i..i + 15] == "BEGIN:VCALENDAR";
    assert OccursAt(Upper(text), "BEGIN:VCALENDAR", i);
  }

  /** The start of the `parsed` memo: nothing to parse, the error it records, or text for the library. */
  datatype Sniffed = NothingToParse | NotIcs(message: string) | ToLibrary(text: string)

  function Sniff(rawIcs: Option<string>): (r: Sniffed)
    ensures r.NothingToParse? <==> rawIcs.None? || rawIcs == Some("")
    ensures r.NotIcs? <==> rawIcs.Some? && rawIcs.value != "" && !LooksLikeIcs(rawIcs.value)
    ensures r.NotIcs? ==> r.message == NotIcsError
    ensures r.ToLibrary? ==> rawIcs == Some(r.text) && LooksLikeIcs(r.text)
  {
    match rawIcs
    case None => NothingToParse
    case Some(text) =>
      if text == "" then NothingToParse
      else if !LooksLikeIcs(text) then NotIcs(NotIcsError)
      else ToLibrary(text)
  }
}
