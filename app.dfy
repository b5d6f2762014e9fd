/** The page's state and its three handlers: submitting a link, recording a
    download in the history, and clearing the history. React's state hooks are
    the fields of `App`; each handler is a method that runs to completion, with
    the outcome of the network request, the clock, the random id and the
    answer to the confirmation dialog passed in. */
module AppState {
  import opened Wrappers
  import opened JsValues
  import opened JsText
  import opened Types
  import opened TikTokApi
  import opened History

  const InvalidLinkText: string :=
    "Invalid link. Please copy a valid TikTok URL (e.g., https://www.tiktok.com/@user/video/...)"

  const RetrievalFallbackText: string :=
    "The video could not be retrieved. Please ensure the TikTok link is public and valid."

  /** `!!targetUrl`: a link was passed in (from the history list) rather than
      read from the input box. */
  predicate TargetGiven(targetUrl: Option<string>) {
    targetUrl.Some? && targetUrl.value != ""
  }

  /** `targetUrl || url`: the link the handler works on, before trimming. */
  function RawUrl(targetUrl: Option<string>, url: string): (raw: string)
  {
    if TargetGiven(targetUrl) then targetUrl.value else url
  }

  /** `(targetUrl || url).trim()`. */
  function FinalUrl(targetUrl: Option<string>, url: string): (finalUrl: string)
  {
    Trim(RawUrl(targetUrl, url))
  }

  /** The handler tests the link before its own trimming; the service trims
      again, so the verdict is the one for the trimmed link the source passes
      to `isValidTikTokUrl`. */
  lemma CheckedLinkVerdict(targetUrl: Option<string>, url: string)
    ensures IsValidTikTokUrl(RawUrl(targetUrl, url)) == IsValidTikTokUrl(FinalUrl(targetUrl, url))
  {
    ValidityIgnoresSurroundingWhitespace(RawUrl(targetUrl, url));
  }

  /** `err.message || fallback`: the text shown for a failed lookup. */
  function ShownError(e: FetchError): (msg: string)
    ensures msg != ""
    ensures msg == ErrorMessage(e) || (ErrorMessage(e) == "" && msg == RetrievalFallbackText)
  {
    var m := ErrorMessage(e);
    if m != "" then m else RetrievalFallbackText
  }

  /** The fallback text replaces a real message only when the request or the
      JSON parse threw with an empty message, or the upstream reported its
      failure as an array whose elements all render empty. Every other failure
      shows its own message. */
  lemma FallbackOnlyForEmptyMessages(t: Transport, now: nat, e: FetchError)
    requires FetchTikTokInfo(t, now) == Failure(e)
    requires ShownError(e) == RetrievalFallbackText && ErrorMessage(e) != RetrievalFallbackText
    ensures || (t.Rejected? && t.message == "")
            || (t.Responded? && t.body.Unparsable? && t.body.message == "")
            || (e.UpstreamMessage? && e.reason.Arr?)
  {
    if e.UpstreamMessage? {
      ToJsStringEmpty(e.reason);
      var result := t.body.value;
      assert e == ReportedFailure(result);
    }
  }

  /** A failed status is always shown with its code. */
  lemma HttpFailureShown(status: nat)
    ensures var text := ShownError(HttpStatus(status));
      |text| > 23 && text[..23] == "API Connection Failed (" &&
      DecimalValue(text[23..23 + |NatToDecimal(status)|]) == status
  {
    HttpStatusMessage(status);
  }

  /** A successful lookup puts an entry for that very video at the head of
      the history: its own id, title and author handle (never a default or a
      random id), and the submitted link. */
  lemma SuccessRecordsTheVideo(t: Transport, now: nat, prev: seq<HistoryItem>, finalUrl: string,
                               addedAt: int, randomId: string)
    requires FetchTikTokInfo(t, now).Success?
    ensures var d := FetchTikTokInfo(t, now).value.data;
      var h := PushEntry(prev, ToHistoryItem(d, finalUrl, addedAt, randomId));
      && h[0].id == d.id && h[0].title == d.title && h[0].author == d.author.uniqueId
      && h[0].url == finalUrl && h[0].timestamp == addedAt && |h| <= MaxHistory
  {
    var d := FetchTikTokInfo(t, now).value.data;
    CanonicalProjection(d, finalUrl, addedAt, randomId);
  }

  class App {
    /** The text in the input box. */
    var url: string
    var loading: bool
    /** The banner message; `None` is `null`. */
    var error: Option<string>
    /** The record the result card shows; `None` is `null`. */
    var videoData: Option<VideoData>
    var history: seq<HistoryItem>
    /** What local storage holds under the history key, as the list it
        serialises. */
    var persisted: seq<HistoryItem>
    /** The links handed to the lookup service, oldest first. */
    ghost var requests: seq<string>

    /** Storage mirrors the first fifteen entries of the history. */
    ghost predicate Valid()
      reads this
    {
      persisted == Take(history, MaxHistory)
    }

    /** The first render: everything empty, the history taken from storage
        when storage held a parsable list. `saved` is `None` when nothing was
        stored, the stored text was empty, or it did not parse. */
    constructor(saved: Option<seq<HistoryItem>>)
      ensures Valid()
      ensures url == "" && !loading && error == None && videoData == None
      ensures history == (if saved.Some? then saved.value else [])
      ensures requests == []
    {
      url := "";
      loading := false;
      error := None;
      videoData := None;
      var loaded := if saved.Some? then saved.value else [];
      history := loaded;
      persisted := Take(loaded, MaxHistory);
      requests := [];
    }

    /** `addToHistory`: project the record to an entry and put it at the front
        of the history; storage follows. */
    method AddToHistory(data: VideoData, originalUrl: string, timestamp: int, randomId: string)
      modifies this
      ensures Valid()
      ensures history == PushEntry(old(history), ToHistoryItem(data, originalUrl, timestamp, randomId))
      ensures url == old(url) && loading == old(loading) && error == old(error)
      ensures videoData == old(videoData) && requests == old(requests)
    {
      var item := ToHistoryItem(data, originalUrl, timestamp, randomId);
      history := PushEntry(history, item);
      persisted := Take(history, MaxHistory);
    }

    /** `handleDownload`: validate the link, look it up, and show the record
        or the error. `transport` is how the request ended, `now` the clock
        the service reads, `addedAt` the clock `addToHistory` reads. */
    method HandleDownload(targetUrl: Option<string>, transport: Transport, now: nat, addedAt: int, randomId: string)
      requires Valid()
      modifies this
      ensures Valid()
      // a blank link does nothing at all
      ensures FinalUrl(targetUrl, old(url)) == "" ==>
        && url == old(url) && loading == old(loading) && error == old(error)
        && videoData == old(videoData) && history == old(history) && requests == old(requests)
      // a link outside the accepted language only sets the error
      ensures var finalUrl := FinalUrl(targetUrl, old(url));
        finalUrl != "" && !IsValidTikTokUrl(RawUrl(targetUrl, old(url))) ==>
        && error == Some(InvalidLinkText)
        && url == old(url) && loading == old(loading)
        && videoData == old(videoData) && history == old(history) && requests == old(requests)
      // a valid link is looked up once, and loading is off afterwards
      ensures var finalUrl := FinalUrl(targetUrl, old(url));
        IsValidTikTokUrl(RawUrl(targetUrl, old(url))) ==> requests == old(requests) + [finalUrl] && !loading
      ensures var finalUrl := FinalUrl(targetUrl, old(url));
        var r := FetchTikTokInfo(transport, now);
        IsValidTikTokUrl(RawUrl(targetUrl, old(url))) && r.Success? ==>
        && videoData == Some(r.value.data) && error == None
        && history == PushEntry(old(history), ToHistoryItem(r.value.data, finalUrl, addedAt, randomId))
        && url == (if TargetGiven(targetUrl) then old(url) else "")
      ensures var finalUrl := FinalUrl(targetUrl, old(url));
        var r := FetchTikTokInfo(transport, now);
        IsValidTikTokUrl(RawUrl(targetUrl, old(url))) && r.Failure? ==>
        && videoData == None && error == Some(ShownError(r.error))
        && history == old(history) && url == old(url)
    {
      var raw := RawUrl(targetUrl, url);
      var finalUrl := Trim(raw);
      if finalUrl == "" {
        return;
      }
      // `isValidTikTokUrl` trims its argument itself, so testing the untrimmed
      // link gives the same verdict (see CheckedLinkVerdict)
      if !IsValidTikTokUrl(raw) {
        error := Some(InvalidLinkText);
        return;
      }
      Lookup(finalUrl, TargetGiven(targetUrl), FetchTikTokInfo(transport, now), addedAt, randomId);
    }

    /** The part of `handleDownload` after validation: raise the loading flag,
        clear the previous result, await the lookup (`outcome` is what it
        settled to), show its outcome, and lower the flag again. */
    method Lookup(finalUrl: string, targetGiven: bool, outcome: Result<ApiResponse, FetchError>, addedAt: int, randomId: string)
      requires Valid()
      modifies this
      ensures Valid()
      ensures requests == old(requests) + [finalUrl] && !loading
      ensures outcome.Success? ==>
        && videoData == Some(outcome.value.data) && error == None
        && history == PushEntry(old(history), ToHistoryItem(outcome.value.data, finalUrl, addedAt, randomId))
        && url == (if targetGiven then old(url) else "")
      ensures outcome.Failure? ==>
        && videoData == None && error == Some(ShownError(outcome.error))
        && history == old(history) && url == old(url)
    {
      loading := true;
      error := None;
      videoData := None;
      requests := requests + [finalUrl];
      ShowOutcome(outcome, finalUrl, targetGiven, addedAt, randomId);
      loading := false;
    }

    /** The `try`/`catch` of `handleDownload` once the lookup has ended: show
        the record and record it, or show the error. */
    method ShowOutcome(response: Result<ApiResponse, FetchError>, finalUrl: string, targetGiven: bool,
                       addedAt: int, randomId: string)
      requires Valid()
      modifies this
      ensures Valid()
      ensures loading == old(loading) && requests == old(requests)
      ensures response.Success? ==>
        && videoData == Some(response.value.data) && error == old(error)
        && history == PushEntry(old(history), ToHistoryItem(response.value.data, finalUrl, addedAt, randomId))
        && url == (if targetGiven then old(url) else "")
      ensures response.Failure? ==>
        && videoData == old(videoData) && error == Some(ShownError(response.error))
        && history == old(history) && persisted == old(persisted) && url == old(url)
    {
      match response {
        case Success(r) =>
          videoData := Some(r.data);
          AddToHistory(r.data, finalUrl, addedAt, randomId);
          if !targetGiven {
            url := "";
          }
        case Failure(e) =>
          error := Some(ShownError(e));
      }
    }

    /** `clearHistory`: only when the user confirms, empty the history and
        its stored copy. */
    method ClearHistory(confirmed: bool)
      requires Valid()
      modifies this
      ensures Valid()
      ensures confirmed ==> history == [] && persisted == []
      ensures !confirmed ==> history == old(history) && persisted == old(persisted)
      ensures url == old(url) && loading == old(loading) && error == old(error)
      ensures videoData == old(videoData) && requests == old(requests)
    {
      if confirmed {
        history := [];
        persisted := [];
      }
    }
  }
}
