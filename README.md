# TokSave core, modelled in Dafny

TokSave is a small web page that turns a TikTok link into watermark-free
download links. Its decision logic sits in two places, and this project
models both.

- **The service layer** (`services/tiktokApi.ts`):
  - The link check `isValidTikTokUrl`: trim the input, then test a fixed case-insensitive pattern.
  - The lookup `fetchTikTokInfo`. It passes a status gate first. Then it turns whatever JSON the upstream API returned into one canonical video record, or into an error message.
    - It finds the data object, at `data` or at the top level.
    - It resolves the play URL and the watermarked URL from ordered fallback chains.
    - It fills every other field from its own chain with a default.
    - When no record can be built, it picks the upstream's own message or a fixed text.
- **The page state** (`App.tsx`):
  - `addToHistory`: project a record to a history entry, drop older entries with the same id, put the new entry first, keep fifteen.
  - `handleDownload`: an empty input does nothing and an invalid link only sets the error. Otherwise a lookup follows: success shows and records the video, failure shows a message.
  - `clearHistory`: only after confirmation.
  - The stored copy of the history is its first fifteen entries.

Files:

- `js_values.dfy` (`JsValues`): JavaScript values as the core sees them.
  - Truthiness and `||`. `FirstTruthy` is the reference meaning of a fallback chain. `OrChain` is the left-grouped chain as written, and `OrChainIsFirstTruthy` proves the two agree.
  - Property reads that yield `undefined`, and `===` on ids.
  - `String(v)`, with decimal rendering of integers and a round-trip proof against an independent decimal reading.
- `js_text.dfy` (`JsText`): `String.prototype.trim` with the ECMAScript whitespace and line-terminator sets, and the ASCII case folding of a non-`u` case-insensitive pattern.
- `types.dfy` (`Types`): the records of `types.ts`. Fields copied from the payload are JavaScript values, because nothing checks their declared types.
- `tiktok_api.dfy` (`TikTokApi`): the link check, as a deterministic recogniser proved equal to the pattern's language, plus the normaliser, the error selection and the status gate.
- `history.dfy` (`History`): the entry projection and the pure history updater with its invariants.
- `app.dfy` (`AppState`): class `App`, whose fields are the page's state hooks plus the stored history. Each handler is a method that runs to completion; the lookup's outcome, the clocks, the random id and the confirmation answer are inputs.
- `wrappers.dfy` (`Wrappers`): `Option` and `Result`.

## Model

| member | source | states |
|---|---|---|
| JsValues.Get | services/tiktokApi.ts:42-56 | `v?.key` is the object's own property when present and `undefined` for a missing key or for any value that is not an object |
| JsValues.FirstTruthy | services/tiktokApi.ts:49-52 | a fallback chain is truthy iff one of its members is; its value is the first truthy member; when none is truthy it is the last member |
| JsValues.OrChainIsFirstTruthy | services/tiktokApi.ts:49-56 | the left-grouped `a \|\| b \|\| c` chain as written equals the first-truthy-wins reading |
| JsValues.Fallback | services/tiktokApi.ts:60-75 | `c0 \|\| ... \|\| default` yields the first truthy candidate (all before it falsy) or, when all are falsy, the default; it is truthy whenever the default is |
| JsValues.StrictEqualsMeansEqual | App.tsx:41 | `===` on ids holds exactly for equal primitive values; arrays and objects never match |
| JsValues.NatToDecimal | services/tiktokApi.ts:60 | `String(n)` of a natural number is non-empty decimal digits without a leading zero |
| JsValues.DecimalRoundTrip | services/tiktokApi.ts:60 | reading the rendered digits back gives the number, so a rendered status or timestamp loses nothing |
| JsValues.DecimalInjective | services/tiktokApi.ts:60 | different timestamps render as different generated ids |
| JsText.Trim | services/tiktokApi.ts:100 | `trim` keeps a contiguous middle of the input, everything cut on either side is whitespace or a line terminator, and the result neither starts nor ends with one |
| JsText.TrimIdempotent | services/tiktokApi.ts:100 | trimming twice is trimming once |
| JsText.TrimEmptyIff | services/tiktokApi.ts:100-101 | the trimmed text is empty exactly when every character is whitespace or a line terminator |
| JsText.AsciiLower | services/tiktokApi.ts:103 | the `i` flag folds A-Z to a-z character by character and leaves every other character alone |
| TikTokApi.PatternTestCorrect | services/tiktokApi.ts:103 | the deterministic recogniser accepts exactly the language of an optional `http://` or `https://`, an optional `www.`/`vm.`/`vt.`/`v.`/`m.`, then `tiktok.com/`, then characters that are not line terminators, case-insensitively |
| TikTokApi.ValidIffInLanguage | services/tiktokApi.ts:99-104 | a link is valid exactly when its trimmed text is in that language |
| TikTokApi.BlankUrlRejected | services/tiktokApi.ts:100-101 | empty or whitespace-only input is rejected |
| TikTokApi.ValidityIgnoresSurroundingWhitespace | services/tiktokApi.ts:100-103 | validity of a link equals validity of its trimmed text |
| TikTokApi.ShortLinkAccepted | services/tiktokApi.ts:103 | `vm.tiktok.com/ZMabc` is accepted |
| TikTokApi.UpperCaseAccepted | services/tiktokApi.ts:103 | `HTTPS://WWW.TIKTOK.COM/@u` is accepted |
| TikTokApi.MissingSlashRejected | services/tiktokApi.ts:103 | `tiktok.com` without the slash is rejected |
| TikTokApi.UnknownSubdomainRejected | services/tiktokApi.ts:103 | `us.tiktok.com/x` is rejected |
| TikTokApi.LookAlikeRejected | services/tiktokApi.ts:103 | `evil-tiktok.com/` is rejected |
| TikTokApi.HttpStatusMessage | services/tiktokApi.ts:30-34 | the message for a failed status starts with the fixed text and then the status code in decimal, which reads back as the status |
| TikTokApi.LocateData | services/tiktokApi.ts:40-46 | `data` is used when it is a non-array object; otherwise the payload itself when `play`, `id` or `video_link_nwm` is truthy; otherwise there is no data object |
| TikTokApi.ResolvePlay | services/tiktokApi.ts:49-52 | the play URL is the first truthy of `video_link_nwm_hd`, `video_link_nwm`, `play`, `url`, in that order; it is truthy iff one of them is, and it is then one of their values |
| TikTokApi.ResolveAuthor | services/tiktokApi.ts:67-71 | nickname, handle and avatar each fall back to their own default, and all three are truthy |
| TikTokApi.ResolveMusicInfo | services/tiktokApi.ts:72-75 | track title and author each come from `music_info`, then `music`, then their default |
| TikTokApi.ResolveMusic | services/tiktokApi.ts:66 | a string `music` is kept as it is; anything else gives its `uri` or empty text |
| TikTokApi.BuildRecord | services/tiktokApi.ts:54-76 | every field of the record falls back along its own chain: id to the decimal current time, title, cover, duration to 0 without coercion, watermark URL to the play URL; the record is canonical |
| TikTokApi.ReportedFailure | services/tiktokApi.ts:86-91 | the failure carries `msg \|\| message` exactly when one of them is truthy, and the fixed "unable to extract" failure otherwise |
| TikTokApi.Normalize | services/tiktokApi.ts:36-91 | a `null` payload fails as reading `data` of `null`; success iff a data object is found and its play URL is truthy; success has code 0, message "success", the resolved play URL, the record built from the located data object with each field's fallback chain (a canonical record) and `processed_time \|\| 0`; every other failure is the reported one |
| TikTokApi.FetchTikTokInfo | services/tiktokApi.ts:20-96 | a rejected request or an unparsable body fails with the runtime's message; a status outside 200-299 fails with the status error before the body is used; a parsed body is normalised |
| TikTokApi.WatermarkDefaultsToPlay | services/tiktokApi.ts:54-64 | on success the watermark URL is truthy: one of its own keys' values, or the play URL |
| TikTokApi.HdLinkWins | services/tiktokApi.ts:49-58 | a truthy HD no-watermark link in the located data object makes the lookup succeed with that link as the play URL, whatever the lower-priority keys hold |
| TikTokApi.GeneratedId | services/tiktokApi.ts:60 | a record with no `_id`, `id` or `aweme_id` gets the decimal current time as its id |
| TikTokApi.WrappedPayload | services/tiktokApi.ts:42-58 | a payload `{data: {play: x}}` with no no-watermark link succeeds with play URL `x` |
| TikTokApi.FlattenedPayload | services/tiktokApi.ts:44-58 | a flattened payload with `video_link_nwm: x` and no HD link succeeds with play URL `x` |
| TikTokApi.DataWithoutPlayUrl | services/tiktokApi.ts:58-91 | a data object with no play URL fails, and the upstream's message is still consulted |
| TikTokApi.PrivateVideo | services/tiktokApi.ts:87-89 | `{msg: "private video"}` fails with exactly the message "private video" |
| TikTokApi.StatusGateIgnoresBody | services/tiktokApi.ts:30-34 | a non-ok status fails, and the same way whatever the body holds |
| History.Take | App.tsx:42 | `slice(0, n)` is the prefix of length `min(\|s\|, n)` |
| History.ToHistoryItem | App.tsx:31-38 | the entry's id is the record's id or the random id, the title the record's or "TikTok Video", the author the handle or "tiktok_user"; URL, cover and time are copied |
| History.CanonicalProjection | App.tsx:32-37 | for a record the service built, the entry copies id, title and handle unchanged, so no default and no random id is used |
| History.WithoutIdMembers | App.tsx:41 | the filter keeps exactly the entries whose id is not `===` to the new one |
| History.WithoutIdIsSubsequence | App.tsx:41 | the filter keeps the surviving entries in their original order |
| History.WithoutPresentId | App.tsx:41 | with unique ids, filtering out an id that occurs removes exactly one entry |
| History.PushEntry | App.tsx:40-43 | the new history is 1 to 15 entries long, starts with the new entry, continues with the filtered old entries cut to fourteen, and no later entry shares the new id |
| History.MoveToFront | App.tsx:41-42 | re-adding an id already present (unique ids, at most fifteen entries) keeps the length: the entry moves to the front |
| History.AddNewId | App.tsx:41-42 | adding an id not present prepends the entry and cuts to fifteen |
| History.AddKeepsUniqueIds | App.tsx:41-42 | the updater keeps ids unique |
| History.AddDistinct | App.tsx:40-43 | adding entries with fresh distinct ids one after another leaves the latest fifteen, most recent first |
| AppState.CheckedLinkVerdict | App.tsx:47-50 | testing the link before the handler's own trim gives the same verdict as testing the trimmed link |
| AppState.ShownError | App.tsx:70 | the banner is never empty: it is the error's message, or the fallback text when the message is empty |
| AppState.FallbackOnlyForEmptyMessages | App.tsx:68-70 | the fallback text replaces a real message only for a request or parse that threw with an empty message, or an upstream message that is an array rendering as empty text |
| AppState.HttpFailureShown | App.tsx:70 | a failed status is shown with its status code |
| AppState.SuccessRecordsTheVideo | App.tsx:61-63 | after a successful lookup, the history's head carries the video's own id, title and handle, the submitted link and the time |
| AppState.App.constructor | App.tsx:9-27 | the page starts with empty input, no error, no result and not loading; the history is the stored list when one was stored and parsed, else empty; storage mirrors it |
| AppState.App.AddToHistory | App.tsx:30-44 | the history becomes the updater's result for the projected entry, storage follows, nothing else changes |
| AppState.App.HandleDownload | App.tsx:46-74 | a blank link changes nothing; an invalid link sets only the invalid-link error; a valid link is looked up once and leaves loading off; success shows the record, records it, clears the error and clears the input only when no link was passed in; failure shows the error text, clears the result and keeps history and input |
| AppState.App.Lookup | App.tsx:55-73 | the loading, clear, await, show and unload sequence, for a given lookup outcome |
| AppState.App.ShowOutcome | App.tsx:61-70 | success shows the record and records it, clearing the input only when no link was passed in; failure shows the error text |
| AppState.App.ClearHistory | App.tsx:76-81 | when confirmed, the history and its stored copy are empty; otherwise nothing changes |

## Where the code departs from the intended behaviour

The intended behaviour differs from the code in a few places. The model follows the code.

- The intended behaviour consults the upstream's `msg`/`message` only when no data object was found. A found data object without a play URL would be a separate "missing play URL" failure. The code consults `msg || message` whenever no record is built (`TikTokApi.ReportedFailure`, `TikTokApi.DataWithoutPlayUrl`), and it has no separate failure kind for a missing play URL.
- The intended behaviour coerces `duration` to a number and every text field to a string. The code copies whatever truthy value it finds: `duration || 0`, and `play`, `id` and `title` of any type.
- A JSON `null` body is not one of the intended failures. In the code, reading `data` of `null` throws a `TypeError`, which becomes the shown message (`TikTokApi.NullPayload`).

## Left out

- The HTTP request, its headers, the API key, and reading the body as text or JSON are network I/O. Their outcome is the `Transport` input: a rejected request, or a status with a body that did or did not parse.
- Reading the body as text on a failed status, and that read failing, are left out. The status message does not depend on the body.
- All console logging is left out.
- Local storage is modelled as the `persisted` field and the constructor's `saved` input. A stored value that parses to something other than a list of entries is not modelled.
- `Math.random()` and `Date.now()` are inputs: `randomId`, `now` for the service and `addedAt` for the history entry.
- React's asynchronous rendering is left out. Each handler runs to completion as one step, so a second submission while a lookup is pending and the batching of state updates are not modelled.
- The rendered markup, `VideoCard`, `History`, the header click that resets the page, and the input's change handler are presentation.
- The "could not find video data" branch of `handleDownload` is unreachable. A successful lookup always carries a record object, so the model has no path for it.
- Numbers are integers. Fractional values, and the exponent form `String` uses for numbers of 1e21 and above, are not modelled.
- `String(v)` for an object uses the default `[object Object]`. Payload objects whose own `toString` or `valueOf` keys would change that are not modelled.
- Strings are sequences of characters. UTF-16 surrogate pairs are not modelled.
- The text of the `TypeError` for a `null` body is the one V8 produces. Other engines word it differently.
- AppState.App.HandleDownload: it tests the untrimmed link instead of the trimmed one. `AppState.CheckedLinkVerdict` proves the verdict is the same.
