# Random short-video feed: a Dafny model

The repository is a vertical short-video viewer that runs as a chat-app mini-app. A small
PHP endpoint picks one random line from a text file of video links. The browser script
fetches one link at a time and shows it full screen. It moves on when the user swipes up,
scrolls down or the video ends. Every second advance shows an ad screen instead of a video.

This project models the two pieces of logic in that code:

- **The feed controller** (`app.js`) is written as a pure transition function
  `FeedController.Step(state, event)`. It returns the next `FeedState` and a list of
  `Effect`s. The state holds:
  - the three module-level variables: `swipeCount`, `startY`, `isFetching`;
  - what the video container shows: `Blank`, `Loading`, `Playing(url)`, `Ad`, `ErrorScreen`;
  - the number of armed `setTimeout` callbacks.

  Events are touch start/end, wheel, the video's `ended`, the settling of the request, and
  a timer firing. Effects are render a screen, pause, play, issue the request, and arm a
  timer with a delay.

  `fetchRandomVideoLink` is async. Its part before the first `await` is
  `FetchRandomVideoLink`. Its try/catch/finally continuation is `Settle`, which runs when a
  `Settled` event arrives. The script's final call is `Boot`.
- **The random-line endpoint** (`videos-random.php`) is `RandomLine.Respond(file, pick)`.
  - `file` is the file's text, or `Unreadable` when `file()` returns false.
  - `pick` is the key `array_rand` would return.
  - Line splitting follows PHP's `file()` with `FILE_IGNORE_NEW_LINES | FILE_SKIP_EMPTY_LINES`.
    It is given twice: as a reference function (`FileLines`, built on `Split`) and as the
    scanning loop PHP runs (`ReadLines`). The two are proved equal.

`JsText` holds `String.prototype.trim` (with the ECMAScript whitespace set) and
`startsWith`. `EndToEnd` feeds the endpoint's reply to the controller.

The model follows the code as written:
- the ad cadence is 2: every second advance shows the ad;
- any trimmed body starting with `"http"` is accepted, so `"httpfoo"` passes;
- swipes, wheel turns and `ended` are gated on a `<video>` element being present.

About line splitting: PHP's `file()` (ext/standard/file.c, its `windows_eol` test) with
`FILE_IGNORE_NEW_LINES` removes a carriage return that directly precedes a newline, together
with the newline. The model does the same. So a
line of `"\r\n"` counts as empty and is skipped. A `"\r"` anywhere else stays, including at
the end of a last line that has no newline. Lines of spaces or tabs are kept. On a file
without carriage returns this is exactly "split at `\n`, drop empty pieces"
(`RandomLine.PlainTextLines`).

## Model

| member | source | states |
|---|---|---|
| JsText.Trim | app.js:70 | The result has no whitespace at either end and occurs in the input with only whitespace before and after it; one leading or trailing whitespace character is removed at a time |
| JsText.TrimUnique | app.js:70 | Any occurrence padded only by whitespace and with non-whitespace ends is the trim, so the characterisation determines `trim` completely |
| JsText.TrimIdempotent | app.js:70 | Trimming a trimmed string changes nothing |
| JsText.NonEmptyPrefixForcesNonEmpty | app.js:72 | A string that starts with `"http"` is non-empty, so the `!videoUrl` test never decides on its own |
| FeedController.Validate | app.js:61-78 | A URL is produced iff the status is 200-299 and the trimmed body is non-empty and starts with `"http"`; it is the trimmed body; otherwise a network, status or invalid-URL error |
| FeedController.FetchRandomVideoLink | app.js:50-59 | The latch is set afterwards; a request is issued iff the latch was free; a pause iff the latch was free and a video was shown; no timer is armed; with the latch set nothing changes and nothing is emitted; otherwise the loading screen is shown; counter, startY and armed timers are unchanged |
| FeedController.Settle | app.js:61-100 | The latch is released on every path; success shows and plays the trimmed URL; any failure shows the error screen and arms one 5000 ms retry |
| FeedController.ShowAdScreen | app.js:149-159 | The ad is shown and no video; no request and no pause; the only delay armed is 3000 ms, and one more timer is armed; the latch and the counter are unchanged |
| FeedController.PlayNext | app.js:104-113 | The counter rises by exactly 1; the ad is shown iff the new count is even; a request is issued iff the new count is odd and no request is in flight |
| FeedController.Step | app.js:163-179 | The counter rises by 1 exactly when the event is an advance (video shown, and `ended`, or a touch ending more than 50 above its start, or a wheel turn with deltaY > 0), and is unchanged otherwise; other non-advancing input has no effect |
| FeedController.Boot | app.js:191-194 | The first call shows the loading screen and issues one request, with the counter at 0 |
| FeedProperties.BootEstablishesInv | app.js:191-194 | The state after the first fetch satisfies the invariant |
| FeedProperties.StepPreservesInv | app.js:50-159 | Every event keeps the invariant: in flight exactly on the loading screen, one armed timer exactly on the ad or error screen, any shown URL validated and trimmed |
| FeedProperties.RunPreservesInv | app.js:50-179 | Any sequence of events from an invariant state keeps the invariant |
| FeedProperties.ReachableInv | app.js:191-194 | Every state reachable from boot satisfies the invariant |
| FeedProperties.RequestNeedsFreeLatch | app.js:51-52 | A request is issued only when none is in flight, it sets the latch, and a step issues at most one |
| FeedProperties.FetchWhileFetchingIsNoOp | app.js:51 | `fetchRandomVideoLink` with the latch set changes no state and emits nothing |
| FeedProperties.SettleReleasesLatch | app.js:98-100 | Once an in-flight request settles, on any path, the latch is false and the loading screen is gone |
| FeedProperties.LoadsOnlyValidatedUrls | app.js:64-78 | A video with URL u is rendered iff an in-flight request settled with an ok status and u is the trimmed body and is accepted (non-empty and starting with `"http"`) |
| FeedProperties.AcceptsExactlyPrefixed | app.js:72 | The test on the trimmed body refuses exactly the strings that do not start with `"http"` |
| FeedProperties.NoVideoFromAdvance | app.js:104-113 | Input (touch, wheel, `ended`) never renders a video; an advance with the latch free, and every advance from a state satisfying the invariant, ends on the ad or the loading screen |
| FeedProperties.FailureShowsErrorScreen | app.js:80-94 | A rejected request, a non-ok status or a trimmed body that is not accepted ends on the error screen and no video is rendered |
| FeedProperties.OneTimerPerStep | app.js:80-100 | No event arms more than one timer of any delay |
| FeedProperties.FixedTimerDelays | app.js:149-158 | Every armed timer waits 5000 ms (the retry at app.js:96) or 3000 ms (the ad); the delay never grows |
| FeedProperties.TimerCauses | app.js:80-113 | The 5000 ms retry is armed iff an in-flight request failed; the 3000 ms timer is armed iff an advance reached an even count |
| FeedProperties.InputNeedsVideo | app.js:163-179 | Touch start, touch end, wheel and `ended` change nothing while no video is shown (loading, ad, error or initial screen) |
| FeedProperties.VideoInputGating | app.js:163-179 | With a video shown: touch start records y; touch end advances iff startY - y > 50 (strict); a wheel turn advances iff deltaY > 0 |
| FeedProperties.AdvanceAlternates | app.js:104-113 | In a reachable state, an advance to an even count shows the ad and arms its timer; an advance to an odd count pauses, shows loading and requests |
| FeedProperties.AdWaitsForTimer | app.js:149-159 | While the ad shows, every event but the timer leaves state and effects untouched, so no request comes before the dwell time |
| FeedProperties.TimerResumes | app.js:158 | When the timer of the ad or error screen fires, the loading screen and exactly one request follow |
| FeedProperties.AdsFollowCadence | app.js:104-113 | Over any run the counter never decreases, and the number of ads shown is the number of even values it passed: calls 2, 4, 6, ... show ads |
| FeedProperties.ValidatorExamples | app.js:69-75 | `""` and `"not-a-url"` are refused, `"httpfoo"` is accepted, `" http://x\n"` loads `"http://x"`, a 503 fails whatever the body |
| FeedProperties.RetriesWithoutCap | app.js:80-100 | After any number of failed requests, each followed by its retry, the state is back where it was, with one request and one 5000 ms retry per failure and no ad timer: no attempt cap |
| FeedProperties.FailThenRetry | app.js:96 | One failure and its retry return to the loading state, with effects error screen, retry, loading screen, request |
| RandomLine.FirstNewline | videos-random.php:7 | The position found holds a newline and none comes before it |
| RandomLine.Split | videos-random.php:7 | There is at least one piece and no piece contains a newline |
| RandomLine.JoinSplit | videos-random.php:7 | Gluing the pieces back with newlines gives the file text |
| RandomLine.SplitJoin | videos-random.php:7 | Splitting newline-free pieces glued with newlines gives back the pieces |
| RandomLine.FileLines | videos-random.php:7 | No line is empty and no line contains a newline |
| RandomLine.ReadLines | videos-random.php:7 | PHP's newline scan (find the next newline, cut the line without a carriage return before the newline, skip it if empty, keep the unterminated tail) computes exactly `FileLines` |
| RandomLine.FindNewline | videos-random.php:7 | The scan stops at the first newline, or at the end of the text when it has none |
| RandomLine.PlainTextLines | videos-random.php:7 | Without carriage returns, the lines are exactly the non-empty newline-separated pieces; only `\n` is removed |
| RandomLine.BlankLinesKept | videos-random.php:7 | On any text without carriage returns, a string is a line iff it is a non-empty piece between newlines: whitespace-only lines are kept, only empty lines are skipped |
| RandomLine.BlankLinesExample | videos-random.php:7 | On the file `" \n\n\t\n"` the lines are `" "` and `"\t"` |
| RandomLine.CarriageReturns | videos-random.php:7 | For any newline-free x and any rest y: the lines of x + `"\r\n"` + y are x (unless empty, so a `\r\n`-only line is skipped) followed by the lines of y; a newline-free last line ending in `\r` keeps it |
| RandomLine.CarriageReturnsExample | videos-random.php:7 | On the file `"h\r\n\r\nt\r"` the lines are `"h"` and `"t\r"` |
| RandomLine.EmptyFileHasNoLines | videos-random.php:10-14 | An empty file has no lines and gets the 404 reply |
| RandomLine.Respond | videos-random.php:10-22 | 404 with body exactly `No video links found.` iff the file is unreadable or has no lines; otherwise 200, `text/plain`, body exactly `lines[pick]`, which is a non-empty line of the file |
| RandomLine.ServableBodies | videos-random.php:17-22 | Every index gives a 200 reply with that line; every line is the body for some index, so the random pick ranges over exactly the lines |
| EndToEnd.ReplyDrivesFeed | videos-random.php:10-22 | A missing or empty link file leads to the error screen and a 5000 ms retry; a chosen line is shown, trimmed, iff its trim starts with `"http"`, otherwise the error screen and retry |

## Left out

- The host-shell mock, the overlay, the no-ads and buy-pro buttons and the like button
  (app.js:7-23, app.js:143-145, app.js:182-188). They are UI with no logic.
- The HTML markup built by `showLoadingScreen`, `loadVideo`, `showAdScreen` and the error
  screen. Each becomes one `Render(screen)` effect. The loading message parameter and the
  logged error texts (including `substring(0, 50)`) are dropped.
- Real `fetch`, `res.text()`, `setTimeout`, `video.play()`/`pause()` and `console` output.
  They are async I/O. A rejection of `fetch` or of `res.text()` is the one `Rejected` result.
  The short wait between the response headers and the body is merged into one `Settled` event:
  the latch is held and no video is shown during it, so no handler can act in between.
- Which armed timer fires first. All timers call the same function, so only their number is kept.
- `Telegram.WebApp.ready()` at start-up (host shell).
- The `loop` attribute of the video (app.js:120), which in browsers suppresses `ended`.
  `Ended` is simply an event the environment may deliver while a video is shown.
- FeedController.Step: a `Settled` event with no request in flight, and a `TimerFired` event
  with no armed timer, are treated as no-ops. The browser never delivers them.
- FeedController.Step: touch coordinates and `deltaY` are integers, while the browser uses
  double-precision numbers. The 50-pixel comparison is exact here.
- FeedController.PlayNext: `swipeCount` is an unbounded natural. The JavaScript number stops
  increasing exactly after 2^53.
- Strings are sequences of Unicode scalar values. Byte encoding of the file and of the HTTP
  body, and UTF-16 surrogates, are not modelled. Every `trim` whitespace character lies in
  the Basic Multilingual Plane.
- RandomLine.Respond: the random choice of `array_rand` is the `pick` parameter. Uniformity of
  the choice is not stated; `ServableBodies` states that every line can be chosen. The file
  path, the `exit`, and PHP's default content type of the 404 reply (named `DefaultType`) are
  not modelled further.
- RandomLine.FileLines: PHP's optional `auto_detect_line_endings` (lone `\r` as line end) is
  off by default and not modelled. An empty file is taken to give no lines.
