/**
 The feed controller of the mini-app as a pure transition function.

 The script's module-level variables (`swipeCount`, `startY`, `isFetching`),
 the contents of the video container and the number of armed `setTimeout`
 callbacks form a `FeedState`. Browser and network activity arrive as
 `Event`s; what the script asks of the browser (render a screen, pause or
 play the video, issue the request, arm a timer) leaves as `Effect`s.

 `fetchRandomVideoLink` is an async function. Its synchronous prefix, up to
 the first `await`, is `FetchRandomVideoLink`; the continuation that runs
 when the request settles (the try/catch/finally block) is `Settle`, driven
 by the `Settled` event.
 */
module FeedController {
  import opened JsText

  /** Delay of the retry armed after a failed fetch, in milliseconds. */
  const RetryDelay: nat := 5000
  /** Dwell time of the ad screen before the next fetch, in milliseconds. */
  const AdDwell: nat := 3000
  /** A touch gesture must travel strictly more than this upwards. */
  const SwipeThreshold: int := 50
  /** Every advance whose new count is a multiple of this shows an ad. */
  const AdCadence: nat := 2
  /** The prefix a trimmed body needs to be loaded as a video. */
  const UrlPrefix: string := "http"

  /** What the video container shows. `Blank` is the page before the script
      first renders; only `Playing` contains a `<video>` element. */
  datatype Screen = Blank | Loading | Playing(url: string) | Ad | ErrorScreen

  datatype FeedState = FeedState(
    swipeCount: nat,
    startY: int,
    isFetching: bool,
    screen: Screen,
    pendingTimers: nat)

  datatype Effect =
    | Render(screen: Screen)
    | Pause
    | Play
    | Request
    | Schedule(delay: nat)

  /** How the request to the random-line endpoint settled: either `fetch`
      (or reading the body) rejected, or a response arrived. */
  datatype FetchResult = Rejected | Response(status: int, body: string)

  datatype Event =
    | TouchStart(y: int)
    | TouchEnd(y: int)
    | Wheel(deltaY: int)
    | Ended
    | Settled(result: FetchResult)
    | TimerFired

  datatype FetchError = NetworkFailure | BadStatus(status: int) | InvalidUrl(text: string)

  /** The outcome of the try block: a URL handed to `loadVideo`, or the
      error that sends control to the catch block. */
  datatype Outcome = Loaded(url: string) | Failed(error: FetchError)

  datatype Transition = Transition(state: FeedState, effects: seq<Effect>)

  const Initial: FeedState := FeedState(0, 0, false, Blank, 0)

  /** `Response.ok`: the status is in the range 200-299. */
  predicate IsOk(status: int) {
    200 <= status <= 299
  }

  /** The test on the trimmed body: non-empty and starting with "http". */
  predicate AcceptsUrl(u: string) {
    u != [] && StartsWith(u, UrlPrefix)
  }

  /** `videoContainer.querySelector("video")` is not null. */
  predicate HasVideo(s: FeedState) {
    s.screen.Playing?
  }

  /** A transition that changes nothing and asks nothing of the browser. */
  function Ignore(s: FeedState): Transition
  {
    Transition(s, [])
  }

  /** The try block of `fetchRandomVideoLink` once the request settled. */
  function Validate(res: FetchResult): (o: Outcome)
    ensures o.Loaded? <==>
      res.Response? && IsOk(res.status) && AcceptsUrl(Trim(res.body))
    ensures o.Loaded? ==> o.url == Trim(res.body) && TightEnds(o.url)
    ensures res.Rejected? ==> o == Failed(NetworkFailure)
    ensures res.Response? && !IsOk(res.status) ==> o == Failed(BadStatus(res.status))
    ensures res.Response? && IsOk(res.status) && !o.Loaded? ==>
      o == Failed(InvalidUrl(Trim(res.body)))
  {
    match res
    case Rejected => Failed(NetworkFailure)
    case Response(status, body) =>
      if !IsOk(status) then Failed(BadStatus(status))
      else
        var videoUrl := Trim(body);
        if !AcceptsUrl(videoUrl) then Failed(InvalidUrl(videoUrl))
        else Loaded(videoUrl)
  }

  /** The synchronous part of `fetchRandomVideoLink`: the latch, the pause of
      a playing video, the loading screen and the request itself. */
  function FetchRandomVideoLink(s: FeedState): (t: Transition)
    ensures t.state.isFetching
    ensures Request in t.effects <==> !s.isFetching
    ensures Pause in t.effects <==> !s.isFetching && HasVideo(s)
    ensures forall d :: Schedule(d) !in t.effects
    ensures s.isFetching ==> t.state == s && t.effects == []
    ensures !s.isFetching ==> t.state.screen == Loading && Render(Loading) in t.effects
    ensures t.state.swipeCount == s.swipeCount && t.state.startY == s.startY
    ensures t.state.pendingTimers == s.pendingTimers
  {
    if s.isFetching then Ignore(s)
    else
      var pause := if HasVideo(s) then [Pause] else [];
      Transition(s.(isFetching := true, screen := Loading), pause + [Render(Loading), Request])
  }

  /** The continuation of `fetchRandomVideoLink` after the request settled:
      `loadVideo` on success, the error screen and one retry otherwise, and
      in every case the `finally` that releases the latch. */
  function Settle(s: FeedState, res: FetchResult): (t: Transition)
    ensures !t.state.isFetching
    ensures t.state.swipeCount == s.swipeCount && t.state.startY == s.startY
    ensures Validate(res).Loaded? ==>
      && t.state.screen == Playing(Trim(res.body))
      && t.state.pendingTimers == s.pendingTimers
      && t.effects == [Render(Playing(Trim(res.body))), Play]
    ensures Validate(res).Failed? ==>
      && t.state.screen == ErrorScreen
      && t.state.pendingTimers == s.pendingTimers + 1
      && t.effects == [Render(ErrorScreen), Schedule(RetryDelay)]
  {
    match Validate(res)
    case Loaded(url) =>
      Transition(s.(screen := Playing(url), isFetching := false), [Render(Playing(url)), Play])
    case Failed(_) =>
      Transition(
        s.(screen := ErrorScreen, pendingTimers := s.pendingTimers + 1, isFetching := false),
        [Render(ErrorScreen), Schedule(RetryDelay)])
  }

  /** `showAdScreen`: the ad and one armed timer that fetches afterwards. */
  function ShowAdScreen(s: FeedState): (t: Transition)
    ensures t.state.screen == Ad && Render(Ad) in t.effects
    ensures Request !in t.effects && Pause !in t.effects
    ensures forall d :: Schedule(d) in t.effects <==> d == AdDwell
    ensures t.state.pendingTimers == s.pendingTimers + 1
    ensures t.state.isFetching == s.isFetching && t.state.swipeCount == s.swipeCount
  {
    Transition(s.(screen := Ad, pendingTimers := s.pendingTimers + 1), [Render(Ad), Schedule(AdDwell)])
  }

  /** `playNext`: count the advance, then show an ad on every second one
      and fetch a new video on the others. */
  function PlayNext(s: FeedState): (t: Transition)
    ensures t.state.swipeCount == s.swipeCount + 1
    ensures t.state.startY == s.startY
    ensures Render(Ad) in t.effects <==> t.state.swipeCount % AdCadence == 0
    ensures Request in t.effects <==> t.state.swipeCount % AdCadence != 0 && !s.isFetching
    ensures t.state.swipeCount % AdCadence == 0 ==>
      t.state.screen == Ad && t.effects == [Render(Ad), Schedule(AdDwell)]
  {
    var counted := s.(swipeCount := s.swipeCount + 1);
    if counted.swipeCount % AdCadence == 0 then ShowAdScreen(counted)
    else FetchRandomVideoLink(counted)
  }

  /** Whether an event triggers `playNext`: the `ended` listener of the
      current video, a touch that ends more than the threshold above where
      it started, or a downward wheel turn, and only while a video is shown. */
  predicate Advances(s: FeedState, e: Event) {
    && HasVideo(s)
    && match e
       case Ended => true
       case TouchEnd(y) => s.startY - y > SwipeThreshold
       case Wheel(dy) => dy > 0
       case _ => false
  }

  /** One event handled to completion. A `Settled` event with no request in
      flight and a `TimerFired` event with no armed timer cannot be
      delivered by the browser and change nothing. */
  function Step(s: FeedState, e: Event): (t: Transition)
    ensures t.state.swipeCount == s.swipeCount + (if Advances(s, e) then 1 else 0)
    ensures !Advances(s, e) && !e.Settled? && !e.TimerFired? ==>
      t.effects == [] && (t.state == s || (e.TouchStart? && t.state == s.(startY := e.y)))
  {
    match e
    case TouchStart(y) =>
      if HasVideo(s) then Transition(s.(startY := y), []) else Ignore(s)
    case TouchEnd(y) =>
      if HasVideo(s) && s.startY - y > SwipeThreshold then PlayNext(s) else Ignore(s)
    case Wheel(dy) =>
      if HasVideo(s) && dy > 0 then PlayNext(s) else Ignore(s)
    case Ended =>
      if HasVideo(s) then PlayNext(s) else Ignore(s)
    case Settled(res) =>
      if s.isFetching then Settle(s, res) else Ignore(s)
    case TimerFired =>
      if s.pendingTimers > 0 then FetchRandomVideoLink(s.(pendingTimers := s.pendingTimers - 1))
      else Ignore(s)
  }

  /** The script's last statement: the first fetch from the initial page. */
  function Boot(): (t: Transition)
    ensures t.state.isFetching && t.state.screen == Loading && t.state.swipeCount == 0
    ensures t.effects == [Render(Loading), Request]
  {
    FetchRandomVideoLink(Initial)
  }

  /** A sequence of events handled one after another by `step`; the
      effects are concatenated in order. */
  function RunWith(step: (FeedState, Event) -> Transition, s: FeedState, events: seq<Event>): (t: Transition)
    decreases |events|
  {
    if events == [] then Ignore(s)
    else
      var first := step(s, events[0]);
      var rest := RunWith(step, first.state, events[1..]);
      Transition(rest.state, first.effects + rest.effects)
  }

  /** The page's life from a state on: every event handled by `Step`. */
  function Run(s: FeedState, events: seq<Event>): (t: Transition)
  {
    RunWith(Step, s, events)
  }
}
