/**
 What the feed controller guarantees: the state invariant every run from
 boot keeps, the fetch latch, the ad cadence, the gating of user input and
 the unbounded fixed-delay retry.
 */
module FeedProperties {
  import opened JsText
  import opened FeedController

  /** Occurrences of `x` in a list of effects. */
  function Count(effects: seq<Effect>, x: Effect): nat
  {
    multiset(effects)[x]
  }

  /** The invariant of every state reachable from `Boot`: a request is in
      flight exactly while the loading screen shows; exactly one timer is
      armed while the ad or error screen shows and none otherwise; a shown
      video has a URL that passed validation. */
  predicate Inv(s: FeedState) {
    && s.screen != Blank
    && (s.isFetching <==> s.screen == Loading)
    && s.pendingTimers == (if s.screen == Ad || s.screen == ErrorScreen then 1 else 0)
    && (s.screen.Playing? ==> AcceptsUrl(s.screen.url) && TightEnds(s.screen.url))
  }

  /** Events in one list of failed requests, each followed by the retry
      timer it armed. */
  function FailAndRetry(failures: seq<FetchResult>): (events: seq<Event>)
    ensures |events| == 2 * |failures|
  {
    if failures == [] then []
    else [Settled(failures[0]), TimerFired] + FailAndRetry(failures[1..])
  }

  lemma BootEstablishesInv()
    ensures Inv(Boot().state)
  {
  }

  lemma StepPreservesInv(s: FeedState, e: Event)
    requires Inv(s)
    ensures Inv(Step(s, e).state)
  {
    if e.Settled? && s.isFetching && Validate(e.result).Loaded? {
      TrimIdempotent(e.result.body);
    }
  }

  lemma {:induction false} RunPreservesInv(s: FeedState, events: seq<Event>)
    requires Inv(s)
    ensures Inv(Run(s, events).state)
    decreases |events|
  {
    if events != [] {
      StepPreservesInv(s, events[0]);
      RunPreservesInv(Step(s, events[0]).state, events[1..]);
    }
  }

  /** Every state reached from boot satisfies the invariant. */
  lemma ReachableInv(events: seq<Event>)
    ensures Inv(Run(Boot().state, events).state)
  {
    BootEstablishesInv();
    RunPreservesInv(Boot().state, events);
  }

  /** The latch: a request is issued only from a state with none in flight,
      and the state after it has one in flight. So two triggers in a row
      issue one request. */
  lemma RequestNeedsFreeLatch(s: FeedState, e: Event)
    requires Request in Step(s, e).effects
    ensures !s.isFetching && Step(s, e).state.isFetching
    ensures Count(Step(s, e).effects, Request) == 1
  {
  }

  /** Calling `fetchRandomVideoLink` while the latch is set is a no-op. */
  lemma FetchWhileFetchingIsNoOp(s: FeedState)
    requires s.isFetching
    ensures FetchRandomVideoLink(s).state == s
    ensures FetchRandomVideoLink(s).effects == []
  {
  }

  /** A request that settles releases the latch on every path. */
  lemma SettleReleasesLatch(s: FeedState, res: FetchResult)
    requires s.isFetching
    ensures !Step(s, Settled(res)).state.isFetching
    ensures Step(s, Settled(res)).state.screen != Loading
  {
  }

  /** `loadVideo` receives a URL exactly when a request in flight settles
      with an ok status and a body whose trim starts with "http", and the
      URL is that trimmed body. */
  lemma LoadsOnlyValidatedUrls(s: FeedState, e: Event, u: string)
    ensures Render(Playing(u)) in Step(s, e).effects <==>
      && e.Settled? && s.isFetching
      && e.result.Response? && IsOk(e.result.status)
      && u == Trim(e.result.body) && AcceptsUrl(u)
  {
    match e
    case Settled(res) =>
      if s.isFetching {
        SettleRendersUrl(s, res, u);
      } else {
        assert Step(s, e) == Ignore(s);
      }
    case TimerFired =>
      if s.pendingTimers > 0 {
        assert Step(s, e) == FetchRandomVideoLink(s.(pendingTimers := s.pendingTimers - 1));
      } else {
        assert Step(s, e) == Ignore(s);
      }
    case _ =>
      NoVideoFromAdvance(s, e);
  }

  /** The settled case of `LoadsOnlyValidatedUrls`. */
  lemma SettleRendersUrl(s: FeedState, res: FetchResult, u: string)
    requires s.isFetching
    ensures Render(Playing(u)) in Step(s, Settled(res)).effects <==>
      && res.Response? && IsOk(res.status)
      && u == Trim(res.body) && AcceptsUrl(u)
  {
    StepSettles(s, res);
    SettleRendersOnlyValid(s, res, u);
  }

  lemma StepSettles(s: FeedState, res: FetchResult)
    requires s.isFetching
    ensures Step(s, Settled(res)) == Settle(s, res)
  {
  }

  lemma SettleRendersOnlyValid(s: FeedState, res: FetchResult, u: string)
    ensures Render(Playing(u)) in Settle(s, res).effects <==>
      res.Response? && IsOk(res.status) && u == Trim(res.body) && AcceptsUrl(u)
  {
  }

  /** The emptiness test on the trimmed body adds nothing to the prefix
      test: a body is accepted exactly when it starts with "http". */
  lemma AcceptsExactlyPrefixed(u: string)
    ensures AcceptsUrl(u) <==> StartsWith(u, UrlPrefix)
  {
    if StartsWith(u, UrlPrefix) {
      NonEmptyPrefixForcesNonEmpty(u, UrlPrefix);
    }
  }

  /** Input never renders a video. An advance with the latch free, which in
      a reachable state is every advance, shows the ad or the loading screen. */
  lemma NoVideoFromAdvance(s: FeedState, e: Event)
    requires !e.Settled? && !e.TimerFired?
    ensures forall u :: Render(Playing(u)) !in Step(s, e).effects
    ensures Advances(s, e) && !s.isFetching ==>
      Step(s, e).state.screen == Ad || Step(s, e).state.screen == Loading
    ensures Inv(s) && Advances(s, e) ==>
      Step(s, e).state.screen == Ad || Step(s, e).state.screen == Loading
  {
    if Advances(s, e) {
      assert Step(s, e) == PlayNext(s);
    }
  }

  /** A failed request (rejected, non-ok status, or a body that fails the
      check) shows the error screen and never a video. */
  lemma FailureShowsErrorScreen(s: FeedState, res: FetchResult)
    requires s.isFetching
    requires res.Rejected? || !IsOk(res.status) || !AcceptsUrl(Trim(res.body))
    ensures Step(s, Settled(res)).state.screen == ErrorScreen
    ensures forall u :: Render(Playing(u)) !in Step(s, Settled(res)).effects
  {
  }

  /** A step arms at most one timer of any delay. */
  lemma OneTimerPerStep(s: FeedState, e: Event, d: nat)
    ensures Count(Step(s, e).effects, Schedule(d)) <= 1
  {
    if Advances(s, e) {
      AdvanceIsPlayNext(s, e);
      PlayNextArmsOneTimer(s, d);
    } else if e.Settled? {
      SettleArmsOneTimer(s, e.result, d);
    } else if e.TimerFired? {
      TimerArmsNoTimer(s, d);
    } else {
      assert Step(s, e).effects == [];
    }
  }

  lemma PlayNextArmsOneTimer(s: FeedState, d: nat)
    ensures Count(PlayNext(s).effects, Schedule(d)) <= 1
  {
    var counted := s.(swipeCount := s.swipeCount + 1);
    if counted.swipeCount % 2 == 0 {
      assert PlayNext(s).effects == [Render(Ad), Schedule(AdDwell)];
      CountPair(Render(Ad), Schedule(AdDwell), Schedule(d));
    } else {
      assert PlayNext(s) == FetchRandomVideoLink(counted);
      FetchArmsNoTimer(counted, d);
    }
  }

  lemma SettleArmsOneTimer(s: FeedState, res: FetchResult, d: nat)
    ensures Count(Step(s, Settled(res)).effects, Schedule(d)) <= 1
  {
    if s.isFetching {
      StepSettles(s, res);
      if Validate(res).Loaded? {
        CountPair(Render(Playing(Trim(res.body))), Play, Schedule(d));
      } else {
        CountPair(Render(ErrorScreen), Schedule(RetryDelay), Schedule(d));
      }
    }
  }

  lemma TimerArmsNoTimer(s: FeedState, d: nat)
    ensures Count(Step(s, TimerFired).effects, Schedule(d)) == 0
  {
    if s.pendingTimers > 0 {
      var t := s.(pendingTimers := s.pendingTimers - 1);
      assert Step(s, TimerFired) == FetchRandomVideoLink(t);
      FetchArmsNoTimer(t, d);
    }
  }

  lemma CountPair(a: Effect, b: Effect, x: Effect)
    requires a != b
    ensures Count([a, b], x) <= 1
  {
    assert multiset([a, b]) == multiset{a, b};
  }

  /** `fetchRandomVideoLink` never arms a timer itself. */
  lemma FetchArmsNoTimer(s: FeedState, d: nat)
    ensures Count(FetchRandomVideoLink(s).effects, Schedule(d)) == 0
  {
    assert Schedule(d) !in FetchRandomVideoLink(s).effects;
  }

  /** Every timer waits either the 5000 ms of a retry or the 3000 ms of an
      ad: there is no backoff growth. */
  lemma FixedTimerDelays(s: FeedState, e: Event, d: nat)
    ensures Schedule(d) in Step(s, e).effects ==> d == RetryDelay || d == AdDwell
  {
    match e
    case Settled(res) =>
    case TimerFired =>
    case TouchStart(_) =>
    case _ =>
      if Advances(s, e) {
        assert Step(s, e) == PlayNext(s);
      }
  }

  /** The retry is armed exactly by a failed request and the ad timer
      exactly by an advance to an even count. */
  lemma TimerCauses(s: FeedState, e: Event)
    ensures Schedule(RetryDelay) in Step(s, e).effects <==>
      e.Settled? && s.isFetching && !Validate(e.result).Loaded?
    ensures Schedule(AdDwell) in Step(s, e).effects <==>
      Advances(s, e) && (s.swipeCount + 1) % AdCadence == 0
  {
    match e
    case Settled(res) =>
    case TimerFired =>
    case TouchStart(_) =>
    case _ =>
      if Advances(s, e) {
        assert Step(s, e) == PlayNext(s);
      }
  }

  /** Input is ignored unless a video is shown: touches, wheel turns and
      `ended` change nothing on the loading, ad, error and initial screens. */
  lemma InputNeedsVideo(s: FeedState, e: Event)
    requires !HasVideo(s)
    requires e.TouchStart? || e.TouchEnd? || e.Wheel? || e.Ended?
    ensures Step(s, e) == Ignore(s)
  {
  }

  /** With a video shown: a touch start records its position, and a touch
      end advances exactly when it is more than 50 pixels above that
      position, a wheel turn exactly when it scrolls down. */
  lemma VideoInputGating(s: FeedState, y: int)
    requires HasVideo(s)
    ensures Step(s, TouchStart(y)).state == s.(startY := y)
    ensures Step(s, TouchEnd(y)).state.swipeCount == s.swipeCount + 1 <==> s.startY - y > 50
    ensures Step(s, Wheel(y)).state.swipeCount == s.swipeCount + 1 <==> y > 0
  {
  }

  /** In reachable states an advance always comes from the video screen
      with the latch free, so the odd advances really issue a request: the
      1st, 3rd, 5th ... advance fetches, the 2nd, 4th, 6th ... shows an ad. */
  lemma AdvanceAlternates(s: FeedState, e: Event)
    requires Inv(s) && Advances(s, e)
    ensures Step(s, e).state.swipeCount == s.swipeCount + 1
    ensures Step(s, e).state.swipeCount % 2 == 0 ==>
      Step(s, e).effects == [Render(Ad), Schedule(AdDwell)] && Step(s, e).state.screen == Ad
    ensures Step(s, e).state.swipeCount % 2 == 1 ==>
      Step(s, e).effects == [Pause, Render(Loading), Request] && Step(s, e).state.screen == Loading
  {
  }

  /** While the ad shows, nothing but its timer moves the feed on: no
      request is made before the dwell time elapses. */
  lemma AdWaitsForTimer(s: FeedState, e: Event)
    requires Inv(s) && s.screen == Ad && !e.TimerFired?
    ensures Step(s, e) == Ignore(s)
  {
  }

  /** When the armed timer of the ad or error screen fires, a request is
      issued, without any bound on how often this has happened before. */
  lemma TimerResumes(s: FeedState)
    requires Inv(s) && (s.screen == Ad || s.screen == ErrorScreen)
    ensures Step(s, TimerFired).effects == [Render(Loading), Request]
    ensures Step(s, TimerFired).state == s.(isFetching := true, screen := Loading, pendingTimers := 0)
  {
  }

  /** The number of ads shown over any run is the number of even values
      the swipe counter passed through. */
  lemma {:induction false} AdsFollowCadence(s: FeedState, events: seq<Event>)
    ensures Run(s, events).state.swipeCount >= s.swipeCount
    ensures Count(Run(s, events).effects, Render(Ad)) ==
      Run(s, events).state.swipeCount / 2 - s.swipeCount / 2
    decreases |events|
  {
    if events != [] {
      var first := Step(s, events[0]);
      var rest := RunWith(Step, first.state, events[1..]);
      assert RunWith(Step, s, events) == Transition(rest.state, first.effects + rest.effects);
      StepAds(s, events[0]);
      AdsFollowCadence(first.state, events[1..]);
      CountAppend(first.effects, rest.effects, Render(Ad));
    }
  }

  /** One step shows an ad exactly when it moves the counter to an even value. */
  lemma StepAds(s: FeedState, e: Event)
    ensures Step(s, e).state.swipeCount >= s.swipeCount
    ensures Count(Step(s, e).effects, Render(Ad)) == Step(s, e).state.swipeCount / 2 - s.swipeCount / 2
  {
    if Advances(s, e) {
      AdvanceIsPlayNext(s, e);
      PlayNextAds(s);
    } else if e.Settled? {
      SettleShowsNoAd(s, e.result);
    } else if e.TimerFired? {
      TimerShowsNoAd(s);
    } else {
      assert Step(s, e).effects == [];
    }
  }

  lemma AdvanceIsPlayNext(s: FeedState, e: Event)
    requires Advances(s, e)
    ensures Step(s, e) == PlayNext(s)
  {
    match e
    case Ended =>
    case TouchEnd(_) =>
    case Wheel(_) =>
  }

  lemma PlayNextAds(s: FeedState)
    ensures Count(PlayNext(s).effects, Render(Ad)) == PlayNext(s).state.swipeCount / 2 - s.swipeCount / 2
  {
    if (s.swipeCount + 1) % 2 == 0 {
      assert PlayNext(s).effects == [Render(Ad), Schedule(AdDwell)];
    }
  }

  lemma SettleShowsNoAd(s: FeedState, res: FetchResult)
    ensures Step(s, Settled(res)).state.swipeCount == s.swipeCount
    ensures Count(Step(s, Settled(res)).effects, Render(Ad)) == 0
  {
    if s.isFetching {
      var t := Settle(s, res);
      assert Step(s, Settled(res)) == t;
      assert Render(Ad) !in t.effects;
    }
  }

  lemma TimerShowsNoAd(s: FeedState)
    ensures Step(s, TimerFired).state.swipeCount == s.swipeCount
    ensures Count(Step(s, TimerFired).effects, Render(Ad)) == 0
  {
    if s.pendingTimers > 0 {
      var t := FetchRandomVideoLink(s.(pendingTimers := s.pendingTimers - 1));
      assert Step(s, TimerFired) == t;
      assert Render(Ad) !in t.effects;
    }
  }

  lemma CountAppend(a: seq<Effect>, b: seq<Effect>, x: Effect)
    ensures Count(a + b, x) == Count(a, x) + Count(b, x)
  {
    assert multiset(a + b) == multiset(a) + multiset(b);
  }

  /** The check on the body, on concrete bodies: an empty body and
      "not-a-url" are refused, any text starting with "http" is taken, even
      "httpfoo", surrounding whitespace is trimmed off first, and a 503
      status fails whatever the body. */
  lemma ValidatorExamples()
    ensures Validate(Response(200, "")) == Failed(InvalidUrl(""))
    ensures Validate(Response(200, "not-a-url")) == Failed(InvalidUrl("not-a-url"))
    ensures Validate(Response(200, "httpfoo")) == Loaded("httpfoo")
    ensures Validate(Response(200, " http://x\n")) == Loaded("http://x")
    ensures Validate(Response(503, "http://x")) == Failed(BadStatus(503))
  {
    RefusesEmptyBody();
    RefusesNonUrlBody();
    AcceptsBarePrefix();
    TrimsPaddedBody();
  }

  /** A string already free of surrounding whitespace is its own trim. */
  lemma TrimOfTight(u: string)
    requires TightEnds(u)
    ensures Trim(u) == u
  {
    assert Surrounds(u, u, 0) by {
      assert u[..0] == [] && u[0..|u|] == u && u[|u|..] == [];
    }
    TrimUnique(u, u, 0);
  }

  lemma RefusesEmptyBody()
    ensures Validate(Response(200, "")) == Failed(InvalidUrl(""))
  {
    TrimOfTight("");
  }

  lemma RefusesNonUrlBody()
    ensures Validate(Response(200, "not-a-url")) == Failed(InvalidUrl("not-a-url"))
  {
    var bad := "not-a-url";
    TrimOfTight(bad);
    assert !StartsWith(bad, UrlPrefix) by {
      assert bad[..4][0] == 'n';
    }
  }

  lemma AcceptsBarePrefix()
    ensures Validate(Response(200, "httpfoo")) == Loaded("httpfoo")
  {
    var foo := "httpfoo";
    TrimOfTight(foo);
    assert StartsWith(foo, UrlPrefix) by {
      assert foo[..4] == "http";
    }
  }

  lemma TrimsPaddedBody()
    ensures Validate(Response(200, " http://x\n")) == Loaded("http://x")
  {
    var url := "http://x";
    PaddedTrim();
    assert StartsWith(url, UrlPrefix) by {
      assert url[..4] == "http";
    }
  }

  lemma PaddedTrim()
    ensures Trim(" http://x\n") == "http://x"
  {
    var padded := " http://x\n";
    var url := "http://x";
    assert padded[1..9] == url;
    assert AllSpace(padded[..1]) by {
      assert padded[..1] == " ";
    }
    assert AllSpace(padded[9..]) by {
      assert padded[9..] == "\n";
    }
    TrimUnique(padded, url, 1);
  }

  /** Failures are retried for ever at a fixed delay: after any number of
      failed requests, each followed by its retry timer, the state is the
      one before them, one request was issued and one 5000 ms retry armed
      per failure, and no video was loaded. */
  lemma {:induction false} RetriesWithoutCap(s: FeedState, failures: seq<FetchResult>)
    requires Inv(s) && s.screen == Loading
    requires forall k :: 0 <= k < |failures| ==> !Validate(failures[k]).Loaded?
    ensures Run(s, FailAndRetry(failures)).state == s
    ensures Count(Run(s, FailAndRetry(failures)).effects, Request) == |failures|
    ensures Count(Run(s, FailAndRetry(failures)).effects, Schedule(RetryDelay)) == |failures|
    ensures Count(Run(s, FailAndRetry(failures)).effects, Schedule(AdDwell)) == 0
    decreases |failures|
  {
    if failures != [] {
      var cycle := [Settled(failures[0]), TimerFired];
      var more := FailAndRetry(failures[1..]);
      assert FailAndRetry(failures) == cycle + more;
      var cycleEffects := [Render(ErrorScreen), Schedule(RetryDelay), Render(Loading), Request];
      FailThenRetry(s, failures[0]);
      RunAppend(Step, s, cycle, more);
      var rest := RunWith(Step, s, more);
      assert RunWith(Step, s, cycle + more) == Transition(rest.state, cycleEffects + rest.effects);
      RetriesWithoutCap(s, failures[1..]);
      CycleCounts(cycleEffects, rest.effects);
    }
  }

  /** The effects of one failure and its retry, counted. */
  lemma CycleCounts(cycle: seq<Effect>, rest: seq<Effect>)
    requires cycle == [Render(ErrorScreen), Schedule(RetryDelay), Render(Loading), Request]
    ensures Count(cycle + rest, Request) == Count(rest, Request) + 1
    ensures Count(cycle + rest, Schedule(RetryDelay)) == Count(rest, Schedule(RetryDelay)) + 1
    ensures Count(cycle + rest, Schedule(AdDwell)) == Count(rest, Schedule(AdDwell))
  {
    assert multiset(cycle + rest) == multiset(cycle) + multiset(rest);
  }

  /** One failed request and its retry lead back to the loading state. */
  lemma FailThenRetry(s: FeedState, res: FetchResult)
    requires Inv(s) && s.screen == Loading && !Validate(res).Loaded?
    ensures Run(s, [Settled(res), TimerFired]) ==
      Transition(s, [Render(ErrorScreen), Schedule(RetryDelay), Render(Loading), Request])
  {
    var errorState := s.(screen := ErrorScreen, isFetching := false, pendingTimers := 1);
    FailStep(s, res);
    RetryStep(errorState);
    assert errorState.(isFetching := true, screen := Loading, pendingTimers := 0) == s;
    var events := [Settled(res), TimerFired];
    assert events[1..] == [TimerFired] && events[1..][1..] == [];
    assert RunWith(Step, s, []) == Transition(s, []);
    assert RunWith(Step, errorState, [TimerFired]) == Transition(s, [Render(Loading), Request] + []);
    assert RunWith(Step, s, events) ==
      Transition(s, [Render(ErrorScreen), Schedule(RetryDelay)] + ([Render(Loading), Request] + []));
  }

  /** A failed request shows the error screen and arms the retry. */
  lemma FailStep(s: FeedState, res: FetchResult)
    requires s.isFetching && !Validate(res).Loaded?
    ensures Step(s, Settled(res)) ==
      Transition(s.(screen := ErrorScreen, isFetching := false, pendingTimers := s.pendingTimers + 1),
                 [Render(ErrorScreen), Schedule(RetryDelay)])
  {
    assert Step(s, Settled(res)) == Settle(s, res);
  }

  /** The retry timer on the error screen issues the next request. */
  lemma RetryStep(s: FeedState)
    requires s.screen == ErrorScreen && !s.isFetching && s.pendingTimers == 1
    ensures Step(s, TimerFired) ==
      Transition(s.(isFetching := true, screen := Loading, pendingTimers := 0), [Render(Loading), Request])
  {
    assert Step(s, TimerFired) == FetchRandomVideoLink(s.(pendingTimers := 0));
  }

  /** Handling `a + b` is handling `a`, then `b` from where `a` left off,
      whatever the step function. */
  lemma {:induction false} RunAppend(step: (FeedState, Event) -> Transition, s: FeedState, a: seq<Event>, b: seq<Event>)
    ensures RunWith(step, s, a + b) ==
      Transition(
        RunWith(step, RunWith(step, s, a).state, b).state,
        RunWith(step, s, a).effects + RunWith(step, RunWith(step, s, a).state, b).effects)
    decreases |a|
  {
    if a == [] {
      assert a + b == b;
    } else {
      var first := step(s, a[0]);
      assert (a + b)[0] == a[0] && (a + b)[1..] == a[1..] + b;
      var tail := RunWith(step, first.state, a[1..]);
      var last := RunWith(step, tail.state, b);
      RunAppend(step, first.state, a[1..], b);
      assert first.effects + (tail.effects + last.effects) == (first.effects + tail.effects) + last.effects;
    }
  }
}
