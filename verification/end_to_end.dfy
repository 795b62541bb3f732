/**
 The endpoint's reply fed to the feed controller: what the viewer shows for
 each state of the link file.
 */
module EndToEnd {
  import opened JsText
  import opened FeedController
  import opened FeedProperties
  import opened RandomLine

  /** The reply as the browser's `fetch` delivers it. */
  function Deliver(reply: Reply): FetchResult
  {
    Response(reply.status, reply.body)
  }

  /** A missing or empty link file makes the viewer show the error screen
      and arm its 5000 ms retry; a link file line is shown, trimmed, exactly
      when its trimmed text is accepted, and otherwise the error
      screen and its retry follow as well. */
  lemma ReplyDrivesFeed(s: FeedState, file: FileRead, pick: nat)
    requires Inv(s) && s.screen == Loading
    requires file.Contents? && FileLines(file.text) != [] ==> pick < |FileLines(file.text)|
    ensures var t := Step(s, Settled(Deliver(Respond(file, pick))));
      && !t.state.isFetching
      && (file.Unreadable? || FileLines(file.text) == [] ==>
            t.state.screen == ErrorScreen && t.effects == [Render(ErrorScreen), Schedule(RetryDelay)])
      && (file.Contents? && FileLines(file.text) != [] ==>
            var url := Trim(FileLines(file.text)[pick]);
            (t.state.screen == Playing(url) <==> AcceptsUrl(url))
            && (!AcceptsUrl(url) ==> t.effects == [Render(ErrorScreen), Schedule(RetryDelay)]))
  {
    var reply := Respond(file, pick);
    if reply.status == NotFoundStatus {
      assert !IsOk(reply.status);
    }
  }
}
