/**
 * The messaging service's wire vocabulary as the tool uses it: message
 * records, HTTP requests and responses, and the two endpoint URLs.
 */
module Api {
  import opened Wrappers
  import Decimal

  const ApiBase: string := "https://discord.com/api/v9"
  const BeforeParam: string := "&before="

  /** A message record; only its id and its author's id are ever read. */
  datatype Message = Message(id: nat, authorId: string)

  datatype Verb = GET | DELETE

  datatype Request = Request(verb: Verb, url: string)

  /** A response: its HTTP status and, for a page request, the decoded list of messages. */
  datatype Response = Response(status: int, body: seq<Message>)

  /** The client library's notion of success, which both its status check and its success flag use: a 2xx status. */
  predicate IsSuccess(status: int) {
    200 <= status <= 299
  }

  /** Python truthiness of the optional integer cursor: neither None nor 0. */
  predicate Truthy(before: Option<nat>) {
    before.Some? && before.value != 0
  }

  /** The cursor a request actually carries: a falsy cursor is the same as none. */
  function EffectiveCursor(before: Option<nat>): Option<nat> {
    if Truthy(before) then before else None
  }

  /** The page endpoint of a channel, with the page size fixed at 100. */
  function MessagesEndpoint(channelId: string): string {
    ApiBase + "/channels/" + channelId + "/messages?limit=100"
  }

  /** The endpoint of one message of a channel. */
  function MessageEndpoint(channelId: string, messageId: nat): string {
    ApiBase + "/channels/" + channelId + "/messages/" + Decimal.Show(messageId)
  }

  /** The URL of one page request: the page endpoint, plus the cursor only when it is truthy. */
  function PageUrl(channelId: string, before: Option<nat>): (url: string)
    ensures |MessagesEndpoint(channelId)| <= |url|
    ensures url[..|MessagesEndpoint(channelId)|] == MessagesEndpoint(channelId)
    ensures url == MessagesEndpoint(channelId) <==> !Truthy(before)
  {
    MessagesEndpoint(channelId) + (if Truthy(before) then BeforeParam + Decimal.Show(before.value) else "")
  }

  /**
   * Reads a page URL of the given channel back: Some(cursor) for the page
   * endpoint with no cursor or with a decimal cursor, None for any other URL.
   */
  function ParsePageUrl(channelId: string, url: string): Option<Option<nat>> {
    var base := MessagesEndpoint(channelId);
    if |url| < |base| || url[..|base|] != base then None
    else
      var rest := url[|base|..];
      if rest == "" then Some(None)
      else if |rest| < |BeforeParam| || rest[..|BeforeParam|] != BeforeParam then None
      else
        match Decimal.Parse(rest[|BeforeParam|..])
        case Some(n) => Some(Some(n))
        case None => None
  }

  /** Reads a message URL of the given channel back to the message id; None for any other URL. */
  function ParseMessageUrl(channelId: string, url: string): Option<nat> {
    var base := ApiBase + "/channels/" + channelId + "/messages/";
    if |url| < |base| || url[..|base|] != base then None
    else Decimal.Parse(url[|base|..])
  }

  /** A page URL carries exactly the effective cursor. */
  lemma ParsePageUrlRoundTrip(channelId: string, before: Option<nat>)
    ensures ParsePageUrl(channelId, PageUrl(channelId, before)) == Some(EffectiveCursor(before))
  {
    var base := MessagesEndpoint(channelId);
    var url := PageUrl(channelId, before);
    if Truthy(before) {
      var digits := Decimal.Show(before.value);
      var rest := BeforeParam + digits;
      assert url == base + rest;
      assert url[|base|..] == rest;
      assert rest[|BeforeParam|..] == digits;
      Decimal.ParseShow(before.value);
    } else {
      assert url[|base|..] == "";
    }
  }

  /** Two page requests of a channel are the same URL exactly when their effective cursors agree; a cursor of 0 asks for the newest page again. */
  lemma PageUrlSame(channelId: string, b1: Option<nat>, b2: Option<nat>)
    ensures PageUrl(channelId, b1) == PageUrl(channelId, b2) <==> EffectiveCursor(b1) == EffectiveCursor(b2)
  {
    ParsePageUrlRoundTrip(channelId, b1);
    ParsePageUrlRoundTrip(channelId, b2);
  }

  /** A message URL names exactly the message it was built from. */
  lemma ParseMessageUrlRoundTrip(channelId: string, messageId: nat)
    ensures ParseMessageUrl(channelId, MessageEndpoint(channelId, messageId)) == Some(messageId)
  {
    var base := ApiBase + "/channels/" + channelId + "/messages/";
    var url := MessageEndpoint(channelId, messageId);
    assert url == base + Decimal.Show(messageId);
    assert url[|base|..] == Decimal.Show(messageId);
    Decimal.ParseShow(messageId);
  }
}
