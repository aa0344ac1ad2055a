/**
 * The tool itself: retrieve every message of one user in one channel,
 * page by page, then delete them one at a time.
 */
module Redacted {
  import opened Wrappers
  import opened Api
  import opened Retrieval
  import opened Http

  /** The delete requests of the deletion phase: one per message, in list order. */
  function DeleteRequests(channelId: string, messages: seq<Message>): seq<Request> {
    seq(|messages|, i requires 0 <= i < |messages| => Request(DELETE, MessageEndpoint(channelId, messages[i].id)))
  }

  /** The deletion phase makes one attempt per message, in list order, and attempt i names message i. */
  lemma DeleteRequestsTargets(channelId: string, messages: seq<Message>)
    ensures |DeleteRequests(channelId, messages)| == |messages|
    ensures forall i :: 0 <= i < |messages| ==>
      DeleteRequests(channelId, messages)[i].verb == DELETE &&
      ParseMessageUrl(channelId, DeleteRequests(channelId, messages)[i].url) == Some(messages[i].id)
  {
    forall i | 0 <= i < |messages|
      ensures ParseMessageUrl(channelId, DeleteRequests(channelId, messages)[i].url) == Some(messages[i].id)
    {
      ParseMessageUrlRoundTrip(channelId, messages[i].id);
    }
  }

  lemma DeleteRequestsSnoc(channelId: string, messages: seq<Message>, i: nat)
    requires i < |messages|
    ensures DeleteRequests(channelId, messages[..i + 1])
         == DeleteRequests(channelId, messages[..i]) + [Request(DELETE, MessageEndpoint(channelId, messages[i].id))]
  {
  }

  /**
   * The filtering step of retrieval: append to `filtered`, one by one and in
   * page order, every message of the page whose author is the target user.
   */
  method AppendAuthored(filtered: seq<Message>, page: seq<Message>, userId: string) returns (r: seq<Message>)
    ensures r == filtered + FilterAuthor(page, userId)
  {
    r := filtered;
    for i := 0 to |page|
      invariant r == filtered + FilterAuthor(page[..i], userId)
    {
      FilterAuthorSnoc(page, i, userId);
      if page[i].authorId == userId {
        r := r + [page[i]];
      }
    }
    assert page[..|page|] == page;
  }

  /**
   * Retrieval. Requests pages newest first, filters each by author and moves
   * the cursor to the page's last message, until a page comes back empty;
   * a non-2xx status aborts with that status. The ghost `fuel` bounds the
   * number of requests: the loop only ends if the service eventually answers
   * with an empty page or an error, and the precondition says it does.
   */
  method GetMessages(session: Session, channelId: string, userId: string, ghost fuel: nat)
    returns (r: Result<seq<Message>, int>)
    requires Paging(session.service, session.sent, channelId, None, fuel).Some?
    modifies session
    ensures var t := Paging(session.service, old(session.sent), channelId, None, fuel).value;
      session.sent == t.sent && r == Retrieved(t, userId)
  {
    ghost var log := session.sent;
    ghost var t := Paging(session.service, log, channelId, None, fuel).value;
    TranscriptStep(session.service, log, channelId, fuel, 0);
    var before: Option<nat> := None;
    var filtered: seq<Message> := [];
    ghost var pages: seq<seq<Message>> := [];
    while true
      invariant |pages| <= |t.pages| && pages == t.pages[..|pages|]
      invariant session.sent == t.sent[..|log| + |pages|]
      invariant filtered == FilterAuthor(Flatten(pages), userId)
      invariant before == CursorAt(None, t.pages, |pages|)
      decreases |t.pages| - |pages|
    {
      TranscriptStep(session.service, log, channelId, fuel, |pages|);
      var url := PageUrl(channelId, before);
      var response := session.Get(url);
      if !IsSuccess(response.status) {
        return Failure(response.status);
      }
      var page := response.body;
      if page == [] {
        assert |pages| == |t.pages|;
        assert pages == t.pages;
        break;
      }
      filtered := AppendAuthored(filtered, page, userId);
      CollectPage(pages, page, userId);
      TakeOneMore(t.pages, |pages|);
      assert CursorAt(None, t.pages, |pages| + 1) == Some(LastId(page));
      before := Some(LastId(page));
      pages := pages + [page];
    }
    return Success(filtered);
  }

  /**
   * One delete request for one message. The answer decides only which of
   * two log lines is written, reported here as `deleted`; it is never
   * raised to the caller.
   */
  method DeleteMessage(session: Session, messageId: nat, channelId: string) returns (deleted: bool)
    modifies session
    ensures session.sent == old(session.sent) + [Request(DELETE, MessageEndpoint(channelId, messageId))]
    ensures deleted == IsSuccess(session.service(session.sent).status)
  {
    var response := session.Delete(MessageEndpoint(channelId, messageId));
    deleted := IsSuccess(response.status);
  }

  /**
   * The run after argument handling: retrieval, then one delete attempt per
   * retrieved message, in order, whatever the earlier attempts answered. A
   * failed retrieval aborts the run before any deletion. The result is the
   * list whose deletion was attempted, or the status that aborted the run.
   */
  method Run(session: Session, userId: string, channelId: string, ghost fuel: nat)
    returns (r: Result<seq<Message>, int>)
    requires Paging(session.service, session.sent, channelId, None, fuel).Some?
    modifies session
    ensures var t := Paging(session.service, old(session.sent), channelId, None, fuel).value;
      r == Retrieved(t, userId) &&
      session.sent == t.sent + (if r.Success? then DeleteRequests(channelId, r.value) else [])
  {
    r := GetMessages(session, channelId, userId, fuel);
    if r.Failure? {
      return;
    }
    var messages := r.value;
    ghost var retrieved := session.sent;
    for i := 0 to |messages|
      invariant session.sent == retrieved + DeleteRequests(channelId, messages[..i])
    {
      var _ := DeleteMessage(session, messages[i].id, channelId);
      DeleteRequestsSnoc(channelId, messages, i);
    }
    assert messages[..|messages|] == messages;
  }
}
