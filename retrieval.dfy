/**
 * The retrieval phase as a specification: which pages a run fetches, which
 * requests it sends, and which messages it collects.
 */
module Retrieval {
  import opened Wrappers
  import opened Api

  /** The messages of s written by userId, in their order in s. */
  function FilterAuthor(s: seq<Message>, userId: string): (r: seq<Message>)
    ensures |r| <= |s|
  {
    if s == [] then []
    else (if s[0].authorId == userId then [s[0]] else []) + FilterAuthor(s[1..], userId)
  }

  /** The pages' messages one after the other. */
  function Flatten(pages: seq<seq<Message>>): seq<Message> {
    if pages == [] then [] else pages[0] + Flatten(pages[1..])
  }

  predicate NonEmptyPages(pages: seq<seq<Message>>) {
    forall i :: 0 <= i < |pages| ==> pages[i] != []
  }

  /** The id of the last, oldest message of a page. */
  function LastId(page: seq<Message>): nat
    requires page != []
  {
    page[|page| - 1].id
  }

  /** The cursor in force for request i of a run that started at `before` and received `pages`. */
  function CursorAt(before: Option<nat>, pages: seq<seq<Message>>, i: nat): Option<nat>
    requires NonEmptyPages(pages) && i <= |pages|
  {
    if i == 0 then before else Some(LastId(pages[i - 1]))
  }

  /** The page requests of a run that started at `before` and received `pages` and then one last answer. */
  function PageRequests(channelId: string, before: Option<nat>, pages: seq<seq<Message>>): seq<Request>
    requires NonEmptyPages(pages)
  {
    seq(|pages| + 1, i requires 0 <= i <= |pages| => Request(GET, PageUrl(channelId, CursorAt(before, pages, i))))
  }

  /** How a retrieval ended: at an empty page, or at a response whose status is not 2xx. */
  datatype Ending = EmptyPage | HttpError(status: int)

  /**
   * A finished retrieval: the non-empty pages received in order, how it
   * ended, and the session's request log afterwards.
   */
  datatype Transcript = Transcript(pages: seq<seq<Message>>, ending: Ending, sent: seq<Request>)

  /**
   * The paging loop, from request log `log` and cursor `before`: request a
   * page; stop at a non-2xx status or an empty page; otherwise move the
   * cursor to the page's last id and go on. None when it has not ended
   * within `fuel` requests.
   */
  function Paging(service: seq<Request> -> Response, log: seq<Request>, channelId: string,
                  before: Option<nat>, fuel: nat): Option<Transcript>
    decreases fuel
  {
    if fuel == 0 then None
    else
      var log' := log + [Request(GET, PageUrl(channelId, before))];
      var response := service(log');
      if !IsSuccess(response.status) then Some(Transcript([], HttpError(response.status), log'))
      else if response.body == [] then Some(Transcript([], EmptyPage, log'))
      else
        match Paging(service, log', channelId, Some(LastId(response.body)), fuel - 1)
        case None => None
        case Some(t) => Some(t.(pages := [response.body] + t.pages))
  }

  /** The service answered the last request of `sent` with a 2xx status and this page. */
  predicate AnsweredWith(service: seq<Request> -> Response, sent: seq<Request>, page: seq<Message>) {
    IsSuccess(service(sent).status) && service(sent).body == page
  }

  /** Page i of `pages` is the answer to request start + i of the log `sent`. */
  predicate PagesAnswered(service: seq<Request> -> Response, start: nat, sent: seq<Request>, pages: seq<seq<Message>>) {
    start + |pages| <= |sent| &&
    forall i :: 0 <= i < |pages| ==> AnsweredWith(service, sent[..start + i + 1], pages[i])
  }

  /** A run whose first request is answered with an empty 2xx page ends right there. */
  lemma PagingAfterEmptyPage(service: seq<Request> -> Response, log: seq<Request>, channelId: string,
                             before: Option<nat>, fuel: nat)
    requires fuel > 0
    requires service(log + [Request(GET, PageUrl(channelId, before))]) == Response(200, [])
    ensures Paging(service, log, channelId, before, fuel)
         == Some(Transcript([], EmptyPage, log + [Request(GET, PageUrl(channelId, before))]))
  {
  }

  /** A run whose first request is answered with a non-empty 2xx page is that page followed by the run from its last id. */
  lemma PagingAfterPage(service: seq<Request> -> Response, log: seq<Request>, channelId: string,
                        before: Option<nat>, fuel: nat, page: seq<Message>)
    requires fuel > 0
    requires service(log + [Request(GET, PageUrl(channelId, before))]) == Response(200, page) && page != []
    requires Paging(service, log + [Request(GET, PageUrl(channelId, before))], channelId, Some(LastId(page)), fuel - 1).Some?
    ensures var t := Paging(service, log + [Request(GET, PageUrl(channelId, before))], channelId, Some(LastId(page)), fuel - 1).value;
      Paging(service, log, channelId, before, fuel) == Some(Transcript([page] + t.pages, t.ending, t.sent))
  {
  }

  /**
   * The service answers the page request made with the cursor of page i by
   * page i, and the one after the last page by an empty page, whatever was
   * sent before.
   */
  ghost predicate ServesPages(service: seq<Request> -> Response, channelId: string, before: Option<nat>,
                              pages: seq<seq<Message>>) {
    && NonEmptyPages(pages)
    && forall log: seq<Request>, i: nat :: i <= |pages| ==>
         service(log + [Request(GET, PageUrl(channelId, CursorAt(before, pages, i)))])
         == Response(200, if i < |pages| then pages[i] else [])
  }

  /** Once the first page is received, the service serves the remaining pages from that page's last id. */
  lemma ServesRest(service: seq<Request> -> Response, channelId: string, before: Option<nat>, pages: seq<seq<Message>>)
    requires ServesPages(service, channelId, before, pages) && pages != []
    ensures ServesPages(service, channelId, Some(LastId(pages[0])), pages[1..])
  {
    var rest := pages[1..];
    forall log: seq<Request>, i: nat | i <= |rest|
      ensures service(log + [Request(GET, PageUrl(channelId, CursorAt(Some(LastId(pages[0])), rest, i)))])
           == Response(200, if i < |rest| then rest[i] else [])
    {
      assert CursorAt(Some(LastId(pages[0])), rest, i) == CursorAt(before, pages, i + 1);
    }
  }

  /**
   * Conversely to PagingTranscript: a service that serves `pages` makes the
   * run receive exactly those pages, end at the empty page after them, and
   * send one request per page plus one.
   */
  lemma {:induction false} PagingServed(service: seq<Request> -> Response, log: seq<Request>, channelId: string,
                                        before: Option<nat>, pages: seq<seq<Message>>, fuel: nat)
    requires ServesPages(service, channelId, before, pages)
    requires fuel > |pages|
    ensures Paging(service, log, channelId, before, fuel)
         == Some(Transcript(pages, EmptyPage, log + PageRequests(channelId, before, pages)))
    decreases |pages|
  {
    var log' := log + [Request(GET, PageUrl(channelId, before))];
    assert CursorAt(before, pages, 0) == before;
    assert service(log + [Request(GET, PageUrl(channelId, CursorAt(before, pages, 0)))])
        == Response(200, if 0 < |pages| then pages[0] else []);
    if pages == [] {
      PagingAfterEmptyPage(service, log, channelId, before, fuel);
      assert PageRequests(channelId, before, pages) == [Request(GET, PageUrl(channelId, before))];
    } else {
      var rest := pages[1..];
      ServesRest(service, channelId, before, pages);
      PagingServed(service, log', channelId, Some(LastId(pages[0])), rest, fuel - 1);
      PagingAfterPage(service, log, channelId, before, fuel, pages[0]);
      PageRequestsCons(channelId, before, pages[0], rest);
      assert [pages[0]] + rest == pages;
      assert log' + PageRequests(channelId, Some(LastId(pages[0])), rest)
          == log + PageRequests(channelId, before, pages);
    }
  }

  /** What a retrieval hands back: the target user's messages of all pages, or the failing status. */
  function Retrieved(t: Transcript, userId: string): Result<seq<Message>, int> {
    match t.ending
    case EmptyPage => Success(FilterAuthor(Flatten(t.pages), userId))
    case HttpError(status) => Failure(status)
  }

  /** A message is kept exactly when it is in the input and the target user wrote it. */
  lemma {:induction false} FilterAuthorMembers(s: seq<Message>, userId: string, m: Message)
    ensures m in FilterAuthor(s, userId) <==> m in s && m.authorId == userId
  {
    if s != [] {
      FilterAuthorMembers(s[1..], userId, m);
      assert s == [s[0]] + s[1..];
    }
  }

  /** Filtering commutes with concatenation: earlier messages stay ahead of later ones. */
  lemma {:induction false} FilterAuthorAppend(s: seq<Message>, s': seq<Message>, userId: string)
    ensures FilterAuthor(s + s', userId) == FilterAuthor(s, userId) + FilterAuthor(s', userId)
  {
    if s != [] {
      assert (s + s')[1..] == s[1..] + s';
      FilterAuthorAppend(s[1..], s', userId);
    } else {
      assert s + s' == s';
    }
  }

  /** Receiving one more page extends what was collected by that page's messages from the target user. */
  lemma CollectPage(pages: seq<seq<Message>>, page: seq<Message>, userId: string)
    ensures FilterAuthor(Flatten(pages + [page]), userId) == FilterAuthor(Flatten(pages), userId) + FilterAuthor(page, userId)
  {
    FlattenAppend(pages, page);
    FilterAuthorAppend(Flatten(pages), page, userId);
  }

  lemma TakeOneMore<T>(s: seq<T>, k: nat)
    requires k < |s|
    ensures s[..k + 1] == s[..k] + [s[k]]
  {
  }

  /** Filtering one more message of a page appends it exactly when the target user wrote it. */
  lemma FilterAuthorSnoc(page: seq<Message>, i: nat, userId: string)
    requires i < |page|
    ensures FilterAuthor(page[..i + 1], userId)
         == FilterAuthor(page[..i], userId) + (if page[i].authorId == userId then [page[i]] else [])
  {
    assert page[..i + 1] == page[..i] + [page[i]];
    FilterAuthorAppend(page[..i], [page[i]], userId);
  }

  lemma {:induction false} FlattenAppend(pages: seq<seq<Message>>, page: seq<Message>)
    ensures Flatten(pages + [page]) == Flatten(pages) + page
  {
    if pages == [] {
      assert Flatten([page]) == page + Flatten([]);
    } else {
      assert (pages + [page])[1..] == pages[1..] + [page];
      FlattenAppend(pages[1..], page);
    }
  }

  lemma PageRequestsCons(channelId: string, before: Option<nat>, page: seq<Message>, pages: seq<seq<Message>>)
    requires page != [] && NonEmptyPages(pages)
    ensures NonEmptyPages([page] + pages)
    ensures PageRequests(channelId, before, [page] + pages)
         == [Request(GET, PageUrl(channelId, before))] + PageRequests(channelId, Some(LastId(page)), pages)
  {
    var all := [page] + pages;
    var lhs := PageRequests(channelId, before, all);
    var rhs := [Request(GET, PageUrl(channelId, before))] + PageRequests(channelId, Some(LastId(page)), pages);
    assert |lhs| == |rhs|;
    forall i | 0 <= i < |lhs| ensures lhs[i] == rhs[i] {
      if i > 0 {
        assert all[i - 1] == if i == 1 then page else pages[i - 2];
      }
    }
  }

  /**
   * What a finished retrieval did: it received only non-empty pages, each
   * the body of a 2xx answer; request i carried the cursor left by page
   * i - 1 (the starting cursor for the first); one request followed the
   * last page, and its answer is how the run ended.
   */
  lemma {:induction false} PagingTranscript(service: seq<Request> -> Response, log: seq<Request>, channelId: string,
                                            before: Option<nat>, fuel: nat)
    requires Paging(service, log, channelId, before, fuel).Some?
    ensures NonEmptyPages(Paging(service, log, channelId, before, fuel).value.pages)
    ensures var t := Paging(service, log, channelId, before, fuel).value;
      t.sent == log + PageRequests(channelId, before, t.pages)
    ensures var t := Paging(service, log, channelId, before, fuel).value;
      PagesAnswered(service, |log|, t.sent, t.pages)
    ensures var t := Paging(service, log, channelId, before, fuel).value;
      match t.ending
      case EmptyPage => IsSuccess(service(t.sent).status) && service(t.sent).body == []
      case HttpError(status) => !IsSuccess(status) && service(t.sent).status == status
    decreases fuel
  {
    var log' := log + [Request(GET, PageUrl(channelId, before))];
    var response := service(log');
    if IsSuccess(response.status) && response.body != [] {
      var next := Some(LastId(response.body));
      PagingTranscript(service, log', channelId, next, fuel - 1);
      var t' := Paging(service, log', channelId, next, fuel - 1).value;
      var t := Paging(service, log, channelId, before, fuel).value;
      assert t == t'.(pages := [response.body] + t'.pages);
      PageRequestsCons(channelId, before, response.body, t'.pages);
      forall i | 0 <= i < |t.pages|
        ensures AnsweredWith(service, t.sent[..|log| + i + 1], t.pages[i])
      {
        if i == 0 {
          assert t.sent[..|log| + 1] == log';
        } else {
          var j := i - 1;
          assert 0 <= j < |t'.pages|;
          assert AnsweredWith(service, t'.sent[..|log'| + j + 1], t'.pages[j]);
          assert t.sent[..|log| + i + 1] == t'.sent[..|log'| + j + 1];
          assert t.pages[i] == t'.pages[j];
        }
      }
    } else {
      var t := Paging(service, log, channelId, before, fuel).value;
      assert t.pages == [];
      assert PageRequests(channelId, before, []) == [Request(GET, PageUrl(channelId, before))];
    }
  }

  /**
   * Request k of a finished retrieval that started without a cursor: it
   * extends the log by the page request carrying the cursor left by page
   * k - 1, and its answer is page k, or the ending after the last page.
   */
  lemma TranscriptStep(service: seq<Request> -> Response, log: seq<Request>, channelId: string, fuel: nat, k: nat)
    requires Paging(service, log, channelId, None, fuel).Some?
    requires k <= |Paging(service, log, channelId, None, fuel).value.pages|
    ensures var t := Paging(service, log, channelId, None, fuel).value;
      && NonEmptyPages(t.pages)
      && |t.sent| == |log| + |t.pages| + 1
      && t.sent[..|log|] == log
      && t.sent[..|log| + k + 1] == t.sent[..|log| + k] + [Request(GET, PageUrl(channelId, CursorAt(None, t.pages, k)))]
      && (k < |t.pages| ==> AnsweredWith(service, t.sent[..|log| + k + 1], t.pages[k]))
      && (k == |t.pages| ==> t.sent[..|log| + k + 1] == t.sent)
      && (k == |t.pages| && t.ending == EmptyPage ==> IsSuccess(service(t.sent).status) && service(t.sent).body == [])
      && (k == |t.pages| && t.ending.HttpError? ==> service(t.sent).status == t.ending.status && !IsSuccess(t.ending.status))
  {
    PagingTranscript(service, log, channelId, None, fuel);
    var t := Paging(service, log, channelId, None, fuel).value;
    var requests := PageRequests(channelId, None, t.pages);
    assert t.sent[|log| + k] == requests[k];
  }

  /**
   * A finished retrieval sends one request per non-empty page plus one, all
   * of them page requests (GET); the target user does not enter into it.
   */
  lemma RequestCount(service: seq<Request> -> Response, log: seq<Request>, channelId: string,
                     before: Option<nat>, fuel: nat)
    requires Paging(service, log, channelId, before, fuel).Some?
    ensures var t := Paging(service, log, channelId, before, fuel).value;
      |t.sent| == |log| + |t.pages| + 1 && t.sent[..|log|] == log &&
      forall i :: |log| <= i < |t.sent| ==> t.sent[i].verb == GET
  {
    PagingTranscript(service, log, channelId, before, fuel);
    var t := Paging(service, log, channelId, before, fuel).value;
    forall i | |log| <= i < |t.sent| ensures t.sent[i].verb == GET {
      assert t.sent[i] == PageRequests(channelId, before, t.pages)[i - |log|];
    }
  }

  /** After each non-empty page, the next request carries that page's last id, whoever wrote the page. */
  lemma NextCursorIsLastId(service: seq<Request> -> Response, log: seq<Request>, channelId: string,
                           before: Option<nat>, fuel: nat, i: nat)
    requires Paging(service, log, channelId, before, fuel).Some?
    requires i < |Paging(service, log, channelId, before, fuel).value.pages|
    ensures var t := Paging(service, log, channelId, before, fuel).value;
      t.pages[i] != [] && |log| + i + 1 < |t.sent| &&
      t.sent[|log| + i + 1] == Request(GET, PageUrl(channelId, Some(LastId(t.pages[i]))))
  {
    PagingTranscript(service, log, channelId, before, fuel);
    var t := Paging(service, log, channelId, before, fuel).value;
    assert t.sent[|log| + i + 1] == PageRequests(channelId, before, t.pages)[i + 1];
  }

  /** What is collected only grows: the messages kept from earlier pages are a prefix of those kept after more pages. */
  lemma CollectedOnlyGrows(pages: seq<seq<Message>>, more: seq<seq<Message>>, userId: string)
    ensures var earlier := FilterAuthor(Flatten(pages), userId);
      var later := FilterAuthor(Flatten(pages + more), userId);
      |earlier| <= |later| && later[..|earlier|] == earlier
  {
    FlattenConcat(pages, more);
    FilterAuthorAppend(Flatten(pages), Flatten(more), userId);
  }

  lemma {:induction false} FlattenConcat(pages: seq<seq<Message>>, more: seq<seq<Message>>)
    ensures Flatten(pages + more) == Flatten(pages) + Flatten(more)
  {
    if pages == [] {
      assert pages + more == more;
    } else {
      assert (pages + more)[1..] == pages[1..] + more;
      FlattenConcat(pages[1..], more);
    }
  }

  /**
   * The cursor is tested for truthiness: when the first page ends with a
   * message whose id is 0, the second request is the first one again.
   */
  lemma ZeroIdRepeatsFirstRequest(service: seq<Request> -> Response, log: seq<Request>, channelId: string, fuel: nat)
    requires Paging(service, log, channelId, None, fuel).Some?
    requires var t := Paging(service, log, channelId, None, fuel).value;
      |t.pages| >= 1 && t.pages[0] != [] && LastId(t.pages[0]) == 0
    ensures var t := Paging(service, log, channelId, None, fuel).value;
      |log| + 1 < |t.sent| && t.sent[|log| + 1] == t.sent[|log|]
  {
    PagingTranscript(service, log, channelId, None, fuel);
    var t := Paging(service, log, channelId, None, fuel).value;
    var requests := PageRequests(channelId, None, t.pages);
    assert t.sent[|log|] == requests[0];
    assert t.sent[|log| + 1] == requests[1];
    PageUrlSame(channelId, None, Some(0));
  }

  /**
   * Against a service whose answer depends only on the request, a newest
   * page that ends with id 0 makes the loop run forever: no number of
   * requests finishes it.
   */
  lemma {:induction false} ZeroIdNeverEnds(service: seq<Request> -> Response, answer: Request -> Response,
                                           log: seq<Request>, channelId: string, before: Option<nat>, fuel: nat)
    requires forall sent: seq<Request> :: |sent| > 0 ==> service(sent) == answer(sent[|sent| - 1])
    requires !Truthy(before)
    requires var first := answer(Request(GET, PageUrl(channelId, None)));
      IsSuccess(first.status) && first.body != [] && LastId(first.body) == 0
    ensures Paging(service, log, channelId, before, fuel) == None
    decreases fuel
  {
    if fuel > 0 {
      PageUrlSame(channelId, before, None);
      var log' := log + [Request(GET, PageUrl(channelId, before))];
      assert service(log') == answer(Request(GET, PageUrl(channelId, None)));
      ZeroIdNeverEnds(service, answer, log', channelId, Some(0), fuel - 1);
    }
  }
}