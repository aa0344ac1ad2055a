/**
 * An assumed, well-behaved service, under which retrieval provably ends.
 * The tool itself assumes nothing of the kind: this module states the
 * assumption separately and proves what the run does under it.
 *
 * Assumption: the channel's history is fixed while the tool runs; it is
 * listed newest first; ids are positive and strictly decreasing; a page
 * request is answered with the (up to) 100 newest messages older than its
 * cursor, all messages when it carries none.
 */
module History {
  import opened Wrappers
  import opened Api
  import opened Retrieval
  import opened Http
  import opened Redacted

  predicate Ordered(history: seq<Message>) {
    && (forall i :: 0 <= i < |history| ==> history[i].id > 0)
    && (forall i, j :: 0 <= i < j < |history| ==> history[i].id > history[j].id)
  }

  /** The messages of the history whose id is below c. */
  function OlderThan(history: seq<Message>, c: nat): seq<Message> {
    if history == [] then []
    else (if history[0].id < c then [history[0]] else []) + OlderThan(history[1..], c)
  }

  /** The messages a request with this cursor may see: all of them without a cursor. */
  function Older(history: seq<Message>, before: Option<nat>): seq<Message> {
    match before
    case None => history
    case Some(c) => OlderThan(history, c)
  }

  function Newest100(s: seq<Message>): seq<Message> {
    if |s| <= 100 then s else s[..100]
  }

  /** The assumed service's answer to the last request of `sent`. */
  function HistoryAnswer(history: seq<Message>, channelId: string, sent: seq<Request>): Response {
    if sent == [] then Response(404, [])
    else
      var request := sent[|sent| - 1];
      match request.verb
      case DELETE => Response(204, [])
      case GET =>
        match ParsePageUrl(channelId, request.url)
        case Some(before) => Response(200, Newest100(Older(history, before)))
        case None => Response(404, [])
  }

  function HistoryService(history: seq<Message>, channelId: string): seq<Request> -> Response {
    sent => HistoryAnswer(history, channelId, sent)
  }

  /** A service that answers every page request of the channel as the assumed service does. */
  ghost predicate ServesHistory(service: seq<Request> -> Response, history: seq<Message>, channelId: string) {
    forall log: seq<Request>, before: Option<nat> {:trigger service(log + [Request(GET, PageUrl(channelId, before))])} ::
      service(log + [Request(GET, PageUrl(channelId, before))]) == Response(200, Newest100(Older(history, EffectiveCursor(before))))
  }

  /** The assumed service answers a page request with the newest 100 messages older than the cursor the URL carries. */
  lemma HistoryServiceServes(history: seq<Message>, channelId: string)
    ensures ServesHistory(HistoryService(history, channelId), history, channelId)
  {
    forall log: seq<Request>, before: Option<nat>
      ensures HistoryService(history, channelId)(log + [Request(GET, PageUrl(channelId, before))])
           == Response(200, Newest100(Older(history, EffectiveCursor(before))))
    {
      var sent := log + [Request(GET, PageUrl(channelId, before))];
      assert sent[|sent| - 1] == Request(GET, PageUrl(channelId, before));
      ParsePageUrlRoundTrip(channelId, before);
    }
  }

  lemma {:induction false} OlderThanAll(s: seq<Message>, c: nat)
    requires forall i :: 0 <= i < |s| ==> s[i].id < c
    ensures OlderThan(s, c) == s
  {
    if s != [] {
      OlderThanAll(s[1..], c);
      assert s == [s[0]] + s[1..];
    }
  }

  /** In an ordered history, the messages older than message j are exactly those after it. */
  lemma {:induction false} OlderThanSuffix(history: seq<Message>, j: nat)
    requires Ordered(history) && j < |history|
    ensures OlderThan(history, history[j].id) == history[j + 1..]
  {
    if j == 0 {
      OlderThanAll(history[1..], history[0].id);
    } else {
      var rest := history[1..];
      assert Ordered(rest);
      assert rest[j - 1] == history[j];
      OlderThanSuffix(rest, j - 1);
      assert rest[j..] == history[j + 1..];
    }
  }

  /** The page request with a given cursor is answered with the newest 100 of the messages older than it. */
  lemma HistoryAnswers(service: seq<Request> -> Response, history: seq<Message>, channelId: string,
                       log: seq<Request>, before: Option<nat>)
    requires ServesHistory(service, history, channelId)
    ensures service(log + [Request(GET, PageUrl(channelId, before))])
         == Response(200, Newest100(Older(history, EffectiveCursor(before))))
  {
  }

  /** The history cut, newest first, into pages of 100 messages, the last one possibly shorter. */
  function Chunks(s: seq<Message>): seq<seq<Message>>
    decreases |s|
  {
    if s == [] then []
    else if |s| <= 100 then [s]
    else [s[..100]] + Chunks(s[100..])
  }

  /** The chunks are non-empty, there are ceil(|s| / 100) of them, and together they are s again. */
  lemma {:induction false} ChunksCover(s: seq<Message>)
    ensures NonEmptyPages(Chunks(s))
    ensures |Chunks(s)| == (|s| + 99) / 100
    ensures Flatten(Chunks(s)) == s
    decreases |s|
  {
    if |s| > 100 {
      ChunksCover(s[100..]);
      FlattenCons(s[..100], Chunks(s[100..]));
      assert s[..100] + s[100..] == s;
    } else if s != [] {
      FlattenCons(s, []);
    }
  }

  lemma FlattenCons(page: seq<Message>, rest: seq<seq<Message>>)
    ensures Flatten([page] + rest) == page + Flatten(rest)
  {
    assert ([page] + rest)[1..] == rest;
  }

  /**
   * When history[k..] is still to fetch, the next page is its first n
   * messages, which is its first chunk, and the cursor it yields leaves
   * exactly history[k + n..].
   */
  lemma HistoryNextPage(history: seq<Message>, k: nat) returns (n: nat)
    requires Ordered(history) && k < |history|
    ensures 0 < n && k + n <= |history|
    ensures Newest100(history[k..]) == history[k..k + n]
    ensures Chunks(history[k..]) == [history[k..k + n]] + Chunks(history[k + n..])
    ensures Older(history, EffectiveCursor(Some(LastId(history[k..k + n])))) == history[k + n..]
  {
    n := if |history| - k <= 100 then |history| - k else 100;
    var page := history[k..k + n];
    assert LastId(page) == history[k + n - 1].id;
    OlderThanSuffix(history, k + n - 1);
    if n == 100 {
      assert history[k..][100..] == history[k + n..];
    } else {
      assert history[k + n..] == [];
    }
  }

  /** From a cursor that leaves history[k..] to fetch, the assumed service serves that suffix in chunks. */
  lemma {:induction false} HistoryServesChunks(service: seq<Request> -> Response, history: seq<Message>, channelId: string,
                                               before: Option<nat>, k: nat)
    requires ServesHistory(service, history, channelId)
    requires Ordered(history) && k <= |history|
    requires Older(history, EffectiveCursor(before)) == history[k..]
    ensures ServesPages(service, channelId, before, Chunks(history[k..]))
    decreases |history| - k
  {
    var pages := Chunks(history[k..]);
    ChunksCover(history[k..]);
    if k == |history| {
      forall log: seq<Request>, i: nat | i <= |pages|
        ensures service(log + [Request(GET, PageUrl(channelId, CursorAt(before, pages, i)))])
             == Response(200, if i < |pages| then pages[i] else [])
      {
        HistoryAnswers(service, history, channelId, log, before);
      }
    } else {
      var n := HistoryNextPage(history, k);
      var page := history[k..k + n];
      var rest := Chunks(history[k + n..]);
      HistoryServesChunks(service, history, channelId, Some(LastId(page)), k + n);
      forall log: seq<Request>, i: nat | i <= |pages|
        ensures service(log + [Request(GET, PageUrl(channelId, CursorAt(before, pages, i)))])
             == Response(200, if i < |pages| then pages[i] else [])
      {
        if i == 0 {
          HistoryAnswers(service, history, channelId, log, before);
        } else {
          assert CursorAt(before, pages, i) == CursorAt(Some(LastId(page)), rest, i - 1);
        }
      }
    }
  }

  /**
   * Under the assumption, retrieval ends after ceil(N / 100) + 1 requests
   * for a history of N messages and returns exactly the target user's
   * messages of the whole history, newest first.
   */
  lemma HistoryRetrieval(history: seq<Message>, channelId: string, log: seq<Request>, userId: string)
    requires Ordered(history)
    ensures var fuel := (|history| + 99) / 100 + 1;
      var run := Paging(HistoryService(history, channelId), log, channelId, None, fuel);
      && run.Some?
      && |run.value.sent| == |log| + fuel
      && Retrieved(run.value, userId) == Success(FilterAuthor(history, userId))
  {
    var fuel := (|history| + 99) / 100 + 1;
    var service := HistoryService(history, channelId);
    HistoryServiceServes(history, channelId);
    assert history[0..] == history;
    HistoryServesChunks(service, history, channelId, None, 0);
    ChunksCover(history);
    PagingServed(service, log, channelId, None, Chunks(history), fuel);
  }

  /**
   * The whole run on a fresh session against the assumed service: it
   * retrieves the target user's messages, then attempts to delete each of
   * them once, in order, after ceil(N / 100) + 1 page requests.
   */
  method RedactHistory(history: seq<Message>, channelId: string, userId: string)
    returns (r: Result<seq<Message>, int>, sent: seq<Request>)
    requires Ordered(history)
    ensures r == Success(FilterAuthor(history, userId))
    ensures var fetches := (|history| + 99) / 100 + 1;
      |sent| == fetches + |r.value| &&
      (forall i :: 0 <= i < fetches ==> sent[i].verb == GET) &&
      sent[fetches..] == DeleteRequests(channelId, r.value)
  {
    var fuel := (|history| + 99) / 100 + 1;
    var session := new Session(HistoryService(history, channelId));
    HistoryRetrieval(history, channelId, [], userId);
    RequestCount(HistoryService(history, channelId), [], channelId, None, fuel);
    r := Run(session, userId, channelId, fuel);
    sent := session.sent;
    DeleteRequestsTargets(channelId, r.value);
  }
}
