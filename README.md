# redacted — a verified model of the message redaction loops

`redacted.py` deletes every message one user has sent in one Discord
channel. It has two phases:

- **Retrieval** (`get_messages`). The tool pages through the channel's
  messages newest first, 100 per request. It keeps the messages whose author
  is the target user and moves the `before` cursor to the id of each page's
  last message. It stops at the first empty page. A response that is not 2xx
  raises, which aborts the whole run.
- **Deletion** (`delete_message` and the loop in `main`). The tool makes one
  DELETE request per retrieved message, in order. A failed delete is only
  logged.

The model has one module per concern:

- `Wrappers`: `Option` and `Result`.
- `Decimal`: how an integer id is printed in a URL, and a parser that reads
  it back.
- `Api`: messages, requests and responses; the 2xx rule; Python truthiness of
  the cursor; the two endpoint URLs, with parsers proving the URLs carry
  exactly the cursor or the message id.
- `Http`: the client session as a class. It keeps a log of every request
  sent. The remote service is an oracle `seq<Request> -> Response`, so the
  answer to a request may depend on everything sent before it. Any server
  behaviour is covered.
- `Retrieval`: the paging loop as a specification function, `Paging`. It
  returns the pages received, how the run ended and the request log, or
  `None` if the run has not ended within `fuel` requests. The module also
  holds the lemmas about what such a run does.
- `Redacted`: the tool's own imperative code. `GetMessages` is the `while`
  loop, `AppendAuthored` is the inner filtering `for` loop, `DeleteMessage`
  sends one request, and `Run` is retrieval followed by the deletion loop.
  Each is proved against the `Retrieval` specification.
- `History`: a separately labelled assumption about the server. The history
  is fixed, ids are positive and strictly decreasing, and a page request
  returns the 100 newest messages older than its cursor. Under this
  assumption the module proves that retrieval ends after ceil(N / 100) + 1
  requests and returns exactly the user's messages.

The source's `while True` ends only if the server eventually answers with an
empty page or an error status. `GetMessages` and `Run` therefore take a ghost
request bound `fuel` and require `Paging(...)` to have ended within it. The
code itself promises nothing more. A cursor of 0 shows the loop really can
run forever: `ZeroIdNeverEnds` proves it against any server whose answer
depends only on the request.

## Model

| member | source | states |
|---|---|---|
| Decimal.Show | redacted.py:44 | The printed cursor is a non-empty run of decimal digits with no leading zero. |
| Decimal.DigitsValueShow | redacted.py:44 | The digits printed for n have the value n. |
| Decimal.ParseShow | redacted.py:44 | Parsing the printed form of n gives back n. |
| Decimal.ShowInjective | redacted.py:44 | Two cursors print the same exactly when they are equal. |
| Api.PageUrl | redacted.py:27-44 | A page URL starts with the channel's `limit=100` messages endpoint. It equals that endpoint exactly when the cursor is not truthy. |
| Api.ParsePageUrlRoundTrip | redacted.py:43-44 | A page URL carries exactly the effective cursor: none when the cursor is None or 0, otherwise the cursor's value after `&before=`. |
| Api.PageUrlSame | redacted.py:44 | Two page URLs of a channel are equal exactly when their effective cursors are equal, so cursor 0 requests the same URL as no cursor. |
| Api.ParseMessageUrlRoundTrip | redacted.py:64 | The delete URL names exactly the channel's message it was built for. |
| Http.Session.constructor | redacted.py:33-35 | A new session has sent no request and answers with the given service. |
| Http.Session.Get | redacted.py:46 | A GET appends exactly that request to the log, and the answer is the service's answer to the extended log. |
| Http.Session.Delete | redacted.py:64 | A DELETE appends exactly that request to the log, and the answer is the service's answer to the extended log. |
| Retrieval.FilterAuthor | redacted.py:53-55 | The filtered list is no longer than its input. |
| Retrieval.FilterAuthorMembers | redacted.py:53-55 | A message is kept if and only if it is in the input and its author id is the target user's. |
| Retrieval.FilterAuthorAppend | redacted.py:53-55 | Filtering a concatenation is the concatenation of the filtered parts, so input order is kept. |
| Retrieval.FilterAuthorSnoc | redacted.py:53-55 | Looking at one more message appends it exactly when the target user wrote it. |
| Retrieval.CollectPage | redacted.py:53-57 | One more page extends the collected list by that page's messages from the target user, and nothing else. |
| Retrieval.CollectedOnlyGrows | redacted.py:40-55 | The list collected after more pages starts with the list collected before them; earlier entries are never changed or removed. |
| Retrieval.PagingTranscript | redacted.py:38-58 | For every finished run: all received pages are non-empty 2xx bodies. Request i carries the cursor left by page i - 1, or the starting cursor for the first. Page i answers request i. One request follows the last page, and its answer is an empty 2xx page or the non-2xx status the run ended with. |
| Retrieval.TranscriptStep | redacted.py:42-57 | Request k of a run extends the log by the page request with the cursor left by page k - 1. Its answer is page k, or the ending after the last page. |
| Retrieval.RequestCount | redacted.py:42-51 | A finished run sends one request per non-empty page plus one, all of them GETs, after the earlier log. |
| Retrieval.NextCursorIsLastId | redacted.py:57 | After page i, the next request carries page i's last id, whoever wrote that message. |
| Retrieval.ServesRest | redacted.py:57 | A service that serves a list of pages from one cursor serves the remaining pages from the first page's last id. |
| Retrieval.PagingServed | redacted.py:38-58 | The converse of PagingTranscript: a service that answers each cursor with the given non-empty pages, then an empty page, makes the run receive exactly those pages and send exactly their page requests. |
| Retrieval.ZeroIdRepeatsFirstRequest | redacted.py:44-57 | When the first page ends with id 0, the second request is identical to the first. |
| Retrieval.ZeroIdNeverEnds | redacted.py:42-57 | Against a service whose answer depends only on the request, a first page ending with id 0 means the run ends within no number of requests. |
| Redacted.DeleteRequestsTargets | redacted.py:90-91 | The deletion phase makes one request per message, all DELETEs, and request i names message i. |
| Redacted.AppendAuthored | redacted.py:53-55 | The inner loop appends to the list exactly the target user's messages of the page, in page order. |
| Redacted.GetMessages | redacted.py:38-60 | The loop sends exactly the requests of the specified run. It returns the target user's messages of all received pages, in order, when the run ends at an empty page, and the status when it ends at a non-2xx answer. |
| Redacted.DeleteMessage | redacted.py:63-68 | Exactly one DELETE for the given channel and message is sent. The result reports whether the answer was 2xx and is never raised. |
| Redacted.Run | redacted.py:87-91 | The run retrieves as GetMessages specifies. On failure it sends nothing more. On success it sends one DELETE per retrieved message, in list order, whatever earlier deletes answered. |
| History.HistoryServiceServes | redacted.py:43-46 | The assumed server answers every page request with the 100 newest messages older than the effective cursor. |
| History.OlderThanSuffix | redacted.py:57 | In an ordered history, the messages older than message j are exactly those after it. |
| History.ChunksCover | redacted.py:27 | Pages of 100 cover the history: there are ceil(N / 100) of them, none is empty, and together they are the history in order. |
| History.HistoryNextPage | redacted.py:49-57 | With history[k..] still to fetch, the next page is its first chunk, and the cursor that page leaves makes exactly history[k + n..] remain. |
| History.HistoryServesChunks | redacted.py:42-57 | From a cursor that leaves history[k..] to fetch, the assumed server serves that suffix in chunks of 100. |
| History.HistoryRetrieval | redacted.py:38-60 | Under the assumption, retrieval ends after ceil(N / 100) + 1 requests and returns exactly the target user's messages of the whole history, newest first. |
| History.RedactHistory | redacted.py:79-91 | Under the assumption, a run on a fresh session makes ceil(N / 100) + 1 GET requests. It then attempts to delete each of the user's messages exactly once, in history order. |

## Left out

- Command-line handling (redacted.py:74-85) is not modelled. With fewer than three arguments the process exits with status 2 before any request is made.
- Logging configuration and log text (redacted.py:18-22, 59, 66, 68) are not modelled. Redacted.DeleteMessage returns `deleted` only to say which of its two log lines would be written.
- Client construction and the Authorization header (redacted.py:33-35) are reduced to a session around a service oracle. The token is not modelled.
- JSON decoding (redacted.py:49) is not modelled. A response body is an already decoded list of messages, so a body that is not a list of message records is out of scope.
- Message ids are natural numbers. The JSON string id and the `int()` conversion at redacted.py:57 are folded into one value. A non-numeric id, which makes `int()` raise, is not modelled. The delete URL prints the id in canonical decimal, so an id string with leading zeros is not modelled.
- Transport errors, timeouts and rate limiting of `session.get`/`session.delete` are not modelled. Only HTTP status codes are.
- An exception raised by `raise_for_status` (redacted.py:47) becomes a `Failure(status)` result that ends the run before any deletion. The traceback and the process exit are not modelled.
- Redacted.GetMessages: termination is not proved in general, because the source does not promise it. The ghost bound `fuel` and the precondition that the specified run ends within it stand for that.
- The History module's server behaviour is an assumption about the remote service, not something the tool enforces.
