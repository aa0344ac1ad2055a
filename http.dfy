/**
 * The authenticated HTTP client session. The remote service is an oracle:
 * its answer to a request may depend on every request made before it on
 * the same session, so any behaviour of the service can be modelled.
 */
module Http {
  import opened Api

  class Session {
    /** The remote service: its response to the last request of a log of requests. */
    const service: seq<Request> -> Response
    /** Every request made on this session so far, oldest first. */
    var sent: seq<Request>

    constructor (service: seq<Request> -> Response)
      ensures this.service == service && sent == []
    {
      this.service := service;
      sent := [];
    }

    /** One GET request; the service answers it. */
    method Get(url: string) returns (response: Response)
      modifies this
      ensures sent == old(sent) + [Request(GET, url)]
      ensures response == service(sent)
    {
      sent := sent + [Request(GET, url)];
      response := service(sent);
    }

    /** One DELETE request; the service answers it. */
    method Delete(url: string) returns (response: Response)
      modifies this
      ensures sent == old(sent) + [Request(DELETE, url)]
      ensures response == service(sent)
    {
      sent := sent + [Request(DELETE, url)];
      response := service(sent);
    }
  }
}
