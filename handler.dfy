/** The decision path of the chat relay's request handler: method and
    configuration checks, stream-mode choice, rate limiting and message
    validation, up to the point where the request is forwarded to the vendor. */
module Handler {
  import opened Wrappers
  import opened Text
  import opened Js
  import opened RateLimit
  import opened ClientIdentity
  import opened Normaliser

  /** The parts of an incoming request the handler reads. */
  datatype Request = Request(
    verb: string,                // req.method
    query: JsValue,              // req.query, possibly undefined
    body: JsValue,               // req.body, possibly undefined
    accept: Option<string>,      // the Accept header
    forwarded: ForwardedHeader,  // the x-forwarded-for header
    remote: Option<string>)      // req.socket?.remoteAddress

  /** What the handler does with a request: answer it with an error (and a
      `Retry-After` header for 429), or forward the normalised messages to
      the vendor, streaming or not. */
  datatype Outcome =
    | Rejected(status: int, error: string, retryAfterHeader: Option<string>)
    | Forwarded(messages: seq<ChatMessage>, stream: bool)

  /** An outcome together with the rate-limit table as the request leaves it. */
  datatype Handled = Handled(outcome: Outcome, store: map<string, Entry>)

  const EventStream := "text/event-stream"
  const MethodNotAllowed := "Method not allowed"
  const MissingApiKey := "Missing ANTHROPIC_API_KEY"

  /** The 429 error text for a delay of `seconds`. */
  function RateLimitMessage(seconds: nat): string {
    "Rate limit exceeded. Try again in " + Decimal(seconds) + "s."
  }

  /** The handler's `wantsStream`: the query flag `stream` equal to the string '1' or
      'true', the body flag `stream` equal to the boolean true, or an Accept
      header that mentions the event-stream media type anywhere. */
  function WantsStream(query: JsValue, body: JsValue, accept: Option<string>): (r: bool)
    ensures r <==> || Get(query, "stream") == Str("1")
                   || Get(query, "stream") == Str("true")
                   || Get(body, "stream") == Bool(true)
                   || (accept.Some? && exists i :: OccursAt(accept.value, EventStream, i))
  {
    || Get(query, "stream") == Str("1")
    || Get(query, "stream") == Str("true")
    || Get(body, "stream") == Bool(true)
    || (accept.Some? && accept.value != "" && Includes(accept.value, EventStream))
  }

  /** The media type may sit anywhere in the Accept header, among others or
      followed by parameters. */
  lemma AcceptAnywhere(query: JsValue, body: JsValue, before: string, after: string)
    ensures WantsStream(query, body, Some(before + EventStream + after))
  {
    var a := before + EventStream + after;
    assert a[|before|..|before| + |EventStream|] == EventStream;
    assert OccursAt(a, EventStream, |before|);
  }

  /** The flags are compared strictly: a body flag that is not the boolean
      true (the string 'true', say) does not ask for a stream by itself. */
  lemma BodyFlagIsStrict(body: JsValue)
    requires Get(body, "stream") != Bool(true)
    ensures !WantsStream(Undefined, body, None)
  {
  }

  /** `process.env.ANTHROPIC_API_KEY` is set to a non-empty value. */
  predicate KeyConfigured(apiKey: Option<string>) {
    apiKey.Some? && apiKey.value != ""
  }

  /** The chat handler's decisions before it calls the vendor, for a request `req` at time `now`, with the rate-limit
      table `store` and the configured key `apiKey`. */
  function Handle(store: map<string, Entry>, req: Request, apiKey: Option<string>, now: int): (r: Handled)
    // Anything but POST: 405, and the table is not touched.
    ensures req.verb != "POST" ==> r == Handled(Rejected(405, MethodNotAllowed, None), store)
    // No key: 500, and the table is not touched.
    ensures req.verb == "POST" && !KeyConfigured(apiKey) ==> r == Handled(Rejected(500, MissingApiKey, None), store)
    // Otherwise the request is counted against its client, whatever follows.
    ensures req.verb == "POST" && KeyConfigured(apiKey) ==>
              r.store == Check(store, ClientId(req.forwarded, req.remote), now).store
    // A limited client gets 429 with the delay in the header and the text.
    ensures req.verb == "POST" && KeyConfigured(apiKey) ==>
              var d := Check(store, ClientId(req.forwarded, req.remote), now).decision;
              d.limited ==> r.outcome == Rejected(429, RateLimitMessage(d.retryAfter), Some(Decimal(d.retryAfter)))
    // An admitted request is forwarded exactly when some message survives normalisation.
    ensures req.verb == "POST" && KeyConfigured(apiKey) ==>
              var d := Check(store, ClientId(req.forwarded, req.remote), now).decision;
              !d.limited ==> (r.outcome.Forwarded? <==> MessagesOf(req.body) != [])
    // An admitted request without a usable message is answered 400.
    ensures req.verb == "POST" && KeyConfigured(apiKey) ==>
              var d := Check(store, ClientId(req.forwarded, req.remote), now).decision;
              !d.limited && MessagesOf(req.body) == [] ==> r.outcome == Rejected(400, MessagesRequired, None)
    ensures r.outcome.Forwarded? ==>
              && r.outcome.messages == MessagesOf(req.body) && |r.outcome.messages| > 0
              && r.outcome.stream == WantsStream(req.query, req.body, req.accept)
    ensures r.outcome.Rejected? && r.outcome.status == 400 ==> r.outcome.error == MessagesRequired
  {
    if req.verb != "POST" then
      Handled(Rejected(405, MethodNotAllowed, None), store)
    else if !KeyConfigured(apiKey) then
      Handled(Rejected(500, MissingApiKey, None), store)
    else
      var stream := WantsStream(req.query, req.body, req.accept);
      var c := Check(store, ClientId(req.forwarded, req.remote), now);
      if c.decision.limited then
        Handled(Rejected(429, RateLimitMessage(c.decision.retryAfter), Some(Decimal(c.decision.retryAfter))), c.store)
      else
        match ValidateMessages(req.body)
        case Failure(e) => Handled(Rejected(e.status, e.error, None), c.store)
        case Success(ms) => Handled(Forwarded(ms, stream), c.store)
  }

  /** A request turned away for having no usable message still used up one
      of its client's requests: the table counts before it validates. */
  lemma RejectedRequestStillCounts(store: map<string, Entry>, req: Request, apiKey: Option<string>, now: int)
    requires req.verb == "POST" && KeyConfigured(apiKey)
    requires var id := ClientId(req.forwarded, req.remote); Live(store, id, now) && store[id].count < MaxRequests
    requires MessagesOf(req.body) == []
    ensures var id := ClientId(req.forwarded, req.remote);
            && Handle(store, req, apiKey, now).outcome == Rejected(400, MessagesRequired, None)
            && Handle(store, req, apiKey, now).store[id].count == store[id].count + 1
  {
  }

  /** The handler against the process-wide limiter, which it updates. */
  method Serve(limiter: RateLimiter, req: Request, apiKey: Option<string>, now: int) returns (outcome: Outcome)
    modifies limiter
    ensures outcome == Handle(old(limiter.store), req, apiKey, now).outcome
    ensures limiter.store == Handle(old(limiter.store), req, apiKey, now).store
    ensures old(limiter.Valid()) ==> limiter.Valid()
  {
    if req.verb != "POST" {
      return Rejected(405, MethodNotAllowed, None);
    }
    if !KeyConfigured(apiKey) {
      return Rejected(500, MissingApiKey, None);
    }
    var stream := WantsStream(req.query, req.body, req.accept);
    var clientId := ClientId(req.forwarded, req.remote);
    var limited, retryAfter := limiter.CheckRateLimit(clientId, now);
    if limited {
      return Rejected(429, RateLimitMessage(retryAfter), Some(Decimal(retryAfter)));
    }
    var messages := MessagesOf(req.body);
    if |messages| == 0 {
      return Rejected(400, MessagesRequired, None);
    }
    return Forwarded(messages, stream);
  }
}
