/**
 * The per-request pipeline of `proxy` (load_balancer.py:85-129) once a
 * backend has (or has not) been selected: build the upstream request, and
 * map what the backend did to the reply the client gets.
 */
module Proxy {
  import opened Wrappers
  import opened Http

  newtype byte = b: int | 0 <= b < 256

  type Bytes = seq<byte>

  /** What the proxy reads from the client's request. */
  datatype Inbound = Inbound(
    verb: string,     // GET, POST, PUT or DELETE
    path: string,     // the `{path:path}` part, without its leading slash
    query: Headers,   // query parameters, forwarded as given
    headers: Headers, // inbound header pairs
    body: Bytes)

  /** The request sent to the selected backend. */
  datatype UpstreamRequest = UpstreamRequest(
    verb: string,
    url: string,
    query: Headers,
    headers: Headers,
    body: Bytes)

  /**
   * What `session.request(...)` and `response.read()` produced: a complete
   * response, or one of the two exceptions the source catches (any
   * `aiohttp.ClientError`, or the 120 s timeout).
   */
  datatype Upstream =
    | Answered(status: int, headers: Headers, body: Bytes)
    | TransportError
    | TimedOut

  /** The reply the client gets. */
  datatype Reply =
    | Unavailable                                     // HTTP 503, no backend healthy
    | BadGateway                                      // HTTP 502, upstream failed
    | Relay(status: int, headers: Headers, body: Bytes)

  /** The HTTP status of a reply. */
  function StatusOf(r: Reply): int
  {
    match r
    case Unavailable => 503
    case BadGateway => 502
    case Relay(status, _, _) => status
  }

  /** Everything one request produced: what was sent upstream, if anything, and the reply. */
  datatype Exchange = Exchange(sent: Option<UpstreamRequest>, reply: Reply)

  /**
   * The upstream request for `target` (load_balancer.py:97-110): same verb,
   * query and body, URL `target/path`, headers without `Host`.
   */
  function BuildUpstream(target: string, req: Inbound): (u: UpstreamRequest)
    ensures u.verb == req.verb && u.query == req.query && u.body == req.body
    ensures |u.url| == |target| + 1 + |req.path|
    ensures u.url[..|target|] == target && u.url[|target|] == '/' && u.url[|target| + 1..] == req.path
    ensures forall p :: p in u.headers ==> !IsHost(p.0)
    ensures forall k :: !IsHost(k) ==> Lookup(u.headers, k) == LastValue(req.headers, k)
  {
    UpstreamRequest(req.verb, UpstreamUrl(target, req.path), req.query, ForwardHeaders(req.headers), req.body)
  }

  /**
   * The reply for what the backend did (load_balancer.py:113-129): a complete
   * response is relayed with its status and body unchanged and its hop-by-hop
   * headers removed; a transport error or a timeout becomes a 502.
   */
  function Relayed(u: Upstream): (r: Reply)
    ensures StatusOf(r) == if u.Answered? then u.status else 502
    ensures r.BadGateway? <==> !u.Answered?
    ensures u.Answered? ==> r.Relay? && r.status == u.status && r.body == u.body
    ensures u.Answered? ==> forall p :: p in r.headers ==> !IsHopByHop(p.0)
    ensures u.Answered? ==> forall k :: !IsHopByHop(k) ==> Lookup(r.headers, k) == LastValue(u.headers, k)
  {
    match u
    case Answered(status, headers, body) => Relay(status, RelayHeaders(headers), body)
    case TransportError => BadGateway
    case TimedOut => BadGateway
  }

  /**
   * The rest of `proxy` after the empty check and `next(server_iterator)`:
   * no backend means 503 and nothing is sent; otherwise exactly one request
   * goes to the selected backend and its outcome decides the reply.
   * `upstream` stands for the backend's behaviour on the request it gets.
   */
  function Forward(picked: Option<string>, req: Inbound, upstream: UpstreamRequest -> Upstream): (x: Exchange)
    ensures picked.None? ==> x.sent.None? && x.reply == Unavailable && StatusOf(x.reply) == 503
    ensures picked.Some? ==> x.sent == Some(BuildUpstream(picked.value, req))
    ensures picked.Some? ==> x.reply == Relayed(upstream(x.sent.value))
    ensures x.reply.Unavailable? <==> picked.None?
  {
    match picked
    case None => Exchange(None, Unavailable)
    case Some(target) =>
      var sent := BuildUpstream(target, req);
      Exchange(Some(sent), Relayed(upstream(sent)))
  }

  /**
   * A 201 response carrying `X-Test: 1` and `Transfer-Encoding: chunked`
   * reaches the client as a 201 with the same body and only `X-Test: 1`.
   */
  lemma HopByHopStripped(body: Bytes)
    ensures Relayed(Answered(201, [("X-Test", "1"), ("Transfer-Encoding", "chunked")], body))
            == Relay(201, [("X-Test", "1")], body)
  {
    var h: Headers := [("X-Test", "1"), ("Transfer-Encoding", "chunked")];
    assert !IsHopByHop("X-Test") by {
      assert |Lower("X-Test")| == 6;
    }
    assert IsHopByHop("Transfer-Encoding") by {
      var l := Lower("Transfer-Encoding");
      forall i | 0 <= i < 17 ensures l[i] == "transfer-encoding"[i] {
        assert l[i] == LowerChar("Transfer-Encoding"[i]);
      }
    }
    assert DistinctNames(h);
    var init := h[..1];
    assert init == [("X-Test", "1")];
    assert Without(init, IsHopByHop) == [("X-Test", "1")] by {
      assert init[..0] == [];
    }
    assert Without(h, IsHopByHop) == Without(init, IsHopByHop);
  }
}
