/** The connection engine of src/server.cpp: send_all, wants_keepalive,
    the two response writers, drain_body, the header accumulation and
    request loop of handle_client, and the admission check of
    HttpServer::run. The socket is the scripted peer of module Socket,
    threaded through every call as a value. */
module Server {
  import opened Text
  import opened Utils
  import opened Http
  import opened Socket
  import Config

  // ------------------------------------------------------------ send_all

  /** send_all: keep sending the unsent tail, retry on EINTR, give up when
      send returns 0 or fails. The peer receives exactly the first
      Min(|data|, capacity) bytes, and the call reports success exactly
      when that is all of them. */
  method SendAll(data: string, peer: Peer) returns (ok: bool, peer': Peer)
    ensures ok <==> |data| <= Capacity(peer.outbox)
    ensures peer'.wire == peer.wire + data[..Min(|data|, Capacity(peer.outbox))]
    ensures peer'.inbox == peer.inbox
  {
    var sent := 0;
    peer' := peer;
    while sent < |data|
      invariant sent <= |data|
      invariant peer'.inbox == peer.inbox
      invariant peer'.wire == peer.wire + data[..sent]
      invariant Min(|data|, Capacity(peer.outbox)) == sent + Min(|data| - sent, Capacity(peer'.outbox))
      decreases |peer'.outbox|
    {
      SendStep(peer'.outbox, |data| - sent);
      var (r, rest) := Send(peer'.outbox, |data| - sent);
      match r
      case SendEintr =>
        peer' := peer'.(outbox := rest);
      case SendFailed =>
        peer' := peer'.(outbox := rest);
        return false, peer';
      case Wrote(n) =>
        if n == 0 {
          peer' := peer'.(outbox := rest);
          return false, peer';
        }
        assert data[..sent + n] == data[..sent] + data[sent..sent + n];
        peer' := Peer(peer'.inbox, rest, peer'.wire + data[sent..sent + n]);
        sent := sent + n;
    }
    assert data[..sent] == data;
    return true, peer';
  }

  // ------------------------------------------------------ wants_keepalive

  /** wants_keepalive: never when the configuration disables it; for
      HTTP/1.1 unless the lower-cased Connection value contains "close";
      otherwise only when it contains "keep-alive". */
  function WantsKeepalive(req: HttpRequest, cfg: Config.ServerConfig): bool
  {
    if !cfg.keepAlive then false
    else
      var conn := if "connection" in req.headers then LowerAscii(req.headers["connection"]) else "";
      if req.version == "HTTP/1.1" then !Contains(conn, "close")
      else Contains(conn, "keep-alive")
  }

  // ------------------------------------------------------------ responses

  const ServerName: string := "minihttpd"
  const HtmlContentType: string := "text/html; charset=utf-8"
  const ErrorDetail: string := "minihttpd could not process your request."

  /** The two responses handle_client sends, before they are rendered:
      send_error's page for a status, and send_stub_response's page echoing
      the request, with the keep-alive parameters it advertises. */
  datatype Reply =
    | ErrorReply(status: int, ka: bool)
    | StubReply(status: int, httpMethod: string, target: string, ka: bool, timeout: nat, maxRequests: nat)

  /** A rendered response: the head, then the page. */
  datatype Response = Response(head: ResponseHead, page: string)

  function ConnectionValue(ka: bool): string
  {
    if ka then "keep-alive" else "close"
  }

  /** The five headers both writers set. */
  function CommonHeaders(date: string, pageLength: nat, ka: bool): map<string, string>
  {
    map["Date" := date, "Server" := ServerName, "Content-Type" := HtmlContentType,
        "Content-Length" := NatToString(pageLength), "Connection" := ConnectionValue(ka)]
  }

  /** send_error's page for `status`. */
  function ErrorPage(status: int): string
  {
    ErrorPageHtml(status, StatusReason(status), ErrorDetail)
  }

  function StubTitle(status: int, reason: string): seq<string>
  {
    [ "<!doctype html><html><head><meta charset=\"utf-8\"/>",
      "<title>", IntToString(status), " ", HtmlEscaped(reason), "</title>" ]
  }

  function StubHeading(status: int, reason: string): seq<string>
  {
    [ "</head><body style=\"font-family:sans-serif;\">",
      "<h1>", IntToString(status), " ", HtmlEscaped(reason), "</h1>" ]
  }

  function StubEcho(m: string, target: string): seq<string>
  {
    [ "<p><b>Method:</b> ", HtmlEscaped(m), "</p>",
      "<p><b>Target:</b> ", HtmlEscaped(target), "</p>",
      "<p>This is Module 5 (socket core). Routing + storage comes in Module 6.</p>",
      "</body></html>" ]
  }

  /** The page send_stub_response writes, piece by piece: a title and a
      heading with the status, then the method and target echoed back. */
  function StubPage(status: int, reason: string, m: string, target: string): string
  {
    Concat(StubTitle(status, reason)) + Concat(StubHeading(status, reason)) + Concat(StubEcho(m, target))
  }

  /** The Keep-Alive header value. */
  function KeepAliveValue(timeout: nat, maxRequests: nat): string
  {
    "timeout=" + NatToString(timeout) + ", max=" + NatToString(maxRequests)
  }

  /** The page of a reply. */
  function PageOf(r: Reply): string
  {
    match r
    case ErrorReply(status, _) => ErrorPage(status)
    case StubReply(status, m, target, _, _, _) => StubPage(status, StatusReason(status), m, target)
  }

  /** The head of a reply whose page is `pageLength` bytes long, sent on
      `date`: the five common headers, and Keep-Alive on a stub reply that
      keeps the connection. */
  function HeadFor(r: Reply, date: string, pageLength: nat): ResponseHead
  {
    var common := CommonHeaders(date, pageLength, r.ka);
    ResponseHead(r.status, StatusReason(r.status),
                 if r.StubReply? && r.ka then common["Keep-Alive" := KeepAliveValue(r.timeout, r.maxRequests)]
                 else common)
  }

  /** The bytes of a reply, sent on `date`. */
  function Render(r: Reply, date: string): Response
  {
    var page := PageOf(r);
    Response(HeadFor(r, date, |page|), page)
  }

  /** send_stub_response's reply to a request: 200 for GET and 501
      otherwise, keep-alive negotiated afresh from the request. */
  function StubFor(cfg: Config.ServerConfig, req: HttpRequest): Reply
  {
    StubReply(if req.httpMethod == "GET" then 200 else 501, req.httpMethod, req.target,
              WantsKeepalive(req, cfg), cfg.keepAliveTimeoutSec, cfg.keepAliveMaxRequests)
  }

  /** The methods that get the stub page. */
  predicate IsStubMethod(m: string)
  {
    m == "GET" || m == "POST" || m == "DELETE"
  }

  /** The reply handle_client sends for a parsed request. */
  function Dispatch(cfg: Config.ServerConfig, req: HttpRequest, ka: bool): Reply
  {
    if IsStubMethod(req.httpMethod) then StubFor(cfg, req) else ErrorReply(501, ka)
  }

  /** Walk the keys of a header map in some order: the iteration order of
      the unordered_map, which nothing here depends on. */
  method EnumerateKeys(m: map<string, string>) returns (order: seq<string>)
    ensures IsEnumeration(order, m.Keys)
  {
    order := [];
    var rest := m.Keys;
    while rest != {}
      invariant forall i, j :: 0 <= i < j < |order| ==> order[i] != order[j]
      invariant forall k :: k in m.Keys <==> k in order || k in rest
      invariant forall k :: k in rest ==> k !in order
      decreases |rest|
    {
      var k :| k in rest;
      order := order + [k];
      rest := rest - {k};
    }
  }

  /** Serialise the head and send it, then send the page, ignoring both
      results. The peer receives a prefix of the head text followed by a
      prefix of the page: a head cut short by a failed send is still
      followed by whatever of the page gets through. `order` is the order
      the headers were written in; `sentHead` and `sentPage` say how much
      of each got through. */
  method SendResponse(resp: Response, peer: Peer)
    returns (peer': Peer, text: string, ghost order: seq<string>, ghost sentHead: nat, ghost sentPage: nat)
    ensures peer'.inbox == peer.inbox
    ensures IsEnumeration(order, resp.head.headers.Keys) && text == JoinCRLF(HeadLines(resp.head, order))
    ensures sentHead == Min(|text|, Capacity(peer.outbox)) && sentPage <= |resp.page|
    ensures peer'.wire == peer.wire + text[..sentHead] + resp.page[..sentPage]
    ensures peer.wire <= peer'.wire
  {
    var keys := EnumerateKeys(resp.head.headers);
    text := BuildResponseHead(resp.head, keys);
    order := keys;
    var ok1, mid := SendAll(text, peer);
    var ok2, last := SendAll(resp.page, mid);
    peer' := last;
    sentHead := Min(|text|, Capacity(peer.outbox));
    sentPage := Min(|resp.page|, Capacity(mid.outbox));
  }

  /** `peer'` is `peer` after `resp` was sent: the peer received the head,
      its headers in some order, as far as the socket took it, followed
      by a prefix of the page. */
  ghost predicate Delivered(peer: Peer, peer': Peer, resp: Response)
  {
    && peer'.inbox == peer.inbox
    && exists order: seq<string>, sentPage: nat ::
         && IsEnumeration(order, resp.head.headers.Keys)
         && sentPage <= |resp.page|
         && var text := JoinCRLF(HeadLines(resp.head, order));
            peer'.wire == peer.wire + text[..Min(|text|, Capacity(peer.outbox))] + resp.page[..sentPage]
  }

  /** send_error: an error page for `status`, closing or keeping the
      connection as `ka` says; what reaches the peer is a prefix of the
      rendered reply's head followed by a prefix of its page. */
  method SendError(status: int, ka: bool, date: string, peer: Peer) returns (reply: Reply, peer': Peer)
    ensures reply == ErrorReply(status, ka)
    ensures peer'.inbox == peer.inbox && peer.wire <= peer'.wire
  {
    reply := ErrorReply(status, ka);
    var resp := Render(reply, date);
    var text;
    ghost var order, sentHead, sentPage;
    peer', text, order, sentHead, sentPage := SendResponse(resp, peer);
  }

  /** send_stub_response: 200 for GET and 501 otherwise, with the
      Keep-Alive parameters when the connection stays open. */
  method SendStubResponse(cfg: Config.ServerConfig, req: HttpRequest, date: string, peer: Peer)
    returns (reply: Reply, peer': Peer)
    ensures reply == StubFor(cfg, req)
    ensures Delivered(peer, peer', Render(reply, date))
    ensures peer.wire <= peer'.wire
  {
    reply := StubFor(cfg, req);
    var resp := Render(reply, date);
    var text;
    ghost var order, sentHead, sentPage;
    peer', text, order, sentHead, sentPage := SendResponse(resp, peer);
  }

  // ---------------------------------------------------------------- recv

  /** How a recv call inside one of the server's receive loops turns out:
      bytes to append, an EINTR to retry, or the end of the connection (a
      return of 0, or -1 with any other errno). */
  datatype Chunk = Got(data: string) | Retry | Ended

  /** One recv of at most `want` bytes, classified as the receive loops of
      drain_body and handle_client classify it. */
  method ReceiveSome(want: nat, peer: Peer) returns (out: Chunk, peer': Peer)
    ensures peer'.outbox == peer.outbox && peer'.wire == peer.wire
    ensures out.Got? ==> 0 < |out.data| <= want && Available(peer.inbox) == out.data + Available(peer'.inbox)
    ensures out.Got? || out.Retry? ==> Weight(peer'.inbox) < Weight(peer.inbox)
    ensures out.Retry? ==> Available(peer'.inbox) == Available(peer.inbox)
    ensures out.Ended? ==> Available(peer.inbox) == [] || want == 0
  {
    var (r, rest) := Recv(peer.inbox, want);
    peer' := peer.(inbox := rest);
    match r
    case RecvEintr => out := Retry;
    case RecvError => out := Ended;
    case Received(d) =>
      if d == [] {
        out := Ended;
      } else {
        out := Got(d);
      }
  }


  // ---------------------------------------------------------- drain_body

  /** drain_body: the first `contentLength` bytes after the header are
      the body and are discarded. Bytes already buffered count first;
      what is left of them beyond the body becomes the next request's
      input (`pendingOut`), and the rest of the body is read from the
      socket at most `recvChunkSize` bytes at a time and never beyond the
      body. `body` is the discarded body, for the statement only. */
  method DrainBody(cfg: Config.ServerConfig, contentLength: nat, already: string, peer: Peer)
    returns (ok: bool, alreadyOut: string, pendingOut: string, peer': Peer, ghost body: string)
    ensures peer'.outbox == peer.outbox && peer'.wire == peer.wire
    ensures contentLength == 0 ==> ok && pendingOut == already && alreadyOut == [] && peer' == peer
    ensures contentLength > 0 ==> pendingOut == already[Min(|already|, contentLength)..]
    ensures ok <==> (contentLength <= |already|
                     || (cfg.recvChunkSize > 0 && contentLength - |already| <= |Available(peer.inbox)|))
    ensures ok ==> Available(peer.inbox)
                   == Available(peer.inbox)[..contentLength - Min(|already|, contentLength)] + Available(peer'.inbox)
    ensures ok ==> alreadyOut == [] && |body| == contentLength
    ensures ok ==> body + pendingOut + Available(peer'.inbox) == already + Available(peer.inbox)
    ensures !ok ==> alreadyOut == already
  {
    pendingOut := [];
    alreadyOut := already;
    peer' := peer;
    if contentLength == 0 {
      pendingOut := already;
      alreadyOut := [];
      body := [];
      return true, alreadyOut, pendingOut, peer', body;
    }
    var take := Min(|already|, contentLength);
    if |already| > take {
      pendingOut := already[take..];
    }
    var remaining: nat := contentLength - take;
    body := already[..take];
    while remaining > 0
      invariant peer'.outbox == peer.outbox && peer'.wire == peer.wire
      invariant |body| + remaining == contentLength && |body| >= take
      invariant body[..take] == already[..take]
      invariant Available(peer.inbox) == body[take..] + Available(peer'.inbox)
      invariant |body| > take ==> cfg.recvChunkSize > 0
      decreases remaining, Weight(peer'.inbox)
    {
      var out, next := ReceiveSome(Min(remaining, cfg.recvChunkSize), peer');
      match out
      case Ended =>
        return false, alreadyOut, pendingOut, next, body;
      case Retry =>
        peer' := next;
      case Got(d) =>
        DrainStep(body, take, d, Available(peer'.inbox), Available(next.inbox));
        peer' := next;
        remaining := remaining - |d|;
        body := body + d;
    }
    alreadyOut := [];
    assert |Available(peer.inbox)| >= contentLength - take;
    DrainDone(already, take, contentLength, body, pendingOut, Available(peer.inbox), Available(peer'.inbox));
    return true, alreadyOut, pendingOut, peer', body;
  }

  lemma DrainStep(body: string, take: nat, d: string, avail: string, rest: string)
    requires take <= |body| && avail == d + rest
    ensures (body + d)[..take] == body[..take]
    ensures body[take..] + avail == (body + d)[take..] + rest
  {
    assert (body + d)[take..] == body[take..] + d;
  }

  lemma DrainDone(already: string, take: nat, cl: nat, body: string, pendingOut: string, avail: string, left: string)
    requires take == Min(|already|, cl) && |body| == cl
    requires body[..take] == already[..take] && avail == body[take..] + left
    requires pendingOut == already[take..]
    ensures avail == avail[..cl - take] + left
    ensures body + pendingOut + left == already + avail
  {
    assert body == already[..take] + body[take..];
    if take < |already| {
      assert body[take..] == [];
      assert already == already[..take] + already[take..];
    } else {
      assert pendingOut == [];
      assert already[..take] == already;
    }
  }

  // ------------------------------------------------------ the header read

  /** How the header accumulation of one request ends. */
  datatype HeaderRead = HeaderComplete(blob: string, after: string) | HeaderTooLarge | HeaderLost

  /** How the receive loop of the header accumulation stops. */
  datatype Accumulated = BlankLineFound | OverCap | StreamEnded

  /** The bytes `got` received after `start`, the last receive being the
      slice from `before` on, pushed a buffer that had no blank line and
      was within the cap (or held only `start`) over the cap. */
  predicate OverflowingReceive(cfg: Config.ServerConfig, start: string, got: string, before: nat, upto: nat)
  {
    && before < upto <= |got| && upto - before <= cfg.recvChunkSize
    && !Contains(start + got[..before], CRLFCRLF)
    && (before == 0 || |start + got[..before]| <= cfg.readHeaderMaxBytes)
    && |start + got[..upto]| > cfg.readHeaderMaxBytes
  }

  /** The receive loop of the header accumulation: search the buffer for
      the blank line, otherwise receive one more chunk; the size cap is
      checked only after an append. `got` is what was received, and
      `before` how much of it the last receive found already there. */
  method Accumulate(cfg: Config.ServerConfig, start: string, peer: Peer)
    returns (how: Accumulated, buf: string, peer': Peer, ghost got: string, ghost before: nat)
    ensures peer'.outbox == peer.outbox && peer'.wire == peer.wire
    ensures buf == start + got && got <= Available(peer.inbox)
    ensures cfg.recvChunkSize == 0 ==> got == []
    ensures !how.StreamEnded? ==> Available(peer.inbox) == got + Available(peer'.inbox)
    ensures how.BlankLineFound? ==> Contains(buf, CRLFCRLF)
    ensures !how.OverCap? ==> got == [] || |buf| <= cfg.readHeaderMaxBytes
    ensures how.OverCap? <==> got != [] && |buf| > cfg.readHeaderMaxBytes
    ensures how.OverCap? ==> OverflowingReceive(cfg, start, got, before, |got|)
    ensures how.StreamEnded? ==>
      !Contains(buf, CRLFCRLF) && (Available(peer.inbox) == got || cfg.recvChunkSize == 0)
  {
    buf := start;
    got := [];
    before := 0;
    peer' := peer;
    while !Contains(buf, CRLFCRLF)
      invariant peer'.outbox == peer.outbox && peer'.wire == peer.wire
      invariant buf == start + got
      invariant cfg.recvChunkSize == 0 ==> got == []
      invariant Available(peer.inbox) == got + Available(peer'.inbox)
      invariant got == [] || |buf| <= cfg.readHeaderMaxBytes
      decreases Weight(peer'.inbox)
    {
      var out, next := ReceiveSome(cfg.recvChunkSize, peer');
      match out
      case Ended =>
        return StreamEnded, buf, next, got, before;
      case Retry =>
        peer' := next;
      case Got(d) =>
        Regroup(Available(peer.inbox), got, d, Available(next.inbox));
        peer' := next;
        before := |got|;
        assert (got + d)[..before] == got;
        buf := buf + d;
        got := got + d;
        if |buf| > cfg.readHeaderMaxBytes {
          assert got[..|got|] == got;
          return OverCap, buf, peer', got, before;
        }
    }
    how := BlankLineFound;
  }

  /** The header accumulation of handle_client, starting from the bytes
      left over by the previous request: the header blob runs up to and
      including the first blank line, and what follows it in the buffer
      is kept for the body and the next request. */
  method ReadHeader(cfg: Config.ServerConfig, pending: string, peer: Peer)
    returns (res: HeaderRead, peer': Peer, ghost got: string, ghost before: nat)
    ensures peer'.outbox == peer.outbox && peer'.wire == peer.wire
    ensures got <= Available(peer.inbox)
    ensures cfg.recvChunkSize == 0 ==> got == []
    ensures !res.HeaderLost? ==> Available(peer.inbox) == got + Available(peer'.inbox)
    ensures res.HeaderComplete? ==> res.blob + res.after == pending + got
    ensures res.HeaderComplete? ==>
      |res.blob| >= 4 && IndexOf(pending + got, CRLFCRLF, 0) == Some(|res.blob| - 4)
    ensures !res.HeaderTooLarge? ==> got == [] || |pending + got| <= cfg.readHeaderMaxBytes
    ensures res.HeaderTooLarge? <==> got != [] && |pending + got| > cfg.readHeaderMaxBytes
    ensures res.HeaderTooLarge? ==> OverflowingReceive(cfg, pending, got, before, |got|)
    ensures res.HeaderLost? ==>
      !Contains(pending + got, CRLFCRLF) && (Available(peer.inbox) == got || cfg.recvChunkSize == 0)
  {
    var how, buf;
    how, buf, peer', got, before := Accumulate(cfg, pending, peer);
    if how.StreamEnded? {
      return HeaderLost, peer', got, before;
    }
    if how.OverCap? {
      return HeaderTooLarge, peer', got, before;
    }
    var headerEnd := IndexOf(buf, CRLFCRLF, 0).value + 4;
    assert buf == buf[..headerEnd] + buf[headerEnd..];
    res := HeaderComplete(buf[..headerEnd], buf[headerEnd..]);
  }

  // ------------------------------------------------------- one request

  /** One request answered on the connection. */
  datatype Exchange = Exchange(blob: string, req: HttpRequest, ka: bool, reply: Reply)

  /** Why handle_client returned without another response. */
  datatype Stop =
    | ConnectionEnded
    | HeaderTooLong(reply: Reply)
    | BadRequest(blob: string, err: string, reply: Reply)
    | BodyIncomplete(blob: string, req: HttpRequest)

  /** The outcome of one pass through the request loop. */
  datatype Step = Served(ex: Exchange, next: string) | Stopped(why: Stop)

  /** What an answered request satisfies: its header blob runs to the first
      blank line and parses, the body that followed it was as long as its
      Content-Length, keep-alive was negotiated from the request, and the
      response is the one its method selects. */
  predicate ExchangeOk(cfg: Config.ServerConfig, e: Exchange, body: string)
  {
    && ParsedRequest(e.blob).ok && ParsedRequest(e.blob).req == e.req
    && |e.blob| >= 4 && IndexOf(e.blob, CRLFCRLF, 0) == Some(|e.blob| - 4)
    && |body| == e.req.contentLength
    && e.ka == WantsKeepalive(e.req, cfg)
    && e.reply == Dispatch(cfg, e.req, e.ka)
  }

  /** Every answered request of a log satisfies ExchangeOk with its body. */
  predicate AllOk(cfg: Config.ServerConfig, log: seq<Exchange>, bodies: seq<string>)
  {
    |log| == |bodies| && forall i :: 0 <= i < |log| ==> ExchangeOk(cfg, log[i], bodies[i])
  }

  /** The bytes one pass through the loop can read: what the previous
      request left in the buffer and, unless every receive asks for zero
      bytes, the unread input. */
  function Visible(cfg: Config.ServerConfig, pending: string, input: string): string
  {
    if cfg.recvChunkSize == 0 then pending else pending + input
  }

  /** `blob` is the header block of a pass: the visible bytes up to and
      including their first blank line, grown within the cap unless it
      was already in the buffer. */
  ghost predicate HeaderOf(cfg: Config.ServerConfig, blob: string, pending: string, input: string)
  {
    && blob <= Visible(cfg, pending, input)
    && |blob| >= 4 && IndexOf(blob, CRLFCRLF, 0) == Some(|blob| - 4)
    && (|blob| <= cfg.readHeaderMaxBytes || blob <= pending)
  }

  /** Why a pass that starts from `pending` with `input` unread may stop
      without answering: the stream ends before a blank line; a receive
      pushes a header without blank line over the cap (400); the header
      does not parse (400); or the stream ends before the body does. */
  ghost predicate StopJustified(cfg: Config.ServerConfig, why: Stop, pending: string, input: string)
  {
    var seen := Visible(cfg, pending, input);
    match why
    case ConnectionEnded =>
      && !Contains(seen, CRLFCRLF)
      && (cfg.recvChunkSize == 0 || input == [] || |seen| <= cfg.readHeaderMaxBytes)
    case HeaderTooLong(reply) =>
      && reply == ErrorReply(400, false)
      && exists before: nat, upto: nat :: OverflowingReceive(cfg, pending, input, before, upto)
    case BadRequest(blob, err, reply) =>
      && HeaderOf(cfg, blob, pending, input)
      && !ParsedRequest(blob).ok && err == ParsedRequest(blob).err
      && reply == ErrorReply(400, false)
    case BodyIncomplete(blob, req) =>
      && HeaderOf(cfg, blob, pending, input)
      && ParsedRequest(blob).ok && ParsedRequest(blob).req == req
      && |blob| + req.contentLength > |seen|
  }

  /** How reading one request ends: a parsed header, or the reason the
      connection ends before a response to it. */
  datatype Incoming = Parsed(blob: string, req: HttpRequest, after: string) | Refused(why: Stop)

  /** The first half of a pass through the loop of handle_client: read a
      header and parse it. A header that grows past the cap or fails to
      parse is answered with a 400 that closes the connection; `after`
      is what the buffer held beyond the blank line. */
  method ReadRequest(cfg: Config.ServerConfig, date: string, pending: string, peer: Peer)
    returns (inc: Incoming, peer': Peer)
    ensures peer.wire <= peer'.wire
    ensures inc.Parsed? ==>
      && ParsedRequest(inc.blob).ok && ParsedRequest(inc.blob).req == inc.req
      && HeaderOf(cfg, inc.blob, pending, Available(peer.inbox))
    ensures inc.Parsed? ==> inc.blob + inc.after + Available(peer'.inbox) == pending + Available(peer.inbox)
    ensures inc.Parsed? && cfg.recvChunkSize == 0 ==> inc.blob + inc.after == pending
    ensures inc.Parsed? && |pending| <= cfg.readHeaderMaxBytes ==>
      |inc.blob| + |inc.after| <= cfg.readHeaderMaxBytes
    ensures inc.Refused? ==> !inc.why.BodyIncomplete?
    ensures inc.Parsed? || inc.why.ConnectionEnded? ==> peer'.wire == peer.wire && peer'.outbox == peer.outbox
    ensures inc.Refused? ==> StopJustified(cfg, inc.why, pending, Available(peer.inbox))
  {
    var hr, p1, got, before := ReadHeader(cfg, pending, peer);
    if hr.HeaderLost? {
      assert Visible(cfg, pending, Available(peer.inbox)) == pending + got;
      return Refused(ConnectionEnded), p1;
    }
    if hr.HeaderTooLarge? {
      assert Available(peer.inbox)[..before] == got[..before];
      assert Available(peer.inbox)[..|got|] == got[..|got|];
      assert OverflowingReceive(cfg, pending, Available(peer.inbox), before, |got|);
      var reply, p2 := SendError(400, false, date, p1);
      return Refused(HeaderTooLong(reply)), p2;
    }
    var blob, after := hr.blob, hr.after;
    IndexOfPrefix(pending + got, CRLFCRLF, |blob| - 4, |blob|);
    assert (pending + got)[..|blob|] == blob;
    Rejoin(blob, after, Available(p1.inbox), pending, got, Available(peer.inbox));
    assert HeaderOf(cfg, blob, pending, Available(peer.inbox));
    inc, peer' := Interpret(date, blob, after, p1);
  }

  /** Parse a complete header blob, answering a 400 that closes the
      connection when it does not parse. */
  method Interpret(date: string, blob: string, after: string, peer: Peer) returns (inc: Incoming, peer': Peer)
    ensures peer.wire <= peer'.wire
    ensures inc.Parsed? <==> ParsedRequest(blob).ok
    ensures inc.Parsed? ==> inc.blob == blob && inc.after == after && peer' == peer
    ensures inc.Parsed? ==> ParsedRequest(blob).req == inc.req
    ensures inc.Refused? ==> inc.why.BadRequest? && inc.why.blob == blob
    ensures inc.Refused? ==> inc.why.err == ParsedRequest(blob).err
    ensures inc.Refused? ==> inc.why.reply == ErrorReply(400, false)
  {
    var ok, req, err := ParseRequestHeaders(blob);
    if !ok {
      var reply;
      reply, peer' := SendError(400, false, date, peer);
      return Refused(BadRequest(blob, err, reply)), peer';
    }
    return Parsed(blob, req, after), peer;
  }

  /** The second half of a pass: negotiate keep-alive, drain the body and
      answer with the stub page or a 501. The pass stops without an answer
      exactly when the stream ends before the body does. */
  method Answer(cfg: Config.ServerConfig, date: string, blob: string, req: HttpRequest, after: string, peer: Peer)
    returns (step: Step, peer': Peer, ghost body: string)
    ensures peer.wire <= peer'.wire
    ensures step.Served? <==>
      (req.contentLength <= |after|
       || (cfg.recvChunkSize > 0 && req.contentLength - |after| <= |Available(peer.inbox)|))
    ensures step.Stopped? ==> step.why == BodyIncomplete(blob, req)
    ensures step.Served? ==>
      var ka := WantsKeepalive(req, cfg);
      step.ex == Exchange(blob, req, ka, Dispatch(cfg, req, ka))
    ensures step.Served? ==>
      |body| == req.contentLength && body + step.next + Available(peer'.inbox) == after + Available(peer.inbox)
    ensures step.Served? ==> |step.next| <= |after|
    ensures step.Served? && step.ex.reply.StubReply? ==>
      Delivered(peer.(inbox := peer'.inbox), peer', Render(step.ex.reply, date))
    ensures step.Stopped? ==> peer'.wire == peer.wire
  {
    var ka := WantsKeepalive(req, cfg);
    var drained, alreadyOut, next, p2, b := DrainBody(cfg, req.contentLength, after, peer);
    body := b;
    if !drained {
      return Stopped(BodyIncomplete(blob, req)), p2, body;
    }
    var reply;
    if req.httpMethod == "GET" || req.httpMethod == "POST" || req.httpMethod == "DELETE" {
      reply, peer' := SendStubResponse(cfg, req, date, p2);
    } else {
      reply, peer' := SendError(501, ka, date, p2);
    }
    step := Served(Exchange(blob, req, ka, reply), next);
  }

  /** One pass through the loop of handle_client after the request limit
      check. An answered request took up its header blob and its body from
      the input; `body` is that body. */
  method ServeOne(cfg: Config.ServerConfig, date: string, pending: string, peer: Peer)
    returns (step: Step, peer': Peer, ghost body: string)
    ensures peer.wire <= peer'.wire
    ensures step.Served? ==> ExchangeOk(cfg, step.ex, body)
    ensures step.Served? ==> HeaderOf(cfg, step.ex.blob, pending, Available(peer.inbox))
    ensures step.Served? ==>
      step.ex.blob + body + step.next + Available(peer'.inbox) == pending + Available(peer.inbox)
    ensures step.Stopped? ==> StopJustified(cfg, step.why, pending, Available(peer.inbox))
    ensures step.Served? && |pending| <= cfg.readHeaderMaxBytes ==>
      |step.ex.blob| <= cfg.readHeaderMaxBytes && |step.next| <= cfg.readHeaderMaxBytes
    ensures step.Served? && step.ex.reply.StubReply? ==>
      Delivered(peer.(inbox := peer'.inbox), peer', Render(step.ex.reply, date))
    ensures step.Stopped? && (step.why.ConnectionEnded? || step.why.BodyIncomplete?) ==>
      peer'.wire == peer.wire
  {
    body := [];
    var inc, p1 := ReadRequest(cfg, date, pending, peer);
    if inc.Refused? {
      return Stopped(inc.why), p1, body;
    }
    step, peer', body := Answer(cfg, date, inc.blob, inc.req, inc.after, p1);
    if step.Served? {
      Nest(inc.blob, body, step.next, Available(peer'.inbox), inc.after, Available(p1.inbox),
           pending + Available(peer.inbox));
    } else {
      assert |inc.blob| + |inc.after| + |Available(p1.inbox)| == |pending| + |Available(peer.inbox)|;
    }
  }

  /** The header blob and the bytes after it, followed by the unread
      input, are the pending bytes followed by all the input. */
  lemma Rejoin(a: string, b: string, c: string, p: string, g: string, all: string)
    requires a + b == p + g && all == g + c
    ensures a + b + c == p + all
  {
    calc {
      a + b + c;
      (p + g) + c;
      p + (g + c);
    }
  }

  /** A stream that starts with `x`, followed by `a + v`, where `a + v`
      is itself `y + z + w`. */
  lemma Nest(x: string, y: string, z: string, w: string, a: string, v: string, all: string)
    requires y + z + w == a + v && x + a + v == all
    ensures x + y + z + w == all
  {
    calc {
      x + y + z + w;
      x + (y + z + w);
      x + (a + v);
    }
  }

  // ------------------------------------------------------ handle_client

  /** The header blobs and bodies of the answered requests, in order: the
      part of the input stream they took up. */
  function Framed(log: seq<Exchange>, bodies: seq<string>): string
    requires |log| == |bodies|
  {
    if log == [] then []
    else Framed(log[..|log| - 1], bodies[..|bodies| - 1]) + log[|log| - 1].blob + bodies[|bodies| - 1]
  }

  /** Why the request loop ended. */
  datatype Exit = MaxRequests | NotKeptAlive | Aborted(why: Stop)

  /** What handle_client achieves on a connection whose input is `input`:
      every answered request parsed and was answered as its method
      selects; every request but the last kept the connection open, and
      the last too unless a close decision ended the loop; the answered
      headers and bodies are the start of the input; and the loop ended
      at the request limit, after a close decision, or because a pass,
      with `carried` left in the buffer, stopped for one of the reasons
      of StopJustified on the rest of the input. */
  ghost predicate ConnectionServed(cfg: Config.ServerConfig, input: string, log: seq<Exchange>,
                                   bodies: seq<string>, exit: Exit, carried: string)
  {
    && AllOk(cfg, log, bodies)
    && LeadingKeptAlive(log)
    && (!exit.NotKeptAlive? ==> KeptAlive(log))
    && (exit.NotKeptAlive? ==> |log| > 0 && !log[|log| - 1].ka)
    && (exit.MaxRequests? ==> cfg.keepAlive && |log| == cfg.keepAliveMaxRequests)
    && (cfg.keepAlive ==> |log| <= cfg.keepAliveMaxRequests)
    && (!cfg.keepAlive ==> |log| <= 1)
    && HeadersWithin(log, cfg.readHeaderMaxBytes)
    && |carried| <= cfg.readHeaderMaxBytes
    && Framed(log, bodies) + carried <= input
    && (exit.Aborted? ==>
          StopJustified(cfg, exit.why, carried, input[|Framed(log, bodies)| + |carried|..]))
  }

  /** handle_client after its socket set-up: answer requests one after
      the other on the same connection, carrying the bytes that follow a
      request into the next one, until keep-alive is off for a request,
      the configured number of requests has been answered, or a request
      cannot be read. */
  method HandleClient(cfg: Config.ServerConfig, date: string, peer: Peer)
    returns (log: seq<Exchange>, exit: Exit, peer': Peer, ghost bodies: seq<string>, ghost carried: string)
    ensures ConnectionServed(cfg, Available(peer.inbox), log, bodies, exit, carried)
    ensures peer.wire <= peer'.wire
  {
    var handled: nat := 0;
    var pending: string := [];
    ghost var rest: string;
    log, bodies := [], [];
    peer' := peer;
    while true
      invariant handled == |log| == |bodies|
      invariant cfg.keepAlive ==> handled <= cfg.keepAliveMaxRequests
      invariant !cfg.keepAlive ==> handled == 0
      invariant AllOk(cfg, log, bodies)
      invariant KeptAlive(log)
      invariant Framed(log, bodies) + pending + Available(peer'.inbox) == Available(peer.inbox)
      invariant HeadersWithin(log, cfg.readHeaderMaxBytes)
      invariant |pending| <= cfg.readHeaderMaxBytes
      invariant peer.wire <= peer'.wire
      decreases if cfg.keepAlive then cfg.keepAliveMaxRequests - handled else 1 - handled
    {
      if cfg.keepAlive && handled >= cfg.keepAliveMaxRequests {
        exit := MaxRequests;
        rest := Available(peer'.inbox);
        break;
      }
      var step, next, body := ServeOne(cfg, date, pending, peer');
      if step.Stopped? {
        exit := Aborted(step.why);
        rest := Available(peer'.inbox);
        peer' := next;
        break;
      }
      FramedAppend(log, bodies, step.ex, body, pending, step.next,
                   Available(peer'.inbox), Available(next.inbox), Available(peer.inbox));
      AllOkSnoc(cfg, log, bodies, step.ex, body);
      KeptAliveSnoc(log, step.ex);
      HeadersWithinSnoc(log, step.ex, cfg.readHeaderMaxBytes);
      log, bodies := log + [step.ex], bodies + [body];
      pending := step.next;
      peer' := next;
      handled := handled + 1;
      if !step.ex.ka {
        exit := NotKeptAlive;
        rest := Available(peer'.inbox);
        break;
      }
    }
    carried := pending;
    ServedUpTo(cfg, Available(peer.inbox), log, bodies, exit, carried, rest);
  }

  /** The state of the loop when it exits establishes ConnectionServed:
      `rest` is the input the loop had not read. */
  lemma ServedUpTo(cfg: Config.ServerConfig, input: string, log: seq<Exchange>, bodies: seq<string>,
                   exit: Exit, carried: string, rest: string)
    requires AllOk(cfg, log, bodies)
    requires if exit.NotKeptAlive? then LeadingKeptAlive(log) && |log| > 0 && !log[|log| - 1].ka else KeptAlive(log)
    requires exit.MaxRequests? ==> cfg.keepAlive && |log| == cfg.keepAliveMaxRequests
    requires cfg.keepAlive ==> |log| <= cfg.keepAliveMaxRequests
    requires !cfg.keepAlive ==> |log| <= 1
    requires HeadersWithin(log, cfg.readHeaderMaxBytes)
    requires |carried| <= cfg.readHeaderMaxBytes
    requires Framed(log, bodies) + carried + rest == input
    requires exit.Aborted? ==> StopJustified(cfg, exit.why, carried, rest)
    ensures ConnectionServed(cfg, input, log, bodies, exit, carried)
  {
    Unread(Framed(log, bodies), carried, rest, input);
  }

  /** No header block of the log is longer than `cap`. */
  predicate HeadersWithin(log: seq<Exchange>, cap: nat)
  {
    forall i :: 0 <= i < |log| ==> |log[i].blob| <= cap
  }

  lemma HeadersWithinSnoc(log: seq<Exchange>, e: Exchange, cap: nat)
    requires HeadersWithin(log, cap) && |e.blob| <= cap
    ensures HeadersWithin(log + [e], cap)
  {
    assert forall i :: 0 <= i < |log| ==> (log + [e])[i] == log[i];
  }

  /** Every request of the log asked to keep the connection open. */
  predicate KeptAlive(log: seq<Exchange>)
  {
    forall i :: 0 <= i < |log| ==> log[i].ka
  }

  /** Every request of the log but the last asked to keep the connection
      open. */
  predicate LeadingKeptAlive(log: seq<Exchange>)
  {
    forall i :: 0 <= i < |log| - 1 ==> log[i].ka
  }

  lemma KeptAliveSnoc(log: seq<Exchange>, e: Exchange)
    requires KeptAlive(log)
    ensures LeadingKeptAlive(log) && LeadingKeptAlive(log + [e])
    ensures e.ka ==> KeptAlive(log + [e])
  {
    assert forall i :: 0 <= i < |log| ==> (log + [e])[i] == log[i];
  }

  /** Appending an answered request to a log of answered requests. */
  lemma AllOkSnoc(cfg: Config.ServerConfig, log: seq<Exchange>, bodies: seq<string>,
                  e: Exchange, body: string)
    requires AllOk(cfg, log, bodies) && ExchangeOk(cfg, e, body)
    ensures AllOk(cfg, log + [e], bodies + [body])
  {
    forall i | 0 <= i < |log + [e]|
      ensures ExchangeOk(cfg, (log + [e])[i], (bodies + [body])[i])
    {
      if i < |log| {
        assert (log + [e])[i] == log[i] && (bodies + [body])[i] == bodies[i];
      }
    }
  }

  /** The first two of three concatenated pieces are a prefix of the
      whole, and the third is what follows them. */
  lemma Unread(f: string, p: string, a: string, all: string)
    requires f + p + a == all
    ensures f + p <= all && all[|f| + |p|..] == a
  {
    assert all == (f + p) + a;
  }

  lemma FramedAppend(log: seq<Exchange>, bodies: seq<string>, e: Exchange, body: string,
                     pending: string, next: string, avail: string, left: string, all: string)
    requires |log| == |bodies|
    requires Framed(log, bodies) + pending + avail == all
    requires e.blob + body + next + left == pending + avail
    ensures Framed(log + [e], bodies + [body]) + next + left == all
  {
    FramedSnoc(log, bodies, e, body);
    Splice(Framed(log, bodies), e.blob, body, next, left, pending, avail, all);
  }

  /** Replacing the middle of a stream by an equal concatenation. */
  lemma Splice(f: string, x: string, y: string, z: string, w: string, p: string, v: string, all: string)
    requires f + p + v == all
    requires x + y + z + w == p + v
    ensures f + x + y + z + w == all
  {
    calc {
      f + x + y + z + w;
      f + (x + y + z + w);
      f + (p + v);
      all;
    }
  }

  lemma FramedSnoc(log: seq<Exchange>, bodies: seq<string>, e: Exchange, body: string)
    requires |log| == |bodies|
    ensures Framed(log + [e], bodies + [body]) == Framed(log, bodies) + e.blob + body
  {
    assert (log + [e])[..|log|] == log;
    assert (bodies + [body])[..|bodies|] == bodies;
  }

  // ----------------------------------------------------------- admission

  /** The active-client counter of HttpServer::run, checked and updated
      by one accepting thread at a time. `live` names the admitted
      connections whose worker has not finished. */
  class Admission {
    var active: nat
    const maxClients: nat
    ghost var live: set<nat>
    ghost var issued: nat

    ghost predicate Valid()
      reads this
    {
      && active == |live| && active <= maxClients
      && (forall id :: id in live ==> id < issued)
    }

    constructor(maxClients: nat)
      ensures Valid() && active == 0 && this.maxClients == maxClients && live == {}
    {
      this.maxClients := maxClients;
      active := 0;
      live := {};
      issued := 0;
    }

    /** The check before spawning a worker: a full server refuses the
        connection and leaves the count alone; otherwise the count goes up
        by one for the new worker `id`. */
    method Admit() returns (admitted: bool, ghost id: nat)
      requires Valid()
      modifies this
      ensures Valid()
      ensures admitted <==> old(active) < maxClients
      ensures admitted ==> active == old(active) + 1 && id !in old(live) && live == old(live) + {id}
      ensures !admitted ==> active == old(active) && live == old(live)
    {
      id := issued;
      if active >= maxClients {
        return false, id;
      }
      live := live + {id};
      issued := issued + 1;
      active := active + 1;
      admitted := true;
    }

    /** The worker's Guard: the count goes down by one when it ends. */
    method Release(ghost id: nat)
      requires Valid() && id in live
      modifies this
      ensures Valid()
      ensures active == old(active) - 1 && live == old(live) - {id}
    {
      live := live - {id};
      active := active - 1;
    }

    /** One accepted connection: refused with a 503 when the server is
        full, otherwise served by handle_client, whose Guard releases the
        slot on whichever path it returns. */
    method Accept(cfg: Config.ServerConfig, date: string, peer: Peer)
      returns (admitted: bool, refusal: Option<Reply>, log: seq<Exchange>, exit: Option<Exit>, peer': Peer,
               ghost bodies: seq<string>, ghost carried: string)
      requires Valid()
      modifies this
      ensures Valid() && active == old(active) && live == old(live)
      ensures admitted <==> old(active) < maxClients
      ensures !admitted ==> refusal == Some(ErrorReply(503, false)) && log == [] && exit.None?
      ensures admitted ==> refusal.None? && exit.Some?
      ensures admitted ==> ConnectionServed(cfg, Available(peer.inbox), log, bodies, exit.value, carried)
      ensures peer.wire <= peer'.wire
    {
      ghost var id;
      admitted, id := Admit();
      if !admitted {
        var reply;
        reply, peer' := SendError(503, false, date, peer);
        return false, Some(reply), [], None, peer', [], [];
      }
      var ex;
      log, ex, peer', bodies, carried := HandleClient(cfg, date, peer);
      Release(id);
      refusal, exit := None, Some(ex);
    }
  }
}
