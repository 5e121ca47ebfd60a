/** Properties of the connection engine that relate several of its
    operations: keep-alive negotiation against the Connection header the
    server writes, the status each method gets, and the headers every
    rendered response carries. */
module ServerProperties {
  import opened Text
  import opened Utils
  import opened Http
  import opened HttpProperties
  import opened Server
  import Config

  // ------------------------------------------------------ wants_keepalive

  /** Keep-alive is off whenever the configuration disables it; without a
      Connection header it is on exactly for HTTP/1.1; and an HTTP/1.0 or
      other non-1.1 request keeps the connection only when it asks to. */
  lemma KeepaliveDefaults(req: HttpRequest, cfg: Config.ServerConfig)
    ensures !cfg.keepAlive ==> !WantsKeepalive(req, cfg)
    ensures cfg.keepAlive && "connection" !in req.headers ==> (WantsKeepalive(req, cfg) <==> req.version == "HTTP/1.1")
    ensures WantsKeepalive(req, cfg) && req.version != "HTTP/1.1" ==> "connection" in req.headers
  {
    assert !Contains("", "close") && !Contains("", "keep-alive");
  }

  /** The Connection value is compared without regard to ASCII case. */
  lemma KeepaliveIgnoresCase(req: HttpRequest, cfg: Config.ServerConfig, v: string)
    ensures WantsKeepalive(req.(headers := req.headers["connection" := v]), cfg)
         == WantsKeepalive(req.(headers := req.headers["connection" := LowerAscii(v)]), cfg)
  {
    LowerAsciiSpec(v);
  }

  /** `s` has no upper-case ASCII letter. */
  predicate NoUpper(s: string)
    decreases |s|
  {
    s == [] || (!('A' <= s[0] <= 'Z') && NoUpper(s[1..]))
  }

  /** to_lower leaves a string without upper-case letters unchanged. */
  lemma {:induction false} LowerOfLower(s: string)
    requires NoUpper(s)
    ensures LowerAscii(s) == s
    decreases |s|
  {
    if s != [] {
      LowerOfLower(s[1..]);
      assert s == [s[0]] + s[1..];
    }
  }

  /** A string contains itself. */
  lemma ContainsItself(s: string)
    ensures Contains(s, s)
  {
    assert OccursAt(s, s, 0);
    IndexOfIs(s, s, 0);
  }

  /** A pattern whose first character does not occur in `s` is not in `s`. */
  lemma MissingFirstChar(s: string, pat: string)
    requires pat != [] && forall i :: 0 <= i < |s| ==> s[i] != pat[0]
    ensures !Contains(s, pat)
  {
    forall j: nat ensures !OccursAt(s, pat, j) {
      if j + |pat| <= |s| {
        assert s[j..j + |pat|][0] == s[j];
      }
    }
  }

  /** The two values the server writes in its Connection header are
      already lower case, each contains its own token, and neither
      contains the other's. */
  lemma ConnectionTokens()
    ensures Contains("close", "close") && Contains("keep-alive", "keep-alive")
    ensures !Contains("keep-alive", "close") && !Contains("close", "keep-alive")
    ensures LowerAscii("close") == "close" && LowerAscii("keep-alive") == "keep-alive"
  {
    ContainsItself("close");
    ContainsItself("keep-alive");
    MissingFirstChar("keep-alive", "close");
    MissingFirstChar("close", "keep-alive");
    LowerOfLower("close");
    LowerOfLower("keep-alive");
  }

  /** A client that sends back the Connection value the server wrote gets
      the same decision again, under HTTP/1.1 and under HTTP/1.0 alike,
      as long as the configuration allows keep-alive at all. */
  lemma ConnectionValueRoundTrip(req: HttpRequest, cfg: Config.ServerConfig, ka: bool)
    requires cfg.keepAlive
    requires req.version == "HTTP/1.1" || req.version == "HTTP/1.0"
    ensures WantsKeepalive(req.(headers := req.headers["connection" := ConnectionValue(ka)]), cfg) == ka
  {
    ConnectionTokens();
  }

  // -------------------------------------------------------------- dispatch

  /** GET gets 200 and every other method 501: POST and DELETE through the
      stub page, anything else through the error page. */
  lemma DispatchStatus(cfg: Config.ServerConfig, req: HttpRequest, ka: bool)
    ensures Dispatch(cfg, req, ka).status == 200 <==> req.httpMethod == "GET"
    ensures Dispatch(cfg, req, ka).status in {200, 501}
    ensures Dispatch(cfg, req, ka).StubReply? <==> req.httpMethod in {"GET", "POST", "DELETE"}
    ensures Dispatch(cfg, req, ka).ErrorReply? ==> Dispatch(cfg, req, ka) == ErrorReply(501, ka)
  {
  }

  /** The stub writer negotiates keep-alive afresh instead of taking the
      loop's decision; the two agree, so the Connection header always says
      what handle_client then does with the connection. */
  lemma DispatchAgreesWithLoop(cfg: Config.ServerConfig, req: HttpRequest)
    ensures Dispatch(cfg, req, WantsKeepalive(req, cfg)).ka == WantsKeepalive(req, cfg)
    ensures Dispatch(cfg, req, WantsKeepalive(req, cfg)).ka ==> cfg.keepAlive
  {
  }

  // ---------------------------------------------------------------- render

  /** Every head carries the status with its reason, the date it was sent,
      the server name, the HTML content type, a Content-Length that this
      server's own parser reads back as the page length, and a Connection
      header stating the reply's keep-alive decision; a Keep-Alive header
      with the configured timeout and limit appears exactly on stub replies
      that keep the connection. */
  lemma HeadForHeaders(r: Reply, date: string, n: nat)
    ensures HeadFor(r, date, n).status == r.status && HeadFor(r, date, n).reason == StatusReason(r.status)
    ensures var h := HeadFor(r, date, n).headers;
      && h.Keys == {"Date", "Server", "Content-Type", "Content-Length", "Connection"}
                   + (if r.StubReply? && r.ka then {"Keep-Alive"} else {})
      && h["Date"] == date && h["Server"] == ServerName && h["Content-Type"] == HtmlContentType
      && h["Connection"] == ConnectionValue(r.ka)
      && DecimalValue(h["Content-Length"]) == n
      && (ValidContentLength(h["Content-Length"]) <==> n <= U64_MAX)
      && (r.StubReply? && r.ka ==> h["Keep-Alive"] == KeepAliveValue(r.timeout, r.maxRequests))
  {
    ContentLengthRoundTrip(n);
  }

  /** The '<' of a stub page all come from its template: whatever the
      status, reason, method and target, the page opens the same number of tags,
      so nothing a client sends can inject markup. */
  lemma StubPageMarkupIsFixed(status: int, reason: string, m: string, target: string,
                              status': int, reason': string, m': string, target': string)
    ensures Count('<', StubPage(status, reason, m, target)) == Count('<', StubPage(status', reason', m', target'))
  {
    StubGroupsMarkup(status, reason, m, target, status', reason', m', target');
    CountAppend3('<', Concat(StubTitle(status, reason)), Concat(StubHeading(status, reason)), Concat(StubEcho(m, target)));
    CountAppend3('<', Concat(StubTitle(status', reason')), Concat(StubHeading(status', reason')), Concat(StubEcho(m', target')));
  }

  lemma CountAppend3(c: char, a: string, b: string, d: string)
    ensures Count(c, a + b + d) == Count(c, a) + Count(c, b) + Count(c, d)
  {
    CountAppend(c, a + b, d);
    CountAppend(c, a, b);
  }

  lemma StubGroupsMarkup(status: int, reason: string, m: string, target: string,
                         status': int, reason': string, m': string, target': string)
    ensures Count('<', Concat(StubTitle(status, reason))) == Count('<', Concat(StubTitle(status', reason')))
    ensures Count('<', Concat(StubHeading(status, reason))) == Count('<', Concat(StubHeading(status', reason')))
    ensures Count('<', Concat(StubEcho(m, target))) == Count('<', Concat(StubEcho(m', target')))
  {
    StubTitleMarkup(status, reason, status', reason');
    StubHeadingMarkup(status, reason, status', reason');
    StubEchoMarkup(m, target, m', target');
  }

  lemma StubTitleMarkup(status: int, reason: string, status': int, reason': string)
    ensures Count('<', Concat(StubTitle(status, reason))) == Count('<', Concat(StubTitle(status', reason')))
  {
    IntToStringAbsent('<', status);
    IntToStringAbsent('<', status');
    EscapedHasNoTagOpen(reason);
    EscapedHasNoTagOpen(reason');
    CountConcatPointwise('<', StubTitle(status, reason), StubTitle(status', reason'));
  }

  lemma StubHeadingMarkup(status: int, reason: string, status': int, reason': string)
    ensures Count('<', Concat(StubHeading(status, reason))) == Count('<', Concat(StubHeading(status', reason')))
  {
    IntToStringAbsent('<', status);
    IntToStringAbsent('<', status');
    EscapedHasNoTagOpen(reason);
    EscapedHasNoTagOpen(reason');
    CountConcatPointwise('<', StubHeading(status, reason), StubHeading(status', reason'));
  }

  lemma StubEchoMarkup(m: string, target: string, m': string, target': string)
    ensures Count('<', Concat(StubEcho(m, target))) == Count('<', Concat(StubEcho(m', target')))
  {
    EscapedHasNoTagOpen(m);
    EscapedHasNoTagOpen(m');
    EscapedHasNoTagOpen(target);
    EscapedHasNoTagOpen(target');
    CountConcatPointwise('<', StubEcho(m, target), StubEcho(m', target'));
  }
}
