/** The request-header parser and response-head builder of src/http.cpp,
    with the records of include/http.hpp. The parser and the serialiser are
    methods, as in the source (a cursor loop that collects lines, loops over
    the method and the header names, an accumulator loop for Content-Length,
    an output stream filled in a loop); each is proved equal to a
    specification function, and the properties of those functions are in
    module HttpProperties. */
module Http {
  import opened Text
  import opened Utils

  /** std::numeric_limits<uint64_t>::max() */
  const U64_MAX: nat := 0xFFFF_FFFF_FFFF_FFFF

  /** HttpRequest: header keys are lower case, content_length is a uint64. */
  datatype HttpRequest = HttpRequest(
    httpMethod: string,
    target: string,
    version: string,
    headers: map<string, string>,
    contentLength: nat)

  /** The value-initialised HttpRequest{}. */
  const EmptyRequest: HttpRequest := HttpRequest("", "", "", map[], 0)

  /** HttpResponseHead; the unordered_map becomes a map. */
  datatype ResponseHead = ResponseHead(status: int, reason: string, headers: map<string, string>)

  // ------------------------------------------------ status_reason, content_type_for_path

  /** The statuses status_reason knows by name. */
  const KnownStatuses: set<int> := {200, 400, 403, 404, 501, 503}

  function StatusReason(status: int): string
  {
    match status
    case 200 => "OK"
    case 400 => "Bad Request"
    case 403 => "Forbidden"
    case 404 => "Not Found"
    case 501 => "Not Implemented"
    case 503 => "Service Unavailable"
    case _ => "Unknown"
  }

  /** find_last_of(c): the last index holding `c`, or None. */
  function LastIndexOf(s: string, c: char): (r: Option<nat>)
    ensures r.Some? ==> r.value < |s| && s[r.value] == c && forall k :: r.value < k < |s| ==> s[k] != c
    ensures r.None? ==> forall k :: 0 <= k < |s| ==> s[k] != c
    decreases |s|
  {
    if s == [] then None
    else if s[|s| - 1] == c then Some(|s| - 1)
    else LastIndexOf(s[..|s| - 1], c)
  }

  /** The lower-cased text after the last '.', or "" when there is none. */
  function Extension(path: string): string
  {
    match LastIndexOf(path, '.')
    case None => ""
    case Some(d) => LowerAscii(path[d + 1..])
  }

  function MimeForExtension(ext: string): string
  {
    if ext == "html" || ext == "htm" then "text/html; charset=utf-8"
    else if ext == "txt" then "text/plain; charset=utf-8"
    else if ext == "css" then "text/css; charset=utf-8"
    else if ext == "js" then "application/javascript; charset=utf-8"
    else if ext == "json" then "application/json; charset=utf-8"
    else if ext == "png" then "image/png"
    else if ext == "jpg" || ext == "jpeg" then "image/jpeg"
    else if ext == "gif" then "image/gif"
    else if ext == "svg" then "image/svg+xml"
    else if ext == "pdf" then "application/pdf"
    else "application/octet-stream"
  }

  function ContentTypeForPath(path: string): string
  {
    MimeForExtension(Extension(path))
  }

  // ------------------------------------------------------ character classes

  predicate IsUpper(c: char)
  {
    'A' <= c <= 'Z'
  }

  predicate IsAlnum(c: char)
  {
    ('0' <= c <= '9') || ('a' <= c <= 'z') || ('A' <= c <= 'Z')
  }

  /** is_token_char: isalnum, '-' or '_'. */
  predicate IsTokenChar(c: char)
  {
    IsAlnum(c) || c == '-' || c == '_'
  }

  predicate IsHeaderName(key: string)
  {
    forall i :: 0 <= i < |key| ==> IsTokenChar(key[i])
  }

  // ------------------------------------------------ parse_content_length

  function DigitValue(c: char): nat
    requires IsDigit(c)
  {
    (c as int) - ('0' as int)
  }

  /** The base-10 value of a digit string, read left to right. */
  function DecimalValue(s: string): nat
    requires AllDigits(s)
    decreases |s|
  {
    if s == [] then 0 else DecimalValue(s[..|s| - 1]) * 10 + DigitValue(s[|s| - 1])
  }

  /** What parse_content_length accepts: a non-empty digit string whose
      value fits in 64 bits. */
  predicate ValidContentLength(v: string)
  {
    v != [] && AllDigits(v) && DecimalValue(v) <= U64_MAX
  }

  /** The overflow guard `acc > (max - d) / 10` says exactly that
      `acc * 10 + d` would not fit in 64 bits. */
  lemma OverflowGuardExact(acc: nat, d: nat)
    requires d <= 9
    ensures acc > (U64_MAX - d) / 10 <==> acc * 10 + d > U64_MAX
  {
    var q := (U64_MAX - d) / 10;
    var r := (U64_MAX - d) % 10;
    assert U64_MAX - d == q * 10 + r && 0 <= r < 10;
    if acc > q {
      assert acc * 10 >= q * 10 + 10;
    } else {
      assert acc * 10 <= q * 10;
    }
  }

  /** A longer digit string never has a smaller value. */
  lemma {:induction false} DecimalValuePrefix(s: string, k: nat)
    requires AllDigits(s) && k <= |s|
    ensures DecimalValue(s[..k]) <= DecimalValue(s)
    decreases |s| - k
  {
    if k < |s| {
      var t := s[..|s| - 1];
      assert t[..k] == s[..k];
      DecimalValuePrefix(t, k);
    } else {
      assert s[..k] == s;
    }
  }

  /** parse_content_length: fold the digits into `acc`, rejecting a
      non-digit and stopping before the accumulator would overflow. On
      failure the out-parameter keeps the value it came in with. */
  method ParseContentLength(v: string, out0: nat) returns (ok: bool, out: nat)
    ensures ok <==> ValidContentLength(v)
    ensures ok ==> out == DecimalValue(v)
    ensures !ok ==> out == out0
  {
    out := out0;
    if v == [] {
      return false, out;
    }
    var acc: nat := 0;
    var i := 0;
    while i < |v|
      invariant 0 <= i <= |v|
      invariant AllDigits(v[..i])
      invariant acc == DecimalValue(v[..i]) && acc <= U64_MAX
    {
      var c := v[i];
      if !IsDigit(c) {
        return false, out;
      }
      var d := DigitValue(c);
      assert v[..i + 1][..i] == v[..i];
      OverflowGuardExact(acc, d);
      if acc > (U64_MAX - d) / 10 {
        if AllDigits(v) {
          DecimalValuePrefix(v, i + 1);
        }
        return false, out;
      }
      acc := acc * 10 + d;
      i := i + 1;
    }
    assert v[..|v|] == v;
    out := acc;
    ok := true;
  }

  // ----------------------------------------------------------- line splitting

  /** The segments of `s` that are terminated by CRLF, in order; bytes after
      the last CRLF belong to no line. */
  function SplitCRLF(s: string): seq<string>
    decreases |s|
  {
    match IndexOf(s, CRLF, 0)
    case None => []
    case Some(e) => [s[..e]] + SplitCRLF(s[e + 2..])
  }

  /** Each line followed by CRLF. */
  function JoinCRLF(lines: seq<string>): string
    decreases |lines|
  {
    if lines == [] then [] else lines[0] + CRLF + JoinCRLF(lines[1..])
  }

  // ---------------------------------------------------- request-line words

  /** One past the end of the run of non-space characters starting at `i`. */
  function WordEnd(s: string, i: nat): (j: nat)
    requires i <= |s|
    ensures i <= j <= |s|
    ensures forall k :: i <= k < j ==> !IsSpace(s[k])
    ensures j < |s| ==> IsSpace(s[j])
    decreases |s| - i
  {
    if i < |s| && !IsSpace(s[i]) then WordEnd(s, i + 1) else i
  }

  /** The whitespace-separated words of `s[i..]`, as successive
      `istringstream >> std::string` extractions read them. */
  function WordsFrom(s: string, i: nat): seq<string>
    requires i <= |s|
    decreases |s| - i
  {
    if i == |s| then []
    else if IsSpace(s[i]) then WordsFrom(s, i + 1)
    else [s[i..WordEnd(s, i)]] + WordsFrom(s, WordEnd(s, i))
  }

  function Words(s: string): seq<string>
  {
    WordsFrom(s, 0)
  }

  /** The k-th word, or "" when there are fewer (a failed extraction leaves
      its target string untouched). */
  function WordOr(w: seq<string>, k: nat): string
  {
    if k < |w| then w[k] else ""
  }

  // --------------------------------------------------------- request parsing

  /** The outcome of parse_http_request_headers: its return value, the
      `out` request as the function leaves it, and `err`. */
  datatype ParseResult = ParseResult(ok: bool, req: HttpRequest, err: string)

  /** The checks on the method, character by character: an upper-case
      check first, then the token-character check. */
  function MethodError(m: string): string
    decreases |m|
  {
    if m == [] then ""
    else if !IsUpper(m[0]) then "invalid method"
    else if !IsTokenChar(m[0]) then "invalid method token"
    else MethodError(m[1..])
  }

  /** The first line: up to three words are stored as they are extracted,
      then the version, the method and the target are checked in that order. */
  function ParseRequestLine(line: string): ParseResult
  {
    var w := Words(line);
    var req := EmptyRequest.(httpMethod := WordOr(w, 0), target := WordOr(w, 1), version := WordOr(w, 2));
    if |w| < 3 then ParseResult(false, req, "invalid request line")
    else if req.version != "HTTP/1.1" && req.version != "HTTP/1.0" then
      ParseResult(false, req, "unsupported http version")
    else if MethodError(req.httpMethod) != "" then ParseResult(false, req, MethodError(req.httpMethod))
    else if req.target == [] || req.target[0] != '/' then ParseResult(false, req, "invalid target")
    else ParseResult(true, req, "")
  }

  /** The header lines from index `i` up to the first empty line: split at
      the first ':', trim both sides, check the name, store under the
      lower-cased name (a later line overwrites an earlier one). Headers
      stored before a failing line stay in the request. */
  function ParseHeaderLines(lines: seq<string>, i: nat, req: HttpRequest): (r: ParseResult)
    ensures r.ok <==> r.err == ""
    ensures !r.ok ==> r.err in {"bad header line", "empty header name", "invalid header name"}
    ensures r.req.httpMethod == req.httpMethod && r.req.target == req.target
    ensures r.req.version == req.version && r.req.contentLength == req.contentLength
    decreases |lines| - i
  {
    if i >= |lines| || lines[i] == [] then ParseResult(true, req, "")
    else
      match IndexOf(lines[i], ":", 0)
      case None => ParseResult(false, req, "bad header line")
      case Some(p) =>
        var key := Trimmed(lines[i][..p]);
        var val := Trimmed(lines[i][p + 1..]);
        if key == [] then ParseResult(false, req, "empty header name")
        else if !IsHeaderName(key) then ParseResult(false, req, "invalid header name")
        else ParseHeaderLines(lines, i + 1, req.(headers := req.headers[LowerAscii(key) := val]))
  }

  /** The Content-Length step: absent means 0, present must parse. */
  function ApplyContentLength(req: HttpRequest): ParseResult
  {
    if "content-length" in req.headers then
      var v := req.headers["content-length"];
      if ValidContentLength(v) then ParseResult(true, req.(contentLength := DecimalValue(v)), "")
      else ParseResult(false, req, "bad content-length")
    else ParseResult(true, req, "")
  }

  /** parse_http_request_headers as a function of the header blob. */
  function ParsedRequest(blob: string): ParseResult
  {
    var lines := SplitCRLF(blob);
    if lines == [] then ParseResult(false, EmptyRequest, "empty request")
    else
      var rl := ParseRequestLine(lines[0]);
      if !rl.ok then rl
      else
        var hs := ParseHeaderLines(lines, 1, rl.req);
        if !hs.ok then hs else ApplyContentLength(hs.req)
  }

  /** SplitCRLF of a suffix, one line at a time: the cursor step of the
      line-collecting loop. */
  lemma SplitCRLFStep(s: string, pos: nat, e: nat)
    requires pos <= |s|
    requires IndexOf(s, CRLF, pos) == Some(e)
    ensures e + 2 <= |s|
    ensures SplitCRLF(s[pos..]) == [s[pos..e]] + SplitCRLF(s[e + 2..])
  {
    IndexOfSuffix(s, CRLF, pos);
    var t := s[pos..];
    var d := e - pos;
    assert IndexOf(t, CRLF, 0) == Some(d);
    assert OccursAt(t, CRLF, d);
    assert SplitCRLF(t) == [t[..d]] + SplitCRLF(t[d + 2..]);
    SuffixSlices(s, pos, e);
  }

  lemma SuffixSlices(s: string, pos: nat, e: nat)
    requires pos <= e && e + 2 <= |s|
    ensures s[pos..][..e - pos] == s[pos..e]
    ensures s[pos..][e - pos + 2..] == s[e + 2..]
  {
  }

  lemma SplitCRLFNone(s: string, pos: nat)
    requires pos <= |s|
    requires IndexOf(s, CRLF, pos).None?
    ensures SplitCRLF(s[pos..]) == []
  {
    IndexOfSuffix(s, CRLF, pos);
  }

  /** The method loop visits only upper-case token characters before it
      stops, so what remains to be checked decides the error. */
  lemma MethodErrorStep(m: string, i: nat)
    requires i < |m| && IsUpper(m[i]) && IsTokenChar(m[i])
    ensures MethodError(m[i..]) == MethodError(m[i + 1..])
  {
    assert m[i..][1..] == m[i + 1..];
  }

  /** One accepted header line: parsing continues with the next line and
      the header stored. */
  lemma ParseHeaderLinesStep(lines: seq<string>, i: nat, req: HttpRequest, p: nat)
    requires i < |lines| && lines[i] != []
    requires IndexOf(lines[i], ":", 0) == Some(p)
    requires Trimmed(lines[i][..p]) != [] && IsHeaderName(Trimmed(lines[i][..p]))
    ensures ParseHeaderLines(lines, i, req)
         == ParseHeaderLines(lines, i + 1, req.(headers := req.headers[LowerAscii(Trimmed(lines[i][..p])) := Trimmed(lines[i][p + 1..])]))
  {
  }

  /** The lines the cursor loop still has to collect from `pos` on. */
  function SplitFrom(s: string, pos: nat): seq<string>
    requires pos <= |s|
    decreases |s| - pos
  {
    match IndexOf(s, CRLF, pos)
    case None => []
    case Some(e) => [s[pos..e]] + SplitFrom(s, e + 2)
  }

  lemma {:induction false} SplitFromSuffix(s: string, pos: nat)
    requires pos <= |s|
    ensures SplitFrom(s, pos) == SplitCRLF(s[pos..])
    decreases |s| - pos
  {
    match IndexOf(s, CRLF, pos)
    case None =>
      SplitCRLFNone(s, pos);
    case Some(e) =>
      SplitFromSuffix(s, e + 2);
      SplitCRLFStep(s, pos, e);
  }

  /** One line more taken off the front by the cursor loop. */
  lemma SplitFromCons(lines: seq<string>, s: string, pos: nat, e: nat)
    requires pos <= |s| && IndexOf(s, CRLF, pos) == Some(e)
    ensures e + 2 <= |s|
    ensures lines + SplitFrom(s, pos) == (lines + [s[pos..e]]) + SplitFrom(s, e + 2)
  {
    assert SplitFrom(s, pos) == [s[pos..e]] + SplitFrom(s, e + 2);
  }

  lemma SplitFromDone(blob: string, pos: nat, lines: seq<string>)
    requires pos <= |blob|
    requires pos == |blob| || IndexOf(blob, CRLF, pos).None?
    requires lines + SplitFrom(blob, pos) == SplitFrom(blob, 0)
    ensures lines == SplitCRLF(blob)
  {
    assert IndexOf(blob, CRLF, pos).None?;
    assert lines + [] == lines;
    SplitFromSuffix(blob, 0);
    assert blob[0..] == blob;
  }

  /** The line-collecting cursor loop of parse_http_request_headers. */
  method SplitLines(blob: string) returns (lines: seq<string>)
    ensures lines == SplitCRLF(blob)
  {
    lines := [];
    var pos := 0;
    while pos < |blob|
      invariant 0 <= pos <= |blob|
      invariant lines + SplitFrom(blob, pos) == SplitFrom(blob, 0)
    {
      var e := IndexOf(blob, CRLF, pos);
      if e.None? {
        break;
      }
      SplitFromCons(lines, blob, pos, e.value);
      lines := lines + [blob[pos..e.value]];
      pos := e.value + 2;
      if pos >= |blob| {
        break;
      }
    }
    SplitFromDone(blob, pos, lines);
  }

  /** The request-line part of parse_http_request_headers, starting from
      the freshly reset request. */
  method ReadRequestLine(line: string) returns (ok: bool, out: HttpRequest, err: string)
    ensures ParseResult(ok, out, err) == ParseRequestLine(line)
  {
    out := EmptyRequest;
    err := "";
    var w := Words(line);
    if |w| >= 1 { out := out.(httpMethod := w[0]); }
    if |w| >= 2 { out := out.(target := w[1]); }
    if |w| >= 3 { out := out.(version := w[2]); }
    if |w| < 3 {
      err := "invalid request line";
      return false, out, err;
    }
    if out.version != "HTTP/1.1" && out.version != "HTTP/1.0" {
      err := "unsupported http version";
      return false, out, err;
    }
    var m := out.httpMethod;
    var k := 0;
    while k < |m|
      invariant 0 <= k <= |m|
      invariant MethodError(m[k..]) == MethodError(m)
    {
      if !IsUpper(m[k]) {
        assert m[k..][0] == m[k];
        err := "invalid method";
        return false, out, err;
      }
      if !IsTokenChar(m[k]) {
        // every upper-case letter is a token character: the source's
        // "invalid method token" exit cannot be taken
        assert false;
      }
      MethodErrorStep(m, k);
      k := k + 1;
    }
    assert m[|m|..] == [];
    if out.target == [] || out.target[0] != '/' {
      err := "invalid target";
      return false, out, err;
    }
    ok := true;
  }

  /** The header-line loop of parse_http_request_headers, from the second
      line up to the first empty one. */
  method ReadHeaderLines(lines: seq<string>, req: HttpRequest) returns (ok: bool, out: HttpRequest, err: string)
    requires |lines| >= 1
    ensures ParseResult(ok, out, err) == ParseHeaderLines(lines, 1, req)
  {
    out := req;
    err := "";
    var i := 1;
    while i < |lines|
      invariant 1 <= i <= |lines|
      invariant ParseHeaderLines(lines, i, out) == ParseHeaderLines(lines, 1, req)
    {
      var ln := lines[i];
      if ln == [] {
        break;
      }
      var p := IndexOf(ln, ":", 0);
      if p.None? {
        err := "bad header line";
        return false, out, err;
      }
      var key := Trim(ln[..p.value]);
      var val := Trim(ln[p.value + 1..]);
      if key == [] {
        err := "empty header name";
        return false, out, err;
      }
      var j := 0;
      while j < |key|
        invariant 0 <= j <= |key|
        invariant forall q :: 0 <= q < j ==> IsTokenChar(key[q])
      {
        if !IsTokenChar(key[j]) {
          err := "invalid header name";
          return false, out, err;
        }
        j := j + 1;
      }
      var lower := ToLower(key);
      ParseHeaderLinesStep(lines, i, out, p.value);
      out := out.(headers := out.headers[lower := val]);
      i := i + 1;
    }
    ok := true;
  }

  /** parse_http_request_headers. `out` is reset on entry only, so fields
      assigned before a failing check stay assigned. */
  method ParseRequestHeaders(blob: string) returns (ok: bool, out: HttpRequest, err: string)
    ensures ParseResult(ok, out, err) == ParsedRequest(blob)
  {
    var lines := SplitLines(blob);
    if |lines| == 0 {
      return false, EmptyRequest, "empty request";
    }
    ok, out, err := ReadRequestLine(lines[0]);
    if !ok {
      return;
    }
    ok, out, err := ReadHeaderLines(lines, out);
    if !ok {
      return;
    }
    if "content-length" in out.headers {
      var good, cl := ParseContentLength(out.headers["content-length"], 0);
      if !good {
        err := "bad content-length";
        return false, out, err;
      }
      out := out.(contentLength := cl);
    }
  }

  // ------------------------------------------------------ build_response_head

  /** "HTTP/1.1 <status> <reason>" */
  function StatusLine(head: ResponseHead): string
  {
    "HTTP/1.1 " + IntToString(head.status) + " " + head.reason
  }

  /** `order` lists every key of the map exactly once: one possible
      iteration order of the unordered_map. */
  ghost predicate IsEnumeration(order: seq<string>, keys: set<string>)
  {
    && (forall i, j :: 0 <= i < j < |order| ==> order[i] != order[j])
    && (forall k :: k in keys <==> k in order)
  }

  /** "name: value", for the headers in the given order. */
  function FieldLines(headers: map<string, string>, order: seq<string>): seq<string>
    requires forall k :: k in order ==> k in headers
    decreases |order|
  {
    if order == [] then []
    else [order[0] + ": " + headers[order[0]]] + FieldLines(headers, order[1..])
  }

  /** The lines of a response head: status line, header lines, empty line. */
  function HeadLines(head: ResponseHead, order: seq<string>): seq<string>
    requires forall k :: k in order ==> k in head.headers
  {
    [StatusLine(head)] + FieldLines(head.headers, order) + [""]
  }

  lemma FieldLinesStep(headers: map<string, string>, order: seq<string>, i: nat)
    requires i < |order| && forall k :: k in order ==> k in headers
    ensures FieldLines(headers, order[i..]) + [""]
            == [order[i] + ": " + headers[order[i]]] + (FieldLines(headers, order[i + 1..]) + [""])
  {
    assert order[i..][1..] == order[i + 1..];
  }

  /** Writing one more line onto a partial head. */
  lemma AppendLine(r: string, line: string, rest: seq<string>)
    ensures r + JoinCRLF([line] + rest) == (r + (line + CRLF)) + JoinCRLF(rest)
  {
    assert ([line] + rest)[1..] == rest;
  }

  /** build_response_head: stream the status line, then each header in the
      map's iteration order, then the blank line. */
  method BuildResponseHead(head: ResponseHead, order: seq<string>) returns (r: string)
    requires IsEnumeration(order, head.headers.Keys)
    ensures r == JoinCRLF(HeadLines(head, order))
  {
    r := StatusLine(head) + CRLF;
    assert JoinCRLF(HeadLines(head, order)) == r + JoinCRLF(FieldLines(head.headers, order) + [""]) by {
      var lines := HeadLines(head, order);
      assert lines[0] == StatusLine(head);
      assert lines[1..] == FieldLines(head.headers, order) + [""];
    }
    assert order[0..] == order;
    var i := 0;
    while i < |order|
      invariant 0 <= i <= |order|
      invariant r + JoinCRLF(FieldLines(head.headers, order[i..]) + [""]) == JoinCRLF(HeadLines(head, order))
    {
      var k := order[i];
      var line := k + ": " + head.headers[k];
      FieldLinesStep(head.headers, order, i);
      AppendLine(r, line, FieldLines(head.headers, order[i + 1..]) + [""]);
      r := r + (line + CRLF);
      i := i + 1;
    }
    assert order[|order|..] == [];
    assert JoinCRLF([""]) == CRLF by {
      assert [""][1..] == [];
    }
    r := r + CRLF;
  }
}
