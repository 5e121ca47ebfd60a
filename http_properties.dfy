/** What src/http.cpp promises, stated about the specification functions of
    module Http: the status table, MIME lookup by extension, the exact
    Content-Length grammar, line splitting, and the request parser's
    acceptance, soundness and round trip on well-formed requests. */
module HttpProperties {
  import opened Text
  import opened Utils
  import opened Http

  // ----------------------------------------------------------- status_reason

  /** status_reason names exactly the six statuses the server emits. */
  lemma StatusReasonKnown(status: int)
    ensures StatusReason(status) != "Unknown" <==> status in KnownStatuses
  {
  }

  /** Distinct known statuses get distinct reason phrases. */
  lemma StatusReasonDistinct(a: int, b: int)
    requires a in KnownStatuses && b in KnownStatuses && a != b
    ensures StatusReason(a) != StatusReason(b)
  {
  }

  // --------------------------------------------------- content_type_for_path

  /** The type is chosen by the text after the LAST dot, ignoring case. */
  lemma ContentTypeByLastExtension(base: string, ext: string)
    requires forall i :: 0 <= i < |ext| ==> ext[i] != '.'
    ensures ContentTypeForPath(base + "." + ext) == MimeForExtension(LowerAscii(ext))
  {
    var path := base + "." + ext;
    var d := LastIndexOf(path, '.');
    assert path[|base|] == '.';
    assert d.Some? && d.value == |base|;
    assert path[|base| + 1..] == ext;
  }

  /** A path without a dot is served as application/octet-stream. */
  lemma ContentTypeWithoutDot(path: string)
    requires forall i :: 0 <= i < |path| ==> path[i] != '.'
    ensures ContentTypeForPath(path) == "application/octet-stream"
  {
    assert LastIndexOf(path, '.').None?;
  }

  // ---------------------------------------------------------- is_token_char

  /** Token characters are never separators of the request syntax. */
  lemma TokenCharIsNoSeparator(c: char)
    requires IsTokenChar(c)
    ensures c != ':' && c != '\r' && c != '\n' && !IsSpace(c)
  {
  }

  /** Lower-casing keeps a header name a header name. */
  lemma LowerHeaderName(key: string)
    requires IsHeaderName(key)
    ensures IsHeaderName(LowerAscii(key))
  {
    var k := LowerAscii(key);
    forall i | 0 <= i < |k|
      ensures IsTokenChar(k[i])
    {
      assert k[i] == LowerChar(key[i]);
    }
  }

  /** Every upper-case letter is a token character, so the method loop's
      token check never fails and "invalid method token" is never reported. */
  lemma {:induction false} MethodTokenCheckUnreachable(m: string)
    ensures MethodError(m) == "" || MethodError(m) == "invalid method"
    ensures MethodError(m) == "" <==> forall i :: 0 <= i < |m| ==> IsUpper(m[i])
    decreases |m|
  {
    if m != [] {
      MethodTokenCheckUnreachable(m[1..]);
      assert forall i :: 1 <= i < |m| ==> m[i] == m[1..][i - 1];
    }
  }

  // --------------------------------------------------- parse_content_length

  lemma {:induction false} DecimalOfNatToString(n: nat)
    ensures DecimalValue(NatToString(n)) == n
    decreases n
  {
    var s := NatToString(n);
    if n >= 10 {
      DecimalOfNatToString(n / 10);
      assert s[..|s| - 1] == NatToString(n / 10);
    }
  }

  /** The decimal rendering of a number is accepted as a Content-Length
      exactly when the number fits in 64 bits, and then it reads back as
      that number. */
  lemma ContentLengthRoundTrip(n: nat)
    ensures ValidContentLength(NatToString(n)) <==> n <= U64_MAX
    ensures DecimalValue(NatToString(n)) == n
  {
    DecimalOfNatToString(n);
  }

  /** Leading zeros do not change the value (parse_content_length accepts
      them). */
  lemma {:induction false} LeadingZeroIgnored(s: string)
    requires AllDigits(s)
    ensures AllDigits("0" + s) && DecimalValue("0" + s) == DecimalValue(s)
    decreases |s|
  {
    var z := "0" + s;
    assert AllDigits(z) by {
      assert forall i :: 1 <= i < |z| ==> z[i] == s[i - 1];
    }
    if s != [] {
      var t := s[..|s| - 1];
      LeadingZeroIgnored(t);
      assert z[..|z| - 1] == "0" + t;
    }
  }

  // ----------------------------------------------------------- line splitting

  predicate NoCR(s: string)
  {
    forall i :: 0 <= i < |s| ==> s[i] != '\r'
  }

  /** In `l + CRLF + rest`, with no CR in `l`, the first CRLF is the one
      after `l`. */
  lemma FirstCRLFAfterLine(l: string, rest: string)
    requires NoCR(l)
    ensures IndexOf(l + CRLF + rest, CRLF, 0) == Some(|l|)
  {
    var s := l + CRLF + rest;
    assert OccursAt(s, CRLF, |l|) by {
      assert s[|l|..|l| + 2] == CRLF;
    }
    forall j | 0 <= j < |l|
      ensures !OccursAt(s, CRLF, j)
    {
      assert s[j] == l[j];
      assert s[j..j + 2][0] == s[j];
    }
    IndexOfIs(s, CRLF, |l|);
  }

  /** Splitting lines joined by CRLF gives the lines back. */
  lemma {:induction false} SplitJoinRoundTrip(ls: seq<string>)
    requires forall i :: 0 <= i < |ls| ==> NoCR(ls[i])
    ensures SplitCRLF(JoinCRLF(ls)) == ls
    decreases |ls|
  {
    if ls != [] {
      var rest := JoinCRLF(ls[1..]);
      var s := JoinCRLF(ls);
      assert s == ls[0] + CRLF + rest;
      FirstCRLFAfterLine(ls[0], rest);
      assert s[..|ls[0]|] == ls[0];
      assert s[|ls[0]| + 2..] == rest;
      SplitJoinRoundTrip(ls[1..]);
    }
  }

  /** The text before the first CRLF holds no CRLF. */
  lemma NoCRLFBeforeFirst(s: string, e: nat)
    requires IndexOf(s, CRLF, 0) == Some(e)
    ensures !Contains(s[..e], CRLF)
  {
    var p := s[..e];
    IndexOfFirst(s, CRLF, 0);
    forall j | 0 <= j
      ensures !OccursAt(p, CRLF, j)
    {
      if j + 2 <= |p| {
        assert !OccursAt(s, CRLF, j);
        assert p[j..j + 2] == s[j..j + 2];
      }
    }
  }

  /** No split line contains a CRLF. */
  lemma {:induction false} SplitLinesHaveNoCRLF(s: string)
    ensures forall i :: 0 <= i < |SplitCRLF(s)| ==> !Contains(SplitCRLF(s)[i], CRLF)
    decreases |s|
  {
    match IndexOf(s, CRLF, 0)
    case None =>
    case Some(e) =>
      var t := s[e + 2..];
      SplitLinesHaveNoCRLF(t);
      NoCRLFBeforeFirst(s, e);
      var ls := SplitCRLF(s);
      assert ls == [s[..e]] + SplitCRLF(t);
      assert forall i :: 1 <= i < |ls| ==> ls[i] == SplitCRLF(t)[i - 1];
  }

  /** The split lines with their CRLFs put back form a prefix of the input,
      and what follows that prefix holds no CRLF. */
  lemma {:induction false} SplitCRLFCoversPrefix(s: string)
    ensures |JoinCRLF(SplitCRLF(s))| <= |s|
    ensures JoinCRLF(SplitCRLF(s)) == s[..|JoinCRLF(SplitCRLF(s))|]
    ensures !Contains(s[|JoinCRLF(SplitCRLF(s))|..], CRLF)
    decreases |s|
  {
    match IndexOf(s, CRLF, 0)
    case None =>
      assert s[0..] == s;
    case Some(e) =>
      var t := s[e + 2..];
      SplitCRLFCoversPrefix(t);
      var ls := SplitCRLF(s);
      assert ls == [s[..e]] + SplitCRLF(t);
      var jt := JoinCRLF(SplitCRLF(t));
      assert JoinCRLF(ls) == s[..e] + CRLF + jt by {
        assert ls[1..] == SplitCRLF(t);
      }
      PrefixAfterLine(s, e, jt);
      assert s[|JoinCRLF(ls)|..] == t[|jt|..];
  }

  lemma PrefixAfterLine(s: string, e: nat, jt: string)
    requires OccursAt(s, CRLF, e)
    requires |jt| <= |s[e + 2..]| && jt == s[e + 2..][..|jt|]
    ensures s[..e] + CRLF + jt == s[..e + 2 + |jt|]
    ensures s[e + 2 + |jt|..] == s[e + 2..][|jt|..]
  {
    assert s[e..e + 2] == CRLF;
    assert s[e + 2..][..|jt|] == s[e + 2..e + 2 + |jt|];
  }

  // ------------------------------------------------------ request-line words

  /** The end of the word that starts at `i` is where `w` ends. */
  lemma WordEndAt(s: string, i: nat, w: string)
    requires i + |w| <= |s| && s[i..i + |w|] == w
    requires forall k :: 0 <= k < |w| ==> !IsSpace(w[k])
    requires i + |w| < |s| ==> IsSpace(s[i + |w|])
    ensures WordEnd(s, i) == i + |w|
  {
    forall k | i <= k < i + |w|
      ensures !IsSpace(s[k])
    {
      assert s[k] == w[k - i];
    }
  }

  predicate Spaceless(w: string)
  {
    forall k :: 0 <= k < |w| ==> !IsSpace(w[k])
  }

  /** A word that sits at `i` and ends at a space or the end of `s` is the
      next word extracted from `i`. */
  lemma WordAt(s: string, i: nat, w: string)
    requires w != [] && Spaceless(w)
    requires i + |w| <= |s| && s[i..i + |w|] == w
    requires i + |w| < |s| ==> IsSpace(s[i + |w|])
    ensures WordsFrom(s, i) == [w] + WordsFrom(s, i + |w|)
  {
    WordEndAt(s, i, w);
    assert s[i] == w[0];
  }

  /** Word ends do not depend on what precedes the word. */
  lemma {:induction false} WordEndShift(p: string, r: string, i: nat)
    requires i <= |r|
    ensures WordEnd(p + r, |p| + i) == |p| + WordEnd(r, i)
    decreases |r| - i
  {
    if i < |r| {
      assert (p + r)[|p| + i] == r[i];
      if !IsSpace(r[i]) {
        WordEndShift(p, r, i + 1);
      }
    }
  }

  /** One extraction step of WordsFrom. */
  lemma WordsFromStep(s: string, i: nat)
    requires i < |s|
    ensures IsSpace(s[i]) ==> WordsFrom(s, i) == WordsFrom(s, i + 1)
    ensures !IsSpace(s[i]) ==> WordsFrom(s, i) == [s[i..WordEnd(s, i)]] + WordsFrom(s, WordEnd(s, i))
  {
  }

  /** Words extracted from inside `r` are the same after a prefix is put
      in front of it. */
  lemma {:induction false} WordsFromShift(p: string, r: string, i: nat)
    requires i <= |r|
    ensures WordsFrom(p + r, |p| + i) == WordsFrom(r, i)
    decreases |r| - i
  {
    var s, k := p + r, |p| + i;
    if i == |r| {
      assert k == |s|;
    } else {
      assert s[k] == r[i];
      WordsFromStep(s, k);
      WordsFromStep(r, i);
      if IsSpace(r[i]) {
        WordsFromShift(p, r, i + 1);
        assert WordsFrom(s, k) == WordsFrom(s, |p| + (i + 1));
      } else {
        var j := WordEnd(r, i);
        WordEndShift(p, r, i);
        SliceAfter(p, r, i, j);
        WordsFromShift(p, r, j);
        assert WordsFrom(s, k) == [r[i..j]] + WordsFrom(s, |p| + j);
      }
    }
  }

  /** A leading word followed by a space is the first word. */
  lemma WordsCons(a: string, rest: string)
    requires a != [] && Spaceless(a)
    ensures Words(a + " " + rest) == [a] + Words(rest)
  {
    var s := a + " " + rest;
    assert s[0..|a|] == a && s[|a|] == ' ';
    WordAt(s, 0, a);
    assert s == (a + " ") + rest;
    WordsFromShift(a + " ", rest, 0);
  }

  /** The request line of a well-formed request splits into its three
      words. */
  lemma ThreeWords(a: string, b: string, c: string)
    requires a != [] && b != [] && c != []
    requires Spaceless(a) && Spaceless(b) && Spaceless(c)
    ensures Words(a + " " + b + " " + c) == [a, b, c]
  {
    assert a + " " + b + " " + c == a + " " + (b + " " + c);
    WordsCons(a, b + " " + c);
    WordsCons(b, c);
    assert c[0..|c|] == c;
    WordAt(c, 0, c);
  }

  /** Every extracted word is non-empty and has no white space. */
  lemma {:induction false} WordsAreSpaceless(s: string, i: nat)
    requires i <= |s|
    ensures forall k :: 0 <= k < |WordsFrom(s, i)| ==> WordsFrom(s, i)[k] != [] && Spaceless(WordsFrom(s, i)[k])
    decreases |s| - i
  {
    if i < |s| {
      if IsSpace(s[i]) {
        WordsAreSpaceless(s, i + 1);
      } else {
        var j := WordEnd(s, i);
        WordsAreSpaceless(s, j);
        var w := WordsFrom(s, i);
        assert w == [s[i..j]] + WordsFrom(s, j);
        assert forall k :: 1 <= k < |w| ==> w[k] == WordsFrom(s, j)[k - 1];
        assert forall k :: 0 <= k < |s[i..j]| ==> s[i..j][k] == s[i + k];
      }
    }
  }

  // ------------------------------------------------------ request parsing

  /** The error strings the parser can report. */
  const ParseErrors: set<string> := {
    "empty request", "invalid request line", "unsupported http version", "invalid method",
    "invalid target", "bad header line", "empty header name", "invalid header name",
    "bad content-length"}

  /** The parser succeeds exactly when it reports no error, and a failure
      is always one of the known errors ("invalid method token" is not
      among them: that check cannot fail). */
  lemma ParseOutcome(blob: string)
    ensures ParsedRequest(blob).ok <==> ParsedRequest(blob).err == ""
    ensures !ParsedRequest(blob).ok ==> ParsedRequest(blob).err in ParseErrors
  {
    var lines := SplitCRLF(blob);
    if lines != [] {
      var w := Words(lines[0]);
      MethodTokenCheckUnreachable(WordOr(w, 0));
    }
  }

  /** "empty request" is reported exactly when the blob holds no CRLF. */
  lemma EmptyRequestIffNoLine(blob: string)
    ensures ParsedRequest(blob).err == "empty request" <==> !Contains(blob, CRLF)
  {
    ParseOutcome(blob);
    var lines := SplitCRLF(blob);
    if lines != [] {
      var w := Words(lines[0]);
      MethodTokenCheckUnreachable(WordOr(w, 0));
    }
  }

  /** No white space at either end: what trim leaves. */
  predicate IsTrimmed(v: string)
  {
    v == [] || (!IsSpace(v[0]) && !IsSpace(v[|v| - 1]))
  }

  /** A header map as the parser builds it: lower-case token names with
      trimmed values. */
  ghost predicate WellFormedHeaders(h: map<string, string>)
  {
    forall k :: k in h ==> k != [] && IsHeaderName(k) && LowerAscii(k) == k && IsTrimmed(h[k])
  }

  /** Storing one parsed header line keeps the map well formed. */
  lemma StoreHeaderKeepsWellFormed(h: map<string, string>, rawKey: string, rawVal: string)
    requires WellFormedHeaders(h)
    requires Trimmed(rawKey) != [] && IsHeaderName(Trimmed(rawKey))
    ensures WellFormedHeaders(h[LowerAscii(Trimmed(rawKey)) := Trimmed(rawVal)])
  {
    var key := Trimmed(rawKey);
    LowerHeaderName(key);
    LowerAsciiSpec(key);
    TrimmedIsInnerSlice(rawVal);
  }

  lemma {:induction false} HeaderLinesWellFormed(lines: seq<string>, i: nat, req: HttpRequest)
    requires WellFormedHeaders(req.headers)
    ensures WellFormedHeaders(ParseHeaderLines(lines, i, req).req.headers)
    decreases |lines| - i
  {
    if i < |lines| && lines[i] != [] {
      match IndexOf(lines[i], ":", 0)
      case None =>
      case Some(p) =>
        var key := Trimmed(lines[i][..p]);
        if key != [] && IsHeaderName(key) {
          StoreHeaderKeepsWellFormed(req.headers, lines[i][..p], lines[i][p + 1..]);
          HeaderLinesWellFormed(lines, i + 1, req.(headers := req.headers[LowerAscii(key) := Trimmed(lines[i][p + 1..])]));
        }
    }
  }

  /** A successful request line: three words, a supported version, an
      upper-case method and an absolute target. */
  lemma RequestLineSound(line: string)
    requires ParseRequestLine(line).ok
    ensures var r := ParseRequestLine(line).req;
            && |Words(line)| >= 3
            && Words(line)[..3] == [r.httpMethod, r.target, r.version]
            && (r.version == "HTTP/1.1" || r.version == "HTTP/1.0")
            && r.httpMethod != [] && (forall i :: 0 <= i < |r.httpMethod| ==> IsUpper(r.httpMethod[i]))
            && r.target != [] && r.target[0] == '/'
            && r.headers == map[] && r.contentLength == 0
  {
    var w := Words(line);
    WordsAreSpaceless(line, 0);
    MethodTokenCheckUnreachable(w[0]);
  }

  /** The failures of the request line, in the order they are checked:
      fewer than three words, then an unsupported version, then a method
      with a character that is not an upper-case letter, then a target
      that is empty or relative. The words extracted before a failure stay
      in the request. */
  lemma RequestLineErrors(line: string)
    ensures var w, r := Words(line), ParseRequestLine(line);
      && (|w| < 3 <==> r.err == "invalid request line")
      && (|w| >= 1 ==> r.req.httpMethod == w[0])
      && (|w| >= 2 ==> r.req.target == w[1])
      && (|w| >= 3 ==> r.req.version == w[2])
      && (|w| >= 3 && w[2] != "HTTP/1.1" && w[2] != "HTTP/1.0" ==> r.err == "unsupported http version")
      && (|w| >= 3 && (w[2] == "HTTP/1.1" || w[2] == "HTTP/1.0") ==>
            (r.err == "invalid method" <==> exists i :: 0 <= i < |w[0]| && !IsUpper(w[0][i])))
      && (|w| >= 3 && (w[2] == "HTTP/1.1" || w[2] == "HTTP/1.0") && (forall i :: 0 <= i < |w[0]| ==> IsUpper(w[0][i])) ==>
            (r.ok <==> w[1] != [] && w[1][0] == '/') && (!r.ok ==> r.err == "invalid target"))
      && r.err != "invalid method token"
  {
    var w := Words(line);
    WordsAreSpaceless(line, 0);
    if |w| >= 3 {
      MethodTokenCheckUnreachable(w[0]);
    }
  }

  /** What a successful parse guarantees about the request line of the
      request it returns. */
  lemma ParseSuccessLine(blob: string)
    requires ParsedRequest(blob).ok
    ensures var r := ParsedRequest(blob).req;
            var lines := SplitCRLF(blob);
            && lines != [] && |Words(lines[0])| >= 3
            && Words(lines[0])[..3] == [r.httpMethod, r.target, r.version]
            && (r.version == "HTTP/1.1" || r.version == "HTTP/1.0")
            && r.httpMethod != [] && (forall i :: 0 <= i < |r.httpMethod| ==> IsUpper(r.httpMethod[i]))
            && r.target != [] && r.target[0] == '/'
  {
    var lines := SplitCRLF(blob);
    ParsedPieces(blob);
    RequestLineSound(lines[0]);
  }

  /** What a successful parse guarantees about the headers and the
      Content-Length of the request it returns. */
  lemma ParseSuccessHeaders(blob: string)
    requires ParsedRequest(blob).ok
    ensures var r := ParsedRequest(blob).req;
            && WellFormedHeaders(r.headers)
            && ("content-length" in r.headers ==>
                  ValidContentLength(r.headers["content-length"])
                  && r.contentLength == DecimalValue(r.headers["content-length"]))
            && ("content-length" !in r.headers ==> r.contentLength == 0)
  {
    var lines := SplitCRLF(blob);
    ParsedPieces(blob);
    var rl := ParseRequestLine(lines[0]).req;
    RequestLineSound(lines[0]);
    HeaderLinesWellFormed(lines, 1, rl);
    ContentLengthStep(ParseHeaderLines(lines, 1, rl).req);
  }

  /** A successful parse is a successful request line, successful header
      lines, and a successful Content-Length check. */
  lemma ParsedPieces(blob: string)
    requires ParsedRequest(blob).ok
    ensures var lines := SplitCRLF(blob);
            && lines != []
            && ParseRequestLine(lines[0]).ok
            && ParseHeaderLines(lines, 1, ParseRequestLine(lines[0]).req).ok
            && ParsedRequest(blob) == ApplyContentLength(ParseHeaderLines(lines, 1, ParseRequestLine(lines[0]).req).req)
  {
  }

  // ------------------------------------------- round trip of a well-formed request

  /** A header field as a client writes it. */
  predicate WellFormedField(f: (string, string))
  {
    f.0 != [] && IsHeaderName(f.0) && IsTrimmed(f.1) && NoCR(f.1)
  }

  function FieldLine(f: (string, string)): string
  {
    f.0 + ": " + f.1
  }

  function FieldText(hs: seq<(string, string)>): seq<string>
    decreases |hs|
  {
    if hs == [] then [] else [FieldLine(hs[0])] + FieldText(hs[1..])
  }

  /** The lines of a request head: request line, header lines, empty line. */
  function RequestLines(m: string, t: string, v: string, hs: seq<(string, string)>): seq<string>
  {
    [m + " " + t + " " + v] + FieldText(hs) + [""]
  }

  /** The request head as sent: each line ended by CRLF. */
  function RequestText(m: string, t: string, v: string, hs: seq<(string, string)>): string
  {
    JoinCRLF(RequestLines(m, t, v, hs))
  }

  /** The headers stored one after the other under their lower-cased
      names, a later one replacing an earlier one. */
  function FoldHeaders(h: map<string, string>, hs: seq<(string, string)>): map<string, string>
    decreases |hs|
  {
    if hs == [] then h else FoldHeaders(h[LowerAscii(hs[0].0) := hs[0].1], hs[1..])
  }

  /** The header named `k` (in any case) that occurs last wins. */
  lemma {:induction false} FoldHeadersLastWins(h: map<string, string>, hs: seq<(string, string)>, j: nat)
    requires j < |hs|
    requires forall j' :: j < j' < |hs| ==> LowerAscii(hs[j'].0) != LowerAscii(hs[j].0)
    ensures LowerAscii(hs[j].0) in FoldHeaders(h, hs)
    ensures FoldHeaders(h, hs)[LowerAscii(hs[j].0)] == hs[j].1
    decreases |hs|
  {
    var h' := h[LowerAscii(hs[0].0) := hs[0].1];
    if j == 0 {
      FoldHeadersUntouched(h', hs[1..], LowerAscii(hs[0].0));
    } else {
      assert hs[1..][j - 1] == hs[j];
      assert forall j' :: j - 1 < j' < |hs| - 1 ==> hs[1..][j'] == hs[j' + 1];
      FoldHeadersLastWins(h', hs[1..], j - 1);
    }
  }

  /** A name that no header line carries keeps what the map had. */
  lemma {:induction false} FoldHeadersUntouched(h: map<string, string>, hs: seq<(string, string)>, k: string)
    requires forall j :: 0 <= j < |hs| ==> LowerAscii(hs[j].0) != k
    ensures k in FoldHeaders(h, hs) <==> k in h
    ensures k in h ==> FoldHeaders(h, hs)[k] == h[k]
    decreases |hs|
  {
    if hs != [] {
      assert LowerAscii(hs[0].0) != k;
      assert forall j :: 0 <= j < |hs| - 1 ==> hs[1..][j] == hs[j + 1];
      FoldHeadersUntouched(h[LowerAscii(hs[0].0) := hs[0].1], hs[1..], k);
    }
  }

  /** The keys of the folded map are the original keys and the lower-cased
      names. */
  lemma {:induction false} FoldHeadersKeys(h: map<string, string>, hs: seq<(string, string)>, k: string)
    ensures k in FoldHeaders(h, hs) <==> k in h || exists j :: 0 <= j < |hs| && LowerAscii(hs[j].0) == k
    decreases |hs|
  {
    if hs != [] {
      var h' := h[LowerAscii(hs[0].0) := hs[0].1];
      FoldHeadersKeys(h', hs[1..], k);
      assert forall j :: 1 <= j < |hs| ==> hs[j] == hs[1..][j - 1];
      if exists j :: 0 <= j < |hs| && LowerAscii(hs[j].0) == k {
        var j :| 0 <= j < |hs| && LowerAscii(hs[j].0) == k;
        if j > 0 {
          assert LowerAscii(hs[1..][j - 1].0) == k;
        }
      }
    }
  }

  lemma NoCRConcat(a: string, b: string)
    requires NoCR(a) && NoCR(b)
    ensures NoCR(a + b)
  {
    assert forall i :: |a| <= i < |a + b| ==> (a + b)[i] == b[i - |a|];
  }

  lemma TrimmedIdentity(s: string)
    requires IsTrimmed(s)
    ensures Trimmed(s) == s
  {
    TrimStartAt(s, 0);
    TrimEndAt(s, |s|);
  }

  lemma TrimmedAfterSpace(s: string)
    requires IsTrimmed(s)
    ensures Trimmed(" " + s) == s
  {
    var t := " " + s;
    assert forall k :: 0 <= k < 1 ==> IsSpace(t[k]);
    TrimStartAt(t, 1);
    assert t[1..] == s;
    TrimEndAt(s, |s|);
  }

  /** The line of a well-formed field splits at the colon after the name
      into the name and the value. */
  lemma FieldLineParts(f: (string, string))
    requires WellFormedField(f)
    ensures NoCR(FieldLine(f)) && FieldLine(f) != []
    ensures IndexOf(FieldLine(f), ":", 0) == Some(|f.0|)
    ensures Trimmed(FieldLine(f)[..|f.0|]) == f.0
    ensures Trimmed(FieldLine(f)[|f.0| + 1..]) == f.1
  {
    var line := FieldLine(f);
    forall i | 0 <= i < |f.0|
      ensures f.0[i] != ':' && f.0[i] != '\r' && !IsSpace(f.0[i])
    {
      TokenCharIsNoSeparator(f.0[i]);
    }
    NoCRConcat(f.0, ": ");
    NoCRConcat(f.0 + ": ", f.1);
    assert OccursAt(line, ":", |f.0|);
    forall j | 0 <= j < |f.0|
      ensures !OccursAt(line, ":", j)
    {
      assert line[j] == f.0[j];
      assert line[j..j + 1][0] == line[j];
    }
    IndexOfIs(line, ":", |f.0|);
    assert line[..|f.0|] == f.0;
    TrimmedIdentity(f.0);
    assert line[|f.0| + 1..] == " " + f.1;
    TrimmedAfterSpace(f.1);
  }

  lemma {:induction false} FieldTextShape(hs: seq<(string, string)>)
    ensures |FieldText(hs)| == |hs|
    ensures forall i :: 0 <= i < |hs| ==> FieldText(hs)[i] == FieldLine(hs[i])
    decreases |hs|
  {
    if hs != [] {
      FieldTextShape(hs[1..]);
      assert forall i :: 1 <= i < |hs| ==> hs[i] == hs[1..][i - 1];
    }
  }

  /** A well-formed field line adds its field and moves on to the next line. */
  lemma HeaderLineStep(lines: seq<string>, i: nat, req: HttpRequest, f: (string, string))
    requires i < |lines| && lines[i] == FieldLine(f) && WellFormedField(f)
    ensures ParseHeaderLines(lines, i, req)
            == ParseHeaderLines(lines, i + 1, req.(headers := req.headers[LowerAscii(f.0) := f.1]))
  {
    FieldLineParts(f);
  }

  /** Lines `i`, `i + 1`, ... are the field lines of `hs`, followed by
      the blank line. */
  predicate FieldsAt(lines: seq<string>, i: nat, hs: seq<(string, string)>)
  {
    && i + |hs| < |lines| && lines[i + |hs|] == []
    && forall j :: 0 <= j < |hs| ==> lines[i + j] == FieldLine(hs[j]) && WellFormedField(hs[j])
  }

  /** The field lines after the first one, one line further on. */
  lemma FieldsShift(lines: seq<string>, i: nat, hs: seq<(string, string)>)
    requires hs != [] && FieldsAt(lines, i, hs)
    ensures FieldsAt(lines, i + 1, hs[1..])
    ensures lines[i] == FieldLine(hs[0]) && WellFormedField(hs[0])
  {
    forall j | 0 <= j < |hs[1..]|
      ensures lines[i + 1 + j] == FieldLine(hs[1..][j]) && WellFormedField(hs[1..][j])
    {
      assert hs[1..][j] == hs[j + 1];
    }
  }

  /** The header lines of a well-formed request, followed by the empty
      line, are stored in order and parsing stops at the empty line. */
  lemma {:induction false} FieldLinesParse(lines: seq<string>, i: nat, req: HttpRequest, hs: seq<(string, string)>)
    requires FieldsAt(lines, i, hs)
    ensures ParseHeaderLines(lines, i, req) == ParseResult(true, req.(headers := FoldHeaders(req.headers, hs)), "")
    decreases |hs|
  {
    if hs == [] {
      assert req.(headers := req.headers) == req;
    } else {
      var f := hs[0];
      FieldsShift(lines, i, hs);
      HeaderLineStep(lines, i, req, f);
      var req' := req.(headers := req.headers[LowerAscii(f.0) := f.1]);
      FieldLinesParse(lines, i + 1, req', hs[1..]);
      assert FoldHeaders(req.headers, hs) == FoldHeaders(req'.headers, hs[1..]);
      assert req'.(headers := FoldHeaders(req'.headers, hs[1..])) == req.(headers := FoldHeaders(req.headers, hs));
    }
  }

  /** A request line made of a well-formed method, target and version is
      accepted with exactly those three words. */
  lemma RequestLineParses(m: string, t: string, v: string)
    requires m != [] && forall i :: 0 <= i < |m| ==> IsUpper(m[i])
    requires t != [] && t[0] == '/' && Spaceless(t)
    requires v == "HTTP/1.1" || v == "HTTP/1.0"
    ensures ParseRequestLine(m + " " + t + " " + v)
         == ParseResult(true, EmptyRequest.(httpMethod := m, target := t, version := v), "")
  {
    assert Spaceless(m);
    ThreeWords(m, t, v);
    MethodTokenCheckUnreachable(m);
  }

  /** Splitting a well-formed request head gives back its lines. */
  lemma RequestTextSplits(m: string, t: string, v: string, hs: seq<(string, string)>)
    requires forall i :: 0 <= i < |m| ==> IsUpper(m[i])
    requires Spaceless(t)
    requires v == "HTTP/1.1" || v == "HTTP/1.0"
    requires forall j :: 0 <= j < |hs| ==> WellFormedField(hs[j])
    ensures SplitCRLF(RequestText(m, t, v, hs)) == RequestLines(m, t, v, hs)
  {
    var lines := RequestLines(m, t, v, hs);
    FieldTextShape(hs);
    assert NoCR(m) && NoCR(t) && NoCR(v) && NoCR(" ");
    NoCRConcat(m, " ");
    NoCRConcat(m + " ", t);
    NoCRConcat(m + " " + t, " ");
    NoCRConcat(m + " " + t + " ", v);
    forall j | 0 <= j < |hs|
      ensures NoCR(FieldLine(hs[j]))
    {
      FieldLineParts(hs[j]);
    }
    assert forall i :: 1 <= i <= |hs| ==> lines[i] == FieldText(hs)[i - 1];
    SplitJoinRoundTrip(lines);
  }

  /** A well-formed request head parses back into its method, target,
      version and headers (case-folded, last one winning), and the
      Content-Length header decides the rest. */
  lemma WellFormedRequestParses(m: string, t: string, v: string, hs: seq<(string, string)>)
    requires m != [] && forall i :: 0 <= i < |m| ==> IsUpper(m[i])
    requires t != [] && t[0] == '/' && Spaceless(t)
    requires v == "HTTP/1.1" || v == "HTTP/1.0"
    requires forall j :: 0 <= j < |hs| ==> WellFormedField(hs[j])
    ensures var r := ParsedRequest(RequestText(m, t, v, hs));
            var h := FoldHeaders(map[], hs);
            && r.req.httpMethod == m && r.req.target == t && r.req.version == v
            && r.req.headers == h
            && (r.ok <==> ("content-length" !in h || ValidContentLength(h["content-length"])))
            && (r.ok ==> r.req.contentLength == (if "content-length" in h then DecimalValue(h["content-length"]) else 0))
  {
    RequestTextSplits(m, t, v, hs);
    LinesOfWellFormedRequestParse(RequestText(m, t, v, hs), m, t, v, hs);
  }

  lemma LinesOfWellFormedRequestParse(blob: string, m: string, t: string, v: string, hs: seq<(string, string)>)
    requires m != [] && forall i :: 0 <= i < |m| ==> IsUpper(m[i])
    requires t != [] && t[0] == '/' && Spaceless(t)
    requires v == "HTTP/1.1" || v == "HTTP/1.0"
    requires forall j :: 0 <= j < |hs| ==> WellFormedField(hs[j])
    requires SplitCRLF(blob) == RequestLines(m, t, v, hs)
    ensures var r := ParsedRequest(blob);
            var h := FoldHeaders(map[], hs);
            && r.req.httpMethod == m && r.req.target == t && r.req.version == v
            && r.req.headers == h
            && (r.ok <==> ("content-length" !in h || ValidContentLength(h["content-length"])))
            && (r.ok ==> r.req.contentLength == (if "content-length" in h then DecimalValue(h["content-length"]) else 0))
  {
    var lines := RequestLines(m, t, v, hs);
    RequestLineParses(m, t, v);
    var req := EmptyRequest.(httpMethod := m, target := t, version := v);
    assert ParseRequestLine(lines[0]) == ParseResult(true, req, "");
    FieldTextShape(hs);
    assert forall j :: 0 <= j < |hs| ==> lines[1 + j] == FieldLine(hs[j]);
    assert FieldsAt(lines, 1, hs);
    FieldLinesParse(lines, 1, req, hs);
    var hr := ParseHeaderLines(lines, 1, req);
    assert hr.ok && hr.req == req.(headers := FoldHeaders(map[], hs));
    assert ParsedRequest(blob) == ApplyContentLength(hr.req);
    ContentLengthStep(hr.req);
  }

  /** The Content-Length step changes nothing but the length, succeeds
      exactly when the header is absent or valid, and stores its value. */
  lemma ContentLengthStep(req: HttpRequest)
    ensures var r := ApplyContentLength(req);
            && r.req == req.(contentLength := r.req.contentLength)
            && (r.ok <==> ("content-length" !in req.headers || ValidContentLength(req.headers["content-length"])))
            && (r.ok ==> r.req.contentLength == (if "content-length" in req.headers then DecimalValue(req.headers["content-length"]) else req.contentLength))
            && (!r.ok ==> r.err == "bad content-length" && r.req == req)
  {
  }

  // ---------------------------------------------------- build_response_head

  lemma {:induction false} JoinCRLFAppend(a: seq<string>, b: seq<string>)
    ensures JoinCRLF(a + b) == JoinCRLF(a) + JoinCRLF(b)
    decreases |a|
  {
    if a == [] {
      assert a + b == b;
    } else {
      assert (a + b)[1..] == a[1..] + b;
      JoinCRLFAppend(a[1..], b);
    }
  }

  lemma {:induction false} FieldLinesShape(h: map<string, string>, order: seq<string>)
    requires forall k :: k in order ==> k in h
    ensures |FieldLines(h, order)| == |order|
    ensures forall i :: 0 <= i < |order| ==> FieldLines(h, order)[i] == order[i] + ": " + h[order[i]]
    decreases |order|
  {
    if order != [] {
      FieldLinesShape(h, order[1..]);
      assert forall i :: 1 <= i < |order| ==> order[i] == order[1..][i - 1];
    }
  }

  lemma {:induction false} JoinEndsWithCRLF(ls: seq<string>)
    requires ls != []
    ensures |JoinCRLF(ls)| >= 2 && JoinCRLF(ls)[|JoinCRLF(ls)| - 2..] == CRLF
    decreases |ls|
  {
    if |ls| > 1 {
      JoinEndsWithCRLF(ls[1..]);
    }
  }

  /** The head starts with the HTTP/1.1 status line and ends with the
      blank line that closes the header block. */
  lemma ResponseHeadFraming(head: ResponseHead, order: seq<string>)
    requires forall k :: k in order ==> k in head.headers
    ensures var r := JoinCRLF(HeadLines(head, order));
            && |r| >= 13 && r[..9] == "HTTP/1.1 "
            && r[|r| - 4..] == CRLFCRLF
  {
    var front := [StatusLine(head)] + FieldLines(head.headers, order);
    var x := JoinCRLF(front);
    JoinCRLFAppend(front, [""]);
    assert JoinCRLF([""]) == CRLF by {
      assert [""][1..] == [];
    }
    var r := x + CRLF;
    assert JoinCRLF(HeadLines(head, order)) == r;
    JoinEndsWithCRLF(front);
    assert x == StatusLine(head) + CRLF + JoinCRLF(front[1..]);
    assert r[|r| - 4..] == x[|x| - 2..] + CRLF;
    assert r[..9] == StatusLine(head)[..9];
  }

  lemma {:induction false} NoCountNoCR(s: string)
    requires Count('\r', s) == 0
    ensures NoCR(s)
    decreases |s|
  {
    if s != [] {
      NoCountNoCR(s[1..]);
      assert forall i :: 1 <= i < |s| ==> s[i] == s[1..][i - 1];
    }
  }

  /** When no reason, name or value holds a CR, a reader that splits the
      head at CRLF gets back the status line, one "name: value" line per
      header and the empty line. */
  lemma ResponseHeadSplitsBack(head: ResponseHead, order: seq<string>)
    requires forall k :: k in order ==> k in head.headers
    requires NoCR(head.reason)
    requires forall k :: k in order ==> NoCR(k) && NoCR(head.headers[k])
    ensures SplitCRLF(JoinCRLF(HeadLines(head, order))) == HeadLines(head, order)
  {
    var lines := HeadLines(head, order);
    IntToStringAbsent('\r', head.status);
    NoCountNoCR(IntToString(head.status));
    NoCRConcat("HTTP/1.1 ", IntToString(head.status));
    NoCRConcat("HTTP/1.1 " + IntToString(head.status), " ");
    NoCRConcat("HTTP/1.1 " + IntToString(head.status) + " ", head.reason);
    FieldLinesShape(head.headers, order);
    forall i | 0 <= i < |order|
      ensures NoCR(order[i] + ": " + head.headers[order[i]])
    {
      NoCRConcat(order[i], ": ");
      NoCRConcat(order[i] + ": ", head.headers[order[i]]);
    }
    assert forall i :: 1 <= i <= |order| ==> lines[i] == FieldLines(head.headers, order)[i - 1];
    SplitJoinRoundTrip(lines);
  }

  /** Every header of the map is written as a "name: value" line, and every
      line between the status line and the blank line is one of them. */
  lemma ResponseHeadListsEveryHeader(head: ResponseHead, order: seq<string>)
    requires IsEnumeration(order, head.headers.Keys)
    ensures var lines := HeadLines(head, order);
            && |lines| == |order| + 2
            && (forall k :: k in head.headers ==>
                  exists i :: 1 <= i < |lines| - 1 && lines[i] == k + ": " + head.headers[k])
            && (forall i :: 1 <= i < |lines| - 1 ==>
                  exists k :: k in head.headers && lines[i] == k + ": " + head.headers[k])
  {
    var lines := HeadLines(head, order);
    FieldLinesShape(head.headers, order);
    assert forall i :: 1 <= i <= |order| ==> lines[i] == order[i - 1] + ": " + head.headers[order[i - 1]];
    forall k | k in head.headers
      ensures exists i :: 1 <= i < |lines| - 1 && lines[i] == k + ": " + head.headers[k]
    {
      var j :| 0 <= j < |order| && order[j] == k;
      assert lines[j + 1] == k + ": " + head.headers[k];
    }
  }
}
