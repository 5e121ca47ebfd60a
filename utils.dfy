/** The string helpers of src/utils.cpp: trim, to_lower, hexval, url_decode,
    html_escape and error_page_html. Character classes are those of the C
    locale (ASCII). Each helper that the source writes as a loop is a method
    here, proved equal to a recursive specification function; the properties
    the helpers promise are lemmas about those functions. */
module Utils {
  import opened Text

  /** isspace in the C locale: space, \t, \n, \v, \f, \r. */
  predicate IsSpace(c: char)
  {
    c == ' ' || c == '\t' || c == '\n' || c == '\U{B}' || c == '\U{C}' || c == '\r'
  }

  // ---------------------------------------------------------------- trim

  /** `s` without its leading whitespace. */
  function TrimStart(s: string): string
    decreases |s|
  {
    if s != [] && IsSpace(s[0]) then TrimStart(s[1..]) else s
  }

  /** `s` without its trailing whitespace. */
  function TrimEnd(s: string): string
    decreases |s|
  {
    if s != [] && IsSpace(s[|s| - 1]) then TrimEnd(s[..|s| - 1]) else s
  }

  function Trimmed(s: string): string
  {
    TrimEnd(TrimStart(s))
  }

  /** Skipping the whitespace run `s[..b]` that ends at a non-space (or at
      the end) is what TrimStart does. */
  lemma {:induction false} TrimStartAt(s: string, b: nat)
    requires b <= |s|
    requires forall k :: 0 <= k < b ==> IsSpace(s[k])
    requires b < |s| ==> !IsSpace(s[b])
    ensures TrimStart(s) == s[b..]
    decreases b
  {
    if b > 0 {
      assert s[1..][b - 1..] == s[b..];
      TrimStartAt(s[1..], b - 1);
    }
  }

  /** Dropping the whitespace run `s[e..]` that starts after a non-space (or
      at the start) is what TrimEnd does. */
  lemma {:induction false} TrimEndAt(s: string, e: nat)
    requires e <= |s|
    requires forall k :: e <= k < |s| ==> IsSpace(s[k])
    requires e > 0 ==> !IsSpace(s[e - 1])
    ensures TrimEnd(s) == s[..e]
    decreases |s| - e
  {
    if e < |s| {
      var t := s[..|s| - 1];
      assert t[..e] == s[..e];
      TrimEndAt(t, e);
    }
  }

  /** The first non-space position of `s` (or |s|). */
  lemma {:induction false} LeadingSpaces(s: string) returns (b: nat)
    ensures b <= |s|
    ensures forall k :: 0 <= k < b ==> IsSpace(s[k])
    ensures b < |s| ==> !IsSpace(s[b])
    decreases |s|
  {
    if s != [] && IsSpace(s[0]) {
      var b' := LeadingSpaces(s[1..]);
      b := b' + 1;
    } else {
      b := 0;
    }
  }

  /** One past the last non-space position of `s[lo..]` (or `lo`). */
  lemma {:induction false} TrailingSpaces(s: string, lo: nat) returns (e: nat)
    requires lo <= |s|
    ensures lo <= e <= |s|
    ensures forall k :: e <= k < |s| ==> IsSpace(s[k])
    ensures e > lo ==> !IsSpace(s[e - 1])
    decreases |s| - lo
  {
    if lo < |s| && IsSpace(s[|s| - 1]) {
      var e' := TrailingSpaces(s[..|s| - 1], lo);
      e := e';
    } else {
      e := |s|;
    }
  }

  /** trim: skip whitespace from the front with `b`, then from the back
      with `e`, and return `s[b..e]`. */
  method Trim(s: string) returns (r: string)
    ensures r == Trimmed(s)
  {
    var b := 0;
    while b < |s| && IsSpace(s[b])
      invariant 0 <= b <= |s|
      invariant forall k :: 0 <= k < b ==> IsSpace(s[k])
    {
      b := b + 1;
    }
    var e := |s|;
    while e > b && IsSpace(s[e - 1])
      invariant b <= e <= |s|
      invariant forall k :: e <= k < |s| ==> IsSpace(s[k])
    {
      e := e - 1;
    }
    r := s[b..e];
    TrimStartAt(s, b);
    TrimEndAt(s[b..], e - b);
    assert s[b..][..e - b] == r;
  }

  /** The result of trim is a contiguous piece `s[b..e]` of its input;
      everything cut off on either side is whitespace, and the piece neither
      starts nor ends with whitespace. */
  lemma TrimmedIsInnerSlice(s: string)
    ensures exists b: nat, e: nat ::
            && b <= e <= |s|
            && Trimmed(s) == s[b..e]
            && (forall k :: 0 <= k < b ==> IsSpace(s[k]))
            && (forall k :: e <= k < |s| ==> IsSpace(s[k]))
    ensures var r := Trimmed(s); r != [] ==> !IsSpace(r[0]) && !IsSpace(r[|r| - 1])
  {
    var b := LeadingSpaces(s);
    var e := TrailingSpaces(s, b);
    TrimStartAt(s, b);
    TrimEndAt(s[b..], e - b);
    assert s[b..][..e - b] == s[b..e];
    assert Trimmed(s) == s[b..e];
  }

  /** trim is idempotent. */
  lemma TrimIdempotent(s: string)
    ensures Trimmed(Trimmed(s)) == Trimmed(s)
  {
    var r := Trimmed(s);
    TrimmedIsInnerSlice(s);
    TrimStartAt(r, 0);
    TrimEndAt(r, |r|);
  }

  // ------------------------------------------------------------ to_lower

  /** tolower in the C locale: only 'A'..'Z' change. */
  function LowerChar(c: char): char
  {
    if 'A' <= c <= 'Z' then ((c as int) + 32) as char else c
  }

  function LowerAscii(s: string): (r: string)
    ensures |r| == |s|
    ensures forall i :: 0 <= i < |s| ==> r[i] == LowerChar(s[i])
    decreases |s|
  {
    if s == [] then [] else [LowerChar(s[0])] + LowerAscii(s[1..])
  }

  /** to_lower: copy the string and lower-case it in place. */
  method ToLower(s: string) returns (out: string)
    ensures out == LowerAscii(s)
  {
    out := s;
    var i := 0;
    while i < |out|
      invariant 0 <= i <= |out| == |s|
      invariant forall k :: 0 <= k < i ==> out[k] == LowerChar(s[k])
      invariant forall k :: i <= k < |s| ==> out[k] == s[k]
    {
      out := out[i := LowerChar(out[i])];
      i := i + 1;
    }
  }

  /** to_lower preserves the length, turns every 'A'..'Z' into the matching
      'a'..'z', leaves every other character alone, and is idempotent. */
  lemma LowerAsciiSpec(s: string)
    ensures |LowerAscii(s)| == |s|
    ensures forall i :: 0 <= i < |s| && 'A' <= s[i] <= 'Z' ==>
              'a' <= LowerAscii(s)[i] <= 'z' && (LowerAscii(s)[i] as int) == (s[i] as int) + 32
    ensures forall i :: 0 <= i < |s| && !('A' <= s[i] <= 'Z') ==> LowerAscii(s)[i] == s[i]
    ensures LowerAscii(LowerAscii(s)) == LowerAscii(s)
  {
  }

  // -------------------------------------------------------------- hexval

  predicate IsHexDigit(c: char)
  {
    ('0' <= c <= '9') || ('a' <= c <= 'f') || ('A' <= c <= 'F')
  }

  /** hexval: the value of a hexadecimal digit, or -1. */
  function HexVal(c: char): (r: int)
    ensures -1 <= r <= 15
    ensures r >= 0 <==> IsHexDigit(c)
  {
    if '0' <= c <= '9' then (c as int) - ('0' as int)
    else if 'a' <= c <= 'f' then 10 + ((c as int) - ('a' as int))
    else if 'A' <= c <= 'F' then 10 + ((c as int) - ('A' as int))
    else -1
  }

  /** The upper-case hexadecimal digit of `d`, an independent inverse of HexVal. */
  function HexDigit(d: nat): (c: char)
    requires d < 16
  {
    "0123456789ABCDEF"[d]
  }

  /** hexval inverts both the upper- and the lower-case digit spelling. */
  lemma HexValInvertsDigit(d: nat)
    requires d < 16
    ensures HexVal(HexDigit(d)) == d
    ensures HexVal(LowerChar(HexDigit(d))) == d
  {
  }

  // ---------------------------------------------------------- url_decode

  /** url_decode, one position at a time: "%XX" with two hex digits is one
      character of value 16*X+X, '+' is a space, and anything else --
      including a '%' without two hex digits after it -- is copied. */
  function UrlDecoded(s: string): (r: string)
    ensures |r| <= |s|
    decreases |s|
  {
    if s == [] then []
    else if s[0] == '%' && 2 < |s| && HexVal(s[1]) >= 0 && HexVal(s[2]) >= 0 then
      [(HexVal(s[1]) * 16 + HexVal(s[2])) as char] + UrlDecoded(s[3..])
    else if s[0] == '+' then [' '] + UrlDecoded(s[1..])
    else [s[0]] + UrlDecoded(s[1..])
  }

  /** One step of UrlDecoded at position `i` of `s`. */
  lemma UrlDecodedStep(s: string, i: nat)
    requires i < |s|
    ensures s[i] == '%' && i + 2 < |s| && HexVal(s[i + 1]) >= 0 && HexVal(s[i + 2]) >= 0 ==>
              UrlDecoded(s[i..]) == [(HexVal(s[i + 1]) * 16 + HexVal(s[i + 2])) as char] + UrlDecoded(s[i + 3..])
    ensures !(s[i] == '%' && i + 2 < |s| && HexVal(s[i + 1]) >= 0 && HexVal(s[i + 2]) >= 0) ==>
              UrlDecoded(s[i..]) == [if s[i] == '+' then ' ' else s[i]] + UrlDecoded(s[i + 1..])
  {
    var rest := s[i..];
    assert rest[0] == s[i];
    if i + 2 < |s| {
      assert rest[1] == s[i + 1] && rest[2] == s[i + 2] && rest[3..] == s[i + 3..];
    }
    assert rest[1..] == s[i + 1..];
  }

  /** url_decode: one pass with index `i`, pushing into `out`; `(hi << 4) | lo`
      is `hi * 16 + lo` for two values below 16. */
  method UrlDecode(s: string) returns (out: string)
    ensures out == UrlDecoded(s)
  {
    out := [];
    var i := 0;
    while i < |s|
      invariant 0 <= i <= |s|
      invariant out + UrlDecoded(s[i..]) == UrlDecoded(s)
    {
      UrlDecodedStep(s, i);
      var c := s[i];
      var piece: char;
      var width: nat;
      if c == '%' && i + 2 < |s| {
        var hi := HexVal(s[i + 1]);
        var lo := HexVal(s[i + 2]);
        if hi >= 0 && lo >= 0 {
          piece, width := (hi * 16 + lo) as char, 3;
        } else {
          piece, width := c, 1;
        }
      } else if c == '+' {
        piece, width := ' ', 1;
      } else {
        piece, width := c, 1;
      }
      assert UrlDecoded(s[i..]) == [piece] + UrlDecoded(s[i + width..]);
      Regroup(out + UrlDecoded(s[i..]), out, [piece], UrlDecoded(s[i + width..]));
      out := out + [piece];
      i := i + width;
    }
    assert s[|s|..] == [];
  }

  /** Every character below 256 written as "%XX". */
  function PercentEncoded(s: string): (r: string)
    requires forall i :: 0 <= i < |s| ==> (s[i] as int) < 256
    ensures |r| == 3 * |s|
    decreases |s|
  {
    if s == [] then []
    else ['%', HexDigit((s[0] as int) / 16), HexDigit((s[0] as int) % 16)] + PercentEncoded(s[1..])
  }

  /** url_decode undoes percent-encoding of any byte string. */
  lemma {:induction false} UrlDecodeInvertsPercentEncoding(s: string)
    requires forall i :: 0 <= i < |s| ==> (s[i] as int) < 256
    ensures UrlDecoded(PercentEncoded(s)) == s
    decreases |s|
  {
    if s != [] {
      var c := s[0] as int;
      var hi, lo := c / 16, c % 16;
      HexValInvertsDigit(hi);
      HexValInvertsDigit(lo);
      var e := PercentEncoded(s);
      assert e[0] == '%' && e[1] == HexDigit(hi) && e[2] == HexDigit(lo);
      assert e[3..] == PercentEncoded(s[1..]);
      assert UrlDecoded(e) == [(hi * 16 + lo) as char] + UrlDecoded(e[3..]);
      UrlDecodeInvertsPercentEncoding(s[1..]);
      assert (hi * 16 + lo) as char == s[0];
    }
  }

  /** A string without '%' and '+' decodes to itself. */
  lemma {:induction false} UrlDecodePlainIdentity(s: string)
    requires forall i :: 0 <= i < |s| ==> s[i] != '%' && s[i] != '+'
    ensures UrlDecoded(s) == s
    decreases |s|
  {
    if s != [] {
      UrlDecodePlainIdentity(s[1..]);
    }
  }

  // --------------------------------------------------------- html_escape

  /** The five characters html_escape replaces. */
  predicate IsMarkupChar(c: char)
  {
    c == '&' || c == '<' || c == '>' || c == '"' || c == '\''
  }

  function EscapeChar(c: char): string
  {
    match c
    case '&' => "&amp;"
    case '<' => "&lt;"
    case '>' => "&gt;"
    case '"' => "&quot;"
    case '\'' => "&#39;"
    case _ => [c]
  }

  /** html_escape: the output never contains < > " or ', and is never
      shorter than the input. */
  function HtmlEscaped(s: string): (r: string)
    ensures |r| >= |s|
    ensures forall i :: 0 <= i < |r| ==> r[i] != '<' && r[i] != '>' && r[i] != '"' && r[i] != '\''
    decreases |s|
  {
    if s == [] then [] else EscapeChar(s[0]) + HtmlEscaped(s[1..])
  }

  /** html_escape: append each character's replacement to `out`. */
  method HtmlEscape(s: string) returns (out: string)
    ensures out == HtmlEscaped(s)
  {
    out := [];
    var i := 0;
    while i < |s|
      invariant 0 <= i <= |s|
      invariant out + HtmlEscaped(s[i..]) == HtmlEscaped(s)
    {
      var c := s[i];
      var piece: string;
      match c {
        case '&' => piece := "&amp;";
        case '<' => piece := "&lt;";
        case '>' => piece := "&gt;";
        case '"' => piece := "&quot;";
        case '\'' => piece := "&#39;";
        case _ => piece := [c];
      }
      assert s[i..][1..] == s[i + 1..];
      assert HtmlEscaped(s[i..]) == piece + HtmlEscaped(s[i + 1..]);
      assert out + HtmlEscaped(s[i..]) == (out + piece) + HtmlEscaped(s[i + 1..]);
      out := out + piece;
      i := i + 1;
    }
    assert s[|s|..] == [];
  }

  /** Reads the five entities back; any other character stands for itself. */
  function HtmlUnescaped(s: string): string
    decreases |s|
  {
    if s == [] then []
    else if s[0] != '&' then [s[0]] + HtmlUnescaped(s[1..])
    else if |s| >= 5 && s[..5] == "&amp;" then "&" + HtmlUnescaped(s[5..])
    else if |s| >= 4 && s[..4] == "&lt;" then "<" + HtmlUnescaped(s[4..])
    else if |s| >= 4 && s[..4] == "&gt;" then ">" + HtmlUnescaped(s[4..])
    else if |s| >= 6 && s[..6] == "&quot;" then "\"" + HtmlUnescaped(s[6..])
    else if |s| >= 5 && s[..5] == "&#39;" then "'" + HtmlUnescaped(s[5..])
    else [s[0]] + HtmlUnescaped(s[1..])
  }

  /** Unescaping reads one escaped character back off the front. */
  lemma UnescapeFront(c: char, t: string)
    ensures HtmlUnescaped(EscapeChar(c) + t) == [c] + HtmlUnescaped(t)
  {
    var e := EscapeChar(c) + t;
    if IsMarkupChar(c) {
      UnescapeEntity(c, t);
    } else {
      assert e[0] == c && e[1..] == t;
    }
  }

  lemma UnescapeEntity(c: char, t: string)
    requires IsMarkupChar(c)
    ensures HtmlUnescaped(EscapeChar(c) + t) == [c] + HtmlUnescaped(t)
  {
    var e := EscapeChar(c) + t;
    assert e[0] == '&';
    if c == '&' {
      assert e[..5] == "&amp;" && e[5..] == t;
    } else if c == '<' {
      assert e[1] == 'l';
      assert e[..4] == "&lt;" && e[4..] == t;
    } else if c == '>' {
      assert e[1] == 'g';
      assert e[..4] == "&gt;" && e[4..] == t;
    } else if c == '"' {
      assert e[1] == 'q';
      assert e[..6] == "&quot;" && e[6..] == t;
    } else {
      assert e[1] == '#';
      assert e[..5] == "&#39;" && e[5..] == t;
    }
  }

  /** html_escape loses nothing: unescaping its output gives the input back. */
  lemma {:induction false} HtmlEscapeRoundTrip(s: string)
    ensures HtmlUnescaped(HtmlEscaped(s)) == s
    decreases |s|
  {
    if s != [] {
      UnescapeFront(s[0], HtmlEscaped(s[1..]));
      HtmlEscapeRoundTrip(s[1..]);
    }
  }

  /** A string free of the five markup characters escapes to itself. */
  lemma {:induction false} HtmlEscapePlainIdentity(s: string)
    requires forall i :: 0 <= i < |s| ==> !IsMarkupChar(s[i])
    ensures HtmlEscaped(s) == s
    decreases |s|
  {
    if s != [] {
      HtmlEscapePlainIdentity(s[1..]);
    }
  }

  // ----------------------------------------------------- error_page_html

  /** error_page_html: the fixed error template around the status number,
      the escaped title (twice) and the escaped detail, written out as the
      list of pieces the source streams one after the other. */
  function ErrorPageHtml(status: int, title: string, detail: string): string
  {
    Concat(ErrorPagePieces(status, title, detail))
  }

  function ErrorPagePieces(status: int, title: string, detail: string): seq<string>
  {
    [ "<!doctype html><html><head><meta charset=\"utf-8\"/>",
      "<title>", IntToString(status), " ", HtmlEscaped(title), "</title>",
      "</head><body style=\"font-family: sans-serif;\">",
      "<h1>", IntToString(status), " ", HtmlEscaped(title), "</h1>",
      "<p>", HtmlEscaped(detail), "</p>",
      "<hr/><p><small>minihttpd</small></p>",
      "</body></html>" ]
  }

  /** The pieces written one after the other. */
  function Concat(ss: seq<string>): string
    decreases |ss|
  {
    if ss == [] then [] else ss[0] + Concat(ss[1..])
  }

  /** Counting over a concatenation adds up the counts of the pieces. */
  lemma {:induction false} CountConcatPointwise(c: char, ss: seq<string>, tt: seq<string>)
    requires |ss| == |tt|
    requires forall i :: 0 <= i < |ss| ==> Count(c, ss[i]) == Count(c, tt[i])
    ensures Count(c, Concat(ss)) == Count(c, Concat(tt))
    decreases |ss|
  {
    if ss != [] {
      CountAppend(c, ss[0], Concat(ss[1..]));
      CountAppend(c, tt[0], Concat(tt[1..]));
      CountConcatPointwise(c, ss[1..], tt[1..]);
    }
  }

  /** Escaped text contributes no '<'. */
  lemma EscapedHasNoTagOpen(s: string)
    ensures Count('<', HtmlEscaped(s)) == 0
  {
    CountAbsent('<', HtmlEscaped(s));
  }

  /** The '<' of an error page all come from the template: whatever the
      status, title and detail, the page opens exactly as many tags as the
      page for status 0 with an empty title and detail, so no title or
      detail can inject markup. */
  lemma ErrorPageMarkupIsFixed(status: int, title: string, detail: string)
    ensures Count('<', ErrorPageHtml(status, title, detail)) == Count('<', ErrorPageHtml(0, "", ""))
  {
    var ps := ErrorPagePieces(status, title, detail);
    var qs := ErrorPagePieces(0, "", "");
    IntToStringAbsent('<', status);
    IntToStringAbsent('<', 0);
    EscapedHasNoTagOpen(title);
    EscapedHasNoTagOpen(detail);
    EscapedHasNoTagOpen("");
    CountConcatPointwise('<', ps, qs);
  }
}
