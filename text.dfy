/** Text primitives shared by the whole model: an option type, the
    std::string::find search, std::to_string of integers, and counting
    characters. Strings are sequences of `char`; one `char` stands for one
    byte of the C++ std::string (every value the server produces is below 256). */
module Text {

  datatype Option<T> = None | Some(value: T)

  const CRLF: string := "\r\n"
  const CRLFCRLF: string := "\r\n\r\n"

  /** `pat` occurs in `s` starting at index `i`. */
  predicate OccursAt(s: string, pat: string, i: nat)
  {
    i + |pat| <= |s| && s[i..i + |pat|] == pat
  }

  /** std::string::find(pat, from): the first index at or after `from`
      where `pat` occurs, or None (npos). */
  function IndexOf(s: string, pat: string, from: nat): (r: Option<nat>)
    ensures r.Some? ==> from <= r.value && OccursAt(s, pat, r.value)
    decreases |s| - from
  {
    if from + |pat| > |s| then None
    else if OccursAt(s, pat, from) then Some(from)
    else IndexOf(s, pat, from + 1)
  }

  /** The index IndexOf finds is the first occurrence at or after `from`,
      and None means there is none. */
  lemma {:induction false} IndexOfFirst(s: string, pat: string, from: nat)
    ensures IndexOf(s, pat, from).Some? ==>
              forall j :: from <= j < IndexOf(s, pat, from).value ==> !OccursAt(s, pat, j)
    ensures IndexOf(s, pat, from).None? ==> forall j :: from <= j ==> !OccursAt(s, pat, j)
    decreases |s| - from
  {
    if from + |pat| <= |s| && !OccursAt(s, pat, from) {
      IndexOfFirst(s, pat, from + 1);
    }
  }

  /** std::string::find(pat) != npos */
  predicate Contains(s: string, pat: string)
  {
    IndexOf(s, pat, 0).Some?
  }

  /** Searching from `from` in `s` is searching the suffix `s[from..]`,
      with the answer shifted by `from`. */
  lemma IndexOfSuffix(s: string, pat: string, from: nat)
    requires from <= |s|
    ensures IndexOf(s, pat, from).None? <==> IndexOf(s[from..], pat, 0).None?
    ensures IndexOf(s, pat, from).Some? ==>
              IndexOf(s, pat, from).value == from + IndexOf(s[from..], pat, 0).value
  {
    var t := s[from..];
    forall j: nat | from <= j
      ensures OccursAt(s, pat, j) <==> OccursAt(t, pat, j - from)
    {
      if j + |pat| <= |s| {
        assert s[j..j + |pat|] == t[j - from..j - from + |pat|];
      }
    }
    IndexOfFirst(s, pat, from);
    IndexOfFirst(t, pat, 0);
    var a := IndexOf(s, pat, from);
    var b := IndexOf(t, pat, 0);
    if b.Some? {
      assert OccursAt(s, pat, from + b.value);
    }
    if a.Some? {
      assert OccursAt(t, pat, a.value - from);
    }
  }

  predicate IsDigit(c: char)
  {
    '0' <= c <= '9'
  }

  predicate AllDigits(s: string)
  {
    forall i :: 0 <= i < |s| ==> IsDigit(s[i])
  }

  function DigitChar(d: nat): (c: char)
    requires d < 10
    ensures IsDigit(c) && (c as int) - ('0' as int) == d
  {
    (('0' as int) + d) as char
  }

  /** std::to_string of an unsigned value: base 10, no leading zeros. */
  function NatToString(n: nat): (r: string)
    ensures |r| > 0 && AllDigits(r)
    ensures |r| > 1 ==> r[0] != '0'
    decreases n
  {
    if n < 10 then [DigitChar(n)] else NatToString(n / 10) + [DigitChar(n % 10)]
  }

  /** std::to_string / operator<< of a signed int. */
  function IntToString(i: int): (r: string)
  {
    if i < 0 then "-" + NatToString(-i) else NatToString(i)
  }

  /** Number of occurrences of character `c` in `s`. */
  function Count(c: char, s: string): nat
  {
    if s == [] then 0 else (if s[0] == c then 1 else 0) + Count(c, s[1..])
  }

  lemma {:induction false} CountAppend(c: char, a: string, b: string)
    ensures Count(c, a + b) == Count(c, a) + Count(c, b)
    decreases |a|
  {
    if a == [] {
      assert a + b == b;
    } else {
      assert (a + b)[1..] == a[1..] + b;
      CountAppend(c, a[1..], b);
    }
  }

  lemma {:induction false} CountAbsent(c: char, s: string)
    requires forall i :: 0 <= i < |s| ==> s[i] != c
    ensures Count(c, s) == 0
    decreases |s|
  {
    if s != [] {
      CountAbsent(c, s[1..]);
    }
  }

  /** A decimal rendering of an integer never contains `c` unless `c` is a
      digit or the minus sign. */
  lemma IntToStringAbsent(c: char, i: int)
    requires !IsDigit(c) && c != '-'
    ensures Count(c, IntToString(i)) == 0
  {
    var r := IntToString(i);
    if i < 0 {
      var t := NatToString(-i);
      assert forall k :: 0 <= k < |r| ==> r[k] == '-' || r[k] == t[k - 1];
    }
    CountAbsent(c, r);
  }

  /** The first occurrence, characterised: `pat` at `p` and nowhere before. */
  lemma IndexOfIs(s: string, pat: string, p: nat)
    requires OccursAt(s, pat, p)
    requires forall j :: 0 <= j < p ==> !OccursAt(s, pat, j)
    ensures IndexOf(s, pat, 0) == Some(p)
  {
    IndexOfFirst(s, pat, 0);
  }

  /** An occurrence that ends within the first `n` characters is one of `s[..n]`. */
  lemma OccursInPrefix(s: string, pat: string, j: nat, n: nat)
    requires j + |pat| <= n <= |s|
    ensures OccursAt(s[..n], pat, j) == OccursAt(s, pat, j)
  {
    assert s[..n][j..j + |pat|] == s[j..j + |pat|];
  }

  /** Cutting `s` right after the first occurrence of `pat` keeps that
      occurrence the first one. */
  lemma IndexOfPrefix(s: string, pat: string, p: nat, n: nat)
    requires IndexOf(s, pat, 0) == Some(p) && p + |pat| <= n <= |s|
    ensures IndexOf(s[..n], pat, 0) == Some(p)
  {
    IndexOfFirst(s, pat, 0);
    OccursInPrefix(s, pat, p, n);
    forall j | 0 <= j < p
      ensures !OccursAt(s[..n], pat, j)
    {
      OccursInPrefix(s, pat, j, n);
    }
    IndexOfIs(s[..n], pat, p);
  }

  /** A slice of the second part of a concatenation. */
  lemma SliceAfter(p: string, r: string, i: nat, j: nat)
    requires i <= j <= |r|
    ensures (p + r)[|p| + i..|p| + j] == r[i..j]
  {
  }

  /** Moving a piece from the front of the tail to the end of the head. */
  lemma Regroup(all: string, got: string, d: string, rest: string)
    requires all == got + (d + rest)
    ensures all == (got + d) + rest
  {
  }
}
