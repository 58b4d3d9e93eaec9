/** The URL-detection rule shared by the server and the browser:
    the case-insensitive pattern `(https?:\/\/[^\s]+)|(www\.[^\s]+)`, searched
    anywhere in the text. `HasUrl` is its declarative meaning; `Scan` is a
    left-to-right matcher proved to agree with it. */
module UrlPattern {

  /** `\s` over the ASCII range: space, tab, line feed, vertical tab, form feed,
      carriage return. */
  predicate IsWhitespace(c: char) {
    c == ' ' || c == '\t' || c == '\n' || c == '\U{000B}' || c == '\U{000C}' || c == '\r'
  }

  /** ASCII case folding, as the `i` flag applies it to the pattern's letters. */
  function LowerAscii(c: char): (d: char)
    ensures 'A' <= c <= 'Z' ==> 'a' <= d <= 'z'
    ensures !('A' <= c <= 'Z') ==> d == c
  {
    if 'A' <= c <= 'Z' then (c as int + 32) as char else c
  }

  function UpperAscii(c: char): (d: char)
    ensures LowerAscii(d) == LowerAscii(c)
  {
    if 'a' <= c <= 'z' then (c as int - 32) as char else c
  }

  /** The three literal heads the pattern admits, in lower case. */
  const Http: string := "http://"
  const Https: string := "https://"
  const Www: string := "www."

  /** `p` (lower case) occurs at `i` in `s`, ignoring ASCII case. */
  predicate PrefixAt(s: string, i: nat, p: string) {
    i + |p| <= |s| && forall k :: 0 <= k < |p| ==> LowerAscii(s[i + k]) == p[k]
  }

  /** `p` occurs at `i` and at least one non-whitespace character follows it
      (the `[^\s]+` part needs exactly one to succeed). */
  predicate HeadMatchAt(s: string, i: nat, p: string) {
    PrefixAt(s, i, p) && i + |p| < |s| && !IsWhitespace(s[i + |p|])
  }

  /** Some alternative of the pattern matches starting at index `i`. */
  predicate MatchAt(s: string, i: nat) {
    HeadMatchAt(s, i, Http) || HeadMatchAt(s, i, Https) || HeadMatchAt(s, i, Www)
  }

  /** A match starts at some index at or after `start`. */
  predicate MatchFrom(s: string, start: nat) {
    exists i :: start <= i < |s| && MatchAt(s, i)
  }

  /** The text contains a URL: the unanchored search succeeds. */
  predicate HasUrl(s: string) {
    MatchFrom(s, 0)
  }

  /** Two texts that differ only in the case of ASCII letters. */
  predicate SameIgnoringCase(s: string, t: string) {
    |s| == |t| && forall k :: 0 <= k < |s| ==> LowerAscii(s[k]) == LowerAscii(t[k])
  }

  function UpperAsciiString(s: string): (t: string)
    ensures SameIgnoringCase(s, t)
  {
    seq(|s|, k requires 0 <= k < |s| => UpperAscii(s[k]))
  }

  // ---------------------------------------------------------------------------
  // The imperative matcher

  /** Compares `p` against `s` at `i`, character by character. */
  method ScanPrefix(s: string, i: nat, p: string) returns (b: bool)
    ensures b == PrefixAt(s, i, p)
  {
    if i + |p| > |s| {
      return false;
    }
    var k := 0;
    while k < |p|
      invariant 0 <= k <= |p|
      invariant forall j :: 0 <= j < k ==> LowerAscii(s[i + j]) == p[j]
    {
      if LowerAscii(s[i + k]) != p[k] {
        return false;
      }
      k := k + 1;
    }
    return true;
  }

  method ScanHead(s: string, i: nat, p: string) returns (b: bool)
    ensures b == HeadMatchAt(s, i, p)
  {
    b := ScanPrefix(s, i, p);
    b := b && i + |p| < |s| && !IsWhitespace(s[i + |p|]);
  }

  /** Tries the alternatives at `i`: `http://`, `https://`, then `www.`. */
  method ScanAt(s: string, i: nat) returns (b: bool)
    ensures b == MatchAt(s, i)
  {
    b := ScanHead(s, i, Http);
    if !b {
      b := ScanHead(s, i, Https);
    }
    if !b {
      b := ScanHead(s, i, Www);
    }
  }

  /** Searches left to right from `start` and returns the leftmost index where
      a match begins. */
  method Scan(s: string, start: nat) returns (found: bool, at: nat)
    ensures found == MatchFrom(s, start)
    ensures found ==> start <= at < |s| && MatchAt(s, at)
    ensures found ==> forall j :: start <= j < at ==> !MatchAt(s, j)
  {
    var i := start;
    while i < |s|
      invariant start <= i
      invariant forall j :: start <= j < i ==> !MatchAt(s, j)
    {
      var m := ScanAt(s, i);
      if m {
        return true, i;
      }
      i := i + 1;
    }
    return false, 0;
  }

  /** The end of the run of non-whitespace characters that begins at `j`:
      where the greedy `[^\s]+` of a match starting at `j` stops. */
  method RunEnd(s: string, j: nat) returns (e: nat)
    requires j <= |s|
    ensures j <= e <= |s|
    ensures forall k :: j <= k < e ==> !IsWhitespace(s[k])
    ensures e < |s| ==> IsWhitespace(s[e])
  {
    e := j;
    while e < |s| && !IsWhitespace(s[e])
      invariant j <= e <= |s|
      invariant forall k :: j <= k < e ==> !IsWhitespace(s[k])
    {
      e := e + 1;
    }
  }

  // ---------------------------------------------------------------------------
  // Properties of the rule

  /** A head that equals `p` up to case, placed after `a` and followed by a
      non-whitespace character, is a match. */
  lemma {:induction false} HeadInContext(a: string, q: string, b: string, p: string)
    requires p == Http || p == Https || p == Www
    requires |q| == |p| && PrefixAt(q, 0, p)
    requires |b| > 0 && !IsWhitespace(b[0])
    ensures MatchAt(a + q + b, |a|) && HasUrl(a + q + b)
  {
    var s := a + q + b;
    forall k | 0 <= k < |p| ensures LowerAscii(s[|a| + k]) == p[k] {
      assert s[|a| + k] == q[0 + k];
    }
    assert s[|a| + |p|] == b[0];
    assert HeadMatchAt(s, |a|, p);
    assert 0 <= |a| < |s| && MatchAt(s, |a|);
  }

  /** No match can start on a character that is not `h` or `w` in either case. */
  predicate NoHeadLetter(t: string) {
    'h' !in t && 'H' !in t && 'w' !in t && 'W' !in t
  }

  lemma {:induction false} NoMatchOver(a: string, b: string, c: string)
    requires NoHeadLetter(b)
    ensures forall i :: |a| <= i < |a| + |b| ==> !MatchAt(a + b + c, i)
  {
    var s := a + b + c;
    forall i | |a| <= i < |a| + |b| ensures !MatchAt(s, i) {
      assert s[i] == b[i - |a|];
      assert s[i + 0] in b;
      assert Http[0] == Https[0] == 'h' && Www[0] == 'w';
    }
  }

  /** A head `p` cannot match at `i` once its `k`-th character differs, or when
      the text ends at or before its `k`-th position (`k == |p|`: nothing follows). */
  lemma NoHeadAt(s: string, i: nat, p: string, k: nat)
    requires k <= |p| && (i + k >= |s| || (k < |p| && LowerAscii(s[i + k]) != p[k]))
    ensures !HeadMatchAt(s, i, p)
  {
  }

  /** No match starts at `i` when each of the three heads fails at some position. */
  lemma NoMatchAtIndex(s: string, i: nat, kh: nat, khs: nat, kw: nat)
    requires kh <= |Http| && (i + kh >= |s| || (kh < |Http| && LowerAscii(s[i + kh]) != Http[kh]))
    requires khs <= |Https| && (i + khs >= |s| || (khs < |Https| && LowerAscii(s[i + khs]) != Https[khs]))
    requires kw <= |Www| && (i + kw >= |s| || (kw < |Www| && LowerAscii(s[i + kw]) != Www[kw]))
    ensures !MatchAt(s, i)
  {
    NoHeadAt(s, i, Http, kh);
    NoHeadAt(s, i, Https, khs);
    NoHeadAt(s, i, Www, kw);
  }

  /** Too close to the end for the shortest head and one more character. */
  lemma NoMatchNearEnd(s: string)
    ensures forall i :: 0 <= i && |s| <= i + |Www| ==> !MatchAt(s, i)
  {
  }

  lemma NoUrlInHttpHead()
    ensures !HasUrl(Http)
  {
    NoMatchNearEnd(Http);
    forall i | 0 <= i < |Http| ensures !MatchAt(Http, i) {
      if i == 0 {
        NoMatchAtIndex(Http, 0, 7, 4, 0);
      } else if i < 3 {
        NoMatchAtIndex(Http, i, 6, 6, 0);
      }
    }
  }

  lemma NoUrlInHttpsHead()
    ensures !HasUrl(Https)
  {
    NoMatchNearEnd(Https);
    forall i | 0 <= i < |Https| ensures !MatchAt(Https, i) {
      if i == 0 {
        NoMatchAtIndex(Https, 0, 4, 8, 0);
      } else if i < 4 {
        NoMatchAtIndex(Https, i, 7, 7, 0);
      }
    }
  }

  /** Neither the empty text, nor a bare head with nothing after it, contains a URL. */
  lemma {:induction false} NoUrlInBareHeads()
    ensures !HasUrl("")
    ensures !HasUrl("www.") && !HasUrl("http://") && !HasUrl("https://")
  {
    NoMatchNearEnd(Www);
    NoUrlInHttpHead();
    NoUrlInHttpsHead();
  }

  lemma NoMatchAtSpacedHead()
    ensures !MatchAt("www. example", 0)
  {
    var s := "www. example";
    assert IsWhitespace(s[|Www|]);
    NoHeadAt(s, 0, Http, 0);
    NoHeadAt(s, 0, Https, 0);
  }

  lemma NoMatchInsideSpacedHead1()
    ensures !MatchAt("www. example", 1)
  {
    NoMatchAtIndex("www. example", 1, 0, 0, 2);
  }

  lemma NoMatchInsideSpacedHead2()
    ensures !MatchAt("www. example", 2)
  {
    NoMatchAtIndex("www. example", 2, 0, 0, 1);
  }

  lemma NoMatchAfterSpacedHead()
    ensures forall i :: 3 <= i < 12 ==> !MatchAt("www. example", i)
  {
    assert "www. example" == "www" + ". example" + "";
    NoMatchOver("www", ". example", "");
  }

  /** Assembles per-index facts into a verdict on the whole text. */
  lemma NoUrlFromFirstThree(s: string)
    requires |s| >= 3 && !MatchAt(s, 0) && !MatchAt(s, 1) && !MatchAt(s, 2)
    requires forall i :: 3 <= i < |s| ==> !MatchAt(s, i)
    ensures !HasUrl(s)
  {
  }

  /** A head followed by whitespace is not a URL: `[^\s]+` must start right after it. */
  lemma {:induction false} NoUrlAfterSpacedHead()
    ensures !HasUrl("www. example")
  {
    NoMatchAtSpacedHead();
    NoMatchInsideSpacedHead1();
    NoMatchInsideSpacedHead2();
    NoMatchAfterSpacedHead();
    NoUrlFromFirstThree("www. example");
  }

  /** A URL found in `s` is still found when text is added on either side:
      the search is unanchored. */
  lemma {:induction false} HasUrlUnanchored(a: string, s: string, b: string)
    requires HasUrl(s)
    ensures HasUrl(a + s + b)
  {
    var i :| 0 <= i < |s| && MatchAt(s, i);
    var t := a + s + b;
    forall p | p in [Http, Https, Www] && HeadMatchAt(s, i, p) ensures HeadMatchAt(t, |a| + i, p) {
      forall k | 0 <= k < |p| ensures LowerAscii(t[|a| + i + k]) == p[k] {
        assert t[|a| + (i + k)] == s[i + k];
      }
      assert t[|a| + (i + |p|)] == s[i + |p|];
    }
    assert MatchAt(t, |a| + i);
  }

  /** Case folding never turns a whitespace character into another character. */
  lemma SameCaseWhitespace(c: char, d: char)
    requires LowerAscii(c) == LowerAscii(d)
    ensures IsWhitespace(c) == IsWhitespace(d)
  {
  }

  lemma {:induction false} MatchAtIgnoresCase(s: string, t: string, i: nat)
    requires SameIgnoringCase(s, t)
    ensures MatchAt(s, i) == MatchAt(t, i)
  {
    forall p | p in [Http, Https, Www] ensures HeadMatchAt(s, i, p) == HeadMatchAt(t, i, p) {
      if i + |p| < |s| {
        SameCaseWhitespace(s[i + |p|], t[i + |p|]);
      }
    }
  }

  /** The `i` flag: changing the case of ASCII letters never changes the verdict. */
  lemma {:induction false} HasUrlIgnoresCase(s: string, t: string)
    requires SameIgnoringCase(s, t)
    ensures HasUrl(s) == HasUrl(t)
  {
    forall i | 0 <= i < |s| ensures MatchAt(s, i) == MatchAt(t, i) {
      MatchAtIgnoresCase(s, t, i);
    }
  }

  lemma {:induction false} HasUrlOfUpperCase(s: string)
    ensures HasUrl(UpperAsciiString(s)) == HasUrl(s)
  {
    HasUrlIgnoresCase(s, UpperAsciiString(s));
  }

  lemma HttpsInSentence()
    ensures HasUrl("visit https://example.com today")
  {
    var p := "https://";
    assert PrefixAt(p, 0, Https);
    assert "visit https://example.com today" == "visit " + p + "example.com today";
    HeadInContext("visit ", p, "example.com today", Https);
  }

  lemma UpperCaseWww()
    ensures HasUrl("WWW.EXAMPLE.COM")
  {
    var p := "WWW.";
    assert PrefixAt(p, 0, Www);
    assert "WWW.EXAMPLE.COM" == "" + p + "EXAMPLE.COM";
    HeadInContext("", p, "EXAMPLE.COM", Www);
  }

  lemma HttpAfterWord()
    ensures HasUrl("check http://spam.example")
  {
    var p := "http://";
    assert PrefixAt(p, 0, Http);
    assert "check http://spam.example" == "check " + p + "spam.example";
    HeadInContext("check ", p, "spam.example", Http);
  }

  /** Texts the rule takes for URLs, upper case included. */
  lemma {:induction false} UrlExamples()
    ensures HasUrl("visit https://example.com today")
    ensures HasUrl("WWW.EXAMPLE.COM")
    ensures HasUrl("check http://spam.example")
  {
    HttpsInSentence();
    UpperCaseWww();
    HttpAfterWord();
  }

  lemma NoUrlInPlainWords()
    ensures !HasUrl("plain text") && !HasUrl("Alice")
  {
    assert "plain text" == "" + "plain text" + "";
    NoMatchOver("", "plain text", "");
    assert "Alice" == "" + "Alice" + "";
    NoMatchOver("", "Alice", "");
  }

  lemma NoUrlInHello()
    ensures !HasUrl("hello")
  {
    assert "hello" == "h" + "ello" + "";
    NoMatchOver("h", "ello", "");
    NoMatchAtIndex("hello", 0, 1, 1, 0);
  }

  lemma NoUrlInTrailingHead()
    ensures !HasUrl("contact me at www.")
  {
    assert "contact me at www." == "" + "contact me at " + "www.";
    NoMatchOver("", "contact me at ", "www.");
    NoMatchNearEnd("contact me at www.");
  }

  /** Ordinary words contain no URL, nor does a sentence ending in a bare head. */
  lemma {:induction false} PlainTextExamples()
    ensures !HasUrl("plain text") && !HasUrl("hello") && !HasUrl("Alice")
    ensures !HasUrl("contact me at www.")
  {
    NoUrlInPlainWords();
    NoUrlInHello();
    NoUrlInTrailingHead();
  }
}
