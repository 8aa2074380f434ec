/**
  String handling shared by both routes: ECMAScript `trim()`, the
  `/^Bearer\s+/i` prefix removal applied to the Authorization header, and
  the decimal rendering of `Date.now()` used in the fallback item code.
 */
module Text {

  /**
    ECMAScript WhiteSpace and LineTerminator code points: the set removed by
    `String.prototype.trim` and matched by `\s` in a regular expression.
   */
  predicate IsWhitespace(c: char) {
    || c == '\t' || c == '\n' || c == '\U{000B}' || c == '\U{000C}' || c == '\r'
    || c == ' ' || c == '\U{00A0}' || c == '\U{1680}'
    || ('\U{2000}' <= c <= '\U{200A}')
    || c == '\U{2028}' || c == '\U{2029}' || c == '\U{202F}' || c == '\U{205F}'
    || c == '\U{3000}' || c == '\U{FEFF}'
  }

  /** Every character of `s` is whitespace (vacuously so for "") */
  predicate Blank(s: string) {
    forall i :: 0 <= i < |s| ==> IsWhitespace(s[i])
  }

  /** Neither end of `s` is whitespace */
  predicate IsTrimmed(s: string) {
    s == [] || (!IsWhitespace(s[0]) && !IsWhitespace(s[|s| - 1]))
  }

  /** Removes the maximal whitespace prefix */
  function TrimStart(s: string): string {
    if |s| > 0 && IsWhitespace(s[0]) then TrimStart(s[1..]) else s
  }

  /** Removes the maximal whitespace suffix */
  function TrimEnd(s: string): string {
    if |s| > 0 && IsWhitespace(s[|s| - 1]) then TrimEnd(s[..|s| - 1]) else s
  }

  /** TrimStart keeps a suffix of `s`, drops only whitespace, and stops at a non-whitespace character */
  lemma {:induction false} TrimStartSplits(s: string)
    ensures |TrimStart(s)| <= |s| && TrimStart(s) == s[|s| - |TrimStart(s)|..]
    ensures Blank(s[..|s| - |TrimStart(s)|])
    ensures TrimStart(s) == [] || !IsWhitespace(TrimStart(s)[0])
    decreases |s|
  {
    if |s| > 0 && IsWhitespace(s[0]) {
      var r := TrimStart(s[1..]);
      TrimStartSplits(s[1..]);
      assert TrimStart(s) == r;
      assert s[1..][|s| - 1 - |r|..] == s[|s| - |r|..];
      assert s[..|s| - |r|] == [s[0]] + s[1..][..|s| - 1 - |r|];
      BlankConcat([s[0]], s[1..][..|s| - 1 - |r|]);
    }
  }

  /** TrimEnd keeps a prefix of `s`, drops only whitespace, and stops at a non-whitespace character */
  lemma {:induction false} TrimEndSplits(s: string)
    ensures |TrimEnd(s)| <= |s| && TrimEnd(s) == s[..|TrimEnd(s)|]
    ensures Blank(s[|TrimEnd(s)|..])
    ensures TrimEnd(s) == [] || !IsWhitespace(TrimEnd(s)[|TrimEnd(s)| - 1])
    decreases |s|
  {
    if |s| > 0 && IsWhitespace(s[|s| - 1]) {
      var r := TrimEnd(s[..|s| - 1]);
      TrimEndSplits(s[..|s| - 1]);
      assert s[|r|..] == s[..|s| - 1][|r|..] + [s[|s| - 1]];
      BlankConcat(s[..|s| - 1][|r|..], [s[|s| - 1]]);
    }
  }

  lemma BlankConcat(a: string, b: string)
    requires Blank(a) && Blank(b)
    ensures Blank(a + b)
  {
  }

  /** `s.trim()` */
  function Trim(s: string): (r: string)
    ensures IsTrimmed(r)
    ensures r == [] <==> Blank(s)
    ensures |r| <= |s|
  {
    TrimBothEnds(s);
    TrimEnd(TrimStart(s))
  }

  lemma TrimBothEnds(s: string)
    ensures IsTrimmed(TrimEnd(TrimStart(s)))
    ensures |TrimEnd(TrimStart(s))| <= |s|
    ensures TrimEnd(TrimStart(s)) == [] <==> Blank(s)
  {
    var t := TrimStart(s);
    var r := TrimEnd(t);
    TrimStartSplits(s);
    TrimEndSplits(t);
    assert r != [] ==> r[0] == t[0];
    if r == [] {
      assert s == s[..|s| - |t|] + t;
      BlankConcat(s[..|s| - |t|], t);
    }
  }

  lemma {:induction false} TrimStartOfPadded(w: string, t: string)
    requires Blank(w)
    requires t == [] || !IsWhitespace(t[0])
    ensures TrimStart(w + t) == t
    decreases |w|
  {
    if w != [] {
      assert (w + t)[1..] == w[1..] + t;
      TrimStartOfPadded(w[1..], t);
    } else {
      assert w + t == t;
    }
  }

  lemma {:induction false} TrimEndOfPadded(t: string, w: string)
    requires Blank(w)
    requires t == [] || !IsWhitespace(t[|t| - 1])
    ensures TrimEnd(t + w) == t
    decreases |w|
  {
    if w != [] {
      var u := t + w;
      assert u[..|u| - 1] == t + w[..|w| - 1];
      TrimEndOfPadded(t, w[..|w| - 1]);
    } else {
      assert t + w == t;
    }
  }

  /**
    Trim's defining property: surrounding a trimmed string with whitespace
    on both sides and trimming gives the string back.
   */
  lemma TrimOfPadded(w1: string, t: string, w2: string)
    requires Blank(w1) && Blank(w2) && IsTrimmed(t)
    ensures Trim(w1 + t + w2) == t
  {
    assert w1 + t + w2 == w1 + (t + w2);
    if t == [] {
      assert w1 + t + w2 == (w1 + w2) + [];
      BlankConcat(w1, w2);
      TrimStartOfPadded(w1 + w2, []);
    } else {
      assert (t + w2)[0] == t[0];
      TrimStartOfPadded(w1, t + w2);
      TrimEndOfPadded(t, w2);
    }
  }

  lemma SplitAt(s: string, k: nat)
    requires k <= |s|
    ensures s == s[..k] + s[k..]
  {
  }

  lemma ConcatAssoc(a: string, b: string, c: string)
    ensures a + b + c == a + (b + c)
  {
  }

  /** Every string is its trim surrounded by whitespace on both sides */
  lemma TrimIsMiddle(s: string) returns (w1: string, w2: string)
    ensures Blank(w1) && Blank(w2)
    ensures s == w1 + Trim(s) + w2
  {
    var t := TrimStart(s);
    var r := TrimEnd(t);
    TrimStartSplits(s);
    TrimEndSplits(t);
    w1 := s[..|s| - |t|];
    w2 := t[|r|..];
    SplitAt(s, |s| - |t|);
    SplitAt(t, |r|);
    ConcatAssoc(w1, r, w2);
  }

  /** Trimming twice is trimming once */
  lemma TrimIdempotent(s: string)
    ensures Trim(Trim(s)) == Trim(s)
  {
  }

  /** `c` matches the ASCII letter `upper` under the regex flag `i` */
  predicate SameLetterIgnoringCase(c: char, upper: char)
    requires 'A' <= upper <= 'Z'
  {
    c == upper || c == upper + ('a' - 'A')
  }

  const BearerWord: string := "BEARER"

  /** `s` starts with "Bearer" in any ASCII letter case */
  predicate StartsWithBearerWord(s: string) {
    |s| >= |BearerWord|
    && forall i :: 0 <= i < |BearerWord| ==> SameLetterIgnoringCase(s[i], BearerWord[i])
  }

  /** `/^Bearer\s+/i` matches at the start of `s` */
  predicate HasBearerPrefix(s: string) {
    StartsWithBearerWord(s) && |s| > |BearerWord| && IsWhitespace(s[|BearerWord|])
  }

  /**
    `s.replace(/^Bearer\s+/i, "")`: the match is "Bearer" followed by the
    longest run (at least one) of whitespace; without a match `s` is kept.
   */
  function StripBearerPrefix(s: string): (r: string)
    ensures !HasBearerPrefix(s) ==> r == s
    ensures HasBearerPrefix(s) ==>
              && |r| < |s| - |BearerWord|
              && r == s[|s| - |r|..]
              && Blank(s[|BearerWord|..|s| - |r|])
              && (r == [] || !IsWhitespace(r[0]))
  {
    if HasBearerPrefix(s) then
      var rest := s[|BearerWord|..];
      var r := TrimStart(rest);
      TrimStartSplits(rest);
      assert rest[..|rest| - |r|] == s[|BearerWord|..|s| - |r|];
      r
    else s
  }

  /**
    A client that sends "Bearer", any separating whitespace, and a token
    that does not itself begin with whitespace, has exactly that token left
    after the prefix is removed.
   */
  lemma StripBearerOfToken(word: string, sep: string, token: string)
    requires |word| == |BearerWord| && StartsWithBearerWord(word)
    requires sep != [] && Blank(sep)
    requires token == [] || !IsWhitespace(token[0])
    ensures StripBearerPrefix(word + sep + token) == token
  {
    var s := word + sep + token;
    assert s[|BearerWord|] == sep[0];
    assert StartsWithBearerWord(s) by {
      forall i | 0 <= i < |BearerWord|
        ensures SameLetterIgnoringCase(s[i], BearerWord[i])
      {
        assert s[i] == word[i];
      }
    }
    assert s[|BearerWord|..] == sep + token;
    TrimStartOfPadded(sep, token);
  }

  function DigitChar(d: nat): (c: char)
    requires d < 10
    ensures '0' <= c <= '9'
  {
    '0' + d as char
  }

  predicate AllDigits(s: string) {
    forall i :: 0 <= i < |s| ==> '0' <= s[i] <= '9'
  }

  /** The value of a string of decimal digits */
  function DecimalValue(s: string): nat
    requires AllDigits(s)
  {
    if s == [] then 0
    else DecimalValue(s[..|s| - 1]) * 10 + (s[|s| - 1] - '0') as nat
  }

  /**
    `${n}` for a non-negative integer below 10^21, where JavaScript writes
    plain decimal digits without leading zeros.
   */
  function Decimal(n: nat): (r: string)
    ensures r != [] && AllDigits(r)
    ensures r[0] == '0' ==> r == "0"
  {
    if n < 10 then [DigitChar(n)] else Decimal(n / 10) + [DigitChar(n % 10)]
  }

  /** Reading back the digits gives the number that was written */
  lemma {:induction false} DecimalRoundTrip(n: nat)
    ensures DecimalValue(Decimal(n)) == n
  {
    if n >= 10 {
      var r := Decimal(n);
      assert r[..|r| - 1] == Decimal(n / 10);
      DecimalRoundTrip(n / 10);
    }
  }
}
