/**
 * String trimming as done by JavaScript's `String.prototype.trim`: strip every
 * leading and trailing character that ECMAScript classes as WhiteSpace or
 * LineTerminator, and nothing else.
 */
module Text {

  /** The ECMAScript WhiteSpace and LineTerminator code points. */
  predicate IsWhitespace(c: char) {
    || c == '\t' || c == '\n' || c == '\U{000B}' || c == '\U{000C}' || c == '\r'
    || c == ' ' || c == '\U{00A0}' || c == '\U{1680}'
    || ('\U{2000}' <= c <= '\U{200A}')
    || c == '\U{2028}' || c == '\U{2029}' || c == '\U{202F}' || c == '\U{205F}'
    || c == '\U{3000}' || c == '\U{FEFF}'
  }

  predicate AllWhitespace(s: string) {
    forall i :: 0 <= i < |s| ==> IsWhitespace(s[i])
  }

  /** Neither end of `s` is whitespace (the empty string qualifies). */
  predicate Trimmed(s: string) {
    s == [] || (!IsWhitespace(s[0]) && !IsWhitespace(s[|s| - 1]))
  }

  /**
   * `r` is what is left of `s` after removing a whitespace-only prefix and a
   * whitespace-only suffix, and it neither starts nor ends with whitespace.
   * This is the meaning of trimming, independent of how `Trim` computes it.
   */
  ghost predicate IsTrimOf(r: string, s: string) {
    Trimmed(r) &&
    exists lead: string, trail: string ::
      s == lead + r + trail && AllWhitespace(lead) && AllWhitespace(trail)
  }

  /** Drops the leading whitespace. */
  function TrimStart(s: string): string {
    if s == [] || !IsWhitespace(s[0]) then s else TrimStart(s[1..])
  }

  /** Drops the trailing whitespace. */
  function TrimEnd(s: string): string {
    if s == [] || !IsWhitespace(s[|s| - 1]) then s else TrimEnd(s[..|s| - 1])
  }

  /** `String.prototype.trim`. */
  function Trim(s: string): string {
    TrimEnd(TrimStart(s))
  }

  /** `TrimStart` yields the longest suffix of `s` that does not start with whitespace. */
  lemma {:induction false} TrimStartSpec(s: string)
    ensures |TrimStart(s)| <= |s| && TrimStart(s) == s[|s| - |TrimStart(s)|..]
    ensures AllWhitespace(s[..|s| - |TrimStart(s)|])
    ensures TrimStart(s) == [] || !IsWhitespace(TrimStart(s)[0])
  {
    if s != [] && IsWhitespace(s[0]) {
      TrimStartSpec(s[1..]);
      var r := TrimStart(s[1..]);
      assert s[..|s| - |r|] == [s[0]] + s[1..][..|s[1..]| - |r|];
    }
  }

  /** `TrimEnd` yields the longest prefix of `s` that does not end with whitespace. */
  lemma {:induction false} TrimEndSpec(s: string)
    ensures |TrimEnd(s)| <= |s| && TrimEnd(s) == s[..|TrimEnd(s)|]
    ensures AllWhitespace(s[|TrimEnd(s)|..])
    ensures TrimEnd(s) == [] || !IsWhitespace(TrimEnd(s)[|TrimEnd(s)| - 1])
  {
    if s != [] && IsWhitespace(s[|s| - 1]) {
      TrimEndSpec(s[..|s| - 1]);
      var r := TrimEnd(s[..|s| - 1]);
      assert s[|r|..] == s[..|s| - 1][|r|..] + [s[|s| - 1]];
    }
  }

  /** What `Trim` returns is a trim of its input. */
  lemma TrimSpec(s: string)
    ensures IsTrimOf(Trim(s), s)
  {
    var t := TrimStart(s);
    var r := TrimEnd(t);
    TrimStartSpec(s);
    TrimEndSpec(t);
    var lead := s[..|s| - |t|];
    var trail := t[|r|..];
    assert s == lead + t;
    assert t == r + trail;
    TrimmedCore(s, lead, r, trail);
  }

  /** A whitespace-bordered trimmed core of `s` is a trim of `s`. */
  lemma TrimmedCore(s: string, lead: string, r: string, trail: string)
    requires AllWhitespace(lead) && AllWhitespace(trail) && Trimmed(r)
    requires s == lead + (r + trail)
    ensures IsTrimOf(r, s)
  {
    assert s == lead + r + trail;
  }

  /** Leading whitespace is skipped without looking at what follows it. */
  lemma {:induction false} TrimStartSkips(lead: string, rest: string)
    requires AllWhitespace(lead)
    ensures TrimStart(lead + rest) == TrimStart(rest)
  {
    if lead != [] {
      assert (lead + rest)[0] == lead[0];
      assert (lead + rest)[1..] == lead[1..] + rest;
      TrimStartSkips(lead[1..], rest);
    } else {
      assert lead + rest == rest;
    }
  }

  /** Trailing whitespace is skipped without looking at what precedes it. */
  lemma {:induction false} TrimEndSkips(rest: string, trail: string)
    requires AllWhitespace(trail)
    ensures TrimEnd(rest + trail) == TrimEnd(rest)
  {
    if trail != [] {
      var n := |rest + trail|;
      assert (rest + trail)[n - 1] == trail[|trail| - 1];
      assert (rest + trail)[..n - 1] == rest + trail[..|trail| - 1];
      TrimEndSkips(rest, trail[..|trail| - 1]);
    } else {
      assert rest + trail == rest;
    }
  }

  /** Trimming a string that is whitespace around a trimmed core yields exactly that core. */
  lemma TrimOfDecomposition(lead: string, r: string, trail: string)
    requires AllWhitespace(lead) && AllWhitespace(trail) && Trimmed(r)
    ensures Trim(lead + r + trail) == r
  {
    assert lead + r + trail == lead + (r + trail);
    TrimStartSkips(lead, r + trail);
    TrimEndSkips(r, trail);
    if r == [] {
      assert r + trail == trail && trail + [] == trail;
      TrimStartSkips(trail, []);
    } else {
      assert (r + trail)[0] == r[0];
    }
  }

  /** `IsTrimOf` characterises `Trim` in both directions. */
  lemma TrimOfIff(r: string, s: string)
    ensures IsTrimOf(r, s) <==> r == Trim(s)
  {
    TrimSpec(s);
    if IsTrimOf(r, s) {
      var lead, trail :| s == lead + r + trail && AllWhitespace(lead) && AllWhitespace(trail);
      TrimOfDecomposition(lead, r, trail);
    }
  }

  /** Trimming twice is trimming once. */
  lemma TrimIdempotent(s: string)
    ensures Trim(Trim(s)) == Trim(s)
  {
    var r := Trim(s);
    TrimSpec(s);
    assert [] + r + [] == r;
    TrimOfDecomposition([], r, []);
  }
}
