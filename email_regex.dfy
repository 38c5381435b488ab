/** The e-mail shape test of the contact route: the regular expression
    `^[^\s@]+@[^\s@]+\.[^\s@]+$`, a simple `local@domain.tld` shape and not
    the address grammar of RFC 5322. */
module EmailRegex {
  import opened Text

  /** One character of the class `[^\s@]`. */
  predicate InClass(c: char)
  {
    !IsWhitespace(c) && c != '@'
  }

  /** `[^\s@]+`: a non-empty run of class characters. */
  predicate Word(s: string)
  {
    |s| > 0 && forall i :: 0 <= i < |s| ==> InClass(s[i])
  }

  /** The regular expression read literally: `s` is `L + "@" + D + "." + T`
      with the `@` at index `a`, the `.` at index `d`, and `L`, `D`, `T`
      each a word. */
  predicate SplitsAt(s: string, a: int, d: int)
  {
    0 <= a < d < |s| && s[a] == '@' && s[d] == '.'
    && Word(s[..a]) && Word(s[a + 1..d]) && Word(s[d + 1..])
  }

  /** `emailRegex.test(s)`. */
  predicate Matches(s: string)
  {
    exists a, d :: 0 <= a < d < |s| && SplitsAt(s, a, d)
  }

  /** The shape in plain words: no white space anywhere, exactly one `@`,
      something before it, and a `.` after it with text on both sides. */
  predicate WellShaped(s: string)
  {
    && (forall i :: 0 <= i < |s| ==> !IsWhitespace(s[i]))
    && multiset(s)['@'] == 1
    && exists a, d :: 0 < a && a + 1 < d < |s| - 1 && s[a] == '@' && s[d] == '.'
  }

  /** Two positions holding the same character make it occur twice. */
  lemma {:induction false} TwoOccurrences(s: string, i: int, j: int)
    requires 0 <= i < j < |s| && s[i] == s[j]
    ensures multiset(s)[s[i]] >= 2
  {
    assert s == s[..j] + s[j..];
    assert s[i] == s[..j][i] && s[j] == s[j..][0];
    assert multiset(s) == multiset(s[..j]) + multiset(s[j..]);
  }

  /** A word holds no `@`, so it adds none to the count. */
  lemma NoAtInWord(w: string)
    requires Word(w)
    ensures multiset(w)['@'] == 0
  {
  }

  /** The `@` count of a matching string: one from the separator, none
      from the three words. */
  lemma {:induction false} MatchHasOneAt(s: string, a: int, d: int)
    requires 0 <= a < d < |s| && SplitsAt(s, a, d)
    ensures multiset(s)['@'] == 1
  {
    var l, m, t := s[..a], s[a + 1..d], s[d + 1..];
    NoAtInWord(l);
    NoAtInWord(m);
    NoAtInWord(t);
    var rest := s[a + 1..];
    assert s == l + ['@'] + rest;
    assert rest == m + ['.'] + t;
    assert multiset(rest)['@'] == 0;
    assert multiset(s) == multiset(l) + multiset{'@'} + multiset(rest);
  }

  /** A matching string holds no white space. */
  lemma {:induction false} MatchHasNoWhitespace(s: string, a: int, d: int)
    requires 0 <= a < d < |s| && SplitsAt(s, a, d)
    ensures forall i :: 0 <= i < |s| ==> !IsWhitespace(s[i])
  {
  }

  lemma MatchesIsWellShaped(s: string)
    requires Matches(s)
    ensures WellShaped(s)
  {
    var a, d :| 0 <= a < d < |s| && SplitsAt(s, a, d);
    MatchHasOneAt(s, a, d);
    MatchHasNoWhitespace(s, a, d);
    assert 0 < a && a + 1 < d < |s| - 1;
  }

  /** A slice of class characters with at least one character is a word. */
  lemma SliceIsWord(s: string, lo: int, hi: int)
    requires 0 <= lo < hi <= |s|
    requires forall i :: lo <= i < hi ==> InClass(s[i])
    ensures Word(s[lo..hi])
  {
  }

  lemma WellShapedMatches(s: string)
    requires WellShaped(s)
    ensures Matches(s)
  {
    var a, d :| 0 < a && a + 1 < d < |s| - 1 && s[a] == '@' && s[d] == '.';
    forall i | 0 <= i < |s| && i != a ensures InClass(s[i]) {
      if s[i] == '@' {
        if i < a { TwoOccurrences(s, i, a); } else { TwoOccurrences(s, a, i); }
      }
    }
    SliceIsWord(s, 0, a);
    SliceIsWord(s, a + 1, d);
    SliceIsWord(s, d + 1, |s|);
    assert s[..a] == s[0..a] && s[d + 1..] == s[d + 1..|s|];
    assert SplitsAt(s, a, d);
  }

  /** The regular expression accepts exactly the well-shaped strings. */
  lemma MatchesIffWellShaped(s: string)
    ensures Matches(s) <==> WellShaped(s)
  {
    if Matches(s) { MatchesIsWellShaped(s); }
    if WellShaped(s) { WellShapedMatches(s); }
  }

  /** Any three words around an `@` and a `.` make a match. */
  lemma MatchesFromParts(l: string, m: string, t: string)
    requires Word(l) && Word(m) && Word(t)
    ensures Matches(l + "@" + m + "." + t)
  {
    var s := l + "@" + m + "." + t;
    var a, d := |l|, |l| + 1 + |m|;
    assert s[..a] == l && s[a + 1..d] == m && s[d + 1..] == t;
    assert SplitsAt(s, a, d);
  }

  /** A single white-space character anywhere, leading and trailing
      padding included, makes the test fail. */
  lemma WhitespaceNeverMatches(s: string, i: int)
    requires 0 <= i < |s| && IsWhitespace(s[i])
    ensures !Matches(s)
  {
  }
}
