/** The string primitives the contact route relies on, with JavaScript's
    meaning: the white-space class shared by `\s` and `String.prototype.trim`,
    `trim`, `Array.prototype.join`, and `filter(Boolean)` on strings.
    `Split` is the inverse of `Join` on one separator character. */
module Text {

  /** JavaScript's WhiteSpace and LineTerminator code points: the set a
      regular expression's `\s` matches and `trim` removes. */
  predicate IsWhitespace(c: char)
  {
    var n := c as int;
    n == 0x09 || n == 0x0A || n == 0x0B || n == 0x0C || n == 0x0D || n == 0x20
    || n == 0xA0 || n == 0x1680 || (0x2000 <= n <= 0x200A)
    || n == 0x2028 || n == 0x2029 || n == 0x202F || n == 0x205F
    || n == 0x3000 || n == 0xFEFF
  }

  predicate AllWhitespace(s: string)
  {
    forall i :: 0 <= i < |s| ==> IsWhitespace(s[i])
  }

  /** Removes leading white space (`trimStart`). */
  function TrimStart(s: string): string
  {
    if |s| > 0 && IsWhitespace(s[0]) then TrimStart(s[1..]) else s
  }

  /** Removes trailing white space (`trimEnd`). */
  function TrimEnd(s: string): string
  {
    if |s| > 0 && IsWhitespace(s[|s| - 1]) then TrimEnd(s[..|s| - 1]) else s
  }

  /** `trimStart` keeps a suffix of `s`: everything cut off is white space
      and what is kept does not start with white space. */
  lemma {:induction false} TrimStartKeepsSuffix(s: string)
    ensures |TrimStart(s)| <= |s| && TrimStart(s) == s[|s| - |TrimStart(s)|..]
    ensures forall i :: 0 <= i < |s| - |TrimStart(s)| ==> IsWhitespace(s[i])
    ensures TrimStart(s) != [] ==> !IsWhitespace(TrimStart(s)[0])
  {
    if |s| > 0 && IsWhitespace(s[0]) {
      TrimStartKeepsSuffix(s[1..]);
      forall i | 1 <= i < |s| - |TrimStart(s)| ensures IsWhitespace(s[i]) {
        assert s[i] == s[1..][i - 1];
      }
    }
  }

  /** `trimEnd` keeps a prefix of `s`: everything cut off is white space
      and what is kept does not end with white space. */
  lemma {:induction false} TrimEndKeepsPrefix(s: string)
    ensures |TrimEnd(s)| <= |s| && TrimEnd(s) == s[..|TrimEnd(s)|]
    ensures forall i :: |TrimEnd(s)| <= i < |s| ==> IsWhitespace(s[i])
    ensures TrimEnd(s) != [] ==> !IsWhitespace(TrimEnd(s)[|TrimEnd(s)| - 1])
  {
    if |s| > 0 && IsWhitespace(s[|s| - 1]) {
      TrimEndKeepsPrefix(s[..|s| - 1]);
    }
  }

  /** `String.prototype.trim`. */
  function Trim(s: string): string
  {
    TrimEnd(TrimStart(s))
  }

  /** How many characters `trim` removes from the front of `s`. */
  function Leading(s: string): int
  {
    |s| - |TrimStart(s)|
  }

  /** `trim` keeps exactly the stretch of `s` from its first to its last
      non-white-space character: it is the slice of `s` starting after the
      leading white space, and everything outside that slice is white space. */
  lemma TrimIsCore(s: string)
    ensures 0 <= Leading(s) && Leading(s) + |Trim(s)| <= |s|
    ensures Trim(s) == s[Leading(s)..Leading(s) + |Trim(s)|]
    ensures forall k :: 0 <= k < Leading(s) ==> IsWhitespace(s[k])
    ensures forall k :: Leading(s) + |Trim(s)| <= k < |s| ==> IsWhitespace(s[k])
    ensures Trim(s) != [] ==> !IsWhitespace(Trim(s)[0]) && !IsWhitespace(Trim(s)[|Trim(s)| - 1])
  {
    var t := TrimStart(s);
    var i := Leading(s);
    var r := Trim(s);
    TrimStartKeepsSuffix(s);
    TrimEndKeepsPrefix(t);
    assert r == t[..|r|];
    assert t == s[i..];
    assert r == s[i..i + |r|];
    forall k | i + |r| <= k < |s| ensures IsWhitespace(s[k]) {
      assert s[k] == t[k - i];
    }
  }

  /** The trimmed length reaches `n` (n >= 1) exactly when two
      non-white-space characters of `s` lie at least `n - 1` positions apart. */
  lemma TrimLengthAtLeast(s: string, n: int)
    requires n >= 1
    ensures |Trim(s)| >= n <==>
      exists i, j :: 0 <= i && i + n - 1 <= j < |s| && !IsWhitespace(s[i]) && !IsWhitespace(s[j])
  {
    TrimIsCore(s);
    var r := Trim(s);
    var a := Leading(s);
    if |r| >= n {
      assert s[a] == r[0] && s[a + |r| - 1] == r[|r| - 1];
    }
    if exists i, j :: 0 <= i && i + n - 1 <= j < |s| && !IsWhitespace(s[i]) && !IsWhitespace(s[j]) {
      var i, j :| 0 <= i && i + n - 1 <= j < |s| && !IsWhitespace(s[i]) && !IsWhitespace(s[j]);
      assert a <= i && j < a + |r|;
    }
  }

  /** Trimming leaves nothing exactly when `s` is all white space. */
  lemma TrimEmptyIff(s: string)
    ensures |Trim(s)| == 0 <==> AllWhitespace(s)
  {
    TrimLengthAtLeast(s, 1);
    if !AllWhitespace(s) {
      var i :| 0 <= i < |s| && !IsWhitespace(s[i]);
      assert i + 1 - 1 <= i;
    }
  }

  /** `parts.join(sep)`. */
  function Join(parts: seq<string>, sep: string): string
  {
    if |parts| == 0 then ""
    else if |parts| == 1 then parts[0]
    else parts[0] + sep + Join(parts[1..], sep)
  }

  /** `s.split(c)` for a one-character separator: the pieces between
      consecutive occurrences of `c`. */
  function Split(s: string, c: char): (r: seq<string>)
    ensures |r| >= 1
  {
    if |s| == 0 then [""]
    else
      var rest := Split(s[1..], c);
      if s[0] == c then [""] + rest else [[s[0]] + rest[0]] + rest[1..]
  }

  /** `filter(Boolean)` on strings: keeps the non-empty ones, in order. */
  function KeepTruthy(xs: seq<string>): (r: seq<string>)
    ensures |r| <= |xs|
    ensures forall i :: 0 <= i < |r| ==> r[i] != "" && r[i] in xs
  {
    if |xs| == 0 then []
    else if xs[0] == "" then KeepTruthy(xs[1..])
    else [xs[0]] + KeepTruthy(xs[1..])
  }

  /** `filter(Boolean)` keeps every non-empty entry as often as it occurs and
      drops every empty one. */
  lemma {:induction false} KeepTruthyCounts(xs: seq<string>)
    ensures multiset(KeepTruthy(xs)) == multiset(xs)["" := 0]
  {
    if |xs| > 0 {
      KeepTruthyCounts(xs[1..]);
      assert xs == [xs[0]] + xs[1..];
    }
  }

  /** `filter(Boolean)` keeps the order: filtering a concatenation is the
      concatenation of the filtered halves, so a kept entry never moves ahead
      of one that came before it. */
  lemma {:induction false} KeepTruthyAppend(xs: seq<string>, ys: seq<string>)
    ensures KeepTruthy(xs + ys) == KeepTruthy(xs) + KeepTruthy(ys)
  {
    if |xs| > 0 {
      KeepTruthyAppend(xs[1..], ys);
      assert (xs + ys)[0] == xs[0] && (xs + ys)[1..] == xs[1..] + ys;
      if xs[0] != "" {
        assert [xs[0]] + KeepTruthy(xs[1..]) + KeepTruthy(ys)
            == [xs[0]] + (KeepTruthy(xs[1..]) + KeepTruthy(ys));
      }
    } else {
      assert xs + ys == ys;
    }
  }

  /** `t` occurs in `s` starting at index `i`. */
  predicate OccursAt(t: string, s: string, i: int)
  {
    0 <= i <= |s| - |t| && s[i..i + |t|] == t
  }

  /** `t` occurs in `s` as a contiguous piece. */
  ghost predicate IsInfix(t: string, s: string)
  {
    exists i :: OccursAt(t, s, i)
  }

  /** Every part of a join occurs in the joined string. */
  lemma {:induction false} JoinContainsPart(parts: seq<string>, sep: string, k: int)
    requires 0 <= k < |parts|
    ensures IsInfix(parts[k], Join(parts, sep))
  {
    var j := Join(parts, sep);
    if |parts| == 1 {
      assert OccursAt(parts[k], j, 0);
    } else if k == 0 {
      assert j == parts[0] + (sep + Join(parts[1..], sep));
      assert OccursAt(parts[0], j, 0);
    } else {
      var tail := Join(parts[1..], sep);
      var off := |parts[0]| + |sep|;
      JoinContainsPart(parts[1..], sep, k - 1);
      var i :| OccursAt(parts[k], tail, i);
      assert j == (parts[0] + sep) + tail;
      assert j[off + i..off + i + |parts[k]|] == tail[i..i + |parts[k]|];
      assert OccursAt(parts[k], j, off + i);
    }
  }

  /** The last part of a join is a suffix of the joined string, right after
      the last separator. */
  lemma {:induction false} JoinEndsWithLast(parts: seq<string>, sep: string)
    requires |parts| >= 2
    ensures Join(parts, sep) == Join(parts[..|parts| - 1], sep) + sep + parts[|parts| - 1]
  {
    if |parts| > 2 {
      JoinEndsWithLast(parts[1..], sep);
      assert parts[1..][..|parts[1..]| - 1] == parts[..|parts| - 1][1..];
      assert parts[1..][|parts[1..]| - 1] == parts[|parts| - 1];
    } else {
      assert parts[..1] == [parts[0]];
    }
  }

  /** Splitting a string that starts with a separator-free piece `p`. */
  lemma {:induction false} SplitAfterPiece(p: string, s: string, c: char)
    requires c !in p
    ensures Split(p + s, c) == [p + Split(s, c)[0]] + Split(s, c)[1..]
  {
    if |p| > 0 {
      SplitAfterPiece(p[1..], s, c);
      assert (p + s)[1..] == p[1..] + s;
      assert [p[0]] + (p[1..] + Split(s, c)[0]) == p + Split(s, c)[0];
    } else {
      assert p + s == s;
      assert p + Split(s, c)[0] == Split(s, c)[0];
      assert Split(s, c) == [Split(s, c)[0]] + Split(s, c)[1..];
    }
  }

  /** Round trip: joining pieces free of `c` with `c` and splitting on `c`
      gives the pieces back. */
  lemma {:induction false} SplitJoin(parts: seq<string>, c: char)
    requires |parts| >= 1
    requires forall i :: 0 <= i < |parts| ==> c !in parts[i]
    ensures Split(Join(parts, [c]), c) == parts
  {
    if |parts| == 1 {
      SplitAfterPiece(parts[0], "", c);
      assert parts[0] + "" == parts[0];
    } else {
      var tail := Join(parts[1..], [c]);
      SplitJoin(parts[1..], c);
      assert Join(parts, [c]) == parts[0] + ([c] + tail);
      SplitAfterPiece(parts[0], [c] + tail, c);
      assert ([c] + tail)[1..] == tail;
      assert Split([c] + tail, c) == [""] + Split(tail, c);
      assert Split([c] + tail, c)[0] == "" && Split([c] + tail, c)[1..] == parts[1..];
      assert parts[0] + "" == parts[0];
      assert parts == [parts[0]] + parts[1..];
    }
  }
}
