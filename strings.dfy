/**
 * The JavaScript string operations the core relies on: `trim`, `toLowerCase`, `startsWith`,
 * `includes`, `split`, `join`, number-to-text conversion and global `replace` with a string
 * replacement. Strings are sequences of code points.
 */
module Strings {

  // ---------------------------------------------------------------------------------------------
  // Whitespace and trim
  // ---------------------------------------------------------------------------------------------

  /** ECMAScript WhiteSpace and LineTerminator code points: what `String.prototype.trim` removes. */
  const WHITESPACE: set<char> := {
    '\t', '\n', '\U{000B}', '\U{000C}', '\r', ' ', '\U{00A0}', '\U{1680}',
    '\U{2000}', '\U{2001}', '\U{2002}', '\U{2003}', '\U{2004}', '\U{2005}', '\U{2006}',
    '\U{2007}', '\U{2008}', '\U{2009}', '\U{200A}',
    '\U{2028}', '\U{2029}', '\U{202F}', '\U{205F}', '\U{3000}', '\U{FEFF}' }

  predicate IsWhitespace(c: char) {
    c in WHITESPACE
  }

  predicate AllWhitespace(s: string) {
    forall i :: 0 <= i < |s| ==> IsWhitespace(s[i])
  }

  /** Neither the first nor the last character is whitespace. */
  predicate Trimmed(s: string) {
    |s| == 0 || (!IsWhitespace(s[0]) && !IsWhitespace(s[|s| - 1]))
  }

  /** The index of the first character at or after `i` that is not whitespace, or `|s|`. */
  function SkipWhitespace(s: string, i: nat): (n: nat)
    requires i <= |s|
    ensures i <= n <= |s|
    decreases |s| - i
  {
    if i < |s| && IsWhitespace(s[i]) then SkipWhitespace(s, i + 1) else i
  }

  /** Everything the skip passes over is whitespace, and it stops at a character that is not. */
  lemma {:induction false} SkipWhitespaceSkips(s: string, i: nat)
    requires i <= |s|
    ensures forall k :: i <= k < SkipWhitespace(s, i) ==> IsWhitespace(s[k])
    ensures SkipWhitespace(s, i) < |s| ==> !IsWhitespace(s[SkipWhitespace(s, i)])
    decreases |s| - i
  {
    if i < |s| && IsWhitespace(s[i]) {
      SkipWhitespaceSkips(s, i + 1);
    }
  }

  /** The index just after the last character before `j` and from `lo` on that is not whitespace, or `lo`. */
  function SkipWhitespaceBack(s: string, lo: nat, j: nat): (n: nat)
    requires lo <= j <= |s|
    ensures lo <= n <= j
    decreases j
  {
    if j > lo && IsWhitespace(s[j - 1]) then SkipWhitespaceBack(s, lo, j - 1) else j
  }

  /** Everything the backward skip passes over is whitespace, and it stops after a character that is not. */
  lemma {:induction false} SkipWhitespaceBackSkips(s: string, lo: nat, j: nat)
    requires lo <= j <= |s|
    ensures forall k :: SkipWhitespaceBack(s, lo, j) <= k < j ==> IsWhitespace(s[k])
    ensures SkipWhitespaceBack(s, lo, j) > lo ==> !IsWhitespace(s[SkipWhitespaceBack(s, lo, j) - 1])
    decreases j
  {
    if j > lo && IsWhitespace(s[j - 1]) {
      SkipWhitespaceBackSkips(s, lo, j - 1);
    }
  }

  /**
   * `s.trim()`: the infix of `s` left after dropping leading and trailing whitespace; what is
   * dropped on either side is whitespace only.
   */
  function Trim(s: string): (r: string)
    ensures Trimmed(r) && |r| <= |s|
  {
    var i := SkipWhitespace(s, 0);
    var j := SkipWhitespaceBack(s, i, |s|);
    SkipWhitespaceSkips(s, 0);
    SkipWhitespaceBackSkips(s, i, |s|);
    s[i..j]
  }

  /** The skip stops at the first character that is not whitespace. */
  lemma {:induction false} SkipWhitespaceTo(s: string, i: nat, n: nat)
    requires i <= n <= |s|
    requires forall k :: i <= k < n ==> IsWhitespace(s[k])
    requires n < |s| ==> !IsWhitespace(s[n])
    ensures SkipWhitespace(s, i) == n
    decreases n - i
  {
    if i < n {
      SkipWhitespaceTo(s, i + 1, n);
    }
  }

  /** The backward skip stops after the last character that is not whitespace. */
  lemma {:induction false} SkipWhitespaceBackTo(s: string, lo: nat, j: nat, n: nat)
    requires lo <= n <= j <= |s|
    requires forall k :: n <= k < j ==> IsWhitespace(s[k])
    requires n > lo ==> !IsWhitespace(s[n - 1])
    ensures SkipWhitespaceBack(s, lo, j) == n
    decreases j - n
  {
    if n < j {
      SkipWhitespaceBackTo(s, lo, j - 1, n);
    }
  }

  /** `trim` is the only way to cut a string into whitespace, a trimmed text and whitespace. */
  lemma TrimUnique(s: string, w1: string, r: string, w2: string)
    requires s == w1 + r + w2
    requires AllWhitespace(w1) && AllWhitespace(w2) && Trimmed(r)
    ensures Trim(s) == r
  {
    if |r| > 0 {
      assert s[|w1|] == r[0];
      assert forall k :: 0 <= k < |w1| ==> s[k] == w1[k];
      SkipWhitespaceTo(s, 0, |w1|);
      assert s[|w1| + |r| - 1] == r[|r| - 1];
      assert forall k :: |w1| + |r| <= k < |s| ==> s[k] == w2[k - |w1| - |r|];
      SkipWhitespaceBackTo(s, |w1|, |s|, |w1| + |r|);
      assert s[|w1|..|w1| + |r|] == r;
    } else {
      assert forall k :: 0 <= k < |s| ==> IsWhitespace(s[k]) by {
        assert forall k :: 0 <= k < |w1| ==> s[k] == w1[k];
        assert forall k :: |w1| <= k < |s| ==> s[k] == w2[k - |w1|];
      }
      SkipWhitespaceTo(s, 0, |s|);
    }
  }

  /** The whitespace `trim` drops in front. */
  function LeadingWhitespace(s: string): string {
    s[..SkipWhitespace(s, 0)]
  }

  /** The whitespace `trim` drops at the end. */
  function TrailingWhitespace(s: string): string {
    s[SkipWhitespace(s, 0) + |Trim(s)|..]
  }

  /** A string is its whitespace prefix, its trimmed text and its whitespace suffix. */
  lemma TrimSplit(s: string)
    ensures AllWhitespace(LeadingWhitespace(s)) && AllWhitespace(TrailingWhitespace(s))
    ensures s == LeadingWhitespace(s) + Trim(s) + TrailingWhitespace(s)
  {
    var i := SkipWhitespace(s, 0);
    var j := SkipWhitespaceBack(s, i, |s|);
    SkipWhitespaceSkips(s, 0);
    SkipWhitespaceBackSkips(s, i, |s|);
    assert Trim(s) == s[i..j];
    assert AllWhitespace(s[..i]) && AllWhitespace(s[j..]);
    assert s == s[..i] + s[i..j] + s[j..];
  }

  /** A trimmed string is its own trim. */
  lemma TrimTrimmed(s: string)
    requires Trimmed(s)
    ensures Trim(s) == s
  {
    TrimUnique(s, "", s, "");
  }

  /** Whitespace around a string does not survive `trim`. */
  lemma TrimAround(w1: string, s: string, w2: string)
    requires AllWhitespace(w1) && AllWhitespace(w2)
    ensures Trim(w1 + s + w2) == Trim(s)
  {
    TrimSplit(s);
    var v1, r, v2 := LeadingWhitespace(s), Trim(s), TrailingWhitespace(s);
    AllWhitespaceConcat(w1, v1);
    AllWhitespaceConcat(v2, w2);
    TrimUnique(w1 + s + w2, w1 + v1, r, v2 + w2);
  }

  /** `trim` adds no character: one missing from a string is missing from its trimmed form. */
  lemma TrimKeepsOut(s: string, c: char)
    requires c !in s
    ensures c !in Trim(s)
  {
    TrimSplit(s);
  }

  lemma AllWhitespaceConcat(a: string, b: string)
    requires AllWhitespace(a) && AllWhitespace(b)
    ensures AllWhitespace(a + b)
  {
    assert forall k :: 0 <= k < |a + b| ==> (a + b)[k] == if k < |a| then a[k] else b[k - |a|];
  }

  /** A string trims to nothing exactly when it is all whitespace. */
  lemma TrimEmptyIff(s: string)
    ensures Trim(s) == "" <==> AllWhitespace(s)
  {
    TrimSplit(s);
    var v1, v2 := LeadingWhitespace(s), TrailingWhitespace(s);
    if Trim(s) == "" {
      assert s == v1 + v2;
      AllWhitespaceConcat(v1, v2);
    }
    if AllWhitespace(s) {
      TrimUnique(s, s, "", "");
    }
  }

  /**
   * In front of text that starts and ends with a character that is not whitespace, `trim`
   * keeps that text, and what follows it trims to the trim of the rest.
   */
  lemma TrimAfterTrimmed(p: string, x: string)
    requires |p| > 0 && Trimmed(p)
    ensures |p| <= |Trim(p + x)| && Trim(p + x)[..|p|] == p
    ensures Trim(Trim(p + x)[|p|..]) == Trim(x)
  {
    TrimSplit(x);
    var v1, r, v2 := LeadingWhitespace(x), Trim(x), TrailingWhitespace(x);
    if |r| > 0 {
      TrimBeforeText(p, x, v1, r, v2);
    } else {
      assert x == v1 + v2;
      AllWhitespaceConcat(v1, v2);
      TrimBeforeWhitespace(p, x);
    }
  }

  lemma TrimBeforeText(p: string, x: string, v1: string, r: string, v2: string)
    requires |p| > 0 && Trimmed(p) && |r| > 0 && Trimmed(r)
    requires AllWhitespace(v1) && AllWhitespace(v2) && x == v1 + r + v2
    ensures Trim(p + x) == p + v1 + r
    ensures (p + v1 + r)[..|p|] == p && (p + v1 + r)[|p|..] == v1 + r && Trim(v1 + r) == r
  {
    TrimKeepsFront(p, x, v1, r, v2);
    CutFront(p, v1 + r);
    TrimUnique(v1 + r, v1, r, "");
  }

  lemma TrimKeepsFront(p: string, x: string, v1: string, r: string, v2: string)
    requires |p| > 0 && Trimmed(p) && |r| > 0 && Trimmed(r)
    requires AllWhitespace(v1) && AllWhitespace(v2) && x == v1 + r + v2
    ensures Trim(p + x) == p + v1 + r
  {
    TrimmedEnds(p, v1, r);
    TrimUnique(p + x, "", p + v1 + r, v2);
  }

  lemma CutFront(p: string, y: string)
    ensures (p + y)[..|p|] == p && (p + y)[|p|..] == y
  {
  }

  lemma TrimBeforeWhitespace(p: string, x: string)
    requires |p| > 0 && Trimmed(p) && AllWhitespace(x)
    ensures Trim(p + x) == p && Trim("") == ""
  {
    TrimUnique(p + x, "", p, x);
    TrimUnique("", "", "", "");
  }

  /** Text between two trimmed texts, neither empty, makes a trimmed text. */
  lemma TrimmedEnds(a: string, m: string, b: string)
    requires |a| > 0 && Trimmed(a) && |b| > 0 && Trimmed(b)
    ensures Trimmed(a + m + b)
  {
    var s := a + m + b;
    assert s[0] == a[0] && s[|s| - 1] == b[|b| - 1];
  }

  // ---------------------------------------------------------------------------------------------
  // Case and prefixes
  // ---------------------------------------------------------------------------------------------

  function ToLowerChar(c: char): char {
    if 'A' <= c <= 'Z' then (c as int + 32) as char else c
  }

  /** `s.toLowerCase()` on the ASCII letters; every other character is kept. */
  function ToLower(s: string): (r: string)
    ensures |r| == |s|
    ensures forall i :: 0 <= i < |s| ==> r[i] == ToLowerChar(s[i])
  {
    seq(|s|, i requires 0 <= i < |s| => ToLowerChar(s[i]))
  }

  /** Lower-casing a string lower-cases each of its prefixes. */
  lemma ToLowerPrefix(s: string, p: string)
    requires StartsWith(s, p)
    ensures StartsWith(ToLower(s), ToLower(p))
  {
    assert forall k :: 0 <= k < |p| ==> s[k] == p[k];
  }

  predicate StartsWith(s: string, prefix: string) {
    |prefix| <= |s| && s[..|prefix|] == prefix
  }

  // ---------------------------------------------------------------------------------------------
  // includes
  // ---------------------------------------------------------------------------------------------

  predicate OccursAt(s: string, sub: string, i: nat) {
    i + |sub| <= |s| && s[i..i + |sub|] == sub
  }

  /** `s.includes(sub)`. */
  predicate Contains(s: string, sub: string) {
    exists i: nat | i <= |s| :: OccursAt(s, sub, i)
  }

  /** An occurrence in the second part of a concatenation is an occurrence in the whole. */
  lemma OccursAfter(a: string, b: string, x: string, i: nat)
    ensures OccursAt(b, x, i) <==> OccursAt(a + b, x, |a| + i)
  {
    if i + |x| <= |b| {
      assert (a + b)[|a| + i..|a| + i + |x|] == b[i..i + |x|];
    }
  }

  /** An occurrence that ends inside the first part of a concatenation is one in that part. */
  lemma OccursBefore(a: string, b: string, x: string, i: nat)
    requires i + |x| <= |a|
    ensures OccursAt(a + b, x, i) <==> OccursAt(a, x, i)
  {
    assert (a + b)[i..i + |x|] == a[i..i + |x|];
  }

  lemma ContainsChar(s: string, c: char)
    ensures Contains(s, [c]) <==> c in s
  {
    if c in s {
      var i :| 0 <= i < |s| && s[i] == c;
      assert OccursAt(s, [c], i);
    }
    if Contains(s, [c]) {
      var i: nat :| i <= |s| && OccursAt(s, [c], i);
      assert s[i] == s[i..i + 1][0];
    }
  }

  // ---------------------------------------------------------------------------------------------
  // split and join
  // ---------------------------------------------------------------------------------------------

  /**
   * `s.split(d)` for a non-empty separator: cut at every occurrence of `d`, found left to right,
   * each search resuming after the previous occurrence.
   */
  function Split(s: string, d: string): (parts: seq<string>)
    requires |d| > 0
    ensures |parts| >= 1
    decreases |s|
  {
    if |s| < |d| then [s]
    else if s[..|d|] == d then [""] + Split(s[|d|..], d)
    else
      var rest := Split(s[1..], d);
      [[s[0]] + rest[0]] + rest[1..]
  }

  /** `parts.join(d)`. */
  function Join(parts: seq<string>, d: string): string
    decreases |parts|
  {
    if |parts| == 0 then ""
    else if |parts| == 1 then parts[0]
    else parts[0] + d + Join(parts[1..], d)
  }

  /** Joining the pieces of a split gives back the original string. */
  lemma {:induction false} JoinSplit(s: string, d: string)
    requires |d| > 0
    ensures Join(Split(s, d), d) == s
    decreases |s|
  {
    if |s| < |d| {
    } else if s[..|d|] == d {
      JoinSplit(s[|d|..], d);
      SplitAtSeparator(s, d);
      JoinCons("", Split(s[|d|..], d), d);
      assert s == d + s[|d|..];
    } else {
      JoinSplit(s[1..], d);
      SplitAtOther(s, d);
      JoinGrowFirst(s[0], Split(s[1..], d), d);
      assert s == [s[0]] + s[1..];
    }
  }

  /** Where `d` starts `s`, the split begins with an empty piece. */
  lemma SplitAtSeparator(s: string, d: string)
    requires |d| > 0 && |s| >= |d| && s[..|d|] == d
    ensures Split(s, d) == [""] + Split(s[|d|..], d)
  {
  }

  /** Where `d` does not start `s`, the first character opens the first piece. */
  lemma SplitAtOther(s: string, d: string)
    requires |d| > 0 && |s| >= |d| && s[..|d|] != d
    ensures var rest := Split(s[1..], d);
            Split(s, d) == [[s[0]] + rest[0]] + rest[1..]
  {
  }

  lemma JoinCons(x: string, parts: seq<string>, d: string)
    requires |parts| >= 1
    ensures Join([x] + parts, d) == x + d + Join(parts, d)
  {
    assert ([x] + parts)[1..] == parts;
  }

  lemma JoinGrowFirst(c: char, parts: seq<string>, d: string)
    requires |parts| >= 1
    ensures Join([[c] + parts[0]] + parts[1..], d) == [c] + Join(parts, d)
  {
    var q := [[c] + parts[0]] + parts[1..];
    if |parts| > 1 {
      assert q[1..] == parts[1..];
    }
  }

  /** The last piece of a join of two or more pieces follows the last separator. */
  lemma {:induction false} JoinLast(parts: seq<string>, d: string)
    requires |parts| >= 2
    ensures Join(parts, d) == Join(parts[..|parts| - 1], d) + d + parts[|parts| - 1]
    decreases |parts|
  {
    if |parts| > 2 {
      JoinLast(parts[1..], d);
      assert parts[1..][..|parts| - 2] == parts[1..|parts| - 1];
      assert parts[..|parts| - 1][1..] == parts[1..|parts| - 1];
    } else {
      assert parts[..1] == [parts[0]];
    }
  }

  /** A join of two or more pieces, cut before piece `m`. */
  lemma {:induction false} JoinAt(parts: seq<string>, m: nat, d: string)
    requires 0 < m < |parts|
    ensures Join(parts, d) == Join(parts[..m], d) + d + Join(parts[m..], d)
    decreases m
  {
    if m > 1 {
      JoinAt(parts[1..], m - 1, d);
      assert parts[1..][..m - 1] == parts[..m][1..];
      assert parts[1..][m - 1..] == parts[m..];
    } else {
      assert parts[..1] == [parts[0]];
      assert parts[1..] == parts[m..];
    }
  }

  /** Whitespace pieces joined by whitespace are whitespace. */
  lemma {:induction false} JoinAllWhitespace(parts: seq<string>, d: string)
    requires AllWhitespace(d)
    requires forall k :: 0 <= k < |parts| ==> AllWhitespace(parts[k])
    ensures AllWhitespace(Join(parts, d))
    decreases |parts|
  {
    if |parts| > 1 {
      JoinAllWhitespace(parts[1..], d);
      AllWhitespaceConcat(parts[0], d);
      AllWhitespaceConcat(parts[0] + d, Join(parts[1..], d));
    }
  }

  /** A piece of a split never contains the separator. */
  lemma {:induction false} SplitPiecesFree(s: string, d: string)
    requires |d| > 0
    ensures forall k :: 0 <= k < |Split(s, d)| ==> !Contains(Split(s, d)[k], d)
    decreases |s|
  {
    var parts := Split(s, d);
    if |s| < |d| {
      assert parts == [s];
    } else if s[..|d|] == d {
      SplitPiecesFree(s[|d|..], d);
      var rest := Split(s[|d|..], d);
      assert parts == [""] + rest;
      assert !Contains("", d);
    } else {
      SplitPiecesFree(s[1..], d);
      var rest := Split(s[1..], d);
      var first := [s[0]] + rest[0];
      assert parts == [first] + rest[1..];
      JoinSplit(s[1..], d);
      JoinPrefix(rest, d);
      FirstPieceFree(s, rest[0], d);
      assert forall k :: 1 <= k < |parts| ==> parts[k] == rest[k];
    }
  }

  /** A piece free of `d` after the first character of `s`, where `d` does not start `s`. */
  lemma FirstPieceFree(s: string, x: string, d: string)
    requires |d| > 0 && |s| >= |d| && s[..|d|] != d
    requires StartsWith(s[1..], x) && !Contains(x, d)
    ensures !Contains([s[0]] + x, d)
  {
    var first := [s[0]] + x;
    assert first == s[..|first|];
    forall i: nat | i <= |first|
      ensures !OccursAt(first, d, i)
    {
      if i == 0 {
        if |d| <= |first| {
          assert first[..|d|] == s[..|d|];
        }
      } else {
        OccursAfter([s[0]], x, d, i - 1);
      }
    }
  }

  lemma JoinPrefix(parts: seq<string>, d: string)
    requires |parts| >= 1
    ensures StartsWith(Join(parts, d), parts[0])
  {
  }

  /** A string is split into more than one piece exactly when it contains the separator. */
  lemma {:induction false} SplitSingleIff(s: string, d: string)
    requires |d| > 0
    ensures Split(s, d) == [s] <==> !Contains(s, d)
    ensures |Split(s, d)| > 1 <==> Contains(s, d)
    decreases |s|
  {
    var parts := Split(s, d);
    JoinSplit(s, d);
    SplitPiecesFree(s, d);
    if |parts| == 1 {
      assert Join(parts, d) == parts[0];
      assert parts == [s];
    }
    if !Contains(s, d) && |s| >= |d| {
      assert !OccursAt(s, d, 0);
      if Contains(s[1..], d) {
        var i: nat :| i <= |s[1..]| && OccursAt(s[1..], d, i);
        assert s[i + 1..i + 1 + |d|] == s[1..][i..i + |d|];
        assert OccursAt(s, d, i + 1);
      }
      SplitSingleIff(s[1..], d);
      assert [s[0]] + s[1..] == s;
    }
  }

  /** A line without the one-character separator, then the separator: the line is the first piece. */
  lemma {:induction false} SplitLine(line: string, c: char, rest: string)
    requires c !in line
    ensures Split(line + [c] + rest, [c]) == [line] + Split(rest, [c])
    decreases |line|
  {
    var s := line + [c] + rest;
    if |line| == 0 {
      assert s == [c] + rest;
      assert s[..1] == [c] && s[1..] == rest;
      SplitAtSeparator(s, [c]);
    } else {
      assert s[..1] != [c] by {
        assert s[..1][0] == line[0];
      }
      assert s[1..] == line[1..] + [c] + rest;
      SplitLine(line[1..], c, rest);
      SplitAtOther(s, [c]);
      assert [line[0]] + line[1..] == line;
    }
  }

  /** Splitting a join at a one-character separator that no piece holds gives back the pieces. */
  lemma {:induction false} SplitJoinChar(parts: seq<string>, c: char)
    requires |parts| >= 1
    requires forall k :: 0 <= k < |parts| ==> c !in parts[k]
    ensures Split(Join(parts, [c]), [c]) == parts
    decreases |parts|
  {
    if |parts| == 1 {
      ContainsChar(parts[0], c);
      SplitSingleIff(parts[0], [c]);
    } else {
      SplitJoinChar(parts[1..], c);
      SplitLine(parts[0], c, Join(parts[1..], [c]));
      assert parts == [parts[0]] + parts[1..];
    }
  }

  // ---------------------------------------------------------------------------------------------
  // Numbers as text
  // ---------------------------------------------------------------------------------------------

  predicate IsDigit(c: char) { '0' <= c <= '9' }

  /** The decimal text of a natural number, as template literals print it. */
  function NatToString(n: nat): (r: string)
    ensures |r| >= 1 && (n > 0 ==> r[0] != '0')
    ensures forall i :: 0 <= i < |r| ==> IsDigit(r[i])
  {
    if n < 10 then ["0123456789"[n]]
    else NatToString(n / 10) + ["0123456789"[n % 10]]
  }

  // ---------------------------------------------------------------------------------------------
  // Global replacement with a string replacement value
  // ---------------------------------------------------------------------------------------------

  /**
   * The replacement text for one match of a pattern without capture groups: `$$` stands for
   * `$`, `$&` for the match, `` $` `` for the text before it and `$'` for the text after it;
   * every other character, `$` included, is copied.
   */
  function Expand(v: string, matched: string, before: string, after: string): string
    decreases |v|
  {
    if |v| == 0 then ""
    else if v[0] == '$' && |v| >= 2 && v[1] == '$' then "$" + Expand(v[2..], matched, before, after)
    else if v[0] == '$' && |v| >= 2 && v[1] == '&' then matched + Expand(v[2..], matched, before, after)
    else if v[0] == '$' && |v| >= 2 && v[1] == '`' then before + Expand(v[2..], matched, before, after)
    else if v[0] == '$' && |v| >= 2 && v[1] == '\'' then after + Expand(v[2..], matched, before, after)
    else [v[0]] + Expand(v[1..], matched, before, after)
  }

  /**
   * The scan of `replace` over `rest`, the part of the string after `before`: each occurrence
   * of `t` found left to right is replaced by the expansion of `v`, and the scan resumes after it.
   */
  function ReplaceScan(before: string, rest: string, t: string, v: string): string
    requires |t| > 0
    decreases |rest|
  {
    if |rest| < |t| then rest
    else if rest[..|t|] == t then
      Expand(v, t, before, rest[|t|..]) + ReplaceScan(before + t, rest[|t|..], t, v)
    else [rest[0]] + ReplaceScan(before + [rest[0]], rest[1..], t, v)
  }

  /** `s.replace(/t/g, v)` where the pattern matches the literal text `t`. */
  function ReplaceAll(s: string, t: string, v: string): string
    requires |t| > 0
  {
    ReplaceScan("", s, t, v)
  }

  /** Replacement of every occurrence of `t` by the text `v` taken literally. */
  function ReplaceLiteral(s: string, t: string, v: string): string
    requires |t| > 0
    decreases |s|
  {
    if |s| < |t| then s
    else if s[..|t|] == t then v + ReplaceLiteral(s[|t|..], t, v)
    else [s[0]] + ReplaceLiteral(s[1..], t, v)
  }

  lemma {:induction false} ExpandPlain(v: string, matched: string, before: string, after: string)
    requires '$' !in v
    ensures Expand(v, matched, before, after) == v
    decreases |v|
  {
    if |v| > 0 {
      assert v[0] != '$';
      assert '$' !in v[1..];
      ExpandPlain(v[1..], matched, before, after);
      assert [v[0]] + v[1..] == v;
    }
  }

  /** Without `$` in the replacement value, JavaScript's global replace is literal replacement. */
  lemma ReplaceAllIsLiteral(s: string, t: string, v: string)
    requires |t| > 0 && '$' !in v
    ensures ReplaceAll(s, t, v) == ReplaceLiteral(s, t, v)
  {
    ReplaceScanIsLiteral("", s, t, v);
  }

  lemma {:induction false} ReplaceScanIsLiteral(before: string, rest: string, t: string, v: string)
    requires |t| > 0 && '$' !in v
    ensures ReplaceScan(before, rest, t, v) == ReplaceLiteral(rest, t, v)
    decreases |rest|
  {
    if |rest| >= |t| {
      if rest[..|t|] == t {
        ExpandPlain(v, t, before, rest[|t|..]);
        ReplaceScanIsLiteral(before + t, rest[|t|..], t, v);
      } else {
        ReplaceScanIsLiteral(before + [rest[0]], rest[1..], t, v);
      }
    }
  }

  /** A string in which `t` does not occur is left as it is. */
  lemma {:induction false} ReplaceLiteralAbsent(s: string, t: string, v: string)
    requires |t| > 0 && !Contains(s, t)
    ensures ReplaceLiteral(s, t, v) == s
    decreases |s|
  {
    if |s| >= |t| {
      assert !OccursAt(s, t, 0);
      if Contains(s[1..], t) {
        var i: nat :| i <= |s[1..]| && OccursAt(s[1..], t, i);
        assert s[i + 1..i + 1 + |t|] == s[1..][i..i + |t|];
        assert OccursAt(s, t, i + 1);
      }
      ReplaceLiteralAbsent(s[1..], t, v);
      assert [s[0]] + s[1..] == s;
    }
  }

  /** An occurrence of `t` at the very start is replaced, and the scan resumes after it. */
  lemma ReplaceLiteralMatch(t: string, b: string, v: string)
    requires |t| > 0
    ensures ReplaceLiteral(t + b, t, v) == v + ReplaceLiteral(b, t, v)
  {
    assert (t + b)[..|t|] == t && (t + b)[|t|..] == b;
  }

  /** No occurrence of `t` in `a + b` starts inside `a` and ends inside `b`. */
  predicate NoOccurrenceAcross(a: string, b: string, t: string) {
    forall i: nat :: i < |a| < i + |t| ==> !OccursAt(a + b, t, i)
  }

  /** Dropping a prefix of `a` keeps the property that nothing straddles the seam. */
  lemma NoOccurrenceAcrossDrop(a: string, b: string, t: string, k: nat)
    requires k <= |a| && NoOccurrenceAcross(a, b, t)
    ensures NoOccurrenceAcross(a[k..], b, t)
  {
    assert a[k..] + b == (a + b)[k..];
    forall i: nat | i < |a[k..]| < i + |t|
      ensures !OccursAt(a[k..] + b, t, i)
    {
      assert !OccursAt(a + b, t, i + k);
      if i + |t| <= |a[k..] + b| {
        assert (a[k..] + b)[i..i + |t|] == (a + b)[i + k..i + k + |t|];
      }
    }
  }

  /**
   * Replacement distributes over a concatenation when no occurrence of `t` starts in `a` and
   * ends in `b`.
   */
  lemma {:induction false} ReplaceLiteralConcat(a: string, b: string, t: string, v: string)
    requires |t| > 0
    requires NoOccurrenceAcross(a, b, t)
    ensures ReplaceLiteral(a + b, t, v) == ReplaceLiteral(a, t, v) + ReplaceLiteral(b, t, v)
    decreases |a|
  {
    var s := a + b;
    if |a| == 0 {
      assert s == b;
    } else if |a| < |t| {
      ReplaceLiteralShort(a, b, t, v);
    } else if a[..|t|] == t {
      assert s[..|t|] == t;
      assert s[|t|..] == a[|t|..] + b;
      NoOccurrenceAcrossDrop(a, b, t, |t|);
      ReplaceLiteralConcat(a[|t|..], b, t, v);
    } else {
      assert s[..|t|] == a[..|t|];
      assert s[1..] == a[1..] + b;
      NoOccurrenceAcrossDrop(a, b, t, 1);
      ReplaceLiteralConcat(a[1..], b, t, v);
    }
  }

  /** The case of `ReplaceLiteralConcat` where `a` is shorter than `t` and so is copied whole. */
  lemma {:induction false} ReplaceLiteralShort(a: string, b: string, t: string, v: string)
    requires |t| > 0 && |a| < |t|
    requires NoOccurrenceAcross(a, b, t)
    ensures ReplaceLiteral(a + b, t, v) == a + ReplaceLiteral(b, t, v)
    decreases |a|
  {
    var s := a + b;
    if |a| == 0 {
      assert s == b;
    } else if |s| < |t| {
      assert ReplaceLiteral(b, t, v) == b;
    } else {
      assert !OccursAt(s, t, 0);
      assert s[..|t|] != t;
      assert ReplaceLiteral(s, t, v) == [s[0]] + ReplaceLiteral(s[1..], t, v);
      assert s[1..] == a[1..] + b;
      NoOccurrenceAcrossDrop(a, b, t, 1);
      ReplaceLiteralShort(a[1..], b, t, v);
      assert [s[0]] + a[1..] == a;
    }
  }

  // ---------------------------------------------------------------------------------------------
  // Concatenation of pieces, and texts found in order
  // ---------------------------------------------------------------------------------------------

  /** The pieces written one after another, as a template literal joins its chunks. */
  function Concat(pieces: seq<string>): string
    decreases |pieces|
  {
    if |pieces| == 0 then "" else pieces[0] + Concat(pieces[1..])
  }

  lemma {:induction false} ConcatAppend(a: seq<string>, b: seq<string>)
    ensures Concat(a + b) == Concat(a) + Concat(b)
    decreases |a|
  {
    if |a| > 0 {
      assert (a + b)[1..] == a[1..] + b;
      ConcatAppend(a[1..], b);
    } else {
      assert a + b == b;
    }
  }

  /** The text of the pieces is the text before piece `j`, piece `j`, and the text after it. */
  lemma {:induction false} ConcatAround(pieces: seq<string>, j: nat)
    requires j < |pieces|
    ensures Concat(pieces) == Concat(pieces[..j]) + pieces[j] + Concat(pieces[j + 1..])
  {
    var after := pieces[j..];
    assert pieces == pieces[..j] + after;
    ConcatAppend(pieces[..j], after);
    assert after[0] == pieces[j] && after[1..] == pieces[j + 1..];
    assert Concat(after) == pieces[j] + Concat(pieces[j + 1..]);
  }

  predicate EndsWith(s: string, suffix: string) {
    |suffix| <= |s| && s[|s| - |suffix|..] == suffix
  }

  /** The first piece starts the text of the pieces, and the last two pieces end it. */
  lemma ConcatEnds(pieces: seq<string>)
    requires |pieces| >= 2
    ensures StartsWith(Concat(pieces), pieces[0])
    ensures EndsWith(Concat(pieces), pieces[|pieces| - 1])
    ensures EndsWith(Concat(pieces), pieces[|pieces| - 2] + pieces[|pieces| - 1])
  {
    var n := |pieces|;
    var a, b := pieces[n - 2], pieces[n - 1];
    var s := Concat(pieces);
    assert s[..|pieces[0]|] == pieces[0];
    ConcatLastTwo(pieces);
    EndsWithParts(Concat(pieces[..n - 2]), a, b);
  }

  lemma {:induction false} ConcatLastTwo(pieces: seq<string>)
    requires |pieces| >= 2
    ensures Concat(pieces) == Concat(pieces[..|pieces| - 2]) + pieces[|pieces| - 2] + pieces[|pieces| - 1]
  {
    var n := |pieces|;
    var a, b := pieces[n - 2], pieces[n - 1];
    assert pieces == pieces[..n - 2] + [a, b];
    ConcatAppend(pieces[..n - 2], [a, b]);
    assert Concat([a, b]) == a + Concat([b]);
    assert Concat([b]) == b + Concat([]);
  }

  /** Five texts in a row start with the first two and end with the last two. */
  lemma FiveParts(a: string, b: string, c: string, d: string, e: string)
    ensures StartsWith(a + b + c + d + e, a + b) && EndsWith(a + b + c + d + e, d + e)
  {
    var s := a + b + c + d + e;
    assert s[..|a + b|] == a + b;
    EndsWithParts(a + b + c, d, e);
  }

  lemma EndsWithParts(x: string, a: string, b: string)
    ensures EndsWith(x + a + b, a + b) && EndsWith(x + a + b, b)
  {
    var s := x + a + b;
    assert s[|s| - |a + b|..] == a + b;
    assert s[|s| - |b|..] == b;
  }



  /** A text between two others occurs right after the first. */
  lemma Surrounded(a: string, x: string, b: string)
    ensures StartsWith(a + x + b, a + x)
    ensures OccursAt(a + x + b, x, |a|)
    ensures Contains(a + x + b, x)
  {
    var s := a + x + b;
    assert s[..|a + x|] == a + x;
    assert s[|a|..|a| + |x|] == x;
    assert OccursAt(s, x, |a|);
  }

  /** The texts `parts` occur in `s` one after another, without overlapping, in this order. */
  predicate InOrder(s: string, parts: seq<string>)
    decreases |parts|
  {
    |parts| == 0 ||
    exists i: nat | i + |parts[0]| <= |s| :: OccursAt(s, parts[0], i) && InOrder(s[i + |parts[0]|..], parts[1..])
  }

  /** An occurrence of `x` followed by `parts` in order is `[x] + parts` in order. */
  lemma InOrderCons(s: string, x: string, i: nat, parts: seq<string>)
    requires OccursAt(s, x, i) && InOrder(s[i + |x|..], parts)
    ensures InOrder(s, [x] + parts)
  {
    var all := [x] + parts;
    assert all[0] == x && all[1..] == parts;
  }

  /** Two texts written with others around them occur in order. */
  lemma InOrderBetween(a: string, x: string, b: string, y: string, c: string)
    ensures InOrder(a + x + b + y + c, [x, y])
  {
    var s := a + x + b + y + c;
    var rest := b + y + c;
    Surrounded(b, y, c);
    assert rest[|b| + |y|..] == c;
    InOrderCons(rest, y, |b|, []);
    assert [y] + [] == [y];
    assert s == a + x + rest;
    Surrounded(a, x, rest);
    assert s[|a| + |x|..] == rest;
    InOrderCons(s, x, |a|, [y]);
    assert [x] + [y] == [x, y];
  }

  /** The pieces at increasing positions `at` of `pieces` occur in order in their concatenation. */
  /** Pieces picked at increasing positions occur in order in the text of all pieces. */
  lemma PickedInOrder(pieces: seq<string>, at: seq<nat>, parts: seq<string>)
    requires |at| == |parts|
    requires forall k :: 0 <= k < |at| ==> at[k] < |pieces| && pieces[at[k]] == parts[k]
    requires forall k, l :: 0 <= k < l < |at| ==> at[k] < at[l]
    ensures InOrder(Concat(pieces), parts)
  {
    InOrderPieces(pieces, at);
    assert seq(|at|, k requires 0 <= k < |at| => pieces[at[k]]) == parts;
  }

  lemma {:induction false} InOrderPieces(pieces: seq<string>, at: seq<nat>)
    requires forall k :: 0 <= k < |at| ==> at[k] < |pieces|
    requires forall k, l :: 0 <= k < l < |at| ==> at[k] < at[l]
    ensures InOrder(Concat(pieces), seq(|at|, k requires 0 <= k < |at| => pieces[at[k]]))
    decreases |at|
  {
    var parts := seq(|at|, k requires 0 <= k < |at| => pieces[at[k]]);
    if |at| > 0 {
      var j := at[0];
      var before, after := Concat(pieces[..j]), Concat(pieces[j + 1..]);
      ConcatAround(pieces, j);
      var s := Concat(pieces);
      assert s == before + pieces[j] + after;
      var rest: seq<nat> := seq(|at| - 1, k requires 0 <= k < |at| - 1 => at[k + 1] - (j + 1));
      InOrderPieces(pieces[j + 1..], rest);
      var restParts := seq(|rest|, k requires 0 <= k < |rest| => pieces[j + 1..][rest[k]]);
      assert restParts == parts[1..];
      var i := |before|;
      assert s[i..i + |pieces[j]|] == pieces[j];
      assert s[i + |pieces[j]|..] == after;
      assert OccursAt(s, parts[0], i) && InOrder(s[i + |parts[0]|..], parts[1..]);
    }
  }
}
