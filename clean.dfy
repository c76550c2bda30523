/**
 * The text normalisation of the duet program: the reply cleaner used for
 * the console and the log, the balloon cleaner of the comic view, the
 * log-file topic sanitiser and the colour wrapper for console labels.
 *
 * The three regular expressions are written out as left-to-right scans
 * with the matching rules of Python's `re.sub`: the leftmost match wins,
 * scanning resumes after it, and a failed position emits one character.
 */
module Cleaning {
  import opened PyStr

  // ---------------------------------------------------------------- `\[.*?\]`

  /**
   * Where the bracket opened just before `s` closes: the index of the
   * first `]` in `s`, or -1 when a newline (which `.` does not match)
   * or the end comes first.
   */
  function Close(s: string): (k: int)
    ensures -1 <= k < |s|
    ensures k >= 0 ==> s[k] == ']' && forall m :: 0 <= m < k ==> s[m] != ']' && s[m] != '\n'
    ensures k < 0 ==> forall m :: 0 <= m < |s| && s[m] == ']' ==> exists n :: 0 <= n < m && s[n] == '\n'
  {
    if s == [] then -1
    else if s[0] == ']' then 0
    else if s[0] == '\n' then -1
    else
      var k := Close(s[1..]);
      if k < 0 then (assert forall m :: 1 <= m < |s| ==> s[m] == s[1..][m - 1]; -1) else k + 1
  }

  /** `re.sub(r'\[.*?\]', '', s)`. */
  function DropBrackets(s: string): (r: string)
    ensures |r| <= |s|
    ensures forall c :: c in r ==> c in s
    decreases |s|
  {
    if s == [] then []
    else if s[0] == '[' && Close(s[1..]) >= 0 then
      var rest := s[Close(s[1..]) + 2..];
      assert forall c :: c in rest ==> c in s;
      DropBrackets(rest)
    else
      assert forall c :: c in s[1..] ==> c in s;
      [s[0]] + DropBrackets(s[1..])
  }

  /** No `[` that a `]` closes on the same line. */
  predicate NoBracketPair(r: string) {
    forall i :: 0 <= i < |r| && r[i] == '[' ==> Close(r[i + 1..]) < 0
  }

  /** Text in which no bracket can close stays so once bracketed parts are dropped from it. */
  lemma {:induction false} DropKeepsUnclosed(t: string)
    requires Close(t) < 0
    ensures Close(DropBrackets(t)) < 0
    decreases |t|
  {
    if t != [] {
      assert t[0] != ']';
      if t[0] == '\n' {
        assert DropBrackets(t)[0] == '\n';
      } else {
        assert Close(t[1..]) < 0;
        DropKeepsUnclosed(t[1..]);
        var r := DropBrackets(t);
        assert r == [t[0]] + DropBrackets(t[1..]);
        assert r[1..] == DropBrackets(t[1..]);
      }
    }
  }

  /** After the substitution no bracket pair is left on any one line. */
  lemma {:induction false} DropBracketsLeavesNoPair(s: string)
    ensures NoBracketPair(DropBrackets(s))
    decreases |s|
  {
    if s != [] {
      if s[0] == '[' && Close(s[1..]) >= 0 {
        DropBracketsLeavesNoPair(s[Close(s[1..]) + 2..]);
      } else {
        var tail := DropBrackets(s[1..]);
        DropBracketsLeavesNoPair(s[1..]);
        var r := [s[0]] + tail;
        forall i | 0 <= i < |r| && r[i] == '['
          ensures Close(r[i + 1..]) < 0
        {
          if i == 0 {
            assert r[1..] == tail;
            DropKeepsUnclosed(s[1..]);
          } else {
            assert r[i + 1..] == tail[i..];
            assert tail[i - 1] == '[';
          }
        }
      }
    }
  }

  lemma {:induction false} DropBracketsIdentity(s: string)
    requires '[' !in s
    ensures DropBrackets(s) == s
    decreases |s|
  {
    if s != [] {
      assert '[' !in s[1..];
      DropBracketsIdentity(s[1..]);
    }
  }

  // ---------------------------------------------------------------- runs of a class

  /** Length of the run of ASCII digits that starts `s`. */
  function DigitRun(s: string): (n: nat)
    ensures n <= |s|
    ensures forall i :: 0 <= i < n ==> IsDigit(s[i])
    ensures n < |s| ==> !IsDigit(s[n])
  {
    if s != [] && IsDigit(s[0]) then 1 + DigitRun(s[1..]) else 0
  }

  /** Length of the run of `\w` characters that starts `s`. */
  function WordRun(s: string): (n: nat)
    ensures n <= |s|
    ensures forall i :: 0 <= i < n ==> IsWordChar(s[i])
    ensures n < |s| ==> !IsWordChar(s[n])
  {
    if s != [] && IsWordChar(s[0]) then 1 + WordRun(s[1..]) else 0
  }

  lemma {:induction false} DigitRunAppend(x: string, y: string)
    ensures DigitRun(x + y) == if DigitRun(x) < |x| then DigitRun(x) else |x| + DigitRun(y)
    decreases |x|
  {
    if x != [] {
      assert (x + y)[1..] == x[1..] + y;
      DigitRunAppend(x[1..], y);
    } else {
      assert x + y == y;
    }
  }

  lemma {:induction false} WordRunAppend(x: string, y: string)
    ensures WordRun(x + y) == if WordRun(x) < |x| then WordRun(x) else |x| + WordRun(y)
    decreases |x|
  {
    if x != [] {
      assert (x + y)[1..] == x[1..] + y;
      WordRunAppend(x[1..], y);
    } else {
      assert x + y == y;
    }
  }

  // ---------------------------------------------------------------- `\b\d+-\w+`

  /** `\b` before a digit at `i`: the start of the text, or a non-word character before it. */
  predicate Boundary(s: string, i: nat)
    requires i <= |s|
  {
    i == 0 || !IsWordChar(s[i - 1])
  }

  /** `s[i..m]` is digits up to `d`, a `-` at `d`, then word characters: the shape of `\d+-\w+`. */
  predicate NumberedShape(s: string, i: nat, d: nat, m: nat) {
    i < d && d + 1 < m <= |s| && s[d] == '-'
    && (forall k :: i <= k < d ==> IsDigit(s[k]))
    && (forall k :: d < k < m ==> IsWordChar(s[k]))
  }

  /** A numbered shape fixes the digit run, and its word part is at most the word run after the `-`. */
  lemma NumberedShapeRuns(s: string, i: nat, d: nat, m: nat)
    requires NumberedShape(s, i, d, m)
    ensures i + DigitRun(s[i..]) == d && IsWordChar(s[d + 1])
    ensures m <= d + 1 + WordRun(s[d + 1..])
    ensures m == |s| || !IsWordChar(s[m]) ==> m == d + 1 + WordRun(s[d + 1..])
  {
    assert s[i..][d - i] == s[d];
    assert forall k :: 0 <= k < d - i ==> s[i..][k] == s[i + k];
    var t := s[d + 1..];
    assert forall k :: 0 <= k < m - d - 1 ==> t[k] == s[d + 1 + k];
    assert m < |s| ==> s[d + 1..][m - d - 1] == s[m];
  }

  /**
   * The end of a `\b\d+-\w+` match starting at `i`, or -1. The digits
   * are word characters, so the boundary needs a non-word character
   * (or the start) before `i`; backtracking cannot help, because a
   * shorter digit run is followed by a digit and not by `-`. A match is
   * found whenever one exists, and the word part runs as far as it can.
   */
  function NumberedEnd(s: string, i: nat): (e: int)
    requires i < |s|
    ensures e == -1 || i + 3 <= e <= |s|
    ensures e >= 0 ==> Boundary(s, i) && (e == |s| || !IsWordChar(s[e])) && exists d: nat :: NumberedShape(s, i, d, e)
    ensures Boundary(s, i) ==> forall d: nat, m: nat :: NumberedShape(s, i, d, m) ==> m <= e
  {
    if Boundary(s, i) && IsDigit(s[i]) then
      var d := i + DigitRun(s[i..]);
      if d + 1 < |s| && s[d] == '-' && IsWordChar(s[d + 1]) then
        var e := d + 1 + WordRun(s[d + 1..]);
        assert NumberedShape(s, i, d, e) by {
          forall k | i <= k < d ensures IsDigit(s[k]) { assert s[k] == s[i..][k - i]; }
          forall k | d < k < e ensures IsWordChar(s[k]) { assert s[k] == s[d + 1..][k - d - 1]; }
        }
        assert e < |s| ==> s[e] == s[d + 1..][e - d - 1];
        forall d': nat, m: nat | NumberedShape(s, i, d', m) ensures m <= e { NumberedShapeRuns(s, i, d', m); }
        e
      else
        forall d': nat, m: nat | NumberedShape(s, i, d', m) ensures false { NumberedShapeRuns(s, i, d', m); }
        -1
    else
      assert forall d': nat, m: nat :: NumberedShape(s, i, d', m) ==> IsDigit(s[i]);
      -1
  }

  /** The substitution from position `i` on; the boundary looks at the original text. */
  function DropNumberedFrom(s: string, i: nat): (r: string)
    requires i <= |s|
    ensures |r| <= |s| - i
    ensures forall c :: c in r ==> c in s[i..]
    decreases |s| - i
  {
    if i == |s| then []
    else
      var e := NumberedEnd(s, i);
      if e >= 0 then
        assert forall c :: c in s[e..] ==> c in s[i..] by {
          forall c | c in s[e..] ensures c in s[i..] {
            var k :| 0 <= k < |s[e..]| && s[e..][k] == c;
            assert s[i..][e - i + k] == c;
          }
        }
        DropNumberedFrom(s, e)
      else
        assert forall c :: c in s[i + 1..] ==> c in s[i..] by {
          assert s[i..] == [s[i]] + s[i + 1..];
        }
        [s[i]] + DropNumberedFrom(s, i + 1)
  }

  /** `re.sub(r'\b\d+-\w+', '', s)`. */
  function DropNumbered(s: string): (r: string)
    ensures |r| <= |s|
    ensures forall c :: c in r ==> c in s
  {
    assert s[0..] == s;
    DropNumberedFrom(s, 0)
  }

  lemma {:induction false} DropNumberedFromIdentity(s: string, i: nat)
    requires i <= |s| && '-' !in s[i..]
    ensures DropNumberedFrom(s, i) == s[i..]
    decreases |s| - i
  {
    if i < |s| {
      forall j | i <= j < |s| ensures s[j] != '-' {
        assert s[j] == s[i..][j - i];
      }
      assert NumberedEnd(s, i) < 0;
      assert s[i..] == [s[i]] + s[i + 1..];
      DropNumberedFromIdentity(s, i + 1);
    }
  }

  /** Text that ends in a character that is neither a word character nor `-` (or is empty). */
  predicate EndsClear(p: string, dash: char) {
    p == [] || (!IsWordChar(p[|p| - 1]) && p[|p| - 1] != dash)
  }

  /** A match at `i` inside `p` cannot reach past `p` when `p` ends clear of `-`. */
  lemma NumberedEndPrefix(p: string, x: string, i: nat)
    requires i < |p| && EndsClear(p, '-')
    ensures NumberedEnd(p + x, i) == NumberedEnd(p, i) && NumberedEnd(p, i) < |p|
  {
    var s := p + x;
    assert Boundary(s, i) == Boundary(p, i);
    var e, e' := NumberedEnd(p, i), NumberedEnd(s, i);
    if e >= 0 {
      var d: nat :| NumberedShape(p, i, d, e);
      assert e - 1 > d && p[e - 1] == p[e - 1];
      assert NumberedShape(s, i, d, e);
    }
    if e' >= 0 {
      var d: nat :| NumberedShape(s, i, d, e');
      assert forall k :: 0 <= k < |p| ==> s[k] == p[k];
      assert NumberedShape(p, i, d, e');
      assert s[e'] == p[e'];
    }
  }

  /** Scanning text that ends clear of `-` stays within it. */
  lemma {:induction false} DropNumberedFromPrefix(p: string, x: string, i: nat)
    requires i <= |p| && EndsClear(p, '-')
    ensures DropNumberedFrom(p + x, i) == DropNumberedFrom(p, i) + DropNumberedFrom(p + x, |p|)
    decreases |p| - i
  {
    if i < |p| {
      var e := NumberedEnd(p, i);
      assert NumberedEnd(p + x, i) == e < |p| by { NumberedEndPrefix(p, x, i); }
      if e >= 0 {
        assert DropNumberedFrom(p + x, i) == DropNumberedFrom(p + x, e) by { DropNumberedFromStep(p + x, i); }
        assert DropNumberedFrom(p, i) == DropNumberedFrom(p, e) by { DropNumberedFromStep(p, i); }
        DropNumberedFromPrefix(p, x, e);
      } else {
        assert DropNumberedFrom(p + x, i) == [p[i]] + DropNumberedFrom(p + x, i + 1) by {
          DropNumberedFromStep(p + x, i);
          assert (p + x)[i] == p[i];
        }
        assert DropNumberedFrom(p, i) == [p[i]] + DropNumberedFrom(p, i + 1) by { DropNumberedFromStep(p, i); }
        DropNumberedFromPrefix(p, x, i + 1);
        AppendAssoc([p[i]], DropNumberedFrom(p, i + 1), DropNumberedFrom(p + x, |p|));
      }
    }
  }

  /** After a word character, a match in text that starts with a non-word character is found at the same place. */
  lemma NumberedEndSuffix(y: string, q: string, j: nat)
    requires j < |q| && (q == [] || !IsWordChar(q[0]))
    ensures NumberedEnd(y + q, |y| + j) == if NumberedEnd(q, j) < 0 then -1 else |y| + NumberedEnd(q, j)
  {
    var s := y + q;
    assert s[|y| + j] == q[j];
    if j > 0 {
      assert s[|y| + j - 1] == q[j - 1];
      assert s[|y| + j..] == q[j..];
      var d := j + DigitRun(q[j..]);
      if d + 1 < |q| {
        assert s[|y| + d] == q[d] && s[|y| + d + 1] == q[d + 1];
        assert s[|y| + d + 1..] == q[d + 1..];
      }
    }
  }

  /** After a word character, scanning text that starts with a non-word character is scanning that text alone. */
  lemma {:induction false} DropNumberedFromSuffix(y: string, q: string, j: nat)
    requires j <= |q| && (q == [] || !IsWordChar(q[0]))
    ensures DropNumberedFrom(y + q, |y| + j) == DropNumberedFrom(q, j)
    decreases |q| - j
  {
    var s := y + q;
    if j < |q| {
      var e := NumberedEnd(q, j);
      assert NumberedEnd(s, |y| + j) == if e < 0 then -1 else |y| + e by { NumberedEndSuffix(y, q, j); }
      if e >= 0 {
        assert DropNumberedFrom(s, |y| + j) == DropNumberedFrom(s, |y| + e) by { DropNumberedFromStep(s, |y| + j); }
        assert DropNumberedFrom(q, j) == DropNumberedFrom(q, e) by { DropNumberedFromStep(q, j); }
        DropNumberedFromSuffix(y, q, e);
      } else {
        assert DropNumberedFrom(s, |y| + j) == [q[j]] + DropNumberedFrom(s, |y| + j + 1) by {
          DropNumberedFromStep(s, |y| + j);
          assert s[|y| + j] == q[j];
        }
        assert DropNumberedFrom(q, j) == [q[j]] + DropNumberedFrom(q, j + 1) by { DropNumberedFromStep(q, j); }
        DropNumberedFromSuffix(y, q, j + 1);
      }
    }
  }

  /**
   * A word count like `12-word`, standing between the start or a
   * character that is neither a word character nor `-`, and the end or a
   * non-word character, is removed, and the text on either side is
   * cleaned as if the other were not there.
   */
  lemma DropNumberedRemovesCount(p: string, d: string, w: string, q: string)
    requires EndsClear(p, '-')
    requires d != [] && forall k :: 0 <= k < |d| ==> IsDigit(d[k])
    requires w != [] && forall k :: 0 <= k < |w| ==> IsWordChar(w[k])
    requires q == [] || !IsWordChar(q[0])
    ensures DropNumbered(p + d + "-" + w + q) == DropNumbered(p) + DropNumbered(q)
  {
    var y := p + d + "-" + w;
    var s := y + q;
    PrefixThenRest(p, d, w, q);
    assert NumberedEnd(s, |p|) == |y| by {
      NumberedShapeOf(p, d, w, q);
      NumberedEndAtShape(s, |p|, |p| + |d|, |y|);
    }
    MatchThenSuffix(y, q, |p|);
    DropNumberedIsFrom(s);
    DropNumberedIsFrom(p);
  }

  /** The scan of `p` followed by the rest, when `p` ends clear of `-`. */
  lemma PrefixThenRest(p: string, d: string, w: string, q: string)
    requires EndsClear(p, '-')
    ensures var s := p + d + "-" + w + q; DropNumberedFrom(s, 0) == DropNumberedFrom(p, 0) + DropNumberedFrom(s, |p|)
  {
    var x := d + "-" + w + q;
    ConcatRegroup(p, d, "-", w, q);
    DropNumberedFromPrefix(p, x, 0);
  }

  lemma ConcatRegroup(p: string, a: string, b: string, c: string, q: string)
    ensures p + a + b + c + q == p + (a + b + c + q)
  {
    AppendAssoc(p, a, b);
    AppendAssoc(p, a + b, c);
    AppendAssoc(p, a + b + c, q);
  }

  /** A match from `i` to the end of `y`, followed by text that starts with a non-word character, leaves that text alone. */
  lemma MatchThenSuffix(y: string, q: string, i: nat)
    requires i < |y| && NumberedEnd(y + q, i) == |y| && (q == [] || !IsWordChar(q[0]))
    ensures DropNumberedFrom(y + q, i) == DropNumbered(q)
  {
    DropNumberedFromStep(y + q, i);
    DropNumberedFromSuffix(y, q, 0);
    DropNumberedIsFrom(q);
  }

  /**
   * Why the text before a count must not end in `-`: in `5-1-a` the
   * scan matches `5-1` first, so the count `1-a` is not the one removed.
   */
  lemma CountAfterDash()
    ensures DropNumbered("5-1-a") == "-a" && DropNumbered("5-") == "5-"
  {
    var s := "5-1-a";
    assert NumberedShape(s, 0, 1, 3);
    assert s[3] == '-';
    NumberedEndAtShape(s, 0, 1, 3);
    DropNumberedIsFrom(s);
    DropNumberedFromStep(s, 0);
    assert NumberedEnd(s, 3) == -1;
    assert NumberedEnd(s, 4) == -1;
    DropNumberedFromStep(s, 3);
    DropNumberedFromStep(s, 4);
    var t := "5-";
    assert NumberedEnd(t, 0) == -1;
    assert NumberedEnd(t, 1) == -1;
    DropNumberedIsFrom(t);
    DropNumberedFromStep(t, 0);
    DropNumberedFromStep(t, 1);
  }

  /** Digits, `-` and a word after a clear end and before a non-word character have the numbered shape. */
  lemma NumberedShapeOf(p: string, d: string, w: string, q: string)
    requires EndsClear(p, '-')
    requires d != [] && forall k :: 0 <= k < |d| ==> IsDigit(d[k])
    requires w != [] && forall k :: 0 <= k < |w| ==> IsWordChar(w[k])
    requires q == [] || !IsWordChar(q[0])
    ensures var s, m := p + d + "-" + w + q, |p| + |d| + 1 + |w|;
      NumberedShape(s, |p|, |p| + |d|, m) && Boundary(s, |p|) && (m == |s| || !IsWordChar(s[m]))
  {
    var s := p + d + "-" + w + q;
    var dash, m := |p| + |d|, |p| + |d| + 1 + |w|;
    forall k | |p| <= k < dash ensures IsDigit(s[k]) { assert s[k] == d[k - |p|]; }
    forall k | dash < k < m ensures IsWordChar(s[k]) { assert s[k] == w[k - dash - 1]; }
    assert s[dash] == '-';
    assert m < |s| ==> s[m] == q[0];
    assert |p| > 0 ==> s[|p| - 1] == p[|p| - 1];
  }

  /** A match of the numbered shape after a boundary, ending where the word characters end, is the one found. */
  lemma NumberedEndAtShape(s: string, i: nat, d: nat, m: nat)
    requires NumberedShape(s, i, d, m) && Boundary(s, i) && (m == |s| || !IsWordChar(s[m]))
    ensures NumberedEnd(s, i) == m
  {
    NumberedShapeRuns(s, i, d, m);
  }

  lemma DropNumberedIsFrom(s: string)
    ensures DropNumbered(s) == DropNumberedFrom(s, 0)
  {
  }

  /** One step of the substitution from `i`: drop a match there, or keep the character. */
  lemma DropNumberedFromStep(s: string, i: nat)
    requires i < |s|
    ensures DropNumberedFrom(s, i) == if NumberedEnd(s, i) >= 0 then DropNumberedFrom(s, NumberedEnd(s, i)) else [s[i]] + DropNumberedFrom(s, i + 1)
  {
  }

  // ---------------------------------------------------------------- `\w+\(\d+\)`

  /** `s[..n]` is word characters up to `w`, `(` at `w`, digits, then `)` at `n - 1`: the shape of `\w+\(\d+\)`. */
  predicate CountedShape(s: string, w: nat, n: nat) {
    0 < w && w + 2 < n <= |s| && s[w] == '(' && s[n - 1] == ')'
    && (forall k :: 0 <= k < w ==> IsWordChar(s[k]))
    && (forall k :: w < k < n - 1 ==> IsDigit(s[k]))
  }

  /** A counted shape fixes the word run and the digit run after the `(`. */
  lemma CountedShapeRuns(s: string, w: nat, n: nat)
    requires CountedShape(s, w, n)
    ensures WordRun(s) == w && w + 1 + DigitRun(s[w + 1..]) == n - 1
  {
    assert s[w + 1..][n - w - 2] == s[n - 1];
    var t := s[w + 1..];
    assert forall k :: 0 <= k < n - w - 2 ==> t[k] == s[w + 1 + k];
  }

  /**
   * The length of a `\w+\(\d+\)` match at the start of `s`, or 0. The
   * word run is maximal, since a shorter run is followed by a word
   * character and not by `(`; likewise the digit run. A match is found
   * whenever one exists.
   */
  function CountedLen(s: string): (n: nat)
    ensures n == 0 || 4 <= n <= |s|
    ensures n > 0 ==> exists w: nat :: CountedShape(s, w, n)
    ensures forall w: nat, m: nat :: CountedShape(s, w, m) ==> n == m
  {
    var w := WordRun(s);
    if 0 < w < |s| && s[w] == '(' then
      var d := DigitRun(s[w + 1..]);
      if d > 0 && w + 1 + d < |s| && s[w + 1 + d] == ')' then
        assert CountedShape(s, w, w + d + 2) by {
          forall k | w < k < w + 1 + d ensures IsDigit(s[k]) { assert s[k] == s[w + 1..][k - w - 1]; }
        }
        forall w': nat, m: nat | CountedShape(s, w', m) ensures w + d + 2 == m { CountedShapeRuns(s, w', m); }
        w + d + 2
      else
        forall w': nat, m: nat | CountedShape(s, w', m) ensures false { CountedShapeRuns(s, w', m); }
        0
    else
      forall w': nat, m: nat | CountedShape(s, w', m) ensures false { CountedShapeRuns(s, w', m); }
      0
  }

  /** `re.sub(r'\w+\(\d+\)', '', s)`. */
  function DropCounted(s: string): (r: string)
    ensures |r| <= |s|
    ensures forall c :: c in r ==> c in s
    decreases |s|
  {
    if s == [] then []
    else if CountedLen(s) > 0 then
      assert forall c :: c in s[CountedLen(s)..] ==> c in s;
      DropCounted(s[CountedLen(s)..])
    else
      assert forall c :: c in s[1..] ==> c in s;
      [s[0]] + DropCounted(s[1..])
  }

  lemma {:induction false} DropCountedIdentity(s: string)
    requires '(' !in s
    ensures DropCounted(s) == s
    decreases |s|
  {
    if s != [] {
      var w := WordRun(s);
      assert !(w < |s| && s[w] == '(');
      assert '(' !in s[1..];
      DropCountedIdentity(s[1..]);
    }
  }

  /** A match at the start of text that ends clear of `(` lies within it. */
  lemma CountedLenPrefix(p: string, x: string)
    requires p != [] && EndsClear(p, '(')
    ensures CountedLen(p + x) == CountedLen(p) <= |p|
  {
    var s := p + x;
    var n, n' := CountedLen(p), CountedLen(s);
    if n > 0 {
      var w: nat :| CountedShape(p, w, n);
      assert CountedShape(s, w, n);
    }
    if n' > 0 {
      var w: nat :| CountedShape(s, w, n');
      assert forall k :: 0 <= k < |p| ==> s[k] == p[k];
      assert CountedShape(p, w, n');
    }
  }

  /** One step of the substitution: drop a match at the start, or keep the first character. */
  lemma DropCountedStep(s: string)
    requires s != []
    ensures DropCounted(s) == if CountedLen(s) > 0 then DropCounted(s[CountedLen(s)..]) else [s[0]] + DropCounted(s[1..])
  {
  }

  /** A suffix of text that ends clear of `(` ends clear of it too. */
  lemma EndsClearSuffix(p: string, n: nat, c: char)
    requires n <= |p| && EndsClear(p, c)
    ensures EndsClear(p[n..], c)
  {
    if n < |p| {
      assert p[n..][|p| - n - 1] == p[|p| - 1];
    }
  }

  /** Text that ends clear of `(` is cleaned on its own, whatever follows it. */
  lemma {:induction false} DropCountedPrefix(p: string, x: string)
    requires EndsClear(p, '(')
    ensures DropCounted(p + x) == DropCounted(p) + DropCounted(x)
    decreases |p|
  {
    if p == [] {
      assert p + x == x;
    } else {
      var n := if CountedLen(p) > 0 then CountedLen(p) else 1;
      var rest := p[n..];
      assert DropCounted(rest + x) == DropCounted(rest) + DropCounted(x) by {
        EndsClearSuffix(p, n, '(');
        DropCountedPrefix(rest, x);
      }
      if CountedLen(p) == 0 {
        assert DropCounted(p + x) == [p[0]] + DropCounted(rest + x) by {
          CountedLenPrefix(p, x);
          DropCountedStep(p + x);
          SuffixOfAppend(p, x, 1);
          assert (p + x)[0] == p[0];
        }
        assert DropCounted(p) == [p[0]] + DropCounted(rest) by {
          DropCountedStep(p);
        }
        AppendAssoc([p[0]], DropCounted(rest), DropCounted(x));
      } else {
        assert DropCounted(p + x) == DropCounted(rest + x) by {
          CountedLenPrefix(p, x);
          DropCountedStep(p + x);
          SuffixOfAppend(p, x, n);
        }
        assert DropCounted(p) == DropCounted(rest) by {
          DropCountedStep(p);
        }
      }
    }
  }

  /**
   * A word count like `word(3)`, after the start or a character that is
   * neither a word character nor `(`, is removed, and the text on either
   * side is cleaned as if the other were not there.
   */
  lemma DropCountedRemovesCount(p: string, w: string, d: string, q: string)
    requires EndsClear(p, '(')
    requires w != [] && forall k :: 0 <= k < |w| ==> IsWordChar(w[k])
    requires d != [] && forall k :: 0 <= k < |d| ==> IsDigit(d[k])
    ensures DropCounted(p + w + "(" + d + ")" + q) == DropCounted(p) + DropCounted(q)
  {
    var c := w + "(" + d + ")";
    assert p + w + "(" + d + ")" + q == p + (c + q);
    DropCountedPrefix(p, c + q);
    CountedShapeOf(w, d, q);
    DropCountedStep(c + q);
    SuffixOfAppend(c, q, |c|);
    assert c[|c|..] + q == q;
  }

  /** A word, `(`, digits and `)` make a counted shape. */
  lemma CountedShapeOf(w: string, d: string, q: string)
    requires w != [] && forall k :: 0 <= k < |w| ==> IsWordChar(w[k])
    requires d != [] && forall k :: 0 <= k < |d| ==> IsDigit(d[k])
    ensures CountedShape(w + "(" + d + ")" + q, |w|, |w| + |d| + 2)
  {
    var t := w + "(" + d + ")" + q;
    forall k | 0 <= k < |w| ensures IsWordChar(t[k]) { assert t[k] == w[k]; }
    forall k | |w| < k < |w| + |d| + 1 ensures IsDigit(t[k]) { assert t[k] == d[k - |w| - 1]; }
    assert t[|w|] == '(' && t[|w| + |d| + 1] == ')';
  }

  // ---------------------------------------------------------------- whitespace

  /** `' '.join(s.split())`. */
  function Squash(s: string): (r: string)
    ensures SingleSpaced(r)
    ensures Words(r) == Words(s)
  {
    SingleSpacedJoin(Words(s));
    WordsOfJoin(' ', Words(s));
    Join(" ", Words(s))
  }

  lemma SingleSpacedIsStripped(s: string)
    requires SingleSpaced(s)
    ensures IsStripped(s)
  {
    if s != [] {
      assert !IsSpace(s[0]);
      assert !IsSpace(s[|s| - 1]);
    }
  }

  /** Single-spaced text has no whitespace other than the space: no newline, no tab. */
  predicate OneLine(s: string) {
    IsStripped(s) && forall i :: 0 <= i < |s| && IsSpace(s[i]) ==> s[i] == ' '
  }

  lemma SingleSpacedIsOneLine(s: string)
    requires SingleSpaced(s)
    ensures OneLine(s) && '\n' !in s && '\t' !in s
  {
    SingleSpacedIsStripped(s);
  }

  // ---------------------------------------------------------------- the two cleaners

  /** `clean_response`: brackets, then numbered words, then counted words, then whitespace. */
  function CleanResponse(text: string): (r: string)
    ensures SingleSpaced(r) && OneLine(r)
  {
    var s := Squash(DropCounted(DropNumbered(DropBrackets(text))));
    SingleSpacedIsOneLine(s);
    Strip(s)
  }

  /** The cleaned reply's words are those left after the three substitutions, in order. */
  lemma CleanResponseWords(text: string)
    ensures Words(CleanResponse(text)) == Words(DropCounted(DropNumbered(DropBrackets(text))))
  {
    SquashIdentity(Squash(DropCounted(DropNumbered(DropBrackets(text)))));
  }

  /** `ComicVisualizer._clean_text`: brackets, then whitespace. */
  function CleanText(text: string): (r: string)
    ensures SingleSpaced(r) && OneLine(r)
  {
    var s := Squash(DropBrackets(text));
    SingleSpacedIsOneLine(s);
    Strip(s)
  }

  lemma SquashIdentity(s: string)
    requires SingleSpaced(s)
    ensures Squash(s) == s && Strip(s) == s
  {
    JoinWordsOfSingleSpaced(s);
    SingleSpacedIsStripped(s);
  }

  /** Text that is already single-spaced and has no `[`, `-` or `(` is left as it is. */
  lemma CleanResponseIdentity(t: string)
    requires SingleSpaced(t) && '[' !in t && '-' !in t && '(' !in t
    ensures CleanResponse(t) == t
  {
    DropBracketsIdentity(t);
    assert t[0..] == t;
    DropNumberedFromIdentity(t, 0);
    DropCountedIdentity(t);
    SquashIdentity(t);
  }

  /**
   * In a reply without brackets or parentheses, a word count like
   * `12-word` between clear ends is dropped: the cleaned words are those
   * of the text before it followed by those of the text after it, each
   * cleaned of its own counts.
   */
  lemma CleanResponseDropsCount(p: string, d: string, w: string, q: string)
    requires '[' !in p + d + "-" + w + q && '(' !in p + d + "-" + w + q
    requires EndsClear(p, '-')
    requires d != [] && forall k :: 0 <= k < |d| ==> IsDigit(d[k])
    requires w != [] && forall k :: 0 <= k < |w| ==> IsWordChar(w[k])
    requires q == [] || !IsWordChar(q[0])
    ensures Words(CleanResponse(p + d + "-" + w + q)) == Words(DropNumbered(p) + DropNumbered(q))
  {
    var s := p + d + "-" + w + q;
    DropBracketsIdentity(s);
    DropNumberedRemovesCount(p, d, w, q);
    DropCountedIdentity(DropNumbered(s));
    CleanResponseWords(s);
  }

  /** The balloon cleaner leaves single-spaced text without `[` as it is. */
  lemma CleanTextIdentity(t: string)
    requires SingleSpaced(t) && '[' !in t
    ensures CleanText(t) == t
  {
    DropBracketsIdentity(t);
    SquashIdentity(t);
  }

  lemma {:induction false} WordsChars(s: string)
    ensures forall k, c :: 0 <= k < |Words(s)| && c in Words(s)[k] ==> c in s
    decreases |s|
  {
    var t := LStrip(s);
    if t != [] {
      var n := TokenLen(t);
      WordsChars(t[n..]);
      assert Words(s) == [t[..n]] + Words(t[n..]);
      forall k, c | 0 <= k < |Words(s)| && c in Words(s)[k] ensures c in s {
        if k == 0 {
          assert c in t;
        } else {
          assert Words(s)[k] == Words(t[n..])[k - 1];
          assert c in t[n..];
        }
        assert c in t;
      }
    }
  }

  lemma {:induction false} JoinChars(ws: seq<string>)
    ensures forall c :: c in Join(" ", ws) ==> c == ' ' || exists k :: 0 <= k < |ws| && c in ws[k]
    decreases |ws|
  {
    if |ws| > 1 {
      JoinChars(ws[1..]);
      forall c | c in Join(" ", ws) ensures c == ' ' || exists k :: 0 <= k < |ws| && c in ws[k] {
        if c in Join(" ", ws[1..]) && c != ' ' {
          var k :| 0 <= k < |ws[1..]| && c in ws[1..][k];
          assert c in ws[k + 1];
        } else if c != ' ' {
          assert c in ws[0];
        }
      }
    } else if |ws| == 1 {
      assert Join(" ", ws) == ws[0];
    }
  }

  lemma SquashChars(s: string)
    ensures forall c :: c in Squash(s) ==> c == ' ' || c in s
  {
    JoinChars(Words(s));
    WordsChars(s);
  }

  /** Cleaning only removes text: every character it returns, other than the space, was in the reply. */
  lemma CleanResponseOnlyRemoves(t: string)
    ensures forall c :: c in CleanResponse(t) ==> c == ' ' || c in t
  {
    var s := DropCounted(DropNumbered(DropBrackets(t)));
    SquashChars(s);
    SingleSpacedIsStripped(Squash(s));
  }

  lemma SquashTwoWords(x: string, y: string, c: char)
    requires IsToken(x) && IsToken(y) && IsSpace(c)
    ensures Squash(x + [c] + y) == x + " " + y
  {
    WordsAround(x, c, y);
    WordsOfToken(x);
    WordsOfToken(y);
    var ws := Words(x + [c] + y);
    assert ws == [x] + [y];
    JoinCons(" ", x, [y]);
  }

  lemma SplitPairKept()
    ensures DropBrackets("[a\nb]") == "[a\nb]"
  {
    var t := "[a\nb]";
    assert Close("a\nb]") == -1 by {
      assert "a\nb]"[1..] == "\nb]";
    }
    assert t[1..] == "a\nb]";
    assert DropBrackets(t) == [t[0]] + DropBrackets(t[1..]);
    DropBracketsIdentity(t[1..]);
  }

  lemma PairTokens()
    ensures IsToken("[a") && IsToken("b]") && IsSpace('\n')
    ensures "[a" + " " + "b]" == "[a b]"
  {
  }

  lemma SplitPairSquashed()
    ensures Squash("[a" + ['\n'] + "b]") == "[a b]"
  {
    PairTokens();
    SquashTwoWords("[a", "b]", '\n');
  }

  lemma CleanSplitPair()
    ensures CleanResponse("[a\nb]") == "[a b]"
  {
    var t := "[a\nb]";
    assert t == "[a" + ['\n'] + "b]";
    SplitPairKept();
    assert '-' !in t[0..];
    DropNumberedFromIdentity(t, 0);
    assert DropNumbered(t) == t;
    DropCountedIdentity(t);
    SplitPairSquashed();
    SingleSpacedIsStripped("[a b]");
  }

  lemma CleanPair()
    ensures CleanResponse("[a b]") == ""
  {
    var t := "[a b]";
    assert Close("a b]") == 3 by {
      assert "a b]"[1..] == " b]";
      assert " b]"[1..] == "b]";
      assert "b]"[1..] == "]";
    }
    assert t[1..] == "a b]";
    assert t[5..] == "";
    assert DropBrackets(t) == "";
    assert DropNumbered("") == "";
    assert Words("") == [];
  }

  /**
   * The substitutions work line by line but `split` joins lines, so
   * cleaning twice can remove more: a bracket pair split by a newline
   * survives once and is dropped the second time.
   */
  lemma CleaningTwiceDiffers()
    ensures CleanResponse("[a\nb]") == "[a b]"
    ensures CleanResponse(CleanResponse("[a\nb]")) == ""
  {
    CleanSplitPair();
    CleanPair();
  }

  // ---------------------------------------------------------------- log file name

  /** The characters `safe_topic` keeps. */
  predicate KeptChar(c: char) { IsAlnum(c) || c == ' ' || c == '-' || c == '_' }

  /** Characters of a safe topic. */
  predicate SafeChar(c: char) { IsAlnum(c) || c == '-' || c == '_' }

  function Keep(s: string): (r: string)
    ensures |r| <= |s|
    ensures forall i :: 0 <= i < |r| ==> KeptChar(r[i])
    ensures forall c :: c in r ==> c in s
    ensures (forall i :: 0 <= i < |s| ==> KeptChar(s[i])) ==> r == s
  {
    if s == [] then []
    else if KeptChar(s[0]) then [s[0]] + Keep(s[1..])
    else Keep(s[1..])
  }

  /** The default when nothing of the topic survives. */
  const DefaultTopic := "conversation"

  /** The topic part of a log file name: at most 40 safe characters, never empty. */
  function SafeTopic(topic: string): (r: string)
    ensures 0 < |r| <= 40
    ensures forall i :: 0 <= i < |r| ==> SafeChar(r[i])
  {
    var kept := Strip(Keep(Head40(topic)));
    var safe := ReplaceChar(kept, ' ', '_');
    forall i | 0 <= i < |safe| ensures SafeChar(safe[i]) {
      StripChars(Keep(Head40(topic)));
      assert kept[i] in Keep(Head40(topic));
    }
    if safe == "" then DefaultTopic else safe
  }

  /** The first 40 characters, as `topic[:40]` takes them. */
  function Head40(topic: string): (h: string)
    ensures |h| <= 40 && |h| <= |topic| && h == topic[..|h|]
    ensures |topic| <= 40 ==> h == topic
  {
    topic[..if |topic| < 40 then |topic| else 40]
  }

  lemma {:induction false} KeepHas(s: string, i: nat)
    requires i < |s| && KeptChar(s[i])
    ensures s[i] in Keep(s)
    decreases |s|
  {
    if i > 0 {
      assert s[1..][i - 1] == s[i];
      KeepHas(s[1..], i - 1);
    }
  }

  /** Every letter, digit, `-` and `_` among the first 40 characters survives. */
  lemma SafeTopicKeeps(topic: string, i: nat)
    requires i < |topic| && i < 40 && SafeChar(topic[i])
    ensures topic[i] in SafeTopic(topic)
  {
    var h := Head40(topic);
    assert h[i] == topic[i];
    KeepHas(h, i);
    var k := Keep(h);
    var j :| 0 <= j < |k| && k[j] == topic[i];
    StripKeepsNonSpace(k, j);
    var kept := Strip(k);
    var m :| 0 <= m < |kept| && kept[m] == topic[i];
    assert ReplaceChar(kept, ' ', '_')[m] == topic[i];
  }

  /** With no letter, digit, `-` or `_` among the first 40 characters the default is used. */
  lemma SafeTopicDefault(topic: string)
    requires forall i :: 0 <= i < |topic| && i < 40 ==> !SafeChar(topic[i])
    ensures SafeTopic(topic) == DefaultTopic
  {
    var k := Keep(Head40(topic));
    assert forall j :: 0 <= j < |k| ==> k[j] == ' ' by {
      forall j | 0 <= j < |k| ensures k[j] == ' ' {
        var c := k[j];
        assert c in Head40(topic);
      }
    }
  }

  lemma SafeTopicIdentity(topic: string)
    requires 0 < |topic| <= 40 && forall i :: 0 <= i < |topic| ==> SafeChar(topic[i])
    ensures SafeTopic(topic) == topic
  {
    var k := Keep(topic);
    assert k == topic;
    assert IsStripped(topic);
    assert ReplaceChar(topic, ' ', '_') == topic;
  }

  /** `create_log_file`'s path: the explicit path when one is given, else a timestamped file under `logs/`. */
  function LogPath(timestamp: string, topic: string, explicitPath: string): (path: string)
    ensures explicitPath != "" ==> path == explicitPath
    ensures explicitPath == "" ==>
      var t := SafeTopic(topic);
      |path| == |timestamp| + |t| + 9 && path[..5] == "logs/" && path[|path| - 3..] == ".md"
      && path[5..5 + |timestamp|] == timestamp && path[5 + |timestamp|] == '_'
      && path[6 + |timestamp|..|path| - 3] == t
  {
    if explicitPath != "" then explicitPath else "logs/" + timestamp + "_" + SafeTopic(topic) + ".md"
  }

  // ---------------------------------------------------------------- console colour

  const Blue := "\U{1B}[94m"
  const Magenta := "\U{1B}[95m"
  const Green := "\U{1B}[92m"
  const Cyan := "\U{1B}[96m"
  const Yellow := "\U{1B}[93m"
  const Reset := "\U{1B}[0m"

  /** `cwrap`: the text between the colour code and the reset code, or the bare text without colour. */
  function CWrap(text: string, color: string, useColor: bool): (r: string)
    ensures !useColor ==> r == text
    ensures useColor ==>
      && |r| == |color| + |text| + |Reset|
      && r[..|color|] == color && r[|color|..|color| + |text|] == text && r[|r| - |Reset|..] == Reset
  {
    if !useColor then text else color + text + Reset
  }
}
