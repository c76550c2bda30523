/**
 * The parts of Python's `str` semantics that the program relies on, over `seq<char>`:
 * whitespace and line-break classes, `lower`, `strip`, `split()`, `join`,
 * `splitlines`, `startswith`, `replace` of one character, `find` and `rfind`.
 * Case mapping is ASCII only; letter and digit classes are ASCII only.
 */
module PyStr {

  /** Characters for which `str.isspace()` holds; `str.split()` and `str.strip()` use this set. */
  predicate IsSpace(c: char) {
    c == ' ' || '\t' <= c <= '\r' || '\U{1C}' <= c <= '\U{1F}' || c == '\U{85}' || c == '\U{A0}'
    || c == '\U{1680}' || '\U{2000}' <= c <= '\U{200A}' || c == '\U{2028}' || c == '\U{2029}'
    || c == '\U{202F}' || c == '\U{205F}' || c == '\U{3000}'
  }

  /** Characters at which `str.splitlines()` ends a line (`\r\n` counts as one break). */
  predicate IsLineBreak(c: char) {
    '\n' <= c <= '\r' || '\U{1C}' <= c <= '\U{1E}' || c == '\U{85}' || c == '\U{2028}' || c == '\U{2029}'
  }

  predicate IsDigit(c: char) { '0' <= c <= '9' }

  predicate IsAlnum(c: char) { 'a' <= c <= 'z' || 'A' <= c <= 'Z' || IsDigit(c) }

  /** The regular-expression class `\w`. */
  predicate IsWordChar(c: char) { IsAlnum(c) || c == '_' }

  predicate NoLineBreak(s: string) { forall i :: 0 <= i < |s| ==> !IsLineBreak(s[i]) }

  // ---------------------------------------------------------------- lower

  function LowerChar(c: char): char {
    if 'A' <= c <= 'Z' then (c as int + 32) as char else c
  }

  function Lower(s: string): (r: string)
    ensures |r| == |s|
    ensures forall i :: 0 <= i < |s| ==> r[i] == LowerChar(s[i])
  {
    seq(|s|, i requires 0 <= i < |s| => LowerChar(s[i]))
  }

  lemma LowerAppend(a: string, b: string)
    ensures Lower(a + b) == Lower(a) + Lower(b)
  {
    assert forall i :: 0 <= i < |a + b| ==> Lower(a + b)[i] == (Lower(a) + Lower(b))[i];
  }

  predicate StartsWith(s: string, prefix: string) {
    |prefix| <= |s| && s[..|prefix|] == prefix
  }

  // ---------------------------------------------------------------- strip

  /** Length of the run of whitespace that starts `s`. */
  function LeadingSpaces(s: string): (n: nat)
    ensures n <= |s|
    ensures forall i :: 0 <= i < n ==> IsSpace(s[i])
    ensures n < |s| ==> !IsSpace(s[n])
  {
    if s != [] && IsSpace(s[0]) then 1 + LeadingSpaces(s[1..]) else 0
  }

  /** Length of the run of whitespace that ends `s`. */
  function TrailingSpaces(s: string): (n: nat)
    ensures n <= |s|
    ensures forall i :: |s| - n <= i < |s| ==> IsSpace(s[i])
    ensures n < |s| ==> !IsSpace(s[|s| - 1 - n])
  {
    if s != [] && IsSpace(s[|s| - 1]) then 1 + TrailingSpaces(s[..|s| - 1]) else 0
  }

  function LStrip(s: string): string {
    s[LeadingSpaces(s)..]
  }

  function RStrip(s: string): string {
    s[..|s| - TrailingSpaces(s)]
  }

  /** No whitespace at either end. */
  predicate IsStripped(s: string) {
    s == [] || (!IsSpace(s[0]) && !IsSpace(s[|s| - 1]))
  }

  /** `str.strip()`: the longest infix of `s` without whitespace at either end. */
  function Strip(s: string): (r: string)
    ensures IsStripped(r)
    ensures LeadingSpaces(s) + |r| <= |s| && r == s[LeadingSpaces(s)..LeadingSpaces(s) + |r|]
    ensures IsStripped(s) ==> r == s
  {
    RStrip(LStrip(s))
  }

  lemma StripChars(s: string)
    ensures forall c :: c in Strip(s) ==> c in s
  {
    var a := LeadingSpaces(s);
    var r := Strip(s);
    forall c | c in r ensures c in s {
      var i :| 0 <= i < |r| && r[i] == c;
      assert s[a + i] == c;
    }
  }

  lemma StripKeepsNonSpace(s: string, i: nat)
    requires i < |s| && !IsSpace(s[i])
    ensures s[i] in Strip(s)
  {
    var a := LeadingSpaces(s);
    var t := LStrip(s);
    var m := TrailingSpaces(t);
    assert a <= i;
    assert t[i - a] == s[i];
    assert i - a < |t| - m;
    assert Strip(s)[i - a] == s[i];
  }

  /** Stripping text that continues past its first part with a non-space keeps that part. */
  lemma RStripKeepsPrefix(x: string, y: string)
    requires exists i :: 0 <= i < |y| && !IsSpace(y[i])
    ensures RStrip(x + y) == x + RStrip(y)
  {
    var m := TrailingSpaces(y);
    var i :| 0 <= i < |y| && !IsSpace(y[i]);
    assert m < |y|;
    TrailingSpacesAppend(x, y);
    assert (x + y)[..|x + y| - m] == x + y[..|y| - m];
  }

  lemma {:induction false} TrailingSpacesAppend(x: string, y: string)
    requires TrailingSpaces(y) < |y|
    ensures TrailingSpaces(x + y) == TrailingSpaces(y)
    decreases |y|
  {
    if IsSpace(y[|y| - 1]) {
      assert (x + y)[..|x + y| - 1] == x + y[..|y| - 1];
      TrailingSpacesAppend(x, y[..|y| - 1]);
    }
  }

  lemma {:induction false} LeadingSpacesAppend(x: string, y: string)
    ensures LeadingSpaces(x + y) == if LeadingSpaces(x) < |x| then LeadingSpaces(x) else |x| + LeadingSpaces(y)
  {
    if x != [] {
      assert (x + y)[1..] == x[1..] + y;
      LeadingSpacesAppend(x[1..], y);
    } else {
      assert x + y == y;
    }
  }

  // ---------------------------------------------------------------- split

  /** A word as `str.split()` yields it: non-empty, without whitespace. */
  predicate IsToken(w: string) {
    w != [] && forall i :: 0 <= i < |w| ==> !IsSpace(w[i])
  }

  /** Length of the run of non-whitespace that starts `s`. */
  function TokenLen(s: string): (n: nat)
    ensures n <= |s|
    ensures forall i :: 0 <= i < n ==> !IsSpace(s[i])
    ensures n < |s| ==> IsSpace(s[n])
  {
    if s != [] && !IsSpace(s[0]) then 1 + TokenLen(s[1..]) else 0
  }

  lemma {:induction false} TokenLenAppend(x: string, y: string)
    ensures TokenLen(x + y) == if TokenLen(x) < |x| then TokenLen(x) else |x| + TokenLen(y)
  {
    if x != [] {
      assert (x + y)[1..] == x[1..] + y;
      TokenLenAppend(x[1..], y);
    } else {
      assert x + y == y;
    }
  }

  /** `str.split()` with no separator: the maximal runs of non-whitespace, in order. */
  function Words(s: string): (ws: seq<string>)
    ensures forall i :: 0 <= i < |ws| ==> IsToken(ws[i])
    decreases |s|
  {
    var t := LStrip(s);
    if t == [] then []
    else
      var n := TokenLen(t);
      [t[..n]] + Words(t[n..])
  }

  /** `sep.join(parts)`. */
  function Join(sep: string, parts: seq<string>): string {
    if parts == [] then ""
    else if |parts| == 1 then parts[0]
    else parts[0] + sep + Join(sep, parts[1..])
  }

  lemma JoinCons(sep: string, w: string, rest: seq<string>)
    requires rest != []
    ensures Join(sep, [w] + rest) == w + sep + Join(sep, rest)
  {
    assert ([w] + rest)[1..] == rest;
  }

  lemma WordsOfLeadingSpace(c: char, s: string)
    requires IsSpace(c)
    ensures Words([c] + s) == Words(s)
  {
    LeadingSpacesAppend([c], s);
    assert LStrip([c] + s) == LStrip(s);
  }

  /** One step of `Words` on text that starts with a token. */
  lemma WordsUnfold(t: string)
    requires t != [] && !IsSpace(t[0])
    ensures Words(t) == [t[..TokenLen(t)]] + Words(t[TokenLen(t)..])
  {
    assert LeadingSpaces(t) == 0;
    assert LStrip(t) == t;
  }

  lemma WordsOfLStrip(s: string)
    ensures Words(s) == Words(LStrip(s))
  {
    var t := LStrip(s);
    assert LeadingSpaces(t) == 0 by {
      if t != [] { assert !IsSpace(t[0]); }
    }
    assert LStrip(t) == t;
  }

  lemma WordsOfToken(w: string)
    requires IsToken(w)
    ensures Words(w) == [w]
  {
    WordsStep(w, []);
    assert w + [] == w;
    assert Words([]) == [];
  }

  lemma AppendAssoc<T>(x: seq<T>, y: seq<T>, z: seq<T>)
    ensures x + (y + z) == (x + y) + z
  {
  }

  lemma SuffixOfAppend<T>(x: seq<T>, y: seq<T>, k: nat)
    requires k <= |x|
    ensures (x + y)[k..] == x[k..] + y
  {
  }

  /** Whitespace in front of text contributes no words. */
  lemma WordsOfSpaces(x: string, y: string)
    requires forall i :: 0 <= i < |x| ==> IsSpace(x[i])
    ensures Words(x + y) == Words(y)
  {
    LeadingSpacesAppend(x, y);
    assert LeadingSpaces(x) == |x|;
    var l := LeadingSpaces(y);
    assert (x + y)[|x| + l..] == y[l..];
    assert LStrip(x + y) == LStrip(y);
    WordsOfLStrip(x + y);
    WordsOfLStrip(y);
  }

  /** A token followed by nothing or by whitespace is the first word. */
  lemma WordsStep(p: string, q: string)
    requires IsToken(p)
    requires q == [] || IsSpace(q[0])
    ensures Words(p + q) == [p] + Words(q)
  {
    TokenLenAppend(p, q);
    assert TokenLen(p) == |p|;
    assert TokenLen(q) == 0;
    WordsUnfold(p + q);
    assert (p + q)[..|p|] == p;
    assert (p + q)[|p|..] == q;
  }

  /** Splitting at one whitespace character splits the word list there. */
  lemma {:induction false} WordsAround(a: string, c: char, b: string)
    requires IsSpace(c)
    ensures Words(a + [c] + b) == Words(a) + Words(b)
    decreases |a|, 1
  {
    var k := LeadingSpaces(a);
    if k == |a| {
      assert forall i :: 0 <= i < |a + [c]| ==> IsSpace((a + [c])[i]);
      WordsOfSpaces(a + [c], b);
      WordsOfSpaces(a, []);
      assert a + [] == a;
      assert Words([]) == [];
    } else {
      var a' := a[k..];
      var m := TokenLen(a');
      assert a == a[..k] + (a'[..m] + a'[m..]);
      WordsAroundToken(a[..k], a'[..m], a'[m..], c, b);
    }
  }

  /** `WordsAround` for text that is some whitespace, a token, and the rest. */
  lemma {:induction false} WordsAroundToken(sp: string, tok: string, r: string, c: char, b: string)
    requires IsSpace(c)
    requires forall i :: 0 <= i < |sp| ==> IsSpace(sp[i])
    requires IsToken(tok)
    requires r == [] || IsSpace(r[0])
    ensures Words(sp + (tok + r) + [c] + b) == Words(sp + (tok + r)) + Words(b)
    decreases |sp + (tok + r)|, 0
  {
    assert sp + (tok + r) + [c] + b == sp + (tok + (r + [c] + b));
    calc {
      Words(sp + (tok + r) + [c] + b);
      Words(sp + (tok + (r + [c] + b)));
      { WordsOfSpaces(sp, tok + (r + [c] + b)); }
      Words(tok + (r + [c] + b));
      { WordsStep(tok, r + [c] + b); }
      [tok] + Words(r + [c] + b);
      { WordsAround(r, c, b); }
      [tok] + (Words(r) + Words(b));
    }
    calc {
      Words(sp + (tok + r));
      { WordsOfSpaces(sp, tok + r); }
      Words(tok + r);
      { WordsStep(tok, r); }
      [tok] + Words(r);
    }
    AppendAssoc([tok], Words(r), Words(b));
  }

  /** Joining tokens with one whitespace character and splitting again gives the tokens back. */
  lemma {:induction false} WordsOfJoin(c: char, ws: seq<string>)
    requires IsSpace(c)
    requires forall i :: 0 <= i < |ws| ==> IsToken(ws[i])
    ensures Words(Join([c], ws)) == ws
  {
    if ws == [] {
    } else if |ws| == 1 {
      WordsOfToken(ws[0]);
    } else {
      WordsOfJoin(c, ws[1..]);
      WordsOfJoinCons(c, ws[0], ws[1..]);
      assert ws == [ws[0]] + ws[1..];
    }
  }

  lemma WordsOfJoinCons(c: char, w: string, rest: seq<string>)
    requires IsSpace(c) && IsToken(w) && rest != []
    requires Words(Join([c], rest)) == rest
    ensures Words(Join([c], [w] + rest)) == [w] + rest
  {
    JoinCons([c], w, rest);
    WordsAround(w, c, Join([c], rest));
    WordsOfToken(w);
  }

  // ---------------------------------------------------------------- single spacing

  /** No whitespace at the ends, and every whitespace character inside is one space followed by a non-space. */
  predicate SingleSpaced(s: string) {
    forall i :: 0 <= i < |s| && IsSpace(s[i]) ==> s[i] == ' ' && 0 < i < |s| - 1 && !IsSpace(s[i + 1])
  }

  lemma JoinStartsWithToken(sep: string, ws: seq<string>)
    requires ws != [] && forall i :: 0 <= i < |ws| ==> IsToken(ws[i])
    ensures IsToken(ws[0]) && Join(sep, ws) != [] && Join(sep, ws)[0] == ws[0][0]
    ensures |ws| == 1 ==> Join(sep, ws) == ws[0]
  {
  }

  lemma JoinEndsWithToken(sep: string, ws: seq<string>)
    requires ws != [] && forall i :: 0 <= i < |ws| ==> IsToken(ws[i])
    ensures Join(sep, ws) != [] && !IsSpace(Join(sep, ws)[|Join(sep, ws)| - 1])
  {
    if |ws| > 1 {
      JoinEndsWithToken(sep, ws[1..]);
    }
  }

  /** `' '.join(tokens)` is single-spaced. */
  lemma {:induction false} SingleSpacedJoin(ws: seq<string>)
    requires forall i :: 0 <= i < |ws| ==> IsToken(ws[i])
    ensures SingleSpaced(Join(" ", ws))
  {
    if |ws| > 1 {
      var rest := Join(" ", ws[1..]);
      SingleSpacedJoin(ws[1..]);
      JoinStartsWithToken(" ", ws[1..]);
      JoinEndsWithToken(" ", ws[1..]);
      var s := ws[0] + " " + rest;
      assert Join(" ", ws) == s;
      forall i | 0 <= i < |s| && IsSpace(s[i])
        ensures s[i] == ' ' && 0 < i < |s| - 1 && !IsSpace(s[i + 1])
      {
        if i > |ws[0]| {
          assert s[i] == rest[i - |ws[0]| - 1];
          if i + 1 < |s| { assert s[i + 1] == rest[i - |ws[0]|]; }
        } else if i == |ws[0]| {
          assert s[i + 1] == rest[0];
        }
      }
    }
  }

  /** Single-spaced text is reproduced by `' '.join(s.split())`. */
  lemma {:induction false} JoinWordsOfSingleSpaced(s: string)
    requires SingleSpaced(s)
    ensures Join(" ", Words(s)) == s
    decreases |s|
  {
    if s != [] {
      var n := TokenLen(s);
      if n < |s| {
        SingleSpacedTail(s, n);
        JoinWordsOfSingleSpaced(s[n + 1..]);
        JoinWordsSplit(s, n);
      } else {
        SingleWord(s);
      }
    }
  }

  /** What follows the first space of single-spaced text is single-spaced and starts with a token. */
  lemma SingleSpacedTail(s: string, n: nat)
    requires SingleSpaced(s) && n < |s| && n == TokenLen(s)
    ensures 0 < n && s[n] == ' ' && n + 1 < |s| && !IsSpace(s[n + 1])
    ensures IsToken(s[..n]) && SingleSpaced(s[n + 1..])
  {
    var rest := s[n + 1..];
    forall i | 0 <= i < |rest| && IsSpace(rest[i])
      ensures rest[i] == ' ' && 0 < i < |rest| - 1 && !IsSpace(rest[i + 1])
    {
      assert rest[i] == s[n + 1 + i];
    }
  }

  lemma JoinWordsSplit(s: string, n: nat)
    requires n < |s| && IsToken(s[..n]) && s[n] == ' ' && n + 1 < |s| && !IsSpace(s[n + 1])
    requires Join(" ", Words(s[n + 1..])) == s[n + 1..]
    ensures Join(" ", Words(s)) == s
  {
    SplitAt(s, n);
    JoinWordsCons(s[..n], s[n + 1..]);
  }

  lemma SplitAt(s: string, n: nat)
    requires n < |s|
    ensures s == s[..n] + ([s[n]] + s[n + 1..])
  {
  }

  lemma SingleWord(s: string)
    requires SingleSpaced(s) && s != [] && TokenLen(s) == |s|
    ensures Join(" ", Words(s)) == s
  {
    assert s == s[..|s|] + [];
    WordsStep(s, []);
    assert Words([]) == [];
  }

  lemma JoinWordsCons(tok: string, rest: string)
    requires IsToken(tok) && rest != [] && !IsSpace(rest[0])
    requires Join(" ", Words(rest)) == rest
    ensures Join(" ", Words(tok + ([' '] + rest))) == tok + ([' '] + rest)
  {
    WordsStep(tok, [' '] + rest);
    WordsOfSpaces([' '], rest);
    WordsUnfold(rest);
    JoinCons(" ", tok, Words(rest));
  }

  // ---------------------------------------------------------------- lines

  function LineLen(s: string): (n: nat)
    ensures n <= |s|
    ensures forall i :: 0 <= i < n ==> !IsLineBreak(s[i])
    ensures n < |s| ==> IsLineBreak(s[n])
  {
    if s != [] && !IsLineBreak(s[0]) then 1 + LineLen(s[1..]) else 0
  }

  /** `str.splitlines()` without kept ends: no empty last line after a final break. */
  function SplitLines(s: string): seq<string>
    decreases |s|
  {
    if s == [] then []
    else
      var n := LineLen(s);
      if n == |s| then [s]
      else
        var skip := if s[n] == '\r' && n + 1 < |s| && s[n + 1] == '\n' then 2 else 1;
        [s[..n]] + SplitLines(s[n + skip..])
  }

  lemma LineLenOfLine(line: string, rest: string)
    requires NoLineBreak(line)
    ensures LineLen(line + "\n" + rest) == |line|
    decreases |line|
  {
    if line != [] {
      assert (line + "\n" + rest)[1..] == line[1..] + "\n" + rest;
      LineLenOfLine(line[1..], rest);
    }
  }

  lemma SplitLinesCons(line: string, rest: string)
    requires NoLineBreak(line)
    ensures SplitLines(line + "\n" + rest) == [line] + SplitLines(rest)
  {
    var s := line + "\n" + rest;
    LineLenOfLine(line, rest);
    assert s[|line|] == '\n';
    assert s[..|line|] == line;
    assert s[|line| + 1..] == rest;
  }

  // ---------------------------------------------------------------- search and replace

  /** `s.replace(a, b)` for single characters. */
  function ReplaceChar(s: string, a: char, b: char): (r: string)
    ensures |r| == |s|
    ensures forall i :: 0 <= i < |s| ==> r[i] == if s[i] == a then b else s[i]
  {
    seq(|s|, i requires 0 <= i < |s| => if s[i] == a then b else s[i])
  }

  /** `s.find(c)`: the first index of `c`, or -1. */
  function Find(s: string, c: char): (r: int)
    ensures -1 <= r < |s|
    ensures r >= 0 ==> s[r] == c
    ensures forall i :: 0 <= i < |s| && (r < 0 || i < r) ==> s[i] != c
  {
    if s == [] then -1
    else if s[0] == c then 0
    else var k := Find(s[1..], c); if k < 0 then -1 else k + 1
  }

  /** `s.rfind(c)`: the last index of `c`, or -1. */
  function RFind(s: string, c: char): (r: int)
    ensures -1 <= r < |s|
    ensures r >= 0 ==> s[r] == c
    ensures forall i :: r < i < |s| ==> s[i] != c
  {
    if s == [] then -1
    else if s[|s| - 1] == c then |s| - 1
    else RFind(s[..|s| - 1], c)
  }
}
