/**
 * The comic view's balloon layout: greedy word wrap against a measured
 * width, then truncation to the number of lines the balloon's height
 * allows. The font's measure is a parameter: `width(s)` is the width of
 * the box `textbbox` reports for `s`.
 */
module ComicWrap {
  import opened PyStr

  /** A balloon's box in image coordinates: left, top, right, bottom. */
  datatype Box = Box(x1: int, y1: int, x2: int, y2: int)

  /** The width a line may take: the box's width less 10 pixels of padding. */
  function MaxWidth(b: Box): int { b.x2 - b.x1 - 10 }

  /** The height the lines may take: the box's height less 6 pixels of padding. */
  function MaxHeight(b: Box): int { b.y2 - b.y1 - 6 }

  /** `int(a / b)` for a positive `b`: the quotient truncated toward zero. */
  function TruncDiv(a: int, b: int): (q: int)
    requires b > 0
    ensures a >= 0 ==> q >= 0 && q * b <= a < (q + 1) * b
    ensures a < 0 ==> q <= 0 && -q * b <= -a < (-q + 1) * b
  {
    if a >= 0 then DivBounds(a, b); a / b else DivBounds(-a, b); -((-a) / b)
  }

  lemma DivBounds(a: int, b: int)
    requires a >= 0 && b > 0
    ensures a / b >= 0 && (a / b) * b <= a < (a / b + 1) * b
  {
    var q, r := a / b, a % b;
    assert a == q * b + r && 0 <= r < b;
    assert (q + 1) * b == q * b + b;
  }

  /** `max(1, int(max_height / line_height))`: how many lines fit, but at least one. */
  function MaxLines(maxHeight: int, lineHeight: int): (m: int)
    requires lineHeight > 0
    ensures m >= 1
    ensures m == 1 || m * lineHeight <= maxHeight < (m + 1) * lineHeight
    ensures maxHeight >= lineHeight ==> m * lineHeight <= maxHeight < (m + 1) * lineHeight
  {
    var q := TruncDiv(maxHeight, lineHeight);
    if q < 1 then 1 else q
  }

  // ---------------------------------------------------------------- greedy filling

  /** The finished lines (as word groups) and the line being filled, after some words. */
  datatype Fill = Fill(done: seq<seq<string>>, current: seq<string>)

  /** One word: it joins the current line if the line still fits, else it starts a new one. */
  function Place(width: string -> int, maxWidth: int, f: Fill, w: string): Fill {
    if width(Join(" ", f.current + [w])) <= maxWidth then Fill(f.done, f.current + [w])
    else Fill(if f.current != [] then f.done + [f.current] else f.done, [w])
  }

  /** The state after placing every word of `ws` in order. */
  function FillAll(width: string -> int, maxWidth: int, ws: seq<string>): Fill
    decreases |ws|
  {
    if ws == [] then Fill([], [])
    else Place(width, maxWidth, FillAll(width, maxWidth, ws[..|ws| - 1]), ws[|ws| - 1])
  }


  /** A line of more than one word is within the width; a single word may overflow. */
  predicate Fits(width: string -> int, maxWidth: int, g: seq<string>) {
    |g| >= 2 ==> width(Join(" ", g)) <= maxWidth
  }

  function Flatten(gs: seq<seq<string>>): seq<string>
    decreases |gs|
  {
    if gs == [] then [] else Flatten(gs[..|gs| - 1]) + gs[|gs| - 1]
  }

  lemma FlattenSnoc(gs: seq<seq<string>>, g: seq<string>)
    ensures Flatten(gs + [g]) == Flatten(gs) + g
  {
    assert (gs + [g])[..|gs|] == gs;
  }

  /** Every line but the last was ended only because the next line's first word would not fit on it. */
  predicate Breaks(width: string -> int, maxWidth: int, gs: seq<seq<string>>) {
    forall k :: 0 <= k < |gs| - 1 && gs[k + 1] != [] ==> width(Join(" ", gs[k] + [gs[k + 1][0]])) > maxWidth
  }

  /** What placing words keeps: the words in order, no empty line, the width rule and the break rule. */
  predicate Sound(width: string -> int, maxWidth: int, f: Fill, ws: seq<string>) {
    && Flatten(f.done) + f.current == ws
    && (forall k :: 0 <= k < |f.done| ==> f.done[k] != [] && Fits(width, maxWidth, f.done[k]))
    && Fits(width, maxWidth, f.current)
    && (ws != [] ==> f.current != [])
    && (f.current == [] ==> f.done == [])
    && Breaks(width, maxWidth, f.done + [f.current])
  }

  lemma PlaceSound(width: string -> int, maxWidth: int, f: Fill, ws: seq<string>, w: string)
    requires Sound(width, maxWidth, f, ws)
    ensures Sound(width, maxWidth, Place(width, maxWidth, f, w), ws + [w])
  {
    var g := Place(width, maxWidth, f, w);
    PlaceBreaks(width, maxWidth, f, w);
    if width(Join(" ", f.current + [w])) <= maxWidth {
      AppendAssoc(Flatten(f.done), f.current, [w]);
    } else if f.current != [] {
      FlattenSnoc(f.done, f.current);
      assert g.done == f.done + [f.current];
      assert forall k :: 0 <= k < |f.done| ==> g.done[k] == f.done[k];
    }
  }

  /** Placing a word keeps the break rule: a new line is started only when the word does not fit. */
  lemma PlaceBreaks(width: string -> int, maxWidth: int, f: Fill, w: string)
    requires (f.current == [] ==> f.done == []) && Breaks(width, maxWidth, f.done + [f.current])
    ensures var g := Place(width, maxWidth, f, w);
      g.current != [] && Breaks(width, maxWidth, g.done + [g.current])
  {
    var g := Place(width, maxWidth, f, w);
    var before, after := f.done + [f.current], g.done + [g.current];
    if width(Join(" ", f.current + [w])) <= maxWidth {
      assert forall k :: 0 <= k < |f.done| ==> after[k] == before[k];
      assert f.current != [] ==> after[|f.done|][0] == before[|f.done|][0];
    } else if f.current != [] {
      assert forall k :: 0 <= k <= |f.done| ==> after[k] == before[k];
    }
  }

  lemma {:induction false} FillAllSound(width: string -> int, maxWidth: int, ws: seq<string>)
    ensures Sound(width, maxWidth, FillAll(width, maxWidth, ws), ws)
    decreases |ws|
  {
    if ws != [] {
      var init := ws[..|ws| - 1];
      FillAllSound(width, maxWidth, init);
      PlaceSound(width, maxWidth, FillAll(width, maxWidth, init), init, ws[|ws| - 1]);
      assert init + [ws[|ws| - 1]] == ws;
    }
  }

  /**
   * The word groups of the lines, the last partial line included. They
   * hold exactly the words, in order; no line is empty; a line of
   * several words never exceeds the width; and a line ends only where
   * adding the next word would exceed it.
   */
  function Groups(width: string -> int, maxWidth: int, ws: seq<string>): (gs: seq<seq<string>>)
    ensures Flatten(gs) == ws
    ensures forall k :: 0 <= k < |gs| ==> gs[k] != [] && Fits(width, maxWidth, gs[k])
    ensures forall k :: 0 <= k < |gs| - 1 ==> width(Join(" ", gs[k] + [gs[k + 1][0]])) > maxWidth
  {
    var f := FillAll(width, maxWidth, ws);
    FillAllSound(width, maxWidth, ws);
    if f.current != [] then
      FlattenSnoc(f.done, f.current);
      assert forall k :: 0 <= k < |f.done| ==> (f.done + [f.current])[k] == f.done[k];
      f.done + [f.current]
    else
      assert Flatten(f.done) + [] == Flatten(f.done);
      f.done
  }

  /** Each group joined by single spaces. */
  function Lines(gs: seq<seq<string>>): (ls: seq<string>)
    ensures |ls| == |gs| && forall k :: 0 <= k < |gs| ==> ls[k] == Join(" ", gs[k])
  {
    seq(|gs|, k requires 0 <= k < |gs| => Join(" ", gs[k]))
  }

  // ---------------------------------------------------------------- truncation

  const Dots := "..."

  /** The line cut by up to three characters and ended with `...`. */
  function Ellipsis(line: string): (r: string)
    ensures var keep := if |line| < 3 then 0 else |line| - 3;
      |r| == keep + 3 && r[..keep] == line[..keep] && r[keep..] == Dots
  {
    line[..if |line| < 3 then 0 else |line| - 3] + Dots
  }

  /** At most `maxLines` lines; when some are dropped the last kept one ends with `...`. */
  function Truncate(lines: seq<string>, maxLines: int): (r: seq<string>)
    requires maxLines >= 1
    ensures |lines| <= maxLines ==> r == lines
    ensures |lines| > maxLines ==>
      |r| == maxLines && r[..maxLines - 1] == lines[..maxLines - 1] && r[maxLines - 1] == Ellipsis(lines[maxLines - 1])
  {
    if |lines| > maxLines then
      var kept := lines[..maxLines];
      kept[..maxLines - 1] + [Ellipsis(kept[maxLines - 1])]
    else lines
  }

  /**
   * `_wrap_text`: the wrapped and truncated lines, joined by newlines.
   * Reading the output back by lines gives exactly those lines: at most
   * as many as fit, and at least one; when lines were dropped, the last
   * shown line ends with `...`.
   */
  function Wrapped(text: string, box: Box, width: string -> int, lineHeight: int): (r: string)
    requires lineHeight > 0
    ensures var gs := Groups(width, MaxWidth(box), Words(text));
      var m := MaxLines(MaxHeight(box), lineHeight);
      var out := SplitLines(r);
      && out == Truncate(Lines(gs), m)
      && |out| <= m
      && (|gs| <= m ==> |out| == |gs|)
      && (|gs| > m ==> |out| == m && |out[m - 1]| >= 3 && out[m - 1][|out[m - 1]| - 3..] == Dots)
  {
    var gs := Groups(width, MaxWidth(box), Words(text));
    var m := MaxLines(MaxHeight(box), lineHeight);
    LinesOfTokens(width, MaxWidth(box), text);
    LinesArePlain(gs);
    TruncateIsPlain(Lines(gs), m);
    SplitLinesOfJoin(Truncate(Lines(gs), m));
    Join("\n", Truncate(Lines(gs), m))
  }

  lemma LinesSnoc(gs: seq<seq<string>>, g: seq<string>)
    ensures Lines(gs + [g]) == Lines(gs) + [Join(" ", g)]
  {
  }

  /** The word loop of `_wrap_text`: the finished lines as strings and the current line as words. */
  method FillLines(words: seq<string>, width: string -> int, maxWidth: int) returns (lines: seq<string>, current: seq<string>)
    ensures lines == Lines(FillAll(width, maxWidth, words).done)
    ensures current == FillAll(width, maxWidth, words).current
  {
    lines, current := [], [];
    for i := 0 to |words|
      invariant lines == Lines(FillAll(width, maxWidth, words[..i]).done)
      invariant current == FillAll(width, maxWidth, words[..i]).current
    {
      var word := words[i];
      ghost var before := FillAll(width, maxWidth, words[..i]);
      assert words[..i + 1][..i] == words[..i];
      assert FillAll(width, maxWidth, words[..i + 1]) == Place(width, maxWidth, before, word);
      var testLine := Join(" ", current + [word]);
      if width(testLine) <= maxWidth {
        current := current + [word];
      } else {
        if current != [] {
          LinesSnoc(before.done, current);
          lines := lines + [Join(" ", current)];
        }
        current := [word];
      }
    }
    assert words[..|words|] == words;
  }

  /** `_wrap_text`: fill, flush the current line, then truncate to the lines that fit. */
  method WrapText(text: string, box: Box, width: string -> int, lineHeight: int) returns (out: string)
    requires lineHeight > 0
    ensures out == Wrapped(text, box, width, lineHeight)
  {
    var maxWidth := box.x2 - box.x1 - 10;
    var maxHeight := box.y2 - box.y1 - 6;
    var words := Words(text);
    var lines, current := FillLines(words, width, maxWidth);
    FlushedLines(width, maxWidth, words);
    if current != [] {
      lines := lines + [Join(" ", current)];
    }
    var maxLines := MaxLines(maxHeight, lineHeight);
    lines := Cut(lines, maxLines);
    out := Join("\n", lines);
    WrappedIs(text, box, width, lineHeight, maxWidth, maxLines);
  }

  lemma WrappedIs(text: string, box: Box, width: string -> int, lineHeight: int, maxWidth: int, maxLines: int)
    requires lineHeight > 0 && maxWidth == MaxWidth(box) && maxLines == MaxLines(MaxHeight(box), lineHeight)
    ensures Wrapped(text, box, width, lineHeight)
      == Join("\n", Truncate(Lines(Groups(width, maxWidth, Words(text))), maxLines))
  {
  }

  /** The lines of all groups: the finished ones, then the current one unless it is empty. */
  lemma FlushedLines(width: string -> int, maxWidth: int, ws: seq<string>)
    ensures var f := FillAll(width, maxWidth, ws);
      Lines(Groups(width, maxWidth, ws))
        == if f.current != [] then Lines(f.done) + [Join(" ", f.current)] else Lines(f.done)
  {
    var f := FillAll(width, maxWidth, ws);
    if f.current != [] {
      LinesSnoc(f.done, f.current);
    }
  }

  /** The truncation step of `_wrap_text` on the list of lines. */
  method Cut(lines: seq<string>, maxLines: int) returns (r: seq<string>)
    requires maxLines >= 1
    ensures r == Truncate(lines, maxLines)
  {
    r := lines;
    if |r| > maxLines {
      r := r[..maxLines];
      if r != [] {
        var last := r[|r| - 1];
        r := r[..|r| - 1] + [last[..if |last| < 3 then 0 else |last| - 3] + "..."];
      }
    }
  }

  // ---------------------------------------------------------------- reading the output back

  lemma LineBreakIsSpace(c: char)
    requires IsLineBreak(c)
    ensures IsSpace(c)
  {
  }

  lemma {:induction false} JoinGroupHasNoLineBreak(g: seq<string>)
    requires forall i :: 0 <= i < |g| ==> IsToken(g[i])
    ensures NoLineBreak(Join(" ", g))
    decreases |g|
  {
    if |g| > 1 {
      JoinGroupHasNoLineBreak(g[1..]);
      var r := Join(" ", g[1..]);
      var s := g[0] + " " + r;
      forall i | 0 <= i < |s| ensures !IsLineBreak(s[i]) {
        if i < |g[0]| {
          assert !IsSpace(g[0][i]);
        } else if i > |g[0]| {
          assert s[i] == r[i - |g[0]| - 1];
        }
      }
    } else if |g| == 1 {
      forall i | 0 <= i < |g[0]| ensures !IsLineBreak(g[0][i]) {
        assert !IsSpace(g[0][i]);
      }
    }
  }

  /** Lines without line breaks, the last one not empty, come back from `splitlines` as they were. */
  lemma {:induction false} SplitLinesOfJoin(ls: seq<string>)
    requires forall k :: 0 <= k < |ls| ==> NoLineBreak(ls[k])
    requires ls != [] ==> ls[|ls| - 1] != ""
    ensures SplitLines(Join("\n", ls)) == ls
    decreases |ls|
  {
    if |ls| == 1 {
      assert LineLen(ls[0]) == |ls[0]|;
    } else if |ls| > 1 {
      SplitLinesOfJoin(ls[1..]);
      SplitLinesCons(ls[0], Join("\n", ls[1..]));
      assert ls == [ls[0]] + ls[1..];
    }
  }

  lemma {:induction false} WordsOfLines(gs: seq<seq<string>>)
    requires TokenGroups(gs)
    ensures Words(Join("\n", Lines(gs))) == Flatten(gs)
    decreases |gs|
  {
    if |gs| == 1 {
      WordsOfOneLine(gs);
    } else if |gs| > 1 {
      TokenGroupsSplit(gs);
      WordsOfLines(gs[..|gs| - 1]);
      WordsOfLinesLast(gs);
    }
  }

  lemma WordsOfLinesLast(gs: seq<seq<string>>)
    requires |gs| > 1 && AllTokens(gs[|gs| - 1])
    requires Words(Join("\n", Lines(gs[..|gs| - 1]))) == Flatten(gs[..|gs| - 1])
    ensures Words(Join("\n", Lines(gs))) == Flatten(gs)
  {
    var init, last := gs[..|gs| - 1], gs[|gs| - 1];
    InitLast(gs);
    WordsOfLinesSnoc(init, last);
  }

  lemma InitLast<T>(s: seq<T>)
    requires s != []
    ensures s[..|s| - 1] + [s[|s| - 1]] == s
  {
  }

  lemma TokenGroupsSplit(gs: seq<seq<string>>)
    requires gs != [] && TokenGroups(gs)
    ensures TokenGroups(gs[..|gs| - 1])
    ensures AllTokens(gs[|gs| - 1])
  {
    var init := gs[..|gs| - 1];
    forall k | 0 <= k < |init| ensures init[k] != [] && forall i :: 0 <= i < |init[k]| ==> IsToken(init[k][i]) {
      assert init[k] == gs[k];
    }
  }

  lemma WordsOfOneLine(gs: seq<seq<string>>)
    requires |gs| == 1 && forall i :: 0 <= i < |gs[0]| ==> IsToken(gs[0][i])
    ensures Words(Join("\n", Lines(gs))) == Flatten(gs)
  {
    WordsOfJoin(' ', gs[0]);
    assert Flatten(gs) == Flatten([]) + gs[0];
  }

  lemma WordsOfLinesSnoc(init: seq<seq<string>>, last: seq<string>)
    requires init != [] && forall i :: 0 <= i < |last| ==> IsToken(last[i])
    requires Words(Join("\n", Lines(init))) == Flatten(init)
    ensures Words(Join("\n", Lines(init + [last]))) == Flatten(init + [last])
  {
    WordsOfJoin(' ', last);
    JoinSnoc("\n", Lines(init), Join(" ", last));
    LinesSnoc(init, last);
    WordsAround(Join("\n", Lines(init)), '\n', Join(" ", last));
    FlattenSnoc(init, last);
  }

  lemma {:induction false} JoinSnoc(sep: string, ls: seq<string>, l: string)
    requires ls != []
    ensures Join(sep, ls + [l]) == Join(sep, ls) + sep + l
    decreases |ls|
  {
    if |ls| == 1 {
      assert ls + [l] == [ls[0], l];
      assert [ls[0], l][1..] == [l];
    } else {
      JoinSnoc(sep, ls[1..], l);
      assert (ls + [l])[1..] == ls[1..] + [l];
      AppendAssoc(ls[0] + sep, Join(sep, ls[1..]) + sep, l);
      AppendAssoc(ls[0] + sep, Join(sep, ls[1..]), sep);
      AppendAssoc(ls[0], sep, Join(sep, ls[1..]));
    }
  }

  predicate AllTokens(g: seq<string>) {
    forall i :: 0 <= i < |g| ==> IsToken(g[i])
  }

  /** Word groups as the filling builds them from `split()`'s words: non-empty groups of tokens. */
  predicate TokenGroups(gs: seq<seq<string>>) {
    forall k :: 0 <= k < |gs| ==> gs[k] != [] && forall i :: 0 <= i < |gs[k]| ==> IsToken(gs[k][i])
  }

  lemma LinesOfTokens(width: string -> int, maxWidth: int, text: string)
    ensures TokenGroups(Groups(width, maxWidth, Words(text)))
  {
    var ws := Words(text);
    var gs := Groups(width, maxWidth, ws);
    forall k, i | 0 <= k < |gs| && 0 <= i < |gs[k]| ensures IsToken(gs[k][i]) {
      FlattenMember(gs, k, i);
    }
  }

  lemma {:induction false} FlattenMember(gs: seq<seq<string>>, k: nat, i: nat)
    requires k < |gs| && i < |gs[k]|
    ensures gs[k][i] in Flatten(gs)
    decreases |gs|
  {
    if k < |gs| - 1 {
      FlattenMember(gs[..|gs| - 1], k, i);
    }
  }

  /** Without truncation the output's words are exactly the input's words, in order. */
  lemma WrapKeepsWords(text: string, box: Box, width: string -> int, lineHeight: int)
    requires lineHeight > 0
    requires |Groups(width, MaxWidth(box), Words(text))| <= MaxLines(MaxHeight(box), lineHeight)
    ensures Words(Wrapped(text, box, width, lineHeight)) == Words(text)
  {
    var gs := Groups(width, MaxWidth(box), Words(text));
    LinesOfTokens(width, MaxWidth(box), text);
    WordsOfLines(gs);
  }

  /** Lines built from token groups have no line break and are not empty. */
  predicate PlainLines(ls: seq<string>) {
    forall k :: 0 <= k < |ls| ==> NoLineBreak(ls[k]) && ls[k] != ""
  }

  lemma LinesArePlain(gs: seq<seq<string>>)
    requires TokenGroups(gs)
    ensures PlainLines(Lines(gs))
  {
    var ls := Lines(gs);
    forall k | 0 <= k < |ls| ensures NoLineBreak(ls[k]) && ls[k] != "" {
      JoinGroupHasNoLineBreak(gs[k]);
      JoinStartsWithToken(" ", gs[k]);
    }
  }

  lemma EllipsisIsPlain(line: string)
    requires NoLineBreak(line)
    ensures NoLineBreak(Ellipsis(line)) && Ellipsis(line) != ""
  {
    var e := Ellipsis(line);
    var keep := if |line| < 3 then 0 else |line| - 3;
    forall i | 0 <= i < |e| ensures !IsLineBreak(e[i]) {
      if i < keep {
        assert e[i] == e[..keep][i] == line[i];
      } else {
        assert e[i] == e[keep..][i - keep] == Dots[i - keep];
      }
    }
  }

  lemma TruncateIsPlain(ls: seq<string>, m: int)
    requires m >= 1 && PlainLines(ls)
    ensures PlainLines(Truncate(ls, m))
  {
    var t := Truncate(ls, m);
    if |ls| > m {
      EllipsisIsPlain(ls[m - 1]);
      forall k | 0 <= k < |t| ensures NoLineBreak(t[k]) && t[k] != "" {
        if k < m - 1 {
          assert t[k] == t[..m - 1][k] == ls[k];
        }
      }
    }
  }
}
