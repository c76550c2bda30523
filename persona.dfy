/**
 * Reading a persona file: the whole content, stripped, is the persona's
 * text; its lines are scanned for a `Name:` and a `ShortName:` header,
 * and missing headers fall back to the file name.
 */
module PersonaFile {
  import opened PyStr

  datatype Persona = Persona(name: string, shortName: string, text: string)

  /** A line whose lower-cased form starts with `name:`. */
  predicate IsNameLine(line: string) {
    StartsWith(Lower(line), "name:")
  }

  /** A line starting, ignoring case, with `shortname:` (tested only when it is not a name line). */
  predicate IsShortLine(line: string) {
    !IsNameLine(line) && StartsWith(Lower(line), "shortname:")
  }

  lemma HeaderHasColon(line: string)
    requires IsNameLine(line) || IsShortLine(line)
    ensures ':' in line
  {
    if IsNameLine(line) {
      assert Lower(line)[4] == ':';
      assert line[4] == ':';
    } else {
      assert Lower(line)[9] == ':';
      assert line[9] == ':';
    }
  }

  /** What follows the first colon, stripped. */
  function Value(line: string): (v: string)
    requires ':' in line
    ensures IsStripped(v)
  {
    Strip(line[Find(line, ':') + 1..])
  }

  /** The value is whatever follows the first colon, whatever later colons there are. */
  lemma ValueAfterFirstColon(line: string, k: nat)
    requires k < |line| && line[k] == ':' && forall i :: 0 <= i < k ==> line[i] != ':'
    ensures Value(line) == Strip(line[k + 1..])
  {
  }

  /** On a header line the first colon is the one that ends the key. */
  lemma HeaderValue(line: string)
    requires IsNameLine(line) || IsShortLine(line)
    ensures IsNameLine(line) ==> ':' in line && Value(line) == Strip(line[5..])
    ensures IsShortLine(line) ==> ':' in line && Value(line) == Strip(line[10..])
  {
    HeaderHasColon(line);
    var k := if IsNameLine(line) then 4 else 9;
    assert Lower(line)[k] == ':';
    forall i | 0 <= i < k ensures line[i] != ':' {
      assert Lower(line)[i] != ':';
    }
    ValueAfterFirstColon(line, k);
  }

  /** The value of the last name line of `p`, or empty when there is none. */
  function LastName(p: seq<string>): string
  {
    if p == [] then ""
    else if IsNameLine(p[|p| - 1]) then HeaderHasColon(p[|p| - 1]); Value(p[|p| - 1])
    else LastName(p[..|p| - 1])
  }

  /** The value of the last short-name line of `p`, or empty when there is none. */
  function LastShort(p: seq<string>): string
  {
    if p == [] then ""
    else if IsShortLine(p[|p| - 1]) then HeaderHasColon(p[|p| - 1]); Value(p[|p| - 1])
    else LastShort(p[..|p| - 1])
  }

  /** `LastName` is the value of the name line that no later name line follows, if any. */
  lemma LastNameIsLast(p: seq<string>)
    ensures forall k :: 0 <= k < |p| && IsNameLine(p[k]) && (forall m :: k < m < |p| ==> !IsNameLine(p[m])) ==>
      ':' in p[k] && LastName(p) == Value(p[k])
    ensures (forall k :: 0 <= k < |p| ==> !IsNameLine(p[k])) ==> LastName(p) == ""
  {
    forall k | 0 <= k < |p| && IsNameLine(p[k]) && (forall m :: k < m < |p| ==> !IsNameLine(p[m]))
      ensures ':' in p[k] && LastName(p) == Value(p[k])
    {
      LastNameAt(p, k);
    }
    if forall k :: 0 <= k < |p| ==> !IsNameLine(p[k]) {
      NoNameLine(p);
    }
  }

  lemma {:induction false} LastNameAt(p: seq<string>, k: nat)
    requires k < |p| && IsNameLine(p[k]) && forall m :: k < m < |p| ==> !IsNameLine(p[m])
    ensures ':' in p[k] && LastName(p) == Value(p[k])
    decreases |p|
  {
    HeaderHasColon(p[k]);
    if k < |p| - 1 {
      var q := p[..|p| - 1];
      assert !IsNameLine(p[|p| - 1]);
      forall m | k <= m < |q| ensures q[m] == p[m] && (m > k ==> !IsNameLine(q[m])) {
      }
      LastNameAt(q, k);
    }
  }

  lemma {:induction false} NoNameLine(p: seq<string>)
    requires forall k :: 0 <= k < |p| ==> !IsNameLine(p[k])
    ensures LastName(p) == ""
    decreases |p|
  {
    if p != [] {
      var q := p[..|p| - 1];
      assert forall m :: 0 <= m < |q| ==> q[m] == p[m];
      NoNameLine(q);
    }
  }

  /** Both headers have been seen with a non-empty value in `p`. */
  predicate Both(p: seq<string>) {
    LastName(p) != "" && LastShort(p) != ""
  }

  /** The number of lines the scan reads: up to the first point where both headers are set. */
  function StopFrom(lines: seq<string>, i: nat): (k: nat)
    requires i <= |lines|
    ensures i <= k <= |lines|
    ensures k == |lines| || Both(lines[..k])
    ensures forall j :: i < j < k ==> !Both(lines[..j])
    decreases |lines| - i
  {
    if i == |lines| then |lines|
    else if Both(lines[..i + 1]) then i + 1
    else StopFrom(lines, i + 1)
  }

  /**
   * The header values the scan ends with, defined without the loop: the
   * last values seen up to the first line after which both are set, or
   * to the end. So either both are set, or the scan read every line and
   * they are the file's last ones; a value that is set is that of some
   * header line of its kind.
   */
  function Headers(lines: seq<string>): (h: (string, string))
    ensures exists k ::
      && 0 <= k <= |lines| && (k == |lines| || Both(lines[..k]))
      && (forall j :: 0 < j < k ==> !Both(lines[..j]))
      && h == (LastName(lines[..k]), LastShort(lines[..k]))
    ensures (h.0 != "" && h.1 != "") || h == (LastName(lines), LastShort(lines))
    ensures h.0 != "" ==> exists k :: 0 <= k < |lines| && IsNameLine(lines[k]) && ':' in lines[k] && h.0 == Value(lines[k])
    ensures h.1 != "" ==> exists k :: 0 <= k < |lines| && IsShortLine(lines[k]) && ':' in lines[k] && h.1 == Value(lines[k])
  {
    var k := StopFrom(lines, 0);
    assert lines[..|lines|] == lines;
    NameFromLine(lines[..k]);
    ShortFromLine(lines[..k]);
    (LastName(lines[..k]), LastShort(lines[..k]))
  }

  /** A name that is set comes from a name line. */
  lemma {:induction false} NameFromLine(p: seq<string>)
    ensures LastName(p) != "" ==> exists k :: 0 <= k < |p| && IsNameLine(p[k]) && ':' in p[k] && LastName(p) == Value(p[k])
    decreases |p|
  {
    if p != [] && !IsNameLine(p[|p| - 1]) {
      var q := p[..|p| - 1];
      NameFromLine(q);
      if LastName(q) != "" {
        var k :| 0 <= k < |q| && IsNameLine(q[k]) && ':' in q[k] && LastName(q) == Value(q[k]);
        assert p[k] == q[k];
      }
    } else if p != [] {
      HeaderHasColon(p[|p| - 1]);
    }
  }

  /** A short name that is set comes from a short-name line. */
  lemma {:induction false} ShortFromLine(p: seq<string>)
    ensures LastShort(p) != "" ==> exists k :: 0 <= k < |p| && IsShortLine(p[k]) && ':' in p[k] && LastShort(p) == Value(p[k])
    decreases |p|
  {
    if p != [] && !IsShortLine(p[|p| - 1]) {
      var q := p[..|p| - 1];
      ShortFromLine(q);
      if LastShort(q) != "" {
        var k :| 0 <= k < |q| && IsShortLine(q[k]) && ':' in q[k] && LastShort(q) == Value(q[k]);
        assert p[k] == q[k];
      }
    } else if p != [] {
      HeaderHasColon(p[|p| - 1]);
    }
  }

  lemma ScanStep(lines: seq<string>, i: nat)
    requires i < |lines|
    ensures IsNameLine(lines[i]) ==> ':' in lines[i] && LastName(lines[..i + 1]) == Value(lines[i])
    ensures !IsNameLine(lines[i]) ==> LastName(lines[..i + 1]) == LastName(lines[..i])
    ensures IsShortLine(lines[i]) ==> ':' in lines[i] && LastShort(lines[..i + 1]) == Value(lines[i])
    ensures !IsShortLine(lines[i]) ==> LastShort(lines[..i + 1]) == LastShort(lines[..i])
    ensures StopFrom(lines, i) == if Both(lines[..i + 1]) then i + 1 else StopFrom(lines, i + 1)
  {
    var p := lines[..i + 1];
    assert p[..|p| - 1] == lines[..i] && p[|p| - 1] == lines[i];
    if IsNameLine(lines[i]) || IsShortLine(lines[i]) {
      HeaderHasColon(lines[i]);
    }
  }

  /** Neither of the first `i` lines completes both headers. */
  predicate NotBothUpTo(lines: seq<string>, i: nat)
    requires i <= |lines|
  {
    forall j :: 0 < j <= i ==> !Both(lines[..j])
  }

  lemma NotBothStep(lines: seq<string>, i: nat)
    requires i < |lines| && NotBothUpTo(lines, i) && !Both(lines[..i + 1])
    ensures NotBothUpTo(lines, i + 1)
  {
  }

  /** When no line completes both headers, the scan reads every line. */
  lemma ScanReadsAll(lines: seq<string>)
    requires NotBothUpTo(lines, |lines|)
    ensures Headers(lines) == (LastName(lines), LastShort(lines))
  {
    var k := StopFrom(lines, 0);
    assert !Both(lines[..0]);
    assert k == |lines|;
    assert lines[..|lines|] == lines;
  }

  /** The scan over the lines, stopping as soon as both headers are non-empty. */
  method ScanHeaders(lines: seq<string>) returns (name: string, shortName: string)
    ensures (name, shortName) == Headers(lines)
  {
    name, shortName := "", "";
    var i := 0;
    while i < |lines|
      invariant 0 <= i <= |lines|
      invariant name == LastName(lines[..i]) && shortName == LastShort(lines[..i])
      invariant NotBothUpTo(lines, i)
      decreases |lines| - i
    {
      var line := lines[i];
      ScanStep(lines, i);
      if IsNameLine(line) {
        HeaderHasColon(line);
        name := Value(line);
      } else if IsShortLine(line) {
        HeaderHasColon(line);
        shortName := Value(line);
      }
      if name != "" && shortName != "" {
        ScanStops(lines, i);
        return;
      }
      NotBothStep(lines, i);
      i := i + 1;
    }
    assert lines[..i] == lines;
    ScanReadsAll(lines);
  }

  /** Once both headers are first set after line `i`, the scan's result is theirs. */
  lemma ScanStops(lines: seq<string>, i: nat)
    requires i < |lines| && Both(lines[..i + 1])
    requires forall j :: 0 < j <= i ==> !Both(lines[..j])
    ensures Headers(lines) == (LastName(lines[..i + 1]), LastShort(lines[..i + 1]))
  {
    var k := StopFrom(lines, 0);
    assert !Both(lines[..0]);
    assert k == i + 1;
  }

  /**
   * The scan stops at the first point where both headers are set: after a
   * name line and a short-name line with values, no later line is read,
   * whatever name lines follow.
   */
  lemma LaterLinesIgnored(n: string, sh: string, rest: seq<string>)
    requires IsNameLine(n) && IsShortLine(sh)
    requires ':' in n && ':' in sh && Value(n) != "" && Value(sh) != ""
    ensures Headers([n, sh] + rest) == (Value(n), Value(sh))
  {
    var lines := [n, sh] + rest;
    var p1, p2 := lines[..1], lines[..2];
    assert p1 == [n] && p2 == [n, sh] && p2[..1] == p1 && p1[..0] == [];
    assert LastName(p1) == Value(n) && LastShort(p1) == "";
    assert LastName(p2) == Value(n) && LastShort(p2) == Value(sh);
    assert !Both(p1) && Both(p2);
    forall j | 0 < j <= 1 ensures !Both(lines[..j]) {
      assert lines[..j] == p1;
    }
    ScanStops(lines, 1);
  }

  /** `os.path.basename`: what follows the last `/`. */
  function BaseName(path: string): (b: string)
    ensures '/' !in b
    ensures exists k :: 0 <= k <= |path| && b == path[k..] && (k == 0 || path[k - 1] == '/')
  {
    var k := RFind(path, '/') + 1;
    NotIn(path, k, '/');
    path[k..]
  }

  lemma NotIn(s: string, k: nat, c: char)
    requires k <= |s| && forall i :: k <= i < |s| ==> s[i] != c
    ensures c !in s[k..]
  {
  }

  predicate AllDots(s: string) {
    forall i :: 0 <= i < |s| ==> s[i] == '.'
  }

  /**
   * The first part of `os.path.splitext` of the base name: the extension
   * starts at the last dot, unless only dots precede that dot.
   */
  function Stem(path: string): (r: string)
    ensures var b := BaseName(path);
      && |r| <= |b| && r == b[..|r|]
      && (r != b ==> b[|r|] == '.' && '.' !in b[|r| + 1..] && !AllDots(r))
      && (r == b ==> '.' !in b || AllDots(b[..RFind(b, '.')]))
  {
    var b := BaseName(path);
    var d := RFind(b, '.');
    NotIn(b, d + 1, '.');
    if d >= 0 && !AllDots(b[..d]) then b[..d] else b
  }

  lemma StemDropsExtension()
    ensures Stem("p/a.md") == "a"
  {
    assert BaseName("p/a.md") == "a.md";
    assert RFind("a.md", '.') == 1;
    assert "a.md"[..1] == "a" && "a"[0] != '.';
  }

  lemma StemKeepsDotFile()
    ensures Stem("p/.a") == ".a"
  {
    assert BaseName("p/.a") == ".a";
    assert ".a"[0] == '.';
    assert RFind(".a", '.') == 0;
  }

  lemma StemDropsLastExtensionOnly()
    ensures Stem("p/a.b.c") == "a.b"
  {
    assert BaseName("p/a.b.c") == "a.b.c";
    assert RFind("a.b.c", '.') == 3;
    assert "a.b.c"[..3] == "a.b" && "a.b"[0] != '.';
  }

  /** Loading a persona from a file path and the file's content. */
  method LoadPersona(path: string, content: string) returns (p: Persona)
    ensures p.text == Strip(content)
    ensures var (n, s) := Headers(SplitLines(Strip(content)));
      && p.name == (if n != "" then n else Stem(path))
      && p.shortName == (if s != "" then s else p.name)
  {
    var text := Strip(content);
    var name, shortName := ScanHeaders(SplitLines(text));
    if name == "" {
      name := Stem(path);
    }
    if shortName == "" {
      shortName := name;
    }
    p := Persona(name, shortName, text);
  }
}
