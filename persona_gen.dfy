/**
 * The persona generator: an interview over lines of input (single-line
 * answers and `END`-terminated multi-line answers), the Markdown template
 * the answers are poured into, and the file name derived from the short
 * name. The template's first two lines are the headers the persona loader
 * looks for, so a generated file loads back with the names it was given.
 */
module PersonaGen {
  import opened Wrappers
  import opened PyStr
  import PersonaFile

  datatype Answers = Answers(
    name: string, shortname: string, worldview: string, personality: string,
    communication: string, gears: string, role: string, domains: string,
    quirks: string, mission: string)

  // ---------------------------------------------------------------------
  // The template
  // ---------------------------------------------------------------------

  function Concat(ps: seq<string>): string
    decreases |ps|
  {
    if ps == [] then "" else ps[0] + Concat(ps[1..])
  }

  lemma {:induction false} ConcatAppend(a: seq<string>, b: seq<string>)
    ensures Concat(a + b) == Concat(a) + Concat(b)
    decreases |a|
  {
    if a == [] {
      assert a + b == b;
    } else {
      assert (a + b)[1..] == a[1..] + b;
      ConcatAppend(a[1..], b);
    }
  }

  predicate OccursAt(s: string, sub: string, i: int) {
    0 <= i <= |s| - |sub| && s[i..i + |sub|] == sub
  }

  ghost predicate Contains(s: string, sub: string) {
    exists i :: OccursAt(s, sub, i)
  }

  lemma ContainsMiddle(x: string, y: string, z: string)
    ensures Contains(x + y + z, y)
  {
    assert (x + y + z)[|x|..|x| + |y|] == y;
    assert OccursAt(x + y + z, y, |x|);
  }

  lemma ContainsInSuffix(p: string, s: string, sub: string)
    requires Contains(s, sub)
    ensures Contains(p + s, sub)
  {
    var i :| OccursAt(s, sub, i);
    assert (p + s)[|p| + i..|p| + i + |sub|] == s[i..i + |sub|];
    assert OccursAt(p + s, sub, |p| + i);
  }

  /** Any run of consecutive pieces appears in the concatenation. */
  lemma {:induction false} ConcatContains(ps: seq<string>, i: nat, j: nat)
    requires i <= j <= |ps|
    ensures Contains(Concat(ps), Concat(ps[i..j]))
  {
    assert ps == ps[..i] + ps[i..j] + ps[j..];
    ConcatAppend(ps[..i] + ps[i..j], ps[j..]);
    ConcatAppend(ps[..i], ps[i..j]);
    ContainsMiddle(Concat(ps[..i]), Concat(ps[i..j]), Concat(ps[j..]));
  }

  lemma ConcatThree(x: string, y: string, z: string)
    ensures Concat([x, y, z]) == x + y + z
  {
    assert [x, y, z][1..] == [y, z] && [y, z][1..] == [z] && [z][1..] == [];
    assert Concat([z]) == z;
    assert Concat([y, z]) == y + z;
  }

  const Overview := "\n# Persona Overview\n"
  const CoreTraits := "\n\n## Core Traits\n"
  const GearsHeading := "\n\n## Expressive Gears\n"
  const Dynamics := "\n\n## Behavioral Dynamics\n"
    + "They respond to disagreements, confusion, emotional tone shifts, logic, symbolism, and humor "
    + "based on their stated worldview and gears. Their interaction profile:\n"
    + "- Negotiates conflict according to their role: "
  const StyleItem := "\n- Adapts tone using communication style: "
  const DomainsItem := "\n- Handles these domains especially well: "
  const QuirksHeading := "\n\n## Signature Quirks\n"
  const MissionHeading := "\n\n## Mission\n"
  const Bold := "**"

  /** The text after the two header lines, as pieces. */
  function Body(a: Answers): seq<string> {
    [ Overview, a.worldview, CoreTraits, a.personality, GearsHeading, a.gears,
      Dynamics, Bold, a.role, Bold, StyleItem, Bold, a.communication, Bold,
      DomainsItem, a.domains, QuirksHeading, a.quirks, MissionHeading, a.mission, "\n" ]
  }

  /** The two header lines, which come before the sections. */
  function Head(a: Answers): string {
    "Name: " + a.name + "\n" + ("ShortName: " + a.shortname + "\n")
  }

  /**
   * The persona file's Markdown: the two header lines, then the sections.
   * Line one names the persona and line two gives its short name.
   */
  function GeneratePersona(a: Answers): (md: string)
    ensures StartsWith(md, "Name: " + a.name + "\n")
    ensures StartsWith(md[|"Name: " + a.name + "\n"|..], "ShortName: " + a.shortname + "\n")
  {
    var h1 := "Name: " + a.name + "\n";
    var rest := "ShortName: " + a.shortname + "\n" + Concat(Body(a));
    assert Head(a) + Concat(Body(a)) == h1 + rest;
    assert (h1 + rest)[..|h1|] == h1;
    assert (h1 + rest)[|h1|..] == rest;
    Head(a) + Concat(Body(a))
  }

  /** Every run of consecutive section pieces appears in the Markdown. */
  lemma PiecesAppear(a: Answers, i: nat, j: nat)
    requires i <= j <= |Body(a)|
    ensures Contains(GeneratePersona(a), Concat(Body(a)[i..j]))
  {
    ConcatContains(Body(a), i, j);
    ContainsInSuffix(Head(a), Concat(Body(a)), Concat(Body(a)[i..j]));
  }

  lemma PieceAppears(a: Answers, i: nat)
    requires i < |Body(a)|
    ensures Contains(GeneratePersona(a), Body(a)[i])
  {
    PiecesAppear(a, i, i + 1);
    var one := Body(a)[i..i + 1];
    assert one == [Body(a)[i]] && one[1..] == [];
    assert Concat(one) == Body(a)[i];
  }

  lemma BoldAppears(a: Answers, i: nat)
    requires i + 3 <= |Body(a)| && Body(a)[i] == Bold && Body(a)[i + 2] == Bold
    ensures Contains(GeneratePersona(a), Bold + Body(a)[i + 1] + Bold)
  {
    PiecesAppear(a, i, i + 3);
    assert Body(a)[i..i + 3] == [Bold, Body(a)[i + 1], Bold];
    ConcatThree(Bold, Body(a)[i + 1], Bold);
  }

  /** The free-text answers appear verbatim; role and style appear in bold. */
  lemma AnswersAppearVerbatim(a: Answers)
    ensures Contains(GeneratePersona(a), a.worldview)
    ensures Contains(GeneratePersona(a), a.personality)
    ensures Contains(GeneratePersona(a), a.gears)
    ensures Contains(GeneratePersona(a), a.domains)
    ensures Contains(GeneratePersona(a), a.quirks)
    ensures Contains(GeneratePersona(a), a.mission)
    ensures Contains(GeneratePersona(a), "**" + a.role + "**")
    ensures Contains(GeneratePersona(a), "**" + a.communication + "**")
  {
    PieceAppears(a, 1);
    PieceAppears(a, 3);
    PieceAppears(a, 5);
    PieceAppears(a, 15);
    PieceAppears(a, 17);
    PieceAppears(a, 19);
    BoldAppears(a, 7);
    BoldAppears(a, 11);
  }

  // ---------------------------------------------------------------------
  // Loading the generated file back
  // ---------------------------------------------------------------------

  /** A header value that survives the loader: one line, no surrounding whitespace, not empty. */
  predicate Loadable(v: string) {
    v != [] && IsStripped(v) && NoLineBreak(v)
  }

  lemma StripAfterSpace(v: string)
    requires IsStripped(v)
    ensures Strip(" " + v) == v
  {
    assert LeadingSpaces(" " + v) == 1 + LeadingSpaces(v);
    assert (" " + v)[1..] == v;
  }

  lemma LowerStarts(prefix: string, key: string, v: string)
    requires Lower(prefix) == key
    ensures StartsWith(Lower(prefix + v), key)
  {
    LowerAppend(prefix, v);
  }

  /** The sections start with a heading, so they hold a non-space character. */
  lemma BodyHasText(a: Answers)
    ensures exists i :: 0 <= i < |Concat(Body(a))| && !IsSpace(Concat(Body(a))[i])
  {
    var ps := Body(a);
    assert ps[0] == Overview;
    assert Concat(ps) == Overview + Concat(ps[1..]);
    assert Overview[1] == '#';
    assert Concat(ps)[1] == '#';
  }

  lemma StripHeadThenBody(head: string, body: string)
    requires head != [] && !IsSpace(head[0])
    requires exists i :: 0 <= i < |body| && !IsSpace(body[i])
    ensures Strip(head + body) == head + RStrip(body)
  {
    RStripKeepsPrefix(head, body);
    assert (head + body)[0] == head[0];
    assert LeadingSpaces(head + body) == 0;
    assert LStrip(head + body) == head + body;
  }

  /** Stripping a generated persona only trims the end of the last section. */
  lemma StripGenerated(a: Answers)
    ensures Strip(GeneratePersona(a)) == "Name: " + a.name + "\n" + ("ShortName: " + a.shortname + "\n" + RStrip(Concat(Body(a))))
  {
    var h1 := "Name: " + a.name + "\n";
    var h2 := "ShortName: " + a.shortname + "\n";
    var body := Concat(Body(a));
    BodyHasText(a);
    AppendAssoc(h1, h2, body);
    StripHeadThenBody(h1 + h2, body);
    AppendAssoc(h1, h2, RStrip(body));
  }

  lemma LowerKeys()
    ensures Lower("Name: ") == "name: "
    ensures Lower("ShortName: ") == "shortname: "
  {
  }

  lemma NameLineValueIs(l: string, v: string)
    requires PersonaFile.IsNameLine(l) && |l| >= 5 && l[5..] == " " + v && IsStripped(v)
    ensures ':' in l && PersonaFile.Value(l) == v
  {
    PersonaFile.HeaderValue(l);
    StripAfterSpace(v);
  }

  lemma NameLineValue(name: string)
    requires IsStripped(name)
    ensures PersonaFile.IsNameLine("Name: " + name) && ':' in "Name: " + name
    ensures PersonaFile.Value("Name: " + name) == name
  {
    var l := "Name: " + name;
    LowerKeys();
    LowerStarts("Name: ", "name: ", name);
    assert l[5..] == " " + name;
    NameLineValueIs(l, name);
  }

  lemma ShortKeyIsShortLine(l: string, rest: string)
    requires Lower(l) == "shortname: " + rest
    ensures PersonaFile.IsShortLine(l)
  {
    assert Lower(l)[0] == 's';
    assert Lower(l)[..10] == "shortname:";
  }

  lemma ShortLineValueIs(l: string, v: string)
    requires PersonaFile.IsShortLine(l) && |l| >= 10 && l[10..] == " " + v && IsStripped(v)
    ensures ':' in l && PersonaFile.Value(l) == v
  {
    PersonaFile.HeaderValue(l);
    StripAfterSpace(v);
  }

  lemma ShortLineValue(shortname: string)
    requires IsStripped(shortname)
    ensures PersonaFile.IsShortLine("ShortName: " + shortname) && ':' in "ShortName: " + shortname
    ensures PersonaFile.Value("ShortName: " + shortname) == shortname
  {
    var l := "ShortName: " + shortname;
    LowerKeys();
    LowerAppend("ShortName: ", shortname);
    ShortKeyIsShortLine(l, Lower(shortname));
    assert l[10..] == " " + shortname;
    ShortLineValueIs(l, shortname);
  }

  lemma TwoLines(l1: string, l2: string, rest: string)
    requires NoLineBreak(l1) && NoLineBreak(l2)
    ensures var lines := SplitLines(l1 + "\n" + (l2 + "\n" + rest));
      |lines| >= 2 && lines[0] == l1 && lines[1] == l2
  {
    SplitLinesCons(l1, l2 + "\n" + rest);
    SplitLinesCons(l2, rest);
  }

  /** A name line with a value, then a short-name line with a value: the scan stops there. */
  lemma HeadersOfFirstTwo(lines: seq<string>, name: string, shortname: string)
    requires |lines| >= 2 && name != "" && shortname != ""
    requires PersonaFile.IsNameLine(lines[0]) && ':' in lines[0] && PersonaFile.Value(lines[0]) == name
    requires PersonaFile.IsShortLine(lines[1]) && ':' in lines[1] && PersonaFile.Value(lines[1]) == shortname
    ensures PersonaFile.Headers(lines) == (name, shortname)
  {
    PersonaFile.ScanStep(lines, 0);
    PersonaFile.ScanStep(lines, 1);
    assert lines[..0] == [];
    assert !PersonaFile.Both(lines[..1]);
    assert PersonaFile.Both(lines[..2]);
  }

  /** Two header lines, then anything: the scan reports exactly their values. */
  lemma HeadersOfHeaderLines(name: string, shortname: string, rest: string)
    requires Loadable(name) && Loadable(shortname)
    ensures PersonaFile.Headers(SplitLines("Name: " + name + "\n" + ("ShortName: " + shortname + "\n" + rest)))
      == (name, shortname)
  {
    var l1 := "Name: " + name;
    var l2 := "ShortName: " + shortname;
    assert NoLineBreak(l1) && NoLineBreak(l2);
    TwoLines(l1, l2, rest);
    NameLineValue(name);
    ShortLineValue(shortname);
    HeadersOfFirstTwo(SplitLines(l1 + "\n" + (l2 + "\n" + rest)), name, shortname);
  }

  /**
   * Round trip: the loader's header scan over the stripped lines of a
   * generated persona recovers exactly the name and short name.
   */
  lemma GeneratedHeadersLoadBack(a: Answers)
    requires Loadable(a.name) && Loadable(a.shortname)
    ensures PersonaFile.Headers(SplitLines(Strip(GeneratePersona(a)))) == (a.name, a.shortname)
  {
    StripGenerated(a);
    HeadersOfHeaderLines(a.name, a.shortname, RStrip(Concat(Body(a))));
  }

  // ---------------------------------------------------------------------
  // The interview
  // ---------------------------------------------------------------------

  /** One answer read from `input` at `pos`, stripped; nothing when the input has run out. */
  function Ask(input: seq<string>, pos: nat): (r: Option<(string, nat)>)
    ensures r.None? <==> pos >= |input|
    ensures r.Some? ==> r.value == (Strip(input[pos]), pos + 1)
  {
    if pos < |input| then Some((Strip(input[pos]), pos + 1)) else None
  }

  /** The stripped line is `END` (stated through the two halves of `Strip`). */
  predicate IsEnd(line: string) {
    RStrip(LStrip(line)) == "END"
  }

  /** The index of the first `END` line at or after `pos`, or -1. */
  function EndFrom(input: seq<string>, pos: nat): (e: int)
    ensures e == -1 || pos <= e < |input|
    ensures e >= 0 ==> IsEnd(input[e])
    ensures forall i :: pos <= i < |input| && (e < 0 || i < e) ==> !IsEnd(input[i])
    decreases |input| - pos
  {
    if pos >= |input| then -1
    else if IsEnd(input[pos]) then pos
    else EndFrom(input, pos + 1)
  }

  /** The lines before the first `END`, joined by newlines, and where reading resumes. */
  function MultilineAnswer(input: seq<string>, pos: nat): (r: Option<(string, nat)>)
    ensures r.None? <==> EndFrom(input, pos) < 0
  {
    var e := EndFrom(input, pos);
    if e < 0 then None else Some((Join("\n", input[pos..e]), e + 1))
  }

  lemma AnswerEndsAt(input: seq<string>, pos: nat, e: nat)
    requires pos <= e < |input| && EndFrom(input, pos) == e
    ensures MultilineAnswer(input, pos) == Some((Join("\n", input[pos..e]), e + 1))
  {
  }

  lemma SliceSnoc<T>(s: seq<T>, a: nat, b: nat)
    requires a <= b < |s|
    ensures s[a..b + 1] == s[a..b] + [s[b]]
  {
  }

  /** Reads lines until one that is `END` once stripped; running out of input is an error. */
  method MultilineInput(input: seq<string>, pos: nat) returns (r: Option<(string, nat)>)
    ensures r == MultilineAnswer(input, pos)
  {
    if pos >= |input| {
      return None;
    }
    var lines: seq<string> := [];
    var i := pos;
    while i < |input|
      invariant pos <= i <= |input|
      invariant lines == input[pos..i]
      invariant EndFrom(input, pos) == EndFrom(input, i)
      decreases |input| - i
    {
      var line := input[i];
      if IsEnd(line) {
        AnswerEndsAt(input, pos, i);
        return Some((Join("\n", lines), i + 1));
      }
      SliceSnoc(input, pos, i);
      lines := lines + [line];
      i := i + 1;
    }
    return None;
  }

  /** `GeneratePersona`'s file: under `personas/`, the short name with `_` for spaces, lower-cased. */
  function FileName(shortname: string): (path: string)
    ensures |path| == |shortname| + 12
    ensures path[..9] == "personas/" && path[|path| - 3..] == ".md"
    ensures forall i :: 0 <= i < |shortname| ==>
      path[9 + i] == LowerChar(if shortname[i] == ' ' then '_' else shortname[i])
  {
    "personas/" + Lower(ReplaceChar(shortname, ' ', '_')) + ".md"
  }

  lemma FileNameHasNoSpace(shortname: string)
    ensures ' ' !in FileName(shortname)
  {
    var p := FileName(shortname);
    forall i | 0 <= i < |p| ensures p[i] != ' ' {
      if 9 <= i < 9 + |shortname| {
        assert p[i] == LowerChar(if shortname[i - 9] == ' ' then '_' else shortname[i - 9]);
      }
    }
  }

  /** The answer that asks for a generated name. */
  const Generate := "generate"

  /** `"Unnamed Persona"`, the name used when the second name answer is blank. */
  const Unnamed := "Unnamed Persona"

  lemma UnnamedIsLoadable()
    ensures Loadable(Unnamed)
  {
  }

  /**
   * The name question: the first answer, unless it is `generate` in any
   * case, when a second answer is read and `Unnamed` replaces a blank one.
   * The result is the name and where reading resumes.
   */
  function NameStep(input: seq<string>): (r: Option<(string, nat)>)
    ensures r.None? <==> |input| == 0 || (|input| == 1 && Lower(Strip(input[0])) == Generate)
    ensures r.Some? ==> 1 <= r.value.1 <= |input| && IsStripped(r.value.0)
    ensures r.Some? ==> r.value.0 == Unnamed || r.value.0 == Strip(input[r.value.1 - 1])
  {
    UnnamedIsLoadable();
    var first := Ask(input, 0);
    if first.None? then None
    else if Lower(first.value.0) == Generate then
      var second := Ask(input, first.value.1);
      if second.None? then None
      else Some((if second.value.0 == "" then Unnamed else second.value.0, second.value.1))
    else first
  }

  /** A first answer of `generate` takes the name from the next answer, or `Unnamed` when that is blank. */
  lemma NameFallback(input: seq<string>)
    requires |input| >= 2 && Lower(Strip(input[0])) == Generate
    ensures NameStep(input) == Some((if Strip(input[1]) == "" then Unnamed else Strip(input[1]), 2))
  {
  }

  /** Any other first answer is the name, and only one line is read for it. */
  lemma NameKept(input: seq<string>)
    requires |input| >= 1 && Lower(Strip(input[0])) != Generate
    ensures NameStep(input) == Some((Strip(input[0]), 1))
  {
  }

  /**
   * The ten answers in question order: the name, then single-line answers
   * for short name, communication, role and domains and END-terminated
   * ones for the rest; nothing when the input runs out first.
   */
  function CollectAnswers(input: seq<string>): (r: Option<Answers>)
    ensures r.Some? ==> NameStep(input).Some?
    ensures r.Some? ==> var (name, p1) := NameStep(input).value;
      p1 < |input| && r.value.name == name && r.value.shortname == Strip(input[p1])
    ensures r.Some? ==> IsStripped(r.value.communication) && IsStripped(r.value.role) && IsStripped(r.value.domains)
  {
    match NameStep(input)
    case None => None
    case Some((name, p1)) =>
      match Ask(input, p1)
      case None => None
      case Some((shortname, p2)) =>
        match MultilineAnswer(input, p2)
        case None => None
        case Some((worldview, p3)) =>
          match MultilineAnswer(input, p3)
          case None => None
          case Some((personality, p4)) =>
            match Ask(input, p4)
            case None => None
            case Some((communication, p5)) =>
              match MultilineAnswer(input, p5)
              case None => None
              case Some((gears, p6)) =>
                match Ask(input, p6)
                case None => None
                case Some((role, p7)) =>
                  match Ask(input, p7)
                  case None => None
                  case Some((domains, p8)) =>
                    match MultilineAnswer(input, p8)
                    case None => None
                    case Some((quirks, p9)) =>
                      match MultilineAnswer(input, p9)
                      case None => None
                      case Some((mission, _)) =>
                        Some(Answers(name, shortname, worldview, personality, communication,
                                     gears, role, domains, quirks, mission))
  }

  /** The interview's file name and file content. */
  function Interview(input: seq<string>): (r: Option<(string, string)>)
    ensures r.Some? <==> CollectAnswers(input).Some?
    ensures r.Some? ==> r.value.0 == FileName(CollectAnswers(input).value.shortname)
    ensures r.Some? ==> r.value.1 == GeneratePersona(CollectAnswers(input).value)
  {
    match CollectAnswers(input)
    case None => None
    case Some(a) => Some((FileName(a.shortname), GeneratePersona(a)))
  }

  lemma StripNoLineBreak(s: string)
    requires NoLineBreak(s)
    ensures NoLineBreak(Strip(s))
  {
    var r := Strip(s);
    var k := LeadingSpaces(s);
    forall i | 0 <= i < |r| ensures !IsLineBreak(r[i]) {
      assert r[i] == s[k + i];
    }
  }

  /**
   * End to end: when the lines typed for the name and the short name hold
   * no line break and the name and short name are not blank, loading the
   * written file gives back the name and short name the interview settled
   * on. No other answer reaches the header scan, which stops at line two.
   */
  lemma InterviewLoadsBack(input: seq<string>)
    requires Interview(input).Some?
    requires var p1 := NameStep(input).value.1; NoLineBreak(input[p1 - 1]) && NoLineBreak(input[p1])
    requires CollectAnswers(input).value.name != "" && CollectAnswers(input).value.shortname != ""
    ensures var a := CollectAnswers(input).value;
      PersonaFile.Headers(SplitLines(Strip(Interview(input).value.1))) == (a.name, a.shortname)
  {
    var a := CollectAnswers(input).value;
    var (name, p1) := NameStep(input).value;
    StripNoLineBreak(input[p1]);
    if a.name == Unnamed {
      UnnamedIsLoadable();
    } else {
      StripNoLineBreak(input[p1 - 1]);
    }
    GeneratedHeadersLoadBack(a);
  }
}
