/**
  The statement parser of the logical-consistency scorer: each line of a
  text is matched against a fixed list of patterns, the first pattern that
  occurs in the line decides, and a match becomes one or two
  subject/relation/object statements. The first and second versions of the
  scorer parse identically, so this one definition stands for both.

  Python strings are sequences of code points; `str.strip()` trims the
  characters Python counts as whitespace (`Text.Python`).
 */
module Statements {
  import opened Wrappers
  import opened Text
  import Seqs

  datatype Rel = Is | IsNot | Has | Lacks

  /** A parsed statement; `statementId` is the line's index, or that plus one half for the second subject of a conjunction. */
  datatype LogicalStatement = LogicalStatement(subject: string, relation: Rel, obj: string, rawText: string, statementId: real)

  /** The relation's name as the scorer writes it. */
  function RelName(r: Rel): string {
    match r
    case Is => "is"
    case IsNot => "is_not"
    case Has => "has"
    case Lacks => "lacks"
  }

  /** Python's `s.rstrip('.')`: every trailing dot goes. */
  function TrimDots(s: string): (r: string)
    ensures |r| <= |s| && r == s[..|r|]
    ensures r == [] || r[|r| - 1] != '.'
    ensures forall k :: |r| <= k < |s| ==> s[k] == '.'
    decreases |s|
  {
    if |s| > 0 && s[|s| - 1] == '.' then TrimDots(s[..|s| - 1]) else s
  }

  /** How an object is cleaned: stripped of whitespace, then of trailing dots. */
  function ObjectOf(s: string): string {
    TrimDots(Strip(s, Python))
  }

  /** A stripped subject: it neither starts nor ends with whitespace. */
  predicate CleanSubject(t: string) {
    t == [] || (!IsPythonSpace(t[0]) && !IsPythonSpace(t[|t| - 1]))
  }

  /** A cleaned object: it does not start with whitespace or end with a dot. */
  predicate CleanObject(t: string) {
    t == [] || (!IsPythonSpace(t[0]) && t[|t| - 1] != '.')
  }

  predicate Clean(s: LogicalStatement) {
    CleanSubject(s.subject) && CleanObject(s.obj)
  }

  lemma StripClean(x: string)
    ensures CleanSubject(Strip(x, Python))
  {
    StripSlice(x, Python);
  }

  lemma ObjectClean(y: string)
    ensures CleanObject(ObjectOf(y))
  {
    StripSlice(y, Python);
    var o := ObjectOf(y);
    if o != [] {
      assert o[0] == Strip(y, Python)[0];
    }
  }

  /** The single-separator patterns, in the order they are tried. */
  const IsNotSep: string := " is not "
  const IsSep: string := " is "
  const HasSep: string := " has "
  const LacksSep: string := " lacks "
  const AndSep: string := " and "
  const HaveSep: string := " have "

  /** `X <sep> Y`: a statement only when the separator cuts the line into exactly two parts. */
  function SplitPattern(line: string, sep: string, rel: Rel, idx: nat): (r: seq<LogicalStatement>)
    requires |sep| > 0
    ensures |r| <= 1
    ensures forall k :: 0 <= k < |r| ==> Clean(r[k])
  {
    var parts := Split(line, sep);
    if |parts| == 2 then
      StripClean(parts[0]);
      ObjectClean(parts[1]);
      [LogicalStatement(Strip(parts[0], Python), rel, ObjectOf(parts[1]), line, idx as real)]
    else []
  }

  /**
    `X and Y have Z`, matched as the lazy pattern `(.*?) and (.*?) have (.*)`
    from the start of the line: `X` ends at the first " and ", `Y` at the
    first " have " after it. It yields a `has` statement for each subject.
   */
  function Conjoined(line: string, idx: nat): (r: seq<LogicalStatement>)
    ensures |r| == 0 || |r| == 2
    ensures forall k :: 0 <= k < |r| ==> Clean(r[k])
  {
    match Find(line, AndSep)
    case None => []
    case Some(i) =>
      match FindFrom(line, HaveSep, i + |AndSep|)
      case None => []
      case Some(j) => HavePair(line[..i], line[i + |AndSep|..j], line[j + |HaveSep|..], line, idx)
  }

  /** The two `has` statements of "x and y have z", numbered `idx` and `idx + 0.5`. */
  function HavePair(x: string, y: string, z: string, line: string, idx: nat): (r: seq<LogicalStatement>)
    ensures |r| == 2 && Clean(r[0]) && Clean(r[1])
  {
    StripClean(x);
    StripClean(y);
    ObjectClean(z);
    [LogicalStatement(Strip(x, Python), Has, ObjectOf(z), line, idx as real),
     LogicalStatement(Strip(y, Python), Has, ObjectOf(z), line, idx as real + 0.5)]
  }

  /** One stripped, non-empty, non-comment line: the first pattern that occurs decides. */
  function ParseLine(line: string, idx: nat): seq<LogicalStatement> {
    if Contains(line, IsNotSep) then SplitPattern(line, IsNotSep, IsNot, idx)
    else if Contains(line, IsSep) then SplitPattern(line, IsSep, Is, idx)
    else if Contains(line, HasSep) then SplitPattern(line, HasSep, Has, idx)
    else if Contains(line, LacksSep) then SplitPattern(line, LacksSep, Lacks, idx)
    else if Contains(line, AndSep) && Contains(line, HaveSep) then Conjoined(line, idx)
    else []
  }

  /** A raw line: stripped, then skipped when empty or a `#` comment. */
  function ParseRawLine(raw: string, idx: nat): seq<LogicalStatement> {
    var line := Strip(raw, Python);
    if line == [] || line[0] == '#' then [] else ParseLine(line, idx)
  }

  /** Lines numbered from `idx`, each parsed on its own, the results concatenated in order. */
  function EachLine(parse: (string, nat) -> seq<LogicalStatement>, lines: seq<string>, idx: nat): seq<LogicalStatement>
    decreases |lines|
  {
    if lines == [] then [] else parse(lines[0], idx) + EachLine(parse, lines[1..], idx + 1)
  }

  function ParseLines(lines: seq<string>, idx: nat): seq<LogicalStatement> {
    EachLine(ParseRawLine, lines, idx)
  }

  /** `parse_statements`: the whole text is stripped, cut at newlines, and each line numbered from 0. */
  function ParseStatements(text: string): seq<LogicalStatement> {
    ParseLines(Split(Strip(text, Python), "\n"), 0)
  }

  // ---------------------------------------------------------------------
  // What the parser promises
  // ---------------------------------------------------------------------

  /** The separator a relation's single-separator pattern uses. */
  function SepOf(r: Rel): string {
    match r
    case Is => IsSep
    case IsNot => IsNotSep
    case Has => HasSep
    case Lacks => LacksSep
  }

  /**
    A statement from a single-separator pattern splits its line back into
    the text before and after the separator, neither of which holds the
    separator; the subject and object are those texts cleaned.
   */
  lemma SplitPatternRoundTrip(line: string, sep: string, rel: Rel, idx: nat)
    requires |sep| > 0 && |SplitPattern(line, sep, rel, idx)| == 1
    ensures var s := SplitPattern(line, sep, rel, idx)[0];
      exists a, b ::
        && line == a + sep + b && !Contains(a, sep) && !Contains(b, sep)
        && s == LogicalStatement(Strip(a, Python), rel, ObjectOf(b), line, idx as real)
  {
    var parts := Split(line, sep);
    JoinSplit(line, sep);
    assert Join(parts, sep) == parts[0] + sep + Join(parts[1..], sep);
    assert parts[1..] == [parts[1]];
  }

  /**
    The first pattern that occurs decides: a statement's relation tells
    which separators its line holds and which it does not.
   */
  lemma ParseLinePrecedence(line: string, idx: nat, k: nat)
    requires k < |ParseLine(line, idx)|
    ensures var s := ParseLine(line, idx)[k];
      && (s.relation == IsNot <==> Contains(line, IsNotSep))
      && (s.relation == Is <==> !Contains(line, IsNotSep) && Contains(line, IsSep))
      && (s.relation == Lacks <==> !Contains(line, IsNotSep) && !Contains(line, IsSep) && !Contains(line, HasSep) && Contains(line, LacksSep))
      && (s.relation == Has ==> !Contains(line, IsNotSep) && !Contains(line, IsSep))
  {
  }

  /** A conjunction needs a " and " and, after it, a " have ". */
  lemma ConjoinedFound(line: string, idx: nat)
    requires |Conjoined(line, idx)| == 2
    ensures Find(line, AndSep).Some? && FindFrom(line, HaveSep, Find(line, AndSep).value + |AndSep|).Some?
  {
  }

  /**
    A conjunction splits its line as `X and Y have Z` at the first " and "
    and the first " have " after it; both statements share the object `Z`
    cleaned and differ in subject and in half a line number.
   */
  lemma ConjoinedSpec(line: string, idx: nat, i: nat, j: nat)
    requires Find(line, AndSep) == Some(i) && FindFrom(line, HaveSep, i + |AndSep|) == Some(j)
    ensures line == line[..i] + AndSep + line[i + |AndSep|..j] + HaveSep + line[j + |HaveSep|..]
    ensures Conjoined(line, idx)[0] == LogicalStatement(Strip(line[..i], Python), Has, ObjectOf(line[j + |HaveSep|..]), line, idx as real)
    ensures Conjoined(line, idx)[1] == LogicalStatement(Strip(line[i + |AndSep|..j], Python), Has, ObjectOf(line[j + |HaveSep|..]), line, idx as real + 0.5)
  {
    ConjoinedAt(line, idx, i, j);
    Rejoin(line, i, j);
  }

  lemma ConjoinedAt(line: string, idx: nat, i: nat, j: nat)
    requires Find(line, AndSep) == Some(i) && FindFrom(line, HaveSep, i + |AndSep|) == Some(j)
    ensures Conjoined(line, idx) == HavePair(line[..i], line[i + |AndSep|..j], line[j + |HaveSep|..], line, idx)
  {
  }

  lemma Rejoin(line: string, i: nat, j: nat)
    requires OccursAt(line, AndSep, i) && OccursAt(line, HaveSep, j) && i + |AndSep| <= j
    ensures line == line[..i] + AndSep + line[i + |AndSep|..j] + HaveSep + line[j + |HaveSep|..]
  {
    FiveSlices(line, i, |AndSep|, j, |HaveSep|);
  }

  /** A string is the concatenation of the five slices two cut-outs make of it. */
  lemma FiveSlices(s: string, i: nat, m: nat, j: nat, n: nat)
    requires i + m <= j && j + n <= |s|
    ensures s == s[..i] + s[i..i + m] + s[i + m..j] + s[j..j + n] + s[j + n..]
  {
  }

  /** Parsing line by line: the statements of a line list are those of its parts, in order. */
  lemma {:induction false} EachLineAppend(parse: (string, nat) -> seq<LogicalStatement>, a: seq<string>, b: seq<string>, idx: nat)
    ensures EachLine(parse, a + b, idx) == EachLine(parse, a, idx) + EachLine(parse, b, idx + |a|)
    decreases |a|
  {
    if a != [] {
      EachLineAppend(parse, a[1..], b, idx + 1);
      assert (a + b)[1..] == a[1..] + b;
      Seqs.AppendAssoc(parse(a[0], idx), EachLine(parse, a[1..], idx + 1), EachLine(parse, b, idx + |a|));
    } else {
      assert a + b == b;
    }
  }

  /** A line the parser turns into nothing can be cut out of the list. */
  lemma DropSilentLine(parse: (string, nat) -> seq<LogicalStatement>, lines: seq<string>, idx: nat, k: nat)
    requires k < |lines| && parse(lines[k], idx + k) == []
    ensures EachLine(parse, lines, idx) == EachLine(parse, lines[..k], idx) + EachLine(parse, lines[k + 1..], idx + k + 1)
  {
    assert lines == lines[..k] + ([lines[k]] + lines[k + 1..]);
    EachLineAppend(parse, lines[..k], [lines[k]] + lines[k + 1..], idx);
    EachLineAppend(parse, [lines[k]], lines[k + 1..], idx + k);
    assert EachLine(parse, [lines[k]], idx + k) == parse(lines[k], idx + k) + EachLine(parse, [], idx + k + 1);
  }

  /** A line that is blank or a `#` comment once stripped yields no statement. */
  lemma SilentLine(raw: string, idx: nat)
    requires var line := Strip(raw, Python); line == [] || line[0] == '#'
    ensures ParseRawLine(raw, idx) == []
  {
  }

  /** A blank or comment line contributes nothing: the statements are those of the lines before it and after it. */
  lemma SkipsBlankAndComments(lines: seq<string>, idx: nat, k: nat)
    requires k < |lines|
    requires var line := Strip(lines[k], Python); line == [] || line[0] == '#'
    ensures ParseLines(lines, idx) == ParseLines(lines[..k], idx) + ParseLines(lines[k + 1..], idx + k + 1)
  {
    SilentLine(lines[k], idx + k);
    DropSilentLine(ParseRawLine, lines, idx, k);
  }

  /** Every statement's subject is stripped and its object neither starts with whitespace nor ends with a dot. */
  lemma {:induction false} StatementsClean(lines: seq<string>, idx: nat)
    ensures forall k :: 0 <= k < |ParseLines(lines, idx)| ==> Clean(ParseLines(lines, idx)[k])
    decreases |lines|
  {
    if lines != [] {
      StatementsClean(lines[1..], idx + 1);
      var head := ParseRawLine(lines[0], idx);
      var tail := ParseLines(lines[1..], idx + 1);
      assert ParseLines(lines, idx) == head + tail;
      assert forall k :: 0 <= k < |head| ==> Clean(head[k]);
    }
  }
}
