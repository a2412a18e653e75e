/** Sources with their maps, and what a map says in terms of source names. */
module SourceMaps {
  import opened Basics
  import opened Vlq
  import opened Mappings
  import opened Transcoder

  const NEWLINE: Byte := 10

  /** A source as the bundler holds it: content that is empty or ends in a newline, and its map. */
  datatype Source = Source(content: seq<Byte>, lines: nat, sources: seq<string>, mappings: seq<Byte>)

  function CountNL(s: seq<Byte>): nat {
    if s == [] then 0 else CountNL(s[..|s| - 1]) + if s[|s| - 1] as int == '\n' as int then 1 else 0
  }

  lemma {:induction false} CountNLConcat(a: seq<Byte>, b: seq<Byte>)
    ensures CountNL(a + b) == CountNL(a) + CountNL(b)
    decreases |b|
  {
    if b == [] {
      assert a + b == a;
    } else {
      CountNLConcat(a, b[..|b| - 1]);
      assert (a + b)[..|a + b| - 1] == a + b[..|b| - 1];
    }
  }

  method CountNewlines(b: seq<Byte>) returns (res: nat)
    ensures res == CountNL(b)
  {
    res := 0;
    for i := 0 to |b|
      invariant res == CountNL(b[..i])
    {
      assert b[..i + 1][..i] == b[..i];
      if b[i] == NEWLINE {
        res := res + 1;
      }
    }
    assert b[..|b|] == b;
  }

  ghost predicate ValidSource(s: Source) {
    s.lines == CountNL(s.content) && (s.content == [] || s.content[|s.content| - 1] as int == '\n' as int)
  }

  /** Counts the lines of the content and closes its last line. */
  method MakeSource(content: seq<Byte>, sources: seq<string>, mappings: seq<Byte>) returns (s: Source)
    ensures ValidSource(s) && s.sources == sources && s.mappings == mappings
    ensures s.content == content || s.content == content + [10]
    ensures s.content == content <==> content == [] || content[|content| - 1] == 10
  {
    var lines := CountNewlines(content);
    s := Source(content, lines, sources, mappings);
    if |content| > 0 && content[|content| - 1] != NEWLINE {
      s := Source(content + [NEWLINE], lines + 1, sources, mappings);
      CountNLConcat(content, [NEWLINE]);
      assert [NEWLINE][..0] == [];
    }
  }

  // ---------- what a map says ----------

  datatype NamedMapping = Plain(col: int) | Named(col: int, source: string, line: int, sourceCol: int)

  function Named1(m: Mapping, sources: seq<string>): NamedMapping {
    match m
    case Unmapped(col) => Plain(col)
    case Mapped(col, loc) =>
      Named(col, if 0 <= loc.source < |sources| then sources[loc.source] else "", loc.line, loc.col)
  }

  function NamedLine(line: seq<Mapping>, sources: seq<string>): seq<NamedMapping> {
    seq(|line|, i requires 0 <= i < |line| => Named1(line[i], sources))
  }

  function NamedLines(lines: seq<seq<Mapping>>, sources: seq<string>): seq<seq<NamedMapping>> {
    seq(|lines|, i requires 0 <= i < |lines| => NamedLine(lines[i], sources))
  }

  function Blank(n: nat): seq<seq<Mapping>> {
    seq(n, i => [])
  }

  /** The mappings of a text line by line, for a content of so many lines. */
  function LinesOf(d: Decoder, lines: nat): seq<seq<Mapping>> {
    var e := Flush(d);
    if |e.lines| < lines then e.lines + [e.cur] + Blank(lines - |e.lines| - 1) else e.lines
  }

  ghost predicate SmallNumbers(ts: seq<Token>) {
    forall i :: 0 <= i < |ts| && ts[i].Num? ==> -LIMIT < ts[i].n < LIMIT
  }

  /** The map reads as segments of one, four or five fields, with columns, lines and source indices in range. */
  ghost predicate Readable(s: Source) {
    && ValidSource(s)
    && Lex(s.mappings).Some?
    && var ts := Lex(s.mappings).value;
       SmallNumbers(ts) && Clean(Flush(FeedAll(INIT, ts)), |s.sources|)
  }

  /** The map has no more lines than the content, and nothing on the line after the last. */
  ghost predicate WithinContent(s: Source)
    requires Lex(s.mappings).Some?
  {
    var e := Flush(FeedAll(INIT, Lex(s.mappings).value));
    |e.lines| <= s.lines && (|e.lines| == s.lines ==> e.cur == [])
  }

  ghost predicate WellFormed(s: Source) {
    Readable(s) && WithinContent(s)
  }

  /** What the map of a source says about each of its lines. */
  ghost function SourceMeaning(s: Source): seq<seq<NamedMapping>>
    requires WellFormed(s)
  {
    NamedLines(LinesOf(FeedAll(INIT, Lex(s.mappings).value), s.lines), s.sources)
  }

  // ---------- remapping keeps the names ----------

  ghost predicate RemapNames(remap: seq<nat>, sources: seq<string>, all: seq<string>) {
    && |remap| == |sources|
    && forall i :: 0 <= i < |remap| ==> remap[i] < |all| && all[remap[i]] == sources[i]
  }

  lemma RemappedNames(line: seq<Mapping>, remap: seq<nat>, sources: seq<string>, all: seq<string>)
    requires RemapNames(remap, sources, all) && LineInRange(line, |sources|)
    ensures NamedLine(RemappedLine(line, remap), all) == NamedLine(line, sources)
  {
    forall i | 0 <= i < |line|
      ensures Named1(Remapped(line[i], remap), all) == Named1(line[i], sources)
    {
      assert InRange(line[i], |sources|);
    }
  }

  lemma RemappedNamesAll(lines: seq<seq<Mapping>>, remap: seq<nat>, sources: seq<string>, all: seq<string>)
    requires RemapNames(remap, sources, all) && forall i :: 0 <= i < |lines| ==> LineInRange(lines[i], |sources|)
    ensures NamedLines(RemappedLines(lines, remap), all) == NamedLines(lines, sources)
  {
    forall i | 0 <= i < |lines|
      ensures NamedLine(RemappedLine(lines[i], remap), all) == NamedLine(lines[i], sources)
    {
      RemappedNames(lines[i], remap, sources, all);
    }
  }

  /** More sources at the end change no name. */
  lemma MoreSources(lines: seq<seq<Mapping>>, sources: seq<string>, all: seq<string>)
    requires sources <= all && forall i :: 0 <= i < |lines| ==> LineInRange(lines[i], |sources|)
    ensures NamedLines(lines, all) == NamedLines(lines, sources)
  {
    forall i | 0 <= i < |lines|
      ensures NamedLine(lines[i], all) == NamedLine(lines[i], sources)
    {
      forall j | 0 <= j < |lines[i]|
        ensures Named1(lines[i][j], all) == Named1(lines[i][j], sources)
      {
        assert InRange(lines[i][j], |sources|);
      }
    }
  }
}
