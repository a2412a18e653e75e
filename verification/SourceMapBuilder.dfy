/** Concatenation of sources and of their source maps. */
module SourceMapBuilder {
  import opened Basics
  import opened Vlq
  import opened DynamicBuffer
  import opened Mappings
  import opened Transcoder
  import opened SourceMaps
  import opened Scanning

  /** The reference reading of a text. */
  ghost function Reading(text: seq<Byte>): Decoder
    requires Lex(text).Some?
  {
    FeedAll(INIT, Lex(text).value)
  }

  lemma ReadOn(text: seq<Byte>, extra: seq<Byte>)
    requires Lex(text).Some? && Lex(extra).Some?
    ensures Lex(text + extra).Some?
    ensures Reading(text + extra) == FeedAll(Reading(text), Lex(extra).value)
  {
    LexConcat(text, extra);
    FeedConcat(INIT, Lex(text).value, Lex(extra).value);
  }

  ghost predicate LocOk(at: Loc) {
    0 <= at.source < LIMIT && 0 <= at.line < LIMIT && 0 <= at.col < LIMIT
  }

  /** The text has been read to the start of a line, with these totals. */
  ghost predicate AtLineStart(text: seq<Byte>, last: Loc) {
    && Lex(text).Some?
    && var o := Reading(text);
       o.ok && o.fields == [] && o.cur == [] && o.col == 0 && o.at == last && LocOk(last)
  }

  /** A column other than zero comes from a segment of the line. */
  lemma {:induction false} ColumnNeedsSegment(d: Decoder, ts: seq<Token>)
    requires d.ok && d.cur == [] ==> d.col == 0
    ensures var e := FeedAll(d, ts); e.ok && e.cur == [] ==> e.col == 0
    decreases |ts|
  {
    if ts != [] {
      ColumnNeedsSegment(Feed(d, ts[0]), ts[1..]);
    }
  }

  /** After reading the tokens ts, the text written since text0 says what they say. */
  ghost predicate Following(text0: seq<Byte>, text: seq<Byte>, remap: seq<nat>, ts: seq<Token>, c: Coder) {
    && Lex(text0).Some? && Lex(text).Some?
    && InStep(FeedAll(INIT, ts), c, Reading(text), Reading(text0), remap)
  }

  lemma FollowStart(text: seq<Byte>, last: Loc, remap: seq<nat>)
    requires AtLineStart(text, last)
    ensures Following(text, text, remap, [], Coder(0, 0, Loc(0, 0, 0), 0, last))
  {
    var o := Reading(text);
    assert o.lines + [] == o.lines;
  }

  lemma FollowField(text0: seq<Byte>, text: seq<Byte>, remap: seq<nat>, ts: seq<Token>, c: Coder, n: int)
    requires Following(text0, text, remap, ts, c)
    ensures Following(text0, text, remap, ts + [Num(n)], AddField(c, n))
    ensures FeedAll(INIT, ts + [Num(n)]).lines == FeedAll(INIT, ts).lines
  {
    FeedSnoc(INIT, ts, Num(n));
    FieldInStep(FeedAll(INIT, ts), c, Reading(text), Reading(text0), remap, n);
  }

  lemma FollowSeparator(text0: seq<Byte>, text: seq<Byte>, remap: seq<nat>, ts: seq<Token>, c: Coder, b: Byte)
    requires Following(text0, text, remap, ts, c) && IsSeparator(b) && RemapOk(remap)
    requires Clean(FeedAll(INIT, ts + [SeparatorToken(b)]), |remap|)
    ensures CanCommit(c, remap)
    ensures Following(text0, text + EncodeAll(Deltas(c, remap)) + [b], remap, ts + [SeparatorToken(b)],
                      Separate(c, SeparatorToken(b), remap))
  {
    var t := SeparatorToken(b);
    FeedSnoc(INIT, ts, t);
    SeparatorInStep(FeedAll(INIT, ts), c, Reading(text), Reading(text0), remap, t);
    var ns := Deltas(c, remap);
    LexEncodeAll(ns);
    LexSeparator(b);
    LexConcat(EncodeAll(ns), [b]);
    assert text + EncodeAll(ns) + [b] == text + (EncodeAll(ns) + [b]);
    ReadOn(text, EncodeAll(ns) + [b]);
  }

  /** The last segment, committed without a separator. */
  lemma FollowEnd(text0: seq<Byte>, text: seq<Byte>, remap: seq<nat>, ts: seq<Token>, c: Coder)
    requires Following(text0, text, remap, ts, c) && RemapOk(remap) && Clean(Flush(FeedAll(INIT, ts)), |remap|)
    ensures CanCommit(c, remap)
    ensures var text1 := text + EncodeAll(Deltas(c, remap));
            && Lex(text1).Some?
            && Reading(text1) == Reading(text).(fields := Deltas(c, remap))
            && InStep(Flush(FeedAll(INIT, ts)), Commit(c, remap), Flush(Reading(text1)), Reading(text0), remap)
  {
    CommitInStep(FeedAll(INIT, ts), c, Reading(text), Reading(text0), remap);
    var ns := Deltas(c, remap);
    LexEncodeAll(ns);
    ReadOn(text, EncodeAll(ns));
    FeedNums(Reading(text), ns);
    assert [] + ns == ns;
  }

  /** The map reads well from its beginning to any point. */
  lemma CleanSoFar(all: seq<Token>, ts: seq<Token>, rest: seq<Byte>, sources: nat)
    requires Left(all, ts, rest) && Clean(Flush(FeedAll(INIT, all)), sources)
    ensures Clean(FeedAll(INIT, ts), sources)
  {
    assert all == ts + all[|ts|..];
    FeedConcat(INIT, ts, all[|ts|..]);
    CleanPrefix(FeedAll(INIT, ts), all[|ts|..], sources);
  }

  /** A separator at ip: the tokens up to it read well, and a semicolon ends a line. */
  lemma SeparatorMeans(input: seq<Byte>, all: seq<Token>, ts: seq<Token>, start: nat, ip: nat, value: int, shift: nat,
                       sources: nat)
    requires Scanned(input, all, ts, start, ip, value, shift) && ip < |input| && IsSeparator(input[ip])
    requires Clean(Flush(FeedAll(INIT, all)), sources)
    ensures Scanned(input, all, ts + [SeparatorToken(input[ip])], ip + 1, ip + 1, 0, 0) && start == ip
    ensures value == 0 && shift == 0
    ensures Clean(FeedAll(INIT, ts + [SeparatorToken(input[ip])]), sources)
    ensures |FeedAll(INIT, ts + [SeparatorToken(input[ip])]).lines|
         == |FeedAll(INIT, ts).lines| + if input[ip] == SEMICOLON then 1 else 0
  {
    ScanSeparator(input, all, ts, start, ip, value, shift);
    CleanSoFar(all, ts + [SeparatorToken(input[ip])], input[ip + 1..], sources);
    FeedSnoc(INIT, ts, SeparatorToken(input[ip]));
  }

  /** The text that a source map may hold, its line count apart. */
  ghost predicate GoodText(input: seq<Byte>, sources: nat) {
    Lex(input).Some? && SmallNumbers(Lex(input).value) && Clean(Flush(Reading(input)), sources)
  }

  /** text1 continues text0 with what the input says, under the new source indices; its last line is still open. */
  ghost predicate Transcribed(text0: seq<Byte>, text1: seq<Byte>, last: Loc, input: seq<Byte>, remap: seq<nat>)
    requires Lex(input).Some? && Lex(text0).Some?
  {
    && Lex(text1).Some?
    && var e := Flush(Reading(input));
       var o := Flush(Reading(text1));
       && o.ok && o.fields == [] && o.at == last && LocOk(last) && o.col == e.col
       && o.lines == Reading(text0).lines + RemappedLines(e.lines, remap)
       && o.cur == RemappedLine(e.cur, remap)
       && (Reading(text1).fields != [] ==> e.cur != [])
  }

  method AddDigit(digit: nat, value: int, shift: nat) returns (value': int, shift': nat, field: Option<int>)
    requires digit < 64
    ensures var v := Accumulate(value, digit, shift);
            if digit >= 32 then value' == v && shift' == shift + 5 && field == None
            else value' == 0 && shift' == 0 && field == Some(Conclude(v))
  {
    value' := Accumulate(value, digit, shift);
    if digit / 32 % 2 == 1 {
      return value', shift + 5, None;
    }
    return 0, 0, Some(Conclude(value'));
  }

  /** One digit of a number: the number goes on, or is complete. */
  method TakeDigit(input: seq<Byte>, ip: nat, value: int, shift: nat,
                   ghost all: seq<Token>, ghost ts: seq<Token>, ghost start: nat)
    returns (value': int, shift': nat, field: Option<int>)
    requires Scanned(input, all, ts, start, ip, value, shift) && ip < |input| && !IsSeparator(input[ip])
    requires SmallNumbers(all)
    ensures field.None? ==> Scanned(input, all, ts, start, ip + 1, value', shift')
    ensures field.Some? ==> Scanned(input, all, ts + [Num(field.value)], ip + 1, ip + 1, value', shift')
  {
    ScanDigit(input, all, ts, start, ip, value, shift);
    value', shift', field := AddDigit(CharToInteger(input[ip]), value, shift);
  }

  // ---------- closing the lines of a source ----------

  function Semicolons(n: nat): seq<Byte> {
    seq(n, i => SEMICOLON)
  }

  lemma {:induction false} LexSemicolons(n: nat)
    ensures Lex(Semicolons(n)).Some? && Lex(Semicolons(n)).value == seq(n, i => Semi)
    decreases n
  {
    if n > 0 {
      LexSemicolons(n - 1);
      LexSeparator(SEMICOLON);
      assert Semicolons(n) == [SEMICOLON] + Semicolons(n - 1);
      LexConcat([SEMICOLON], Semicolons(n - 1));
      assert seq(n, i => Semi) == [Semi] + seq(n - 1, i => Semi);
    }
  }

  lemma {:induction false} FeedSemis(o: Decoder, n: nat)
    ensures var r := FeedAll(o, seq(n, i => Semi));
            var e := Flush(o);
            r == if n == 0 then o else e.(lines := e.lines + [e.cur] + Blank(n - 1), cur := [], col := 0)
    decreases n
  {
    var ts := seq(n, i => Semi);
    if n > 0 {
      var p := Feed(o, Semi);
      FeedSemis(p, n - 1);
      assert ts[1..] == seq(n - 1, i => Semi);
      var e := Flush(o);
      if n > 1 {
        assert e.lines + [e.cur] + [[]] + Blank(n - 2) == e.lines + [e.cur] + Blank(n - 1);
      } else {
        assert e.lines + [e.cur] + Blank(0) == e.lines + [e.cur];
      }
    }
  }

  /** Semicolons up to the line count of the source leave the text at a line start, saying what the input says. */
  lemma PadMeans(text0: seq<Byte>, text1: seq<Byte>, last: Loc, input: seq<Byte>, remap: seq<nat>, lines: nat)
    requires Lex(input).Some? && Lex(text0).Some? && Transcribed(text0, text1, last, input, remap)
    requires var e := Flush(Reading(input)); |e.lines| <= lines && (|e.lines| == lines ==> e.cur == [] && e.ok)
    ensures var text2 := text1 + Semicolons(lines - |Flush(Reading(input)).lines|);
            && AtLineStart(text2, last)
            && Reading(text2).lines == Reading(text0).lines + RemappedLines(LinesOf(Reading(input), lines), remap)
  {
    var e := Flush(Reading(input));
    var n := lines - |e.lines|;
    LexSemicolons(n);
    ReadOn(text1, Semicolons(n));
    FeedSemis(Reading(text1), n);
    if n > 0 {
      RemappedBlank(e.lines, e.cur, n - 1, remap);
      LinesAssociate(Reading(text0).lines, RemappedLines(e.lines, remap), [RemappedLine(e.cur, remap)], Blank(n - 1));
    } else {
      ColumnNeedsSegment(INIT, Lex(input).value);
    }
  }

  lemma LinesAssociate(a: seq<seq<Mapping>>, b: seq<seq<Mapping>>, c: seq<seq<Mapping>>, d: seq<seq<Mapping>>)
    ensures a + b + c + d == a + (b + c + d)
  {
  }

  lemma RemappedBlank(lines: seq<seq<Mapping>>, cur: seq<Mapping>, n: nat, remap: seq<nat>)
    ensures RemappedLines(lines + [cur] + Blank(n), remap)
         == RemappedLines(lines, remap) + [RemappedLine(cur, remap)] + Blank(n)
  {
    var l := RemappedLines(lines + [cur] + Blank(n), remap);
    var r := RemappedLines(lines, remap) + [RemappedLine(cur, remap)] + Blank(n);
    forall i | 0 <= i < |l| ensures l[i] == r[i] {
      if i > |lines| {
        assert (lines + [cur] + Blank(n))[i] == [] && r[i] == [];
      }
    }
  }

  // ---------- the builder between calls ----------

  ghost predicate LinesInRange(lines: seq<seq<Mapping>>, sources: nat) {
    forall i :: 0 <= i < |lines| ==> LineInRange(lines[i], sources)
  }

  /** The text stands at a line start, has one line for each line of the output, and names only known sources. */
  ghost predicate Sound(text: seq<Byte>, output: seq<Byte>, sources: seq<string>, last: Loc) {
    && AtLineStart(text, last)
    && |Reading(text).lines| == CountNL(output)
    && LinesInRange(Reading(text).lines, |sources|)
    && |sources| <= LIMIT && Distinct(sources)
  }

  /** What the output's map says about each line of the output. */
  ghost function Meaning(text: seq<Byte>, sources: seq<string>): seq<seq<NamedMapping>>
    requires Lex(text).Some?
  {
    NamedLines(Reading(text).lines, sources)
  }

  lemma LinesOfInRange(d: Decoder, lines: nat, sources: nat)
    requires Clean(Flush(d), sources)
    ensures LinesInRange(LinesOf(d, lines), sources)
  {
    var e := Flush(d);
    var ls := LinesOf(d, lines);
    forall i | 0 <= i < |ls| ensures LineInRange(ls[i], sources) {
      if i < |e.lines| {
        assert ls[i] == e.lines[i];
      }
    }
  }

  lemma RemappedInRange(lines: seq<seq<Mapping>>, remap: seq<nat>, sources: nat, all: nat)
    requires LinesInRange(lines, sources) && |remap| == sources && forall i :: 0 <= i < |remap| ==> remap[i] < all
    ensures LinesInRange(RemappedLines(lines, remap), all)
  {
    forall i | 0 <= i < |lines| ensures LineInRange(RemappedLine(lines[i], remap), all) {
      forall j | 0 <= j < |lines[i]| ensures InRange(Remapped(lines[i][j], remap), all) {
        assert LineInRange(lines[i], sources) && InRange(lines[i][j], sources);
      }
    }
  }

  lemma NamedLinesConcat(a: seq<seq<Mapping>>, b: seq<seq<Mapping>>, sources: seq<string>)
    ensures NamedLines(a + b, sources) == NamedLines(a, sources) + NamedLines(b, sources)
  {
  }

  lemma LinesInRangeConcat(a: seq<seq<Mapping>>, b: seq<seq<Mapping>>, m: nat, n: nat)
    requires LinesInRange(a, m) && LinesInRange(b, n) && m <= n
    ensures LinesInRange(a + b, n)
  {
    forall i | 0 <= i < |a + b| ensures LineInRange((a + b)[i], n) {
      if i < |a| {
        assert LineInRange(a[i], m);
        forall j | 0 <= j < |a[i]| ensures InRange(a[i][j], n) { assert InRange(a[i][j], m); }
      }
    }
  }

  /** Adding a source adds what its map says, line for line, under the same source names. */
  lemma AddedMeans(text: seq<Byte>, output: seq<Byte>, names: seq<string>, last: Loc,
                   source: Source, remap: seq<nat>, text2: seq<Byte>, all: seq<string>, last2: Loc)
    requires Sound(text, output, names, last) && WellFormed(source)
    requires names <= all && |all| <= LIMIT && Distinct(all) && RemapNames(remap, source.sources, all)
    requires AtLineStart(text2, last2)
    requires Reading(text2).lines
          == Reading(text).lines + RemappedLines(LinesOf(Reading(source.mappings), source.lines), remap)
    ensures Sound(text2, output + source.content, all, last2)
    ensures Meaning(text2, all) == Meaning(text, names) + SourceMeaning(source)
  {
    var d := Reading(source.mappings);
    var ls := LinesOf(d, source.lines);
    var before, added := Reading(text).lines, RemappedLines(ls, remap);
    LinesOfInRange(d, source.lines, |source.sources|);
    RemappedInRange(ls, remap, |source.sources|, |all|);
    LinesInRangeConcat(before, added, |names|, |all|);
    CountNLConcat(output, source.content);
    NamedLinesConcat(before, added, all);
    MoreSources(before, names, all);
    RemappedNamesAll(ls, remap, source.sources, all);
  }

  function Missing(from: nat, lines: nat): nat {
    if from < lines then lines - from else 0
  }

  /** Padding closes the lines of a map within its content, and does nothing for one that overruns it. */
  lemma PadEither(text0: seq<Byte>, text1: seq<Byte>, last: Loc, source: Source, remap: seq<nat>, outputLine: nat)
    requires Readable(source) && Lex(text0).Some? && Transcribed(text0, text1, last, source.mappings, remap)
    requires outputLine == |Flush(Reading(source.mappings)).lines|
    ensures var text2 := text1 + Semicolons(Missing(outputLine, source.lines));
            && Lex(text2).Some?
            && (if WithinContent(source) then
                  && AtLineStart(text2, last)
                  && Reading(text2).lines == Reading(text0).lines
                       + RemappedLines(LinesOf(Reading(source.mappings), source.lines), remap)
                else Transcribed(text0, text2, last, source.mappings, remap))
  {
    if WithinContent(source) {
      PadMeans(text0, text1, last, source.mappings, remap, source.lines);
    } else {
      assert text1 + Semicolons(0) == text1;
    }
  }

  /** A map with lines that the content does not have leaves the output's map out of step. */
  lemma OverrunsContent(text: seq<Byte>, output: seq<Byte>, names: seq<string>, last: Loc,
                        source: Source, remap: seq<nat>, text1: seq<Byte>, all: seq<string>, last1: Loc)
    requires Sound(text, output, names, last) && Readable(source) && !WithinContent(source)
    requires Transcribed(text, text1, last1, source.mappings, remap)
    ensures !Sound(text1, output + source.content, all, last1)
  {
    var e, o := Flush(Reading(source.mappings)), Reading(text1);
    CountNLConcat(output, source.content);
    assert |Flush(o).lines| == |Reading(text).lines| + |e.lines|;
    if o.fields == [] {
      assert Flush(o) == o;
    }
  }

  /** A digit of the input, and the field it may complete. */
  method PutDigit(input: seq<Byte>, ip: nat, c: Coder, value: int, shift: nat, ghost remap: seq<nat>,
                  ghost text0: seq<Byte>, ghost text: seq<Byte>,
                  ghost all: seq<Token>, ghost ts: seq<Token>, ghost start: nat)
    returns (c': Coder, value': int, shift': nat, ghost ts': seq<Token>, ghost start': nat)
    requires Scanned(input, all, ts, start, ip, value, shift) && ip < |input| && !IsSeparator(input[ip])
    requires SmallNumbers(all) && Following(text0, text, remap, ts, c)
    ensures Scanned(input, all, ts', start', ip + 1, value', shift') && Following(text0, text, remap, ts', c')
    ensures c'.last == c.last && FeedAll(INIT, ts').lines == FeedAll(INIT, ts).lines
  {
    var field;
    c', ts', start' := c, ts, start;
    value', shift', field := TakeDigit(input, ip, value, shift, all, ts, start);
    if field.Some? {
      FollowField(text0, text, remap, ts, c, field.value);
      c' := AddField(c, field.value);
      ts', start' := ts + [Num(field.value)], ip + 1;
    }
  }

  class SourceMapBuilder {
    const outputBuffer: DynamicBuffer
    const mappings: DynamicBuffer
    var sources: seq<string>
    var lastSourceIndex: int
    var lastSourceLine: int
    var lastSourceCol: int

    ghost predicate Valid()
      reads this, outputBuffer, mappings
    {
      && outputBuffer != mappings && outputBuffer.buffer != mappings.buffer
      && outputBuffer.Valid() && mappings.Valid()
    }

    function Last(): Loc
      reads this
    {
      Loc(lastSourceIndex, lastSourceLine, lastSourceCol)
    }

    constructor ()
      ensures Valid() && fresh(outputBuffer) && fresh(mappings) && fresh(outputBuffer.buffer) && fresh(mappings.buffer)
      ensures outputBuffer.Contents() == [] && mappings.Contents() == [] && sources == [] && Last() == Loc(0, 0, 0)
    {
      outputBuffer := new DynamicBuffer();
      mappings := new DynamicBuffer();
      sources, lastSourceIndex, lastSourceLine, lastSourceCol := [], 0, 0, 0;
    }

    ghost predicate IsSound()
      requires Valid()
      reads this, outputBuffer, mappings, outputBuffer.buffer, mappings.buffer
    {
      Sound(mappings.Contents(), outputBuffer.Contents(), sources, Last())
    }

    /**
     Appends a source, and what its map says to the output's map. The map keeps its line for line match exactly when
     the added map has no line that the content does not have.
     */
    method AddSource(source: Source)
      requires Valid() && IsSound() && Readable(source) && |sources| + |source.sources| <= LIMIT
      modifies this, outputBuffer, mappings, outputBuffer.buffer, mappings.buffer
      ensures Valid() && Lex(mappings.Contents()).Some?
      ensures IsSound() <==> WithinContent(source)
      ensures outputBuffer.Contents() == old(outputBuffer.Contents()) + source.content
      ensures old(sources) <= sources && |sources| <= |old(sources)| + |source.sources|
      ensures WithinContent(source) ==>
                Meaning(mappings.Contents(), sources)
                == old(Meaning(mappings.Contents(), sources)) + SourceMeaning(source)
      ensures outputBuffer.buffer == old(outputBuffer.buffer) || fresh(outputBuffer.buffer)
      ensures mappings.buffer == old(mappings.buffer) || fresh(mappings.buffer)
    {
      ghost var text, output, names, last := mappings.Contents(), outputBuffer.Contents(), sources, Last();
      outputBuffer.AddBuffer(source.content);
      var remap := RemapSources(source.sources);
      AddMappings(source, remap);
      if WithinContent(source) {
        AddedMeans(text, output, names, last, source, remap, mappings.Contents(), sources, Last());
      } else {
        OverrunsContent(text, output, names, last, source, remap, mappings.Contents(), sources, Last());
      }
    }

    method AddMappings(source: Source, remap: seq<nat>)
      requires Valid() && Readable(source) && |remap| == |source.sources| && RemapOk(remap)
      requires AtLineStart(mappings.Contents(), Last())
      modifies this`lastSourceIndex, this`lastSourceLine, this`lastSourceCol, mappings, mappings.buffer
      ensures Valid() && Lex(mappings.Contents()).Some?
      ensures WithinContent(source) ==>
                && AtLineStart(mappings.Contents(), Last())
                && Reading(mappings.Contents()).lines == old(Reading(mappings.Contents()).lines)
                     + RemappedLines(LinesOf(Reading(source.mappings), source.lines), remap)
      ensures !WithinContent(source) ==>
                Transcribed(old(mappings.Contents()), mappings.Contents(), Last(), source.mappings, remap)
      ensures mappings.buffer == old(mappings.buffer) || fresh(mappings.buffer)
    {
      ghost var text := mappings.Contents();
      var outputLine := Transcribe(source.mappings, remap);
      PadEither(text, mappings.Contents(), Last(), source, remap, outputLine);
      PadLines(outputLine, source.lines);
    }

    method PadLines(from: nat, lines: nat)
      requires Valid()
      modifies mappings, mappings.buffer
      ensures Valid()
      ensures mappings.Contents() == old(mappings.Contents()) + Semicolons(Missing(from, lines))
      ensures mappings.buffer == old(mappings.buffer) || fresh(mappings.buffer)
    {
      var outputLine := from;
      while outputLine < lines
        invariant from <= outputLine && (outputLine <= lines || outputLine == from) && Valid()
        invariant mappings.Contents() == old(mappings.Contents()) + Semicolons(outputLine - from)
        invariant mappings.buffer == old(mappings.buffer) || fresh(mappings.buffer)
      {
        mappings.AddByte(SEMICOLON);
        outputLine := outputLine + 1;
        assert Semicolons(outputLine - from) == Semicolons(outputLine - 1 - from) + [SEMICOLON];
      }
    }

    method ToContent() returns (output: seq<Byte>)
      requires Valid()
      ensures output == outputBuffer.Contents()
    {
      output := outputBuffer.ToBuffer();
    }

    method ToSourceMap() returns (text: seq<Byte>, names: seq<string>)
      requires Valid()
      ensures text == mappings.Contents() && names == sources
    {
      text := mappings.ToBuffer();
      names := sources;
    }

    /** The index in the output of each source name, adding the names that are new. */
    method RemapSources(names: seq<string>) returns (remap: seq<nat>)
      requires Distinct(sources)
      modifies this`sources
      ensures RemapNames(remap, names, sources)
      ensures old(sources) <= sources && |sources| <= |old(sources)| + |names| && Distinct(sources)
    {
      remap := [];
      for i := 0 to |names|
        invariant |remap| == i && RemapNames(remap, names[..i], sources)
        invariant old(sources) <= sources && |sources| <= |old(sources)| + i && Distinct(sources)
      {
        var pos := IndexOf(sources, names[i]);
        if pos < 0 {
          pos := |sources|;
          sources := sources + [names[i]];
        }
        remap := remap + [pos];
      }
      assert names[..|names|] == names;
    }

    /** A text and one semicolon; the map keeps its line for line match exactly when the text has no newline. */
    method AddLine(text: seq<Byte>)
      requires Valid() && IsSound()
      modifies outputBuffer, mappings, outputBuffer.buffer, mappings.buffer
      ensures Valid() && Lex(mappings.Contents()).Some?
      ensures IsSound() <==> CountNL(text) == 0
      ensures outputBuffer.Contents() == old(outputBuffer.Contents()) + text + [NEWLINE]
      ensures Meaning(mappings.Contents(), sources) == old(Meaning(mappings.Contents(), sources)) + [[]]
    {
      LineMeans(mappings.Contents(), outputBuffer.Contents(), sources, Last(), text);
      outputBuffer.AddBuffer(text);
      outputBuffer.AddByte(NEWLINE);
      mappings.AddByte(SEMICOLON);
    }

    /** Writes the segment just read against the output's bases, which it becomes. */
    method CommitSegment(c: Coder, remap: seq<nat>) returns (r: Coder)
      requires Valid() && CanCommit(c, remap) && Last() == c.last
      modifies this`lastSourceIndex, this`lastSourceLine, this`lastSourceCol, mappings, mappings.buffer
      ensures Valid() && r == Commit(c, remap) && Last() == r.last
      ensures mappings.Contents() == old(mappings.Contents()) + EncodeAll(Deltas(c, remap))
      ensures mappings.buffer == old(mappings.buffer) || fresh(mappings.buffer)
    {
      if c.valpos == 0 {
        return c;
      }
      if c.valpos == 1 {
        WriteColumn(c.inCol - c.lastCol);
        return c.(valpos := 0, lastCol := c.inCol);
      }
      WriteSegment(c.inCol - c.lastCol, Loc(remap[c.inAt.source], c.inAt.line, c.inAt.col));
      return c.(valpos := 0, lastCol := c.inCol, last := Last());
    }

    method WriteColumn(col: int)
      requires Valid()
      modifies mappings, mappings.buffer
      ensures Valid() && mappings.Contents() == old(mappings.Contents()) + EncodeAll([col])
      ensures mappings.buffer == old(mappings.buffer) || fresh(mappings.buffer)
    {
      mappings.AddVLQ(col);
      EncodeOne(col);
    }

    /** A column and an original location, each relative to the one written before. */
    method WriteSegment(col: int, at: Loc)
      requires Valid()
      modifies this`lastSourceIndex, this`lastSourceLine, this`lastSourceCol, mappings, mappings.buffer
      ensures Valid() && Last() == at
      ensures mappings.Contents() == old(mappings.Contents()) +
              EncodeAll([col, at.source - old(lastSourceIndex), at.line - old(lastSourceLine),
                         at.col - old(lastSourceCol)])
      ensures mappings.buffer == old(mappings.buffer) || fresh(mappings.buffer)
    {
      ghost var text, deltas := mappings.Contents(),
        [col, at.source - lastSourceIndex, at.line - lastSourceLine, at.col - lastSourceCol];
      mappings.AddVLQ(col);
      WriteLocation(at);
      EncodeFour(text, deltas);
    }

    /** A separator of the input: the segment before it is written, then the separator. */
    method PutSeparator(b: Byte, c: Coder, remap: seq<nat>, ghost text0: seq<Byte>, ghost ts: seq<Token>)
      returns (r: Coder)
      requires Valid() && Last() == c.last && IsSeparator(b) && RemapOk(remap)
      requires Following(text0, mappings.Contents(), remap, ts, c)
      requires Clean(FeedAll(INIT, ts + [SeparatorToken(b)]), |remap|)
      modifies this`lastSourceIndex, this`lastSourceLine, this`lastSourceCol, mappings, mappings.buffer
      ensures Valid() && Last() == r.last
      ensures Following(text0, mappings.Contents(), remap, ts + [SeparatorToken(b)], r)
      ensures mappings.buffer == old(mappings.buffer) || fresh(mappings.buffer)
    {
      FollowSeparator(text0, mappings.Contents(), remap, ts, c, b);
      r := CommitAndSeparate(b, c, remap);
    }

    method CommitAndSeparate(b: Byte, c: Coder, remap: seq<nat>) returns (r: Coder)
      requires Valid() && CanCommit(c, remap) && Last() == c.last && IsSeparator(b)
      modifies this`lastSourceIndex, this`lastSourceLine, this`lastSourceCol, mappings, mappings.buffer
      ensures Valid() && r == Separate(c, SeparatorToken(b), remap) && Last() == r.last
      ensures mappings.Contents() == old(mappings.Contents()) + EncodeAll(Deltas(c, remap)) + [b]
      ensures mappings.buffer == old(mappings.buffer) || fresh(mappings.buffer)
    {
      r := CommitSegment(c, remap);
      mappings.AddByte(b);
      if b == SEMICOLON {
        r := r.(inCol := 0, lastCol := 0);
      }
    }

    /** The last segment of the input is written. */
    method PutLast(input: seq<Byte>, c: Coder, remap: seq<nat>, ghost text0: seq<Byte>)
      requires Valid() && Last() == c.last && GoodText(input, |remap|) && RemapOk(remap)
      requires Following(text0, mappings.Contents(), remap, Lex(input).value, c)
      modifies this`lastSourceIndex, this`lastSourceLine, this`lastSourceCol, mappings, mappings.buffer
      ensures Valid() && Transcribed(text0, mappings.Contents(), Last(), input, remap)
      ensures mappings.buffer == old(mappings.buffer) || fresh(mappings.buffer)
    {
      FollowEnd(text0, mappings.Contents(), remap, Lex(input).value, c);
      var r := CommitSegment(c, remap);
    }

    /** The byte loop: decodes the input's numbers and writes its segments against the output's bases. */
    method Transcribe(input: seq<Byte>, remap: seq<nat>) returns (outputLine: nat)
      requires Valid() && GoodText(input, |remap|) && RemapOk(remap) && AtLineStart(mappings.Contents(), Last())
      modifies this`lastSourceIndex, this`lastSourceLine, this`lastSourceCol, mappings, mappings.buffer
      ensures Valid() && outputLine == |Flush(Reading(input)).lines|
      ensures Transcribed(old(mappings.Contents()), mappings.Contents(), Last(), input, remap)
      ensures mappings.buffer == old(mappings.buffer) || fresh(mappings.buffer)
    {
      ghost var text0 := mappings.Contents();
      var c;
      c, outputLine := ReadInput(input, remap);
      PutLast(input, c, remap, text0);
    }

    method ReadInput(input: seq<Byte>, remap: seq<nat>) returns (c: Coder, outputLine: nat)
      requires Valid() && GoodText(input, |remap|) && RemapOk(remap) && AtLineStart(mappings.Contents(), Last())
      modifies this`lastSourceIndex, this`lastSourceLine, this`lastSourceCol, mappings, mappings.buffer
      ensures Valid() && Last() == c.last && outputLine == |Reading(input).lines|
      ensures Following(old(mappings.Contents()), mappings.Contents(), remap, Lex(input).value, c)
      ensures mappings.buffer == old(mappings.buffer) || fresh(mappings.buffer)
    {
      ScanStart(input);
      c, outputLine := ReadTokens(input, remap, Lex(input).value);
    }

    method ReadTokens(input: seq<Byte>, remap: seq<nat>, ghost all: seq<Token>) returns (c: Coder, outputLine: nat)
      requires Valid() && RemapOk(remap) && AtLineStart(mappings.Contents(), Last())
      requires Scanned(input, all, [], 0, 0, 0, 0) && SmallNumbers(all) && Clean(Flush(FeedAll(INIT, all)), |remap|)
      modifies this`lastSourceIndex, this`lastSourceLine, this`lastSourceCol, mappings, mappings.buffer
      ensures Valid() && Last() == c.last && outputLine == |FeedAll(INIT, all).lines|
      ensures Following(old(mappings.Contents()), mappings.Contents(), remap, all, c)
      ensures mappings.buffer == old(mappings.buffer) || fresh(mappings.buffer)
    {
      ghost var text0 := mappings.Contents();
      ghost var ts: seq<Token>, start: nat := [], 0;
      c := Coder(0, 0, Loc(0, 0, 0), 0, Last());
      var ip: nat, value: int, shift: nat := 0, 0, 0;
      outputLine := 0;
      FollowStart(text0, Last(), remap);
      while ip < |input|
        invariant Valid() && Last() == c.last
        invariant Scanned(input, all, ts, start, ip, value, shift)
        invariant Following(text0, mappings.Contents(), remap, ts, c)
        invariant outputLine == |FeedAll(INIT, ts).lines|
        invariant mappings.buffer == old(mappings.buffer) || fresh(mappings.buffer)
      {
        c, value, shift, outputLine, ts, start :=
          ReadByte(input, ip, c, value, shift, outputLine, remap, text0, all, ts, start);
        ip := ip + 1;
      }
      ScanEnd(input, all, ts, start, value, shift);
    }

    method ReadByte(input: seq<Byte>, ip: nat, c: Coder, value: int, shift: nat, outputLine: nat, remap: seq<nat>,
                    ghost text0: seq<Byte>, ghost all: seq<Token>, ghost ts: seq<Token>, ghost start: nat)
      returns (c': Coder, value': int, shift': nat, outputLine': nat, ghost ts': seq<Token>, ghost start': nat)
      requires Valid() && RemapOk(remap) && Last() == c.last && outputLine == |FeedAll(INIT, ts).lines|
      requires Scanned(input, all, ts, start, ip, value, shift) && ip < |input|
      requires SmallNumbers(all) && Clean(Flush(FeedAll(INIT, all)), |remap|)
      requires Following(text0, mappings.Contents(), remap, ts, c)
      modifies this`lastSourceIndex, this`lastSourceLine, this`lastSourceCol, mappings, mappings.buffer
      ensures Valid() && Last() == c'.last && outputLine' == |FeedAll(INIT, ts').lines|
      ensures Scanned(input, all, ts', start', ip + 1, value', shift')
      ensures Following(text0, mappings.Contents(), remap, ts', c')
      ensures mappings.buffer == old(mappings.buffer) || fresh(mappings.buffer)
    {
      var b := input[ip];
      if IsSeparator(b) {
        SeparatorMeans(input, all, ts, start, ip, value, shift, |remap|);
        c' := PutSeparator(b, c, remap, text0, ts);
        outputLine' := if b == SEMICOLON then outputLine + 1 else outputLine;
        value', shift', ts', start' := value, shift, ts + [SeparatorToken(b)], ip + 1;
      } else {
        outputLine' := outputLine;
        c', value', shift', ts', start' :=
          PutDigit(input, ip, c, value, shift, remap, text0, mappings.Contents(), all, ts, start);
      }
    }

    /** The three numbers of an original location, each relative to the location written before. */
    method WriteLocation(at: Loc)
      requires Valid()
      modifies this`lastSourceIndex, this`lastSourceLine, this`lastSourceCol, mappings, mappings.buffer
      ensures Valid() && Last() == at
      ensures mappings.Contents() == old(mappings.Contents()) + Encode(at.source - old(lastSourceIndex))
                                     + Encode(at.line - old(lastSourceLine)) + Encode(at.col - old(lastSourceCol))
      ensures mappings.buffer == old(mappings.buffer) || fresh(mappings.buffer)
    {
      mappings.AddVLQ(at.source - lastSourceIndex);
      lastSourceIndex := at.source;
      WritePosition(at.line, at.col);
    }

    method WritePosition(line: int, col: int)
      requires Valid()
      modifies this`lastSourceLine, this`lastSourceCol, mappings, mappings.buffer
      ensures Valid() && lastSourceLine == line && lastSourceCol == col
      ensures mappings.Contents() ==
              old(mappings.Contents()) + Encode(line - old(lastSourceLine)) + Encode(col - old(lastSourceCol))
      ensures mappings.buffer == old(mappings.buffer) || fresh(mappings.buffer)
    {
      mappings.AddVLQ(line - lastSourceLine);
      lastSourceLine := line;
      mappings.AddVLQ(col - lastSourceCol);
      lastSourceCol := col;
    }
  }

  lemma LineMeans(text: seq<Byte>, output: seq<Byte>, sources: seq<string>, last: Loc, line: seq<Byte>)
    requires Sound(text, output, sources, last)
    ensures Lex(text + [SEMICOLON]).Some?
    ensures Sound(text + [SEMICOLON], output + line + [NEWLINE], sources, last) <==> CountNL(line) == 0
    ensures Meaning(text + [SEMICOLON], sources) == Meaning(text, sources) + [[]]
  {
    LexSeparator(SEMICOLON);
    ReadOn(text, [SEMICOLON]);
    FeedSnoc(Reading(text), [], Semi);
    assert [] + [Semi] == [Semi];
    CountNLConcat(output, line);
    CountNLConcat(output + line, [NEWLINE]);
    assert [NEWLINE][..0] == [];
    assert Reading(text + [SEMICOLON]).lines == Reading(text).lines + [[]];
    NamedLinesConcat(Reading(text).lines, [[]], sources);
    assert NamedLines([[]], sources) == [[]];
  }

  ghost function CountByte(s: seq<Byte>, b: Byte): nat {
    if s == [] then 0 else (if s[0] == b then 1 else 0) + CountByte(s[1..], b)
  }

  lemma {:induction false} NumberHasNoSemicolon(s: seq<Byte>)
    requires TakeVlq(s).Some?
    ensures CountByte(s, SEMICOLON) == CountByte(s[TakeVlq(s).value.length..], SEMICOLON)
    decreases |s|
  {
    var v := TakeVlq(s).value;
    if v.length > 1 {
      NumberHasNoSemicolon(s[1..]);
      assert s[1..][v.length - 1..] == s[v.length..];
    }
  }

  lemma {:induction false} SemicolonsAreLines(d: Decoder, s: seq<Byte>)
    requires Lex(s).Some?
    ensures |FeedAll(d, Lex(s).value).lines| == |d.lines| + CountByte(s, SEMICOLON)
    decreases |s|
  {
    if s != [] {
      var x := FirstLexeme(s).value;
      LexTail(s, x);
      assert Lex(s).value[1..] == Lex(s[x.length..]).value;
      SemicolonsAreLines(Feed(d, x.token), s[x.length..]);
      if x.token.Num? {
        NumberHasNoSemicolon(s);
      }
    }
  }

  /** The map has as many semicolons as the output has newlines. */
  lemma SemicolonsAreNewlines(text: seq<Byte>, output: seq<Byte>, sources: seq<string>, last: Loc)
    requires Sound(text, output, sources, last)
    ensures CountByte(text, SEMICOLON) == CountNL(output)
  {
    SemicolonsAreLines(INIT, text);
  }

  /** The first position of a name, or -1. */
  method IndexOf(names: seq<string>, v: string) returns (pos: int)
    ensures pos == -1 ==> v !in names
    ensures pos != -1 ==> 0 <= pos < |names| && names[pos] == v && v !in names[..pos]
  {
    for i := 0 to |names|
      invariant v !in names[..i]
    {
      if names[i] == v {
        return i;
      }
    }
    return -1;
  }

  lemma EncodeOne(n: int)
    ensures EncodeAll([n]) == Encode(n)
  {
    assert [n][..0] == [];
  }

  lemma EncodeFour(text: seq<Byte>, ns: seq<int>)
    requires |ns| == 4
    ensures text + EncodeAll(ns) == text + Encode(ns[0]) + Encode(ns[1]) + Encode(ns[2]) + Encode(ns[3])
  {
    assert ns[..3][..2] == ns[..2] && ns[..2][..1] == ns[..1] && ns[..1] == [ns[0]];
    EncodeOne(ns[0]);
    assert EncodeAll(ns[..2]) == EncodeAll(ns[..1]) + Encode(ns[1]);
    assert EncodeAll(ns[..3]) == EncodeAll(ns[..2]) + Encode(ns[2]);
    Associate(text, Encode(ns[0]), Encode(ns[1]), Encode(ns[2]), Encode(ns[3]));
  }

  lemma Associate(t: seq<Byte>, a: seq<Byte>, b: seq<Byte>, c: seq<Byte>, d: seq<Byte>)
    ensures t + (a + b + c + d) == t + a + b + c + d
  {
  }
}
