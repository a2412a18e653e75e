/** Re-encoding a mappings text against other bases and source indices, token by token. */
module Transcoder {
  import opened Basics
  import opened Vlq
  import opened Mappings

  /** The running variables of `addSource`: fields read of the segment, input totals, and the bases of the output. */
  datatype Coder = Coder(
    valpos: nat,
    inCol: int,
    inAt: Loc,
    lastCol: int,
    last: Loc)

  // ---------- what the source does with a token ----------

  predicate CanCommit(c: Coder, remap: seq<nat>) {
    c.valpos <= 1 || 0 <= c.inAt.source < |remap|
  }

  /** The numbers that `commit` writes. */
  function Deltas(c: Coder, remap: seq<nat>): seq<int>
    requires CanCommit(c, remap)
  {
    if c.valpos == 0 then []
    else if c.valpos == 1 then [c.inCol - c.lastCol]
    else [c.inCol - c.lastCol, remap[c.inAt.source] - c.last.source, c.inAt.line - c.last.line, c.inAt.col - c.last.col]
  }

  function Nums(ns: seq<int>): seq<Token> {
    seq(|ns|, i requires 0 <= i < |ns| => Num(ns[i]))
  }

  function Commit(c: Coder, remap: seq<nat>): Coder
    requires CanCommit(c, remap)
  {
    c.(valpos := 0,
       lastCol := if c.valpos == 0 then c.lastCol else c.inCol,
       last := if c.valpos <= 1 then c.last else Loc(remap[c.inAt.source], c.inAt.line, c.inAt.col))
  }

  function AddField(c: Coder, n: int): Coder {
    var at := c.inAt;
    c.(valpos := c.valpos + 1,
       inCol := if c.valpos == 0 then c.inCol + n else c.inCol,
       inAt := Loc(if c.valpos == 1 then at.source + n else at.source,
                   if c.valpos == 2 then at.line + n else at.line,
                   if c.valpos == 3 then at.col + n else at.col))
  }

  function Separate(c: Coder, t: Token, remap: seq<nat>): Coder
    requires !t.Num? && CanCommit(c, remap)
  {
    var e := Commit(c, remap);
    if t.Semi? then e.(inCol := 0, lastCol := 0) else e
  }

  // ---------- what the tokens mean ----------

  ghost predicate InRange(m: Mapping, sources: nat) {
    && 0 <= m.col < LIMIT
    && (m.Mapped? ==> 0 <= m.loc.source < sources && 0 <= m.loc.line < LIMIT && 0 <= m.loc.col < LIMIT)
  }

  ghost predicate LineInRange(line: seq<Mapping>, sources: nat) {
    forall i :: 0 <= i < |line| ==> InRange(line[i], sources)
  }

  ghost predicate Clean(d: Decoder, sources: nat) {
    && d.ok
    && (forall i :: 0 <= i < |d.lines| ==> LineInRange(d.lines[i], sources))
    && LineInRange(d.cur, sources)
  }

  /** The same mapping under the builder's source indices. */
  function Remapped(m: Mapping, remap: seq<nat>): Mapping {
    match m
    case Unmapped(_) => m
    case Mapped(col, loc) => Mapped(col, loc.(source := if 0 <= loc.source < |remap| then remap[loc.source] else 0))
  }

  function RemappedLine(line: seq<Mapping>, remap: seq<nat>): seq<Mapping> {
    seq(|line|, i requires 0 <= i < |line| => Remapped(line[i], remap))
  }

  function RemappedLines(lines: seq<seq<Mapping>>, remap: seq<nat>): seq<seq<Mapping>> {
    seq(|lines|, i requires 0 <= i < |lines| => RemappedLine(lines[i], remap))
  }

  lemma RemappedLineSnoc(line: seq<Mapping>, m: Mapping, remap: seq<nat>)
    ensures RemappedLine(line + [m], remap) == RemappedLine(line, remap) + [Remapped(m, remap)]
  {
  }

  lemma RemappedLinesSnoc(lines: seq<seq<Mapping>>, line: seq<Mapping>, remap: seq<nat>)
    ensures RemappedLines(lines + [line], remap) == RemappedLines(lines, remap) + [RemappedLine(line, remap)]
  {
  }

  // ---------- the two readings side by side ----------

  function Field(d: Decoder, i: nat): int {
    if i < |d.fields| then d.fields[i] else 0
  }

  ghost predicate RemapOk(remap: seq<nat>) {
    forall i :: 0 <= i < |remap| ==> remap[i] < LIMIT
  }

  ghost predicate BasesOk(c: Coder) {
    && 0 <= c.lastCol < LIMIT
    && 0 <= c.last.source < LIMIT && 0 <= c.last.line < LIMIT && 0 <= c.last.col < LIMIT
  }

  /**
   d has read the input so far and o the output so far, on top of what o0 had read. Their totals are the coder's,
   and o's mappings are d's under the new source indices.
   */
  ghost predicate InStep(d: Decoder, c: Coder, o: Decoder, o0: Decoder, remap: seq<nat>) {
    && d.ok && o.ok && o.fields == []
    && o.col == c.lastCol == d.col && o.at == c.last
    && c.valpos == |d.fields|
    && c.inCol == d.col + Field(d, 0)
    && c.inAt == Loc(d.at.source + Field(d, 1), d.at.line + Field(d, 2), d.at.col + Field(d, 3))
    && BasesOk(c)
    && o.lines == o0.lines + RemappedLines(d.lines, remap)
    && o.cur == RemappedLine(d.cur, remap)
  }

  lemma FieldInStep(d: Decoder, c: Coder, o: Decoder, o0: Decoder, remap: seq<nat>, n: int)
    requires InStep(d, c, o, o0, remap)
    ensures InStep(Feed(d, Num(n)), AddField(c, n), o, o0, remap)
  {
  }

  /** Every number that `commit` writes is in the encoder's range. */
  ghost predicate Writable(ns: seq<int>) {
    forall i :: 0 <= i < |ns| ==> -LIMIT < ns[i] < LIMIT
  }

  /** At the end of a segment, the numbers written read back as the segment just read. */
  lemma CommitInStep(d: Decoder, c: Coder, o: Decoder, o0: Decoder, remap: seq<nat>)
    requires InStep(d, c, o, o0, remap) && RemapOk(remap) && Clean(Flush(d), |remap|)
    ensures CanCommit(c, remap) && Writable(Deltas(c, remap))
    ensures InStep(Flush(d), Commit(c, remap), Flush(o.(fields := Deltas(c, remap))), o0, remap)
  {
    var e := Flush(d);
    if d.fields != [] {
      var m := e.cur[|e.cur| - 1];
      assert InRange(m, |remap|);
      RemappedLineSnoc(d.cur, m, remap);
    }
  }

  lemma {:induction false} FeedNums(o: Decoder, ns: seq<int>)
    ensures FeedAll(o, Nums(ns)) == o.(fields := o.fields + ns)
    decreases |ns|
  {
    if ns == [] {
      assert o.fields + ns == o.fields;
    } else {
      var o' := Feed(o, Num(ns[0]));
      FeedNums(o', ns[1..]);
      assert Nums(ns)[1..] == Nums(ns[1..]);
      assert o.fields + [ns[0]] + ns[1..] == o.fields + ns;
    }
  }

  /** Reading what `commit` wrote before a separator, then the separator. */
  lemma SeparatorInStep(d: Decoder, c: Coder, o: Decoder, o0: Decoder, remap: seq<nat>, t: Token)
    requires !t.Num? && InStep(d, c, o, o0, remap) && RemapOk(remap) && Clean(Feed(d, t), |remap|)
    ensures CanCommit(c, remap) && Writable(Deltas(c, remap))
    ensures InStep(Feed(d, t), Separate(c, t, remap), FeedAll(o, Nums(Deltas(c, remap)) + [t]), o0, remap)
  {
    var e := Flush(d);
    if t.Semi? {
      assert Feed(d, t).lines[|e.lines|] == e.cur;
      assert forall i :: 0 <= i < |e.lines| ==> Feed(d, t).lines[i] == e.lines[i];
    }
    CommitInStep(d, c, o, o0, remap);
    var ns := Deltas(c, remap);
    FeedNums(o, ns);
    assert o.fields + ns == ns;
    FeedSnoc(o, Nums(ns), t);
    RemappedLinesSnoc(e.lines, e.cur, remap);
    assert o0.lines + (RemappedLines(e.lines, remap) + [RemappedLine(e.cur, remap)])
        == o0.lines + RemappedLines(e.lines, remap) + [RemappedLine(e.cur, remap)];
  }

  // ---------- whole texts ----------

  function EncodeAll(ns: seq<int>): seq<Byte> {
    if ns == [] then [] else EncodeAll(ns[..|ns| - 1]) + Encode(ns[|ns| - 1])
  }

  lemma {:induction false} LexEncodeAll(ns: seq<int>)
    requires Writable(ns)
    ensures Lex(EncodeAll(ns)) == Some(Nums(ns))
    decreases |ns|
  {
    if ns == [] {
      assert Nums(ns) == [];
    } else {
      var n := |ns| - 1;
      LexEncodeAll(ns[..n]);
      LexNumber(ns[n]);
      LexJoined(EncodeAll(ns[..n]), Encode(ns[n]), Nums(ns[..n]), [Num(ns[n])]);
      NumsSnoc(ns);
    }
  }

  lemma LexJoined(a: seq<Byte>, b: seq<Byte>, x: seq<Token>, y: seq<Token>)
    requires Lex(a) == Some(x) && Lex(b) == Some(y)
    ensures Lex(a + b) == Some(x + y)
  {
    LexConcat(a, b);
  }

  lemma NumsSnoc(ns: seq<int>)
    requires ns != []
    ensures var n := |ns| - 1; Nums(ns) == Nums(ns[..n]) + [Num(ns[n])]
  {
  }

  /** A text that is clean in the end was clean all along. */
  lemma CleanPrefix(d: Decoder, ts: seq<Token>, sources: nat)
    requires Clean(Flush(FeedAll(d, ts)), sources)
    ensures Clean(d, sources)
  {
    FeedReadsOn(d, ts);
    var e := FeedAll(d, ts);
    var f := Flush(e);
    assert e.ok && e.lines == f.lines && e.cur <= f.cur;
    forall i | 0 <= i < |d.lines| ensures LineInRange(d.lines[i], sources) {
      assert d.lines[i] == f.lines[i];
    }
    if |d.lines| < |e.lines| {
      var line := f.lines[|d.lines|];
      assert LineInRange(line, sources) && d.cur <= line;
      assert forall i :: 0 <= i < |d.cur| ==> d.cur[i] == line[i];
    } else {
      assert forall i :: 0 <= i < |d.cur| ==> d.cur[i] == f.cur[i];
    }
  }
}
