/** The `mappings` text of a source map and the reference reading of it (ECMA-426, mappings structure). */
module Mappings {
  import opened Basics
  import opened Vlq

  const SEMICOLON: Byte := 59
  const COMMA: Byte := 44

  datatype Token = Semi | Comma | Num(n: int)

  datatype Lexeme = Lexeme(token: Token, length: nat)

  /** The first separator or number of a text. */
  function FirstLexeme(s: seq<Byte>): (r: Option<Lexeme>)
    ensures r.Some? ==> 0 < r.value.length <= |s|
  {
    if s == [] then None
    else if s[0] as int == ';' as int then Some(Lexeme(Semi, 1))
    else if s[0] as int == ',' as int then Some(Lexeme(Comma, 1))
    else
      match TakeVlq(s)
      case None => None
      case Some(v) => Some(Lexeme(Num(Signed(v.raw)), v.length))
  }

  /** The text cut into separators and numbers; nothing if a number is malformed or does not end. */
  function Lex(s: seq<Byte>): Option<seq<Token>> {
    if s == [] then Some([])
    else
      match FirstLexeme(s)
      case None => None
      case Some(x) => Prepend(x.token, Lex(s[x.length..]))
  }

  function Prepend(t: Token, rest: Option<seq<Token>>): Option<seq<Token>> {
    match rest
    case None => None
    case Some(ts) => Some([t] + ts)
  }

  lemma {:induction false} TakeVlqPrefix(a: seq<Byte>, b: seq<Byte>)
    requires TakeVlq(a).Some?
    ensures TakeVlq(a + b) == TakeVlq(a)
    decreases |a|
  {
    if CharToInteger(a[0]) >= 32 {
      TakeVlqPrefix(a[1..], b);
      assert (a + b)[1..] == a[1..] + b;
    }
  }

  lemma FirstLexemePrefix(a: seq<Byte>, b: seq<Byte>)
    requires FirstLexeme(a).Some?
    ensures FirstLexeme(a + b) == FirstLexeme(a)
  {
    if a[0] != SEMICOLON && a[0] != COMMA {
      TakeVlqPrefix(a, b);
    }
  }

  /** Texts that read completely can be put one after the other. */
  lemma {:induction false} LexConcat(a: seq<Byte>, b: seq<Byte>)
    requires Lex(a).Some? && Lex(b).Some?
    ensures Lex(a + b) == Some(Lex(a).value + Lex(b).value)
    decreases |a|
  {
    if a == [] {
      assert a + b == b;
      assert [] + Lex(b).value == Lex(b).value;
    } else {
      var x := FirstLexeme(a).value;
      LexConcat(a[x.length..], b);
      LexCut(a, b, x);
      PrependConcat(x.token, Lex(a[x.length..]).value, Lex(b).value);
    }
  }

  /** The first lexeme of a text is read first whatever follows the text. */
  lemma LexCut(a: seq<Byte>, b: seq<Byte>, x: Lexeme)
    requires FirstLexeme(a) == Some(x)
    ensures Lex(a + b) == Prepend(x.token, Lex(a[x.length..] + b))
  {
    FirstLexemePrefix(a, b);
    assert (a + b)[x.length..] == a[x.length..] + b;
  }

  lemma PrependConcat(t: Token, a: seq<Token>, b: seq<Token>)
    ensures Prepend(t, Some(a + b)) == Some([t] + a + b)
  {
    assert [t] + (a + b) == [t] + a + b;
  }

  /** A text that is a single lexeme. */
  lemma LexOne(s: seq<Byte>)
    requires FirstLexeme(s).Some? && FirstLexeme(s).value.length == |s|
    ensures Lex(s) == Some([FirstLexeme(s).value.token])
  {
    assert s[|s|..] == [];
    assert Lex(s[|s|..]) == Some([]);
    var t := FirstLexeme(s).value.token;
    assert [t] + [] == [t];
  }

  lemma LexSeparator(b: Byte)
    requires b == SEMICOLON || b == COMMA
    ensures Lex([b]) == Some([if b == SEMICOLON then Semi else Comma])
  {
    LexOne([b]);
  }

  lemma LexNumber(n: int)
    requires -LIMIT < n < LIMIT
    ensures Lex(Encode(n)) == Some([Num(n)])
  {
    var s := Encode(n);
    RoundTripExactly(n, []);
    DigitsRead(ToInt32(WithSign(n)), []);
    assert s + [] == s && IsDigit(s[0]);
    LexOne(s);
  }

  // ---------- the reference reading of the tokens ----------

  datatype Loc = Loc(source: int, line: int, col: int)

  /** A mapping of a column of the generated line; names are not kept. */
  datatype Mapping = Unmapped(col: int) | Mapped(col: int, loc: Loc)

  /** Lines read, mappings of the current line, fields of the current segment, and the running totals. */
  datatype Decoder = Decoder(
    ok: bool,
    lines: seq<seq<Mapping>>,
    cur: seq<Mapping>,
    fields: seq<int>,
    col: int,
    at: Loc)

  const INIT := Decoder(true, [], [], [], 0, Loc(0, 0, 0))

  /** The end of a segment: one, four or five fields, each relative to its running total. */
  function Flush(d: Decoder): Decoder {
    var f := d.fields;
    if f == [] then d
    else if |f| == 1 then
      d.(fields := [], col := d.col + f[0], cur := d.cur + [Unmapped(d.col + f[0])])
    else if |f| == 4 || |f| == 5 then
      var at := Loc(d.at.source + f[1], d.at.line + f[2], d.at.col + f[3]);
      d.(fields := [], col := d.col + f[0], at := at, cur := d.cur + [Mapped(d.col + f[0], at)])
    else d.(ok := false, fields := [])
  }

  function Feed(d: Decoder, t: Token): Decoder {
    match t
    case Num(n) => d.(fields := d.fields + [n])
    case Comma => Flush(d)
    case Semi => var e := Flush(d); e.(lines := e.lines + [e.cur], cur := [], col := 0)
  }

  function FeedAll(d: Decoder, ts: seq<Token>): Decoder
    decreases |ts|
  {
    if ts == [] then d else FeedAll(Feed(d, ts[0]), ts[1..])
  }

  lemma FeedNum(d: Decoder, n: int, rest: seq<Token>)
    ensures FeedAll(d, [Num(n)] + rest) == FeedAll(d.(fields := d.fields + [n]), rest)
  {
    assert ([Num(n)] + rest)[1..] == rest;
  }

  lemma FourFields(d: Decoder, col: int, source: int, line: int, sourceCol: int, rest: seq<Token>)
    requires d.fields == []
    ensures FeedAll(d, [Num(col)] + ([Num(source)] + ([Num(line)] + ([Num(sourceCol)] + rest))))
         == FeedAll(d.(fields := [col, source, line, sourceCol]), rest)
  {
    FeedNum(d, col, [Num(source)] + ([Num(line)] + ([Num(sourceCol)] + rest)));
    FeedNum(d.(fields := [col]), source, [Num(line)] + ([Num(sourceCol)] + rest));
    FeedNum(d.(fields := [col, source]), line, [Num(sourceCol)] + rest);
    FeedNum(d.(fields := [col, source, line]), sourceCol, rest);
    assert [] + [col] == [col] && [col] + [source] == [col, source] && [col, source] + [line] == [col, source, line];
    assert [col, source, line] + [sourceCol] == [col, source, line, sourceCol];
  }

  lemma FeedComma(d: Decoder)
    ensures FeedAll(d, [Comma]) == Flush(d)
  {
    assert [Comma][1..] == [];
    assert FeedAll(d, [Comma]) == FeedAll(Flush(d), []);
  }

  /**
   A segment of four fields maps its column to a source, a line and a column, each relative to its total so far, and a
   fifth field, a name, changes nothing of that.
   */
  lemma SegmentMeans(d: Decoder, col: int, source: int, line: int, sourceCol: int, name: int)
    requires d.fields == []
    ensures var at := Loc(d.at.source + source, d.at.line + line, d.at.col + sourceCol);
            var e := d.(col := d.col + col, at := at, cur := d.cur + [Mapped(d.col + col, at)]);
            && FeedAll(d, [Num(col), Num(source), Num(line), Num(sourceCol), Comma]) == e
            && FeedAll(d, [Num(col), Num(source), Num(line), Num(sourceCol), Num(name), Comma]) == e
  {
    var four := d.(fields := [col, source, line, sourceCol]);
    FourFields(d, col, source, line, sourceCol, [Comma]);
    assert [Num(col)] + ([Num(source)] + ([Num(line)] + ([Num(sourceCol)] + [Comma])))
        == [Num(col), Num(source), Num(line), Num(sourceCol), Comma];
    FeedComma(four);
    FourFields(d, col, source, line, sourceCol, [Num(name)] + [Comma]);
    assert [Num(col)] + ([Num(source)] + ([Num(line)] + ([Num(sourceCol)] + ([Num(name)] + [Comma]))))
        == [Num(col), Num(source), Num(line), Num(sourceCol), Num(name), Comma];
    FeedNum(four, name, [Comma]);
    FeedComma(four.(fields := four.fields + [name]));
  }

  /** A segment of one field is a column without a place. */
  lemma ColumnMeans(d: Decoder, col: int)
    requires d.fields == []
    ensures FeedAll(d, [Num(col), Comma]) == d.(col := d.col + col, cur := d.cur + [Unmapped(d.col + col)])
  {
    assert [Num(col), Comma] == [Num(col)] + [Comma];
    FeedNum(d, col, [Comma]);
    FeedComma(d.(fields := [] + [col]));
  }

  /** A semicolon ends the line, and columns start again; the totals of sources, lines and source columns go on. */
  lemma SemicolonMeans(d: Decoder)
    requires d.fields == []
    ensures FeedAll(d, [Semi]) == Decoder(d.ok, d.lines + [d.cur], [], [], 0, d.at)
  {
    FeedSnoc(d, [], Semi);
    assert [] + [Semi] == [Semi];
  }

  lemma {:induction false} FeedConcat(d: Decoder, a: seq<Token>, b: seq<Token>)
    ensures FeedAll(d, a + b) == FeedAll(FeedAll(d, a), b)
    decreases |a|
  {
    if a == [] {
      assert a + b == b;
    } else {
      FeedConcat(Feed(d, a[0]), a[1..], b);
      assert (a + b)[1..] == a[1..] + b;
    }
  }

  lemma FeedSnoc(d: Decoder, a: seq<Token>, t: Token)
    ensures FeedAll(d, a + [t]) == Feed(FeedAll(d, a), t)
  {
    FeedConcat(d, a, [t]);
    var e := FeedAll(d, a);
    assert [t][1..] == [];
    assert FeedAll(e, [t]) == FeedAll(Feed(e, t), []);
  }

  /** Reading only adds mappings, and a segment once found malformed stays so. */
  ghost predicate ReadsOn(d: Decoder, e: Decoder) {
    && (e.ok ==> d.ok)
    && d.lines <= e.lines
    && (|d.lines| < |e.lines| ==> d.cur <= e.lines[|d.lines|])
    && (|d.lines| == |e.lines| ==> d.cur <= e.cur)
  }

  lemma {:induction false} FeedReadsOn(d: Decoder, ts: seq<Token>)
    ensures ReadsOn(d, FeedAll(d, ts))
    decreases |ts|
  {
    if ts != [] {
      var e := Feed(d, ts[0]);
      FeedReadsOn(e, ts[1..]);
      var f := FeedAll(e, ts[1..]);
      assert ReadsOn(d, e);
    }
  }
}
