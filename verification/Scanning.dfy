/** The byte loop of the transcoder against the tokens of its input. */
module Scanning {
  import opened Basics
  import opened Vlq
  import opened Mappings
  import opened SourceMaps

  predicate IsSeparator(b: Byte) {
    b == SEMICOLON || b == COMMA
  }

  function SeparatorToken(b: Byte): Token {
    if b == SEMICOLON then Semi else Comma
  }

  /** `rest` is the text left when the first tokens of `all` are `ts`. */
  ghost predicate Left(all: seq<Token>, ts: seq<Token>, rest: seq<Byte>) {
    && Lex(rest).Some? && |ts| <= |all|
    && all[..|ts|] == ts && all[|ts|..] == Lex(rest).value
  }

  /** The first k bytes of a number have been read. */
  ghost predicate UnderWay(rest: seq<Byte>, k: nat, value: int, shift: nat) {
    && k <= |rest| && shift == 5 * k && value == Partial(rest, k)
    && (k > 0 ==> !IsSeparator(rest[0]) && TakeVlq(rest).Some? && k < TakeVlq(rest).value.length)
  }

  /** The bytes before `start` are the tokens read; from `start` to `ip` a number is under way. */
  ghost predicate Scanned(input: seq<Byte>, all: seq<Token>, ts: seq<Token>, start: nat, ip: nat, value: int,
                          shift: nat) {
    && start <= ip <= |input|
    && Left(all, ts, input[start..])
    && UnderWay(input[start..], ip - start, value, shift)
  }

  lemma ScanStart(input: seq<Byte>)
    requires Lex(input).Some?
    ensures Scanned(input, Lex(input).value, [], 0, 0, 0, 0)
  {
    assert input[0..] == input;
    var all := Lex(input).value;
    assert all[..0] == [] && all[0..] == all;
  }

  lemma DropDrop(s: seq<Byte>, m: nat, n: nat)
    requires m + n <= |s|
    ensures s[m..][n..] == s[m + n..]
  {
  }

  lemma MoveToken(all: seq<Token>, ts: seq<Token>, t: Token, more: seq<Token>)
    requires |ts| <= |all| && all[..|ts|] == ts && all[|ts|..] == [t] + more
    ensures |ts| < |all| && all[..|ts| + 1] == ts + [t] && all[|ts| + 1..] == more
  {
    assert all[|ts|..][0] == t && all[|ts|..][1..] == more;
  }

  lemma LexTail(rest: seq<Byte>, x: Lexeme)
    requires rest != [] && Lex(rest).Some? && FirstLexeme(rest) == Some(x)
    ensures Lex(rest[x.length..]).Some? && Lex(rest).value == [x.token] + Lex(rest[x.length..]).value
  {
  }

  /** Reading one lexeme off the front of what is left. */
  lemma LeftMoves(all: seq<Token>, ts: seq<Token>, rest: seq<Byte>, x: Lexeme)
    requires rest != [] && Left(all, ts, rest) && FirstLexeme(rest) == Some(x)
    ensures Left(all, ts + [x.token], rest[x.length..])
  {
    LexTail(rest, x);
    MoveToken(all, ts, x.token, Lex(rest[x.length..]).value);
  }

  lemma ScannedAt(input: seq<Byte>, all: seq<Token>, ts: seq<Token>, at: nat)
    requires at <= |input| && Left(all, ts, input[at..])
    ensures Scanned(input, all, ts, at, at, 0, 0)
  {
    assert Partial(input[at..], 0) == 0;
  }

  lemma ScanLexeme(input: seq<Byte>, all: seq<Token>, ts: seq<Token>, start: nat, x: Lexeme)
    requires start < |input| && Left(all, ts, input[start..]) && FirstLexeme(input[start..]) == Some(x)
    ensures Scanned(input, all, ts + [x.token], start + x.length, start + x.length, 0, 0)
  {
    assert Left(all, ts + [x.token], input[start + x.length..]) by {
      LeftMoves(all, ts, input[start..], x);
      DropDrop(input, start, x.length);
    }
    ScannedAt(input, all, ts + [x.token], start + x.length);
  }

  /** A separator comes only between numbers. */
  lemma SeparatorFirst(rest: seq<Byte>, k: nat, value: int, shift: nat)
    requires UnderWay(rest, k, value, shift) && k < |rest| && IsSeparator(rest[k])
    ensures k == 0 && FirstLexeme(rest) == Some(Lexeme(SeparatorToken(rest[0]), 1))
  {
    if k > 0 {
      DigitsContinue(rest, k);
    }
  }

  lemma ScanSeparator(input: seq<Byte>, all: seq<Token>, ts: seq<Token>, start: nat, ip: nat, value: int, shift: nat)
    requires Scanned(input, all, ts, start, ip, value, shift) && ip < |input| && IsSeparator(input[ip])
    ensures start == ip
    ensures Scanned(input, all, ts + [SeparatorToken(input[ip])], ip + 1, ip + 1, 0, 0)
  {
    assert input[start..][ip - start] == input[ip];
    SeparatorFirst(input[start..], ip - start, value, shift);
    ScanLexeme(input, all, ts, start, Lexeme(SeparatorToken(input[ip]), 1));
  }

  /** The number under way is below 2^31. */
  lemma NumberIsSmall(all: seq<Token>, ts: seq<Token>, rest: seq<Byte>)
    requires rest != [] && !IsSeparator(rest[0]) && Left(all, ts, rest) && SmallNumbers(all)
    ensures TakeVlq(rest).Some? && TakeVlq(rest).value.raw < TWO_31
    ensures var v := TakeVlq(rest).value; FirstLexeme(rest) == Some(Lexeme(Num(Conclude(v.raw)), v.length))
  {
    var x := FirstLexeme(rest).value;
    LexTail(rest, x);
    assert all[|ts|..][0] == x.token;
    ConcludeIsSigned(TakeVlq(rest).value.raw);
  }

  /** The digit at k belongs to the number under way, and the running value takes it in. */
  lemma TakeIn(rest: seq<Byte>, k: nat, value: int, shift: nat)
    requires UnderWay(rest, k, value, shift) && k < |rest| && !IsSeparator(rest[0])
    requires TakeVlq(rest).Some? && TakeVlq(rest).value.raw < TWO_31 && k < TakeVlq(rest).value.length
    ensures IsDigit(rest[k])
    ensures var b := CharToInteger(rest[k]);
            var v := Accumulate(value, b, shift);
            if b >= 32 then UnderWay(rest, k + 1, v, shift + 5)
            else v == TakeVlq(rest).value.raw && k + 1 == TakeVlq(rest).value.length
  {
    DigitsContinue(rest, k);
    AccumulateIsPartial(rest, k);
    PartialIsRaw(rest);
  }

  /** One more digit of a number: it goes on, or is complete. */
  lemma NextDigit(all: seq<Token>, ts: seq<Token>, rest: seq<Byte>, k: nat, value: int, shift: nat)
    requires Left(all, ts, rest) && UnderWay(rest, k, value, shift) && k < |rest| && !IsSeparator(rest[k])
    requires SmallNumbers(all)
    ensures IsDigit(rest[k])
    ensures var b := CharToInteger(rest[k]);
            var v := Accumulate(value, b, shift);
            if b >= 32 then UnderWay(rest, k + 1, v, shift + 5)
            else FirstLexeme(rest) == Some(Lexeme(Num(Conclude(v)), k + 1))
  {
    NumberIsSmall(all, ts, rest);
    TakeIn(rest, k, value, shift);
  }

  lemma ScanDigit(input: seq<Byte>, all: seq<Token>, ts: seq<Token>, start: nat, ip: nat, value: int, shift: nat)
    requires Scanned(input, all, ts, start, ip, value, shift) && ip < |input| && !IsSeparator(input[ip])
    requires SmallNumbers(all)
    ensures IsDigit(input[ip])
    ensures var b := CharToInteger(input[ip]);
            var v := Accumulate(value, b, shift);
            if b >= 32 then Scanned(input, all, ts, start, ip + 1, v, shift + 5)
            else Scanned(input, all, ts + [Num(Conclude(v))], ip + 1, ip + 1, 0, 0)
  {
    assert input[start..][ip - start] == input[ip];
    NextDigit(all, ts, input[start..], ip - start, value, shift);
    var b := CharToInteger(input[ip]);
    if b < 32 {
      ScanLexeme(input, all, ts, start, Lexeme(Num(Conclude(Accumulate(value, b, shift))), ip - start + 1));
    }
  }

  lemma ScanEnd(input: seq<Byte>, all: seq<Token>, ts: seq<Token>, start: nat, value: int, shift: nat)
    requires Scanned(input, all, ts, start, |input|, value, shift)
    ensures ts == all
  {
    if start == |input| {
      assert input[start..] == [];
    }
    assert all == all[..|ts|] + all[|ts|..];
  }
}
