/** Base64 VLQ numbers: the reference reading of ECMA-426, and the encoder's and decoder's 32-bit arithmetic. */
module Vlq {
  import opened Basics

  // ---------- 32-bit arithmetic of JavaScript ----------

  const TWO_31: int := 0x8000_0000
  const TWO_32: int := 0x1_0000_0000
  const LIMIT: int := 0x4000_0000

  function ToInt32(x: int): (r: int)
    ensures -TWO_31 <= r < TWO_31
    ensures -TWO_31 <= x < TWO_31 ==> r == x
  {
    (x + TWO_31) % TWO_32 - TWO_31
  }

  /** A number out of range wraps around: it loses multiples of 2^32. */
  lemma ToInt32Wraps(x: int)
    ensures (ToInt32(x) - x) % TWO_32 == 0
  {
  }

  function Pow2(n: nat): nat {
    if n == 0 then 1 else 2 * Pow2(n - 1)
  }

  function ShiftLeft(x: int, n: nat): int {
    ToInt32(ToInt32(x) * Pow2(n % 32))
  }

  function ShiftRight(x: int, n: nat): int {
    FloorDiv(ToInt32(x), Pow2(n % 32))
  }

  function FloorDiv(x: int, d: nat): int {
    if d == 0 then 0 else x / d
  }

  // ---------- digits ----------

  function IntegerToChar(n: nat): (b: Byte)
    requires n < 64
    ensures b != 59 && b != 44
    ensures CharToInteger(b) == n
  {
    if n < 26 then (65 + n) as Byte
    else if n < 52 then (97 + n - 26) as Byte
    else if n < 62 then (48 + n - 52) as Byte
    else if n == 62 then 43
    else 47
  }

  /** The table of the decoder: the 64 digits, `=` as 64, and 255 for anything else. */
  function CharToInteger(b: Byte): (n: nat)
    ensures n <= 64 || n == 255
  {
    if 65 <= b <= 90 then b as int - 65
    else if 97 <= b <= 122 then b as int - 97 + 26
    else if 48 <= b <= 57 then b as int - 48 + 52
    else if b == 43 then 62
    else if b == 47 then 63
    else if b == 61 then 64
    else 255
  }

  predicate IsDigit(b: Byte) {
    CharToInteger(b) < 64
  }

  const UPPER := "ABCDEFGHIJKLMNOPQRSTUVWXYZ"
  const LOWER := "abcdefghijklmnopqrstuvwxyz"
  const ALPHABET := UPPER + LOWER + "0123456789+/="

  lemma UpperAt(n: nat)
    requires n < 26
    ensures UPPER[n] as int == 65 + n
  {
  }

  lemma LowerAt(n: nat)
    requires n < 26
    ensures LOWER[n] as int == 97 + n
  {
  }

  lemma OthersAt(n: nat)
    requires n < 13
    ensures "0123456789+/="[n] as int == if n < 10 then 48 + n else if n == 10 then 43 else if n == 11 then 47 else 61
  {
  }

  lemma AlphabetAt(n: nat)
    requires n < 65
    ensures |ALPHABET| == 65
    ensures ALPHABET[n] as int ==
              if n < 26 then 65 + n else if n < 52 then 97 + n - 26 else if n < 62 then 48 + n - 52
              else if n == 62 then 43 else if n == 63 then 47 else 61
  {
    assert |UPPER| == 26 && |LOWER| == 26;
    InThree(UPPER, LOWER, "0123456789+/=", n);
    if n < 26 {
      UpperAt(n);
    } else if n < 52 {
      LowerAt(n - 26);
    } else {
      OthersAt(n - 52);
    }
  }

  lemma InThree(a: string, b: string, c: string, n: nat)
    requires n < |a| + |b| + |c|
    ensures (a + b + c)[n] == if n < |a| then a[n] else if n < |a| + |b| then b[n - |a|] else c[n - |a| - |b|]
  {
  }

  /** The encoder's table is the alphabet. */
  lemma EncodesAlphabet(n: nat)
    requires n < 64
    ensures IntegerToChar(n) as int == ALPHABET[n] as int
  {
    AlphabetAt(n);
  }

  /** The decoder's table gives each character of the alphabet its position, and 255 to every other byte. */
  lemma DecodesAlphabet(b: Byte, n: nat)
    requires n < 65
    ensures CharToInteger(b) == n <==> ALPHABET[n] as int == b as int
    ensures CharToInteger(b) == 255 <==> forall i :: 0 <= i < 65 ==> ALPHABET[i] as int != b as int
  {
    AlphabetAt(n);
    forall i | 0 <= i < 65 ensures ALPHABET[i] as int == b as int <==> CharToInteger(b) == i { AlphabetAt(i); }
    if CharToInteger(b) != 255 {
      assert ALPHABET[CharToInteger(b)] as int == b as int;
    }
  }

  // ---------- the reference reading ----------

  datatype Number = Number(raw: nat, length: nat)

  /** The first VLQ number of a text: digits of five bits, least significant first, until one without the high bit. */
  function TakeVlq(s: seq<Byte>): (r: Option<Number>)
    ensures r.Some? ==> 0 < r.value.length <= |s|
  {
    if s == [] || !IsDigit(s[0]) then None
    else
      var d := CharToInteger(s[0]);
      if d < 32 then Some(Number(d, 1))
      else
        match TakeVlq(s[1..])
        case None => None
        case Some(v) => Some(Number(d - 32 + 32 * v.raw, v.length + 1))
  }

  /** The lowest bit is the sign. */
  function Signed(raw: nat): int {
    if raw % 2 == 1 then -(raw / 2) else raw / 2
  }

  // ---------- the encoder ----------

  /** The number with its sign in the lowest bit, as the encoder's shifts compute it. */
  function WithSign(n: int): int {
    if n < 0 then ShiftLeft(-n, 1) + 1 else ShiftLeft(n, 1)
  }

  function Digits(n: int): (s: seq<Byte>)
    requires -TWO_31 <= n < TWO_31
    decreases if n < 0 then 0 else n
  {
    if n / 32 > 0 then [IntegerToChar(n % 32 + 32)] + Digits(n / 32)
    else [IntegerToChar(n % 32)]
  }

  function Encode(n: int): (s: seq<Byte>) {
    Digits(ToInt32(WithSign(n)))
  }

  /** Reading back what was written gives the number, or its low digit if it is negative. */
  lemma {:induction false} DigitsRead(n: int, rest: seq<Byte>)
    requires -TWO_31 <= n < TWO_31
    ensures TakeVlq(Digits(n) + rest) == Some(Number(if n < 0 then n % 32 else n, |Digits(n)|))
    ensures forall i :: 0 <= i < |Digits(n)| ==> IsDigit(Digits(n)[i])
    decreases if n < 0 then 0 else n
  {
    var s := Digits(n) + rest;
    if n / 32 > 0 {
      DigitsRead(n / 32, rest);
      assert s[1..] == Digits(n / 32) + rest;
    }
  }

  lemma WithSignIs(n: int)
    requires -LIMIT < n < LIMIT
    ensures WithSign(n) == if n < 0 then 2 * -n + 1 else 2 * n
    ensures 0 <= WithSign(n) < TWO_31 && Signed(WithSign(n)) == n
  {
    assert Pow2(1) == 2 * Pow2(0);
  }

  /** A number survives encoding and the reference reading exactly when its magnitude is below 2^30. */
  lemma RoundTripExactly(n: int, rest: seq<Byte>)
    ensures TakeVlq(Encode(n) + rest).Some?
    ensures var v := TakeVlq(Encode(n) + rest).value;
            (Signed(v.raw) == n && v.length == |Encode(n)|) <==> -LIMIT < n < LIMIT
  {
    DigitsRead(ToInt32(WithSign(n)), rest);
    if -LIMIT < n < LIMIT {
      WithSignIs(n);
    }
  }

  /** What is left of n after i digits. */
  function Rest(n: nat, i: nat): nat {
    if i == 0 then n else Rest(n / 32, i - 1)
  }

  lemma {:induction false} DigitsText(n: nat, i: nat)
    requires n < TWO_31 && i < |Digits(n)|
    ensures Digits(n)[i] as int == ALPHABET[Rest(n, i) % 32 + if i + 1 < |Digits(n)| then 32 else 0] as int
    ensures i + 1 < |Digits(n)| <==> Rest(n, i) >= 32
    decreases n
  {
    if n >= 32 && i > 0 {
      DigitsText(n / 32, i - 1);
    } else {
      EncodesAlphabet(n % 32 + if n >= 32 then 32 else 0);
    }
  }

  /**
   The text of a number below 2^30 in magnitude: it is doubled, with one added if it was negative, and written in
   digits of five bits, the lowest first, each but the last with the sixth bit set.
   */
  lemma EncodeText(n: int, i: nat)
    requires -LIMIT < n < LIMIT && i < |Encode(n)|
    ensures var digit := Rest(if n < 0 then 2 * -n + 1 else 2 * n, i);
            && (i + 1 < |Encode(n)| <==> digit >= 32)
            && Encode(n)[i] as int == ALPHABET[digit % 32 + if digit >= 32 then 32 else 0] as int
  {
    WithSignIs(n);
    DigitsText(WithSign(n), i);
  }

  // ---------- the decoder ----------

  /** One digit added to the running value, as the decoder computes it. */
  function Accumulate(value: int, b: nat, shift: nat): int {
    value + ShiftLeft(b % 32, shift)
  }

  /** The end of a number in the decoder. */
  function Conclude(value: int): int {
    if ToInt32(value) % 2 == 1 then -ShiftRight(value, 1) else ShiftRight(value, 1)
  }

  lemma ConcludeIsSigned(raw: nat)
    requires raw < TWO_31
    ensures Conclude(raw) == Signed(raw)
  {
    assert Pow2(1) == 2 * Pow2(0);
  }

  /** The number that the first k digits make. */
  function Partial(s: seq<Byte>, k: nat): nat
    requires k <= |s|
  {
    if k == 0 then 0 else CharToInteger(s[0]) % 32 + 32 * Partial(s[1..], k - 1)
  }

  lemma Pow2Add5(n: nat)
    ensures Pow2(n + 5) == 32 * Pow2(n)
  {
    assert Pow2(n + 5) == 2 * Pow2(n + 4) && Pow2(n + 4) == 2 * Pow2(n + 3);
    assert Pow2(n + 3) == 2 * Pow2(n + 2) && Pow2(n + 2) == 2 * Pow2(n + 1);
  }

  lemma Scale(d: nat, p: nat)
    ensures d * (32 * p) == 32 * (d * p)
  {
  }

  /** Each digit counts at its place. */
  lemma {:induction false} PartialSnoc(s: seq<Byte>, k: nat)
    requires k < |s|
    ensures Partial(s, k + 1) == Partial(s, k) + CharToInteger(s[k]) % 32 * Pow2(5 * k)
    decreases k
  {
    if k > 0 {
      PartialSnoc(s[1..], k - 1);
      Pow2Add5(5 * (k - 1));
      Scale(CharToInteger(s[k]) % 32, Pow2(5 * (k - 1)));
    } else {
      assert Partial(s[1..], 0) == 0 && Pow2(0) == 1;
    }
  }

  /** The whole number is made of all its digits. */
  lemma {:induction false} PartialIsRaw(s: seq<Byte>)
    requires TakeVlq(s).Some?
    ensures Partial(s, TakeVlq(s).value.length) == TakeVlq(s).value.raw
    decreases |s|
  {
    if TakeVlq(s).value.length > 1 {
      PartialIsRaw(s[1..]);
    } else {
      assert Partial(s[1..], 0) == 0;
    }
  }

  lemma ProductBounds(a: nat, b: nat)
    ensures a * b >= 0 && (a == 0 || a * b >= b)
  {
  }

  lemma {:induction false} PartialMono(s: seq<Byte>, j: nat, k: nat)
    requires j <= k <= |s|
    ensures Partial(s, j) <= Partial(s, k)
    decreases k
  {
    if j < k {
      PartialMono(s, j, k - 1);
      PartialSnoc(s, k - 1);
      ProductBounds(CharToInteger(s[k - 1]) % 32, Pow2(5 * (k - 1)));
    }
  }

  lemma {:induction false} Pow2Mono(m: nat, n: nat)
    requires m <= n
    ensures 1 <= Pow2(m) <= Pow2(n)
    decreases n
  {
    if m < n {
      Pow2Mono(m, n - 1);
    } else if m > 0 {
      Pow2Mono(m - 1, m - 1);
    }
  }

  lemma Pow2At30()
    ensures Pow2(30) == LIMIT && Pow2(35) == 32 * LIMIT
  {
    Pow2Add5(0); Pow2Add5(5); Pow2Add5(10); Pow2Add5(15); Pow2Add5(20); Pow2Add5(25); Pow2Add5(30);
  }

  lemma PlacedSmall(d: nat, k: nat)
    requires 0 < d && d * Pow2(5 * k) < TWO_31
    ensures k <= 6
  {
    if 7 <= k {
      Pow2At30();
      Pow2Mono(35, 5 * k);
      ProductBounds(d, Pow2(5 * k));
    }
  }

  lemma ShiftOfNothing(n: nat)
    ensures ShiftLeft(0, n) == 0
  {
    assert 0 * Pow2(n % 32) == 0;
  }

  lemma ShiftFits(d: nat, n: nat)
    requires d < 32 && n < 32 && d * Pow2(n) < TWO_31
    ensures ShiftLeft(d, n) == d * Pow2(n)
  {
    assert n % 32 == n && ToInt32(d) == d;
    ProductBounds(d, Pow2(n));
  }

  /** The decoder's shift places a digit exactly when the placed digit stays below 2^31, whatever the shift count. */
  lemma ShiftPlaces(d: nat, k: nat)
    requires d < 32 && d * Pow2(5 * k) < TWO_31
    ensures ShiftLeft(d, 5 * k) == d * Pow2(5 * k)
  {
    if d == 0 {
      ShiftOfNothing(5 * k);
    } else {
      PlacedSmall(d, k);
      ShiftFits(d, 5 * k);
    }
  }

  /** The decoder's running value is what the digits read make, as long as the number stays below 2^31. */
  lemma AccumulateIsPartial(s: seq<Byte>, k: nat)
    requires TakeVlq(s).Some? && k < TakeVlq(s).value.length && TakeVlq(s).value.raw < TWO_31
    ensures Accumulate(Partial(s, k), CharToInteger(s[k]), 5 * k) == Partial(s, k + 1)
  {
    PartialIsRaw(s);
    PartialMono(s, k + 1, TakeVlq(s).value.length);
    PartialSnoc(s, k);
    ShiftPlaces(CharToInteger(s[k]) % 32, k);
  }

  /** Every digit but the last carries the continuation bit. */
  lemma {:induction false} DigitsContinue(s: seq<Byte>, k: nat)
    requires TakeVlq(s).Some? && k < TakeVlq(s).value.length
    ensures IsDigit(s[k])
    ensures CharToInteger(s[k]) >= 32 <==> k < TakeVlq(s).value.length - 1
    decreases k
  {
    if k > 0 {
      DigitsContinue(s[1..], k - 1);
    }
  }

  // ---------- the decoder's loop on the encoder's bytes ----------

  datatype Decoded = Decoded(n: int, end: nat)

  /**
   The decoder's loop from byte k on, up to the end of a number; nothing at a byte that is no digit, or at the end.
   */
  function DecodeFrom(s: seq<Byte>, k: nat, value: int, shift: nat): Option<Decoded>
    decreases |s| - k
  {
    if k >= |s| || CharToInteger(s[k]) == 255 then None
    else
      var b := CharToInteger(s[k]);
      var v := Accumulate(value, b, shift);
      if b / 32 % 2 == 1 then DecodeFrom(s, k + 1, v, shift + 5) else Some(Decoded(Conclude(v), k + 1))
  }

  lemma DecodeGoesOn(s: seq<Byte>, k: nat, value: int, shift: nat, v: int)
    requires k < |s| && 32 <= CharToInteger(s[k]) < 64 && v == Accumulate(value, CharToInteger(s[k]), shift)
    ensures DecodeFrom(s, k, value, shift) == DecodeFrom(s, k + 1, v, shift + 5)
  {
  }

  lemma DecodeStops(s: seq<Byte>, k: nat, value: int, shift: nat, v: nat)
    requires k < |s| && CharToInteger(s[k]) < 32 && v == Accumulate(value, CharToInteger(s[k]), shift) && v < TWO_31
    ensures DecodeFrom(s, k, value, shift) == Some(Decoded(Signed(v), k + 1))
  {
    ConcludeIsSigned(v);
  }

  lemma NextPartial(s: seq<Byte>, k: nat)
    requires TakeVlq(s).Some? && TakeVlq(s).value.raw < TWO_31 && k < TakeVlq(s).value.length
    ensures var v := TakeVlq(s).value;
            if k + 1 < v.length then
              DecodeFrom(s, k, Partial(s, k), 5 * k) == DecodeFrom(s, k + 1, Partial(s, k + 1), 5 * (k + 1))
            else DecodeFrom(s, k, Partial(s, k), 5 * k) == Some(Decoded(Signed(v.raw), v.length))
  {
    DigitsContinue(s, k);
    AccumulateIsPartial(s, k);
    if k + 1 < TakeVlq(s).value.length {
      DecodeGoesOn(s, k, Partial(s, k), 5 * k, Partial(s, k + 1));
    } else {
      PartialIsRaw(s);
      DecodeStops(s, k, Partial(s, k), 5 * k, Partial(s, k + 1));
    }
  }

  /** In the middle of a number below 2^31, the loop goes on to its value and its end. */
  lemma {:induction false} DecodeFromPartial(s: seq<Byte>, k: nat)
    requires TakeVlq(s).Some? && TakeVlq(s).value.raw < TWO_31 && k < TakeVlq(s).value.length
    ensures var v := TakeVlq(s).value; DecodeFrom(s, k, Partial(s, k), 5 * k) == Some(Decoded(Signed(v.raw), v.length))
    decreases TakeVlq(s).value.length - k
  {
    NextPartial(s, k);
    if k + 1 < TakeVlq(s).value.length {
      DecodeFromPartial(s, k + 1);
    }
  }

  /**
   The decoder reads the bytes that the encoder wrote as the same number, and stops at their end, exactly below
   2^30.
   */
  lemma DecodesEncodedExactly(n: int, rest: seq<Byte>)
    ensures DecodeFrom(Encode(n) + rest, 0, 0, 0) == Some(Decoded(n, |Encode(n)|)) <==> -LIMIT < n < LIMIT
  {
    var s := Encode(n) + rest;
    RoundTripExactly(n, rest);
    DigitsRead(ToInt32(WithSign(n)), rest);
    DecodeFromPartial(s, 0);
  }
}
