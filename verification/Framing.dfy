/** Incremental framing of a byte stream by a decoder that knows where a message ends. */
module Framing {
  import opened Basics

  type Bytes = seq<Byte>

  /** What deserializing from the front of a buffer gives: too few bytes, an error, or an object and its length. */
  datatype Outcome<+T> = Incomplete | Invalid | Decoded(obj: T, length: nat)

  /** A message as it is handed to the dispatcher. */
  datatype Frame<+T> = Frame(obj: T, vec: Bytes)

  type Decoder<!T> = Bytes -> Outcome<T>

  /** A decision once made stands whatever bytes follow, and a message is never empty. */
  ghost predicate SelfDelimiting<T(!new)>(dec: Decoder<T>) {
    && dec([]).Incomplete?
    && (forall b :: dec(b).Decoded? ==> 0 < dec(b).length <= |b|)
    && (forall b, c :: !dec(b).Incomplete? ==> dec(b + c) == dec(b))
  }

  // ---------- the whole stream at once ----------

  datatype Parsed<+T> = Parsed(frames: seq<Frame<T>>, rest: Bytes, ok: bool)

  /** Messages are taken off the front until one is incomplete or invalid. */
  ghost function Parse<T(!new)>(dec: Decoder<T>, b: Bytes): Parsed<T>
    requires SelfDelimiting(dec)
    decreases |b|
  {
    match dec(b)
    case Incomplete => Parsed([], b, true)
    case Invalid => Parsed([], b, false)
    case Decoded(obj, n) =>
      var p := Parse(dec, b[n..]);
      p.(frames := [Frame(obj, b[..n])] + p.frames)
  }

  function Consumed<T>(frames: seq<Frame<T>>): Bytes {
    if frames == [] then [] else frames[0].vec + Consumed(frames[1..])
  }

  lemma ConsumedFirst<T>(f: Frame<T>, frames: seq<Frame<T>>)
    ensures Consumed([f] + frames) == f.vec + Consumed(frames)
  {
    assert ([f] + frames)[1..] == frames;
  }

  lemma Rejoin(b: Bytes, n: nat, c: Bytes, d: Bytes)
    requires n <= |b| && c + d == b[n..]
    ensures b[..n] + c + d == b
  {
    assert b[..n] + c + d == b[..n] + (c + d);
  }

  /** Frames and what is left are the stream: nothing is dropped or read twice. */
  lemma {:induction false} ParseConserves<T(!new)>(dec: Decoder<T>, b: Bytes)
    requires SelfDelimiting(dec)
    ensures var p := Parse(dec, b); Consumed(p.frames) + p.rest == b
    decreases |b|
  {
    if dec(b).Decoded? {
      var n := dec(b).length;
      var p := Parse(dec, b[n..]);
      ParseConserves(dec, b[n..]);
      ConsumedFirst(Frame(dec(b).obj, b[..n]), p.frames);
      Rejoin(b, n, Consumed(p.frames), p.rest);
    }
  }

  /** Each frame is what the decoder makes of the stream from where the frame begins. */
  lemma {:induction false} ParseFrames<T(!new)>(dec: Decoder<T>, b: Bytes, i: nat)
    requires SelfDelimiting(dec) && i < |Parse(dec, b).frames|
    ensures var p := Parse(dec, b);
            dec(Consumed(p.frames[i..]) + p.rest) == Decoded(p.frames[i].obj, |p.frames[i].vec|)
    decreases |b|
  {
    var n, p := dec(b).length, Parse(dec, b);
    if i == 0 {
      ParseConserves(dec, b);
      assert p.frames[0..] == p.frames;
    } else {
      var q := Parse(dec, b[n..]);
      ParseFrames(dec, b[n..], i - 1);
      assert p.frames[i..] == q.frames[i - 1..];
    }
  }

  /** The frames read before, then what was parsed after them. */
  ghost function Then<T>(frames: seq<Frame<T>>, p: Parsed<T>): Parsed<T> {
    p.(frames := frames + p.frames)
  }

  lemma ThenThen<T>(a: seq<Frame<T>>, b: seq<Frame<T>>, p: Parsed<T>)
    ensures Then(a, Then(b, p)) == Then(a + b, p)
  {
    assert a + (b + p.frames) == a + b + p.frames;
  }

  lemma ThenNothing<T>(p: Parsed<T>)
    ensures Then([], p) == p
  {
    assert [] + p.frames == p.frames;
  }

  /** A message at the front is the same message whatever follows it. */
  lemma FrameFirst<T(!new)>(dec: Decoder<T>, b: Bytes, c: Bytes)
    requires SelfDelimiting(dec) && dec(b).Decoded?
    ensures var n := dec(b).length;
            Parse(dec, b + c) == Then([Frame(dec(b).obj, b[..n])], Parse(dec, b[n..] + c))
  {
    var n := dec(b).length;
    assert (b + c)[n..] == b[n..] + c && (b + c)[..n] == b[..n];
  }

  /** Bytes that arrive later continue from what was left. */
  lemma {:induction false} ParseMore<T(!new)>(dec: Decoder<T>, b: Bytes, c: Bytes)
    requires SelfDelimiting(dec)
    ensures var p := Parse(dec, b);
            Parse(dec, b + c) == Then(p.frames, Parse(dec, p.rest + c))
    decreases |b|
  {
    if dec(b).Decoded? {
      var n := dec(b).length;
      var p := Parse(dec, b[n..]);
      ParseMore(dec, b[n..], c);
      FrameFirst(dec, b, c);
      ThenThen([Frame(dec(b).obj, b[..n])], p.frames, Parse(dec, p.rest + c));
    } else {
      ThenNothing(Parse(dec, b + c));
    }
  }

  /** Parsing stops where the decoder has no message to give. */
  lemma {:induction false} ParseStops<T(!new)>(dec: Decoder<T>, b: Bytes)
    requires SelfDelimiting(dec)
    ensures var p := Parse(dec, b); if p.ok then dec(p.rest).Incomplete? else dec(p.rest).Invalid?
    decreases |b|
  {
    if dec(b).Decoded? {
      ParseStops(dec, b[dec(b).length..]);
    }
  }

  /** After an error, no bytes that arrive later change the frames or the verdict. */
  lemma ErrorIsFinal<T(!new)>(dec: Decoder<T>, b: Bytes, c: Bytes)
    requires SelfDelimiting(dec) && !Parse(dec, b).ok
    ensures Parse(dec, b + c).frames == Parse(dec, b).frames && !Parse(dec, b + c).ok
  {
    var p := Parse(dec, b);
    ParseStops(dec, b);
    ParseMore(dec, b, c);
    assert p.frames + [] == p.frames;
  }

  /** With a message at the front, the frames so far grow by it. */
  lemma ReadGoesOn<T(!new)>(dec: Decoder<T>, b: Bytes, done: seq<Frame<T>>)
    requires SelfDelimiting(dec) && dec(b).Decoded?
    ensures var n := dec(b).length;
            Then(done, Parse(dec, b)) == Then(done + [Frame(dec(b).obj, b[..n])], Parse(dec, b[n..]))
  {
    var n := dec(b).length;
    ThenThen(done, [Frame(dec(b).obj, b[..n])], Parse(dec, b[n..]));
  }

  lemma ReadStops<T(!new)>(dec: Decoder<T>, b: Bytes, done: seq<Frame<T>>)
    requires SelfDelimiting(dec) && !dec(b).Decoded?
    ensures Then(done, Parse(dec, b)) == Parsed(done, b, dec(b).Incomplete?)
  {
    assert done + [] == done;
  }

  // ---------- the stream read by read ----------

  function Flat(chunks: seq<Bytes>): Bytes {
    if chunks == [] then [] else Flat(chunks[..|chunks| - 1]) + chunks[|chunks| - 1]
  }

  class FrameReader<T(!new)> {
    const dec: Decoder<T>
    var buf: Bytes
    var frames: seq<Frame<T>>
    var failed: bool

    constructor (dec: Decoder<T>)
      ensures this.dec == dec && buf == [] && frames == [] && !failed
    {
      this.dec := dec;
      buf, frames, failed := [], [], false;
    }

    /** `MsgPackCodec::decode`: takes one message off the buffer, if it is all there. */
    method Decode() returns (r: Outcome<T>)
      requires SelfDelimiting(dec)
      modifies this`buf
      ensures r == dec(old(buf))
      ensures buf == if r.Decoded? then old(buf)[r.length..] else old(buf)
    {
      r := dec(buf);
      if r.Decoded? {
        buf := buf[r.length..];
      }
    }

    /** One read: the bytes are buffered, then every complete message is dispatched; an error ends the connection. */
    method Read(chunk: Bytes)
      requires SelfDelimiting(dec) && !failed
      modifies this
      ensures Parsed(frames, buf, !failed) == Then(old(frames), Parse(dec, old(buf) + chunk))
    {
      buf := buf + chunk;
      Dispatch();
    }

    method Dispatch()
      requires SelfDelimiting(dec) && !failed
      modifies this
      ensures Parsed(frames, buf, !failed) == Then(old(frames), Parse(dec, old(buf)))
    {
      ghost var whole := Then(frames, Parse(dec, buf));
      var going := true;
      while going
        invariant !failed || !going
        invariant whole == if going then Then(frames, Parse(dec, buf)) else Parsed(frames, buf, !failed)
        decreases going, |buf|
      {
        ghost var done := frames;
        var src := buf;
        var r := Decode();
        match r
        case Incomplete =>
          ReadStops(dec, src, done);
          going := false;
        case Invalid =>
          ReadStops(dec, src, done);
          failed, going := true, false;
        case Decoded(obj, n) =>
          ReadGoesOn(dec, src, done);
          frames := frames + [Frame(obj, src[..n])];
      }
    }
  }

  /**
   Whatever reads the stream is cut into, the frames dispatched and the verdict are those of the whole stream.
   Without an error, frames and buffer hold every byte received.
   */
  method ReadAll<T(!new)>(dec: Decoder<T>, chunks: seq<Bytes>) returns (reader: FrameReader<T>)
    requires SelfDelimiting(dec)
    ensures var p := Parse(dec, Flat(chunks));
            reader.frames == p.frames && reader.failed == !p.ok && (p.ok ==> reader.buf == p.rest)
    ensures !reader.failed ==> Consumed(reader.frames) + reader.buf == Flat(chunks)
  {
    reader := new FrameReader<T>(dec);
    for i := 0 to |chunks|
      invariant fresh(reader) && reader.dec == dec
      invariant var p := Parse(dec, Flat(chunks[..i]));
                reader.frames == p.frames && reader.failed == !p.ok && (p.ok ==> reader.buf == p.rest)
    {
      assert chunks[..i + 1][..i] == chunks[..i];
      ParseMore(dec, Flat(chunks[..i]), chunks[i]);
      if reader.failed {
        ErrorIsFinal(dec, Flat(chunks[..i]), chunks[i]);
      } else {
        reader.Read(chunks[i]);
      }
    }
    assert chunks[..|chunks|] == chunks;
    ParseConserves(dec, Flat(chunks));
  }
}
