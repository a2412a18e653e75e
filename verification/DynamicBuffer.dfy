/** The growing byte buffer that the bundler writes to. */
module DynamicBuffer {
  import opened Basics
  import opened Vlq

  class DynamicBuffer {
    var buffer: array<Byte>
    var size: nat

    ghost predicate Valid()
      reads this
    {
      size <= buffer.Length
    }

    ghost function Contents(): seq<Byte>
      requires Valid()
      reads this, buffer
    {
      buffer[..size]
    }

    constructor ()
      ensures Valid() && Contents() == [] && fresh(buffer) && buffer.Length == 512
    {
      buffer := new Byte[512](i => 0);
      size := 0;
    }

    /** Makes room; what the buffer holds stays. */
    method EnsureCapacity(capacity: nat)
      requires Valid()
      modifies this`buffer
      ensures Valid() && Contents() == old(Contents()) && size == old(size)
      ensures buffer.Length >= capacity && buffer.Length >= old(buffer.Length)
      ensures buffer == old(buffer) || fresh(buffer)
    {
      if buffer.Length >= capacity {
        return;
      }
      var oldBuffer := buffer;
      var length := if oldBuffer.Length * 2 >= capacity then oldBuffer.Length * 2 else capacity;
      var grown := new Byte[length](i => 0);
      forall i | 0 <= i < oldBuffer.Length {
        grown[i] := oldBuffer[i];
      }
      buffer := grown;
    }

    method AddByte(b: Byte)
      requires Valid()
      modifies this, buffer
      ensures Valid() && Contents() == old(Contents()) + [b]
      ensures buffer == old(buffer) || fresh(buffer)
    {
      EnsureCapacity(size + 1);
      buffer[size] := b;
      size := size + 1;
    }

    method AddBuffer(bytes: seq<Byte>)
      requires Valid()
      modifies this, buffer
      ensures Valid() && Contents() == old(Contents()) + bytes
      ensures buffer == old(buffer) || fresh(buffer)
    {
      EnsureCapacity(size + |bytes|);
      forall i | 0 <= i < |bytes| {
        buffer[size + i] := bytes[i];
      }
      size := size + |bytes|;
    }

    method ToBuffer() returns (bytes: seq<Byte>)
      requires Valid()
      ensures bytes == Contents()
    {
      bytes := buffer[..size];
    }

    /** Appends a signed number in Base64 VLQ, in 32-bit arithmetic. */
    method AddVLQ(n: int)
      requires Valid()
      modifies this, buffer
      ensures Valid() && Contents() == old(Contents()) + Encode(n)
      ensures buffer == old(buffer) || fresh(buffer)
    {
      var num := if n < 0 then ShiftLeft(-n, 1) + 1 else ShiftLeft(n, 1);
      AddDigits(ToInt32(num));
    }

    /** The digits of a 32-bit number, five bits at a time, lowest first. */
    method AddDigits(n: int)
      requires Valid() && -TWO_31 <= n < TWO_31
      modifies this, buffer
      ensures Valid() && Contents() == old(Contents()) + Digits(n)
      ensures buffer == old(buffer) || fresh(buffer)
    {
      var num, more := n, true;
      ghost var text := Contents() + Digits(n);
      while more
        invariant Valid() && -TWO_31 <= num < TWO_31
        invariant text == Contents() + if more then Digits(num) else []
        invariant buffer == old(buffer) || fresh(buffer)
        decreases more, if num < 0 then 0 else num
      {
        var next := num / 32;
        var clamped := if next > 0 then num % 32 + 32 else num % 32;
        NextDigit(Contents(), num);
        AddByte(IntegerToChar(clamped));
        num, more := next, next > 0;
      }
    }
  }

  lemma NextDigit(text: seq<Byte>, n: int)
    requires -TWO_31 <= n < TWO_31
    ensures var d := if n / 32 > 0 then n % 32 + 32 else n % 32;
            text + Digits(n) == text + [IntegerToChar(d)] + if n / 32 > 0 then Digits(n / 32) else []
  {
    if n / 32 > 0 {
      assert text + ([IntegerToChar(n % 32 + 32)] + Digits(n / 32)) ==
             text + [IntegerToChar(n % 32 + 32)] + Digits(n / 32);
    }
  }
}
