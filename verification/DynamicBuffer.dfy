/** A growable byte buffer: it holds exactly the bytes added, never more than twice the
    space it needs, and moves each byte of its capacity at most once on average. */
module DynamicBuffers {
  import opened Int32
  import opened Vlq

  const INITIAL: nat := 512

  function Max(a: nat, b: nat): nat {
    if a > b then a else b
  }

  class DynamicBuffer {
    var buffer: array<Byte>
    var size: nat
    /** All bytes that growing has copied so far. */
    ghost var copied: nat

    ghost predicate Valid()
      reads this
    {
      && size <= buffer.Length <= Max(INITIAL, 2 * size)
      && copied + INITIAL <= buffer.Length
    }

    ghost function Contents(): seq<Byte>
      requires Valid()
      reads this, buffer
    {
      buffer[..size]
    }

    constructor ()
      ensures Valid() && Contents() == [] && fresh(buffer)
    {
      buffer := new Byte[INITIAL](_ => 0);
      size, copied := 0, 0;
    }

    /** Makes room; doubling keeps the copying within the capacity gained. */
    method EnsureCapacity(capacity: nat)
      requires Valid()
      modifies this
      ensures size == old(size) && size <= buffer.Length && buffer[..size] == old(buffer[..size])
      ensures capacity <= buffer.Length <= Max(INITIAL, 2 * Max(size, capacity))
      ensures copied + INITIAL <= buffer.Length
      ensures buffer == old(buffer) || fresh(buffer)
    {
      if buffer.Length >= capacity {
        return;
      }
      var oldBuffer := buffer;
      var bigger := new Byte[Max(oldBuffer.Length * 2, capacity)](_ => 0);
      forall i | 0 <= i < oldBuffer.Length {
        bigger[i] := oldBuffer[i];
      }
      buffer := bigger;
      copied := copied + oldBuffer.Length;
    }

    method AddByte(b: Byte)
      requires Valid()
      modifies this, buffer
      ensures Valid() && Contents() == old(Contents()) + [b]
      ensures buffer == old(buffer) || fresh(buffer)
    {
      EnsureCapacity(size + 1);
      buffer[size] := b;
      size := size + 1;
    }

    /** Writes a number as base64 VLQ, five bits at a time. */
    method AddVlq(num: int)
      requires Valid()
      modifies this, buffer
      ensures Valid() && Contents() == old(Contents()) + EncodeVlq(num)
      ensures buffer == old(buffer) || fresh(buffer)
    {
      hide *;
      RawOfIs(num);
      var raw := if num < 0 then Shl(-num, 1) + 1 else Shl(num, 1);
      var more := true;
      ghost var todo := EncodeRaw(raw);
      while more
        invariant Valid() && (buffer == old(buffer) || fresh(buffer))
        invariant -LIMIT <= raw < LIMIT
        invariant old(Contents()) + EncodeVlq(num) == Contents() + todo
        invariant todo == if more then EncodeRaw(raw) else []
        decreases more, if raw > 0 then raw else 0
      {
        EncodeRawOnce(raw);
        var clamped := Low5(raw);
        raw := Sar(raw, 5);
        if raw > 0 {
          clamped := clamped + 32;
        } else {
          more := false;
        }
        todo := if more then EncodeRaw(raw) else [];
        AddByte(IntegerToChar(clamped));
      }
    }

    method AddBuffer(b: seq<Byte>)
      requires Valid()
      modifies this, buffer
      ensures Valid() && Contents() == old(Contents()) + b
      ensures buffer == old(buffer) || fresh(buffer)
    {
      EnsureCapacity(size + |b|);
      forall i | 0 <= i < |b| {
        buffer[size + i] := b[i];
      }
      size := size + |b|;
    }

    method ToBytes() returns (b: seq<Byte>)
      requires Valid()
      ensures b == Contents()
    {
      return buffer[..size];
    }
  }

  lemma RawOfIs(num: int)
    ensures RawOf(num) == if num < 0 then Shl(-num, 1) + 1 else Shl(num, 1)
    ensures EncodeVlq(num) == EncodeRaw(RawOf(num)) && -LIMIT <= RawOf(num) < LIMIT
  {
    RawOfRange(num);
  }

  /** One turn of the encoding loop. */
  lemma EncodeRawOnce(raw: int)
    requires -LIMIT <= raw < LIMIT
    ensures 0 <= Low5(raw) < 32
    ensures Sar(raw, 5) > 0 ==> EncodeRaw(raw) == [IntegerToChar(Low5(raw) + 32)] + EncodeRaw(Sar(raw, 5))
    ensures Sar(raw, 5) <= 0 ==> EncodeRaw(raw) == [IntegerToChar(Low5(raw))]
    ensures -LIMIT <= Sar(raw, 5) < LIMIT && (Sar(raw, 5) > 0 ==> Sar(raw, 5) < raw)
  {
    Sar5(raw);
    hide Sar, Low5;
  }
}
