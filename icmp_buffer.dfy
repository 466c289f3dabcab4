// `PacketBuffer` of src/icmp/buffer.rs: a growable byte vector and a cursor.
// A write at the cursor overwrites the byte there, or appends when the
// cursor is at the end, so writing never fails; reads fail at the end.
// `Put` describes what a run of writes does to the bytes, and the lemmas
// after it give the shape of the result and the big-endian round trip.

module IcmpBuffer {
  import opened Bytes

  /** `PacketBufferError`; `Unimplemented` stands for the panic of `unimplemented!()`. */
  datatype Error =
    | PositionOutOfBounds(pos: nat)
    | EndOfBuffer
    | Utf8ConversionError
    | Unimplemented

  datatype Result<+T> = Ok(value: T) | Err(error: Error) {
    predicate IsFailure() { Err? }
    function PropagateFailure<U>(): Result<U>
      requires Err?
    {
      Err(error)
    }
    function Extract(): T
      requires Ok?
    {
      value
    }
  }

  /**
   * The bytes after writing `d` at position `p` of `b`: the bytes of `d`
   * replace those at p, p+1, ... and any that run past the end are appended.
   */
  function Put(b: seq<u8>, p: nat, d: seq<u8>): seq<u8>
    requires p <= |b|
  {
    if p + |d| <= |b| then b[..p] + d + b[p + |d|..] else b[..p] + d
  }

  /** Writing keeps the bytes before p, lays d out from p and keeps the bytes after it. */
  lemma PutShape(b: seq<u8>, p: nat, d: seq<u8>)
    requires p <= |b|
    ensures |Put(b, p, d)| == if p + |d| <= |b| then |b| else p + |d|
    ensures Put(b, p, d)[..p] == b[..p]
    ensures Put(b, p, d)[p..p + |d|] == d
    ensures forall i | p + |d| <= i < |b| :: Put(b, p, d)[i] == b[i]
  {
    var r := Put(b, p, d);
    assert r[..p] == b[..p];
    assert r[p..p + |d|] == d;
  }

  /** One byte: overwritten in place below the end, pushed at the end. */
  lemma PutOne(b: seq<u8>, p: nat, v: u8)
    requires p <= |b|
    ensures Put(b, p, [v]) == if p < |b| then b[p := v] else b + [v]
  {
    if p < |b| {
      assert b[..p] + [v] + b[p + 1..] == b[p := v];
    } else {
      assert b[..p] == b;
    }
  }

  /** A write at the end of a prefix `a`: what follows is `rest` less its first |d| bytes. */
  lemma PutAfter(a: seq<u8>, rest: seq<u8>, d: seq<u8>)
    ensures Put(a + rest, |a|, d) == a + d + (if |d| <= |rest| then rest[|d|..] else [])
  {
    var b := a + rest;
    assert b[..|a|] == a;
    if |d| <= |rest| {
      assert b[|a| + |d|..] == rest[|d|..];
    }
  }

  /** Two writes in a row are one write of the two runs joined. */
  lemma PutPut(b: seq<u8>, p: nat, d1: seq<u8>, d2: seq<u8>)
    requires p <= |b|
    ensures p + |d1| <= |Put(b, p, d1)|
    ensures Put(Put(b, p, d1), p + |d1|, d2) == Put(b, p, d1 + d2)
  {
    var a, rest := b[..p], b[p..];
    assert b == a + rest;
    PutAfter(a, rest, d1);
    var r1 := if |d1| <= |rest| then rest[|d1|..] else [];
    assert Put(b, p, d1) == (a + d1) + r1;
    PutAfter(a + d1, r1, d2);
    PutAfter(a, rest, d1 + d2);
    if |d1| + |d2| <= |rest| {
      assert r1[|d2|..] == rest[|d1| + |d2|..];
    }
    assert a + d1 + d2 == a + (d1 + d2);
  }

  /** Writing into an empty buffer yields exactly the bytes written. */
  lemma PutEmpty(d: seq<u8>)
    ensures Put([], 0, d) == d
  {
  }

  /**
   * Big-endian round trip: after `write_u16`/`write_u32`/`write_u64` of v at p
   * (levels 1 to 3), `seek(p)` succeeds and the matching read returns v.
   */
  lemma WordRoundTrip(b: seq<u8>, p: nat, k: nat, v: nat)
    requires p <= |b| && v < Range(k)
    ensures p < p + Width(k) <= |Put(b, p, Be(k, v))|
    ensures Dec(k, Put(b, p, Be(k, v))[p..p + Width(k)]) == v
  {
    PutShape(b, p, Be(k, v));
    DecBe(k, v);
  }

  class PacketBuffer {
    var buffer: seq<u8>
    var pos: nat

    /** The cursor never passes the end of the bytes. */
    predicate Valid()
      reads this
    {
      pos <= |buffer|
    }

    /** `PacketBuffer::new`: no bytes, cursor at 0. */
    constructor ()
      ensures Valid() && buffer == [] && pos == 0
    {
      buffer := [];
      pos := 0;
    }

    /** `From<&[u8]>`: a copy of the bytes, cursor at 0. */
    constructor From(bytes: seq<u8>)
      ensures Valid() && buffer == bytes && pos == 0
    {
      buffer := bytes;
      pos := 0;
    }

    method Seek(p: nat) returns (r: Result<()>)
      requires Valid()
      modifies this
      ensures Valid() && buffer == old(buffer)
      ensures r.Ok? <==> p < |buffer|
      ensures pos == if r.Ok? then p else old(pos)
      ensures r.Err? ==> r.error == PositionOutOfBounds(p)
    {
      if p >= |buffer| {
        return Err(PositionOutOfBounds(p));
      }
      pos := p;
      r := Ok(());
    }

    function Get(p: nat): (r: Result<u8>)
      reads this
      ensures r.Ok? <==> p < |buffer|
      ensures r.Ok? ==> r.value == buffer[p]
      ensures r.Err? ==> r.error == EndOfBuffer
    {
      if p >= |buffer| then Err(EndOfBuffer) else Ok(buffer[p])
    }

    function GetBytes(p: nat, len: nat): (r: Result<seq<u8>>)
      reads this
      ensures r.Ok? <==> p + len <= |buffer|
      ensures r.Ok? ==> |r.value| == len && r.value == buffer[p..p + len]
      ensures r.Err? ==> r.error == EndOfBuffer
    {
      if p + len > |buffer| then Err(EndOfBuffer) else Ok(buffer[p..p + len])
    }

    /** Whether a read of level k from p0 finds its Width(k) bytes. */
    ghost predicate Fits(k: nat, p0: nat)
      reads this
    {
      p0 + Width(k) <= |buffer|
    }

    /** The value of the Width(k) bytes from p0, high byte first. */
    ghost function Word(k: nat, p0: nat): (v: nat)
      requires Fits(k, p0)
      reads this
      ensures v < Range(k)
    {
      Dec(k, buffer[p0..p0 + Width(k)])
    }

    // A read of level k (`read`, `read_u16`, `read_u32`, `read_u64`) yields
    // the value of the next Width(k) bytes and moves the cursor past them,
    // or fails with `EndOfBuffer` and leaves the cursor at the end, where
    // the failing single-byte read stopped it.

    method Read() returns (r: Result<u8>)
      requires Valid()
      modifies this
      ensures Valid() && buffer == old(buffer)
      ensures Fits(0, old(pos)) ==> r.Ok? && r.value == Word(0, old(pos)) && pos == old(pos) + 1
      ensures !Fits(0, old(pos)) ==> r == Err(EndOfBuffer) && pos == |buffer|
    {
      var v :- Get(pos);
      pos := pos + 1;
      r := Ok(v);
    }

    method ReadU16() returns (r: Result<u16>)
      requires Valid()
      modifies this
      ensures Valid() && buffer == old(buffer)
      ensures Fits(1, old(pos)) ==> r.Ok? && r.value == Word(1, old(pos)) && pos == old(pos) + 2
      ensures !Fits(1, old(pos)) ==> r == Err(EndOfBuffer) && pos == |buffer|
    {
      ghost var p0 := pos;
      var hi :- Read();
      var lo :- Read();
      DecSplit(1, buffer[p0..p0 + 1], buffer[p0 + 1..p0 + 2]);
      assert buffer[p0..p0 + 2] == buffer[p0..p0 + 1] + buffer[p0 + 1..p0 + 2];
      Combine(hi, lo, 0x100);
      var v: u16 := (hi as int) * 0x100 + lo;
      r := Ok(v);
    }

    method ReadU32() returns (r: Result<u32>)
      requires Valid()
      modifies this
      ensures Valid() && buffer == old(buffer)
      ensures Fits(2, old(pos)) ==> r.Ok? && r.value == Word(2, old(pos)) && pos == old(pos) + 4
      ensures !Fits(2, old(pos)) ==> r == Err(EndOfBuffer) && pos == |buffer|
    {
      ghost var p0 := pos;
      var hi :- ReadU16();
      var lo :- ReadU16();
      Ranges();
      DecSplit(2, buffer[p0..p0 + 2], buffer[p0 + 2..p0 + 4]);
      assert buffer[p0..p0 + 4] == buffer[p0..p0 + 2] + buffer[p0 + 2..p0 + 4];
      Combine(hi, lo, 0x1_0000);
      var v: u32 := (hi as int) * 0x1_0000 + lo;
      r := Ok(v);
    }

    method ReadU64() returns (r: Result<u64>)
      requires Valid()
      modifies this
      ensures Valid() && buffer == old(buffer)
      ensures Fits(3, old(pos)) ==> r.Ok? && r.value == Word(3, old(pos)) && pos == old(pos) + 8
      ensures !Fits(3, old(pos)) ==> r == Err(EndOfBuffer) && pos == |buffer|
    {
      ghost var p0 := pos;
      var hi :- ReadU32();
      var lo :- ReadU32();
      Ranges();
      DecSplit(3, buffer[p0..p0 + 4], buffer[p0 + 4..p0 + 8]);
      assert buffer[p0..p0 + 8] == buffer[p0..p0 + 4] + buffer[p0 + 4..p0 + 8];
      Combine(hi, lo, 0x1_0000_0000);
      var v: u64 := (hi as int) * 0x1_0000_0000 + lo;
      r := Ok(v);
    }

    method ReadBytes(len: nat) returns (r: Result<seq<u8>>)
      requires Valid()
      modifies this
      ensures Valid() && buffer == old(buffer)
      ensures r.Ok? <==> old(pos) + len <= |buffer|
      ensures r.Ok? ==> r.value == buffer[old(pos)..old(pos) + len] && pos == old(pos) + len
      ensures r.Err? ==> r.error == EndOfBuffer && pos == old(pos)
    {
      if pos + len > |buffer| {
        return Err(EndOfBuffer);
      }
      r := Ok(buffer[pos..pos + len]);
      pos := pos + len;
    }

    method Write(value: u8) returns (r: Result<()>)
      requires Valid()
      modifies this
      ensures Valid() && r == Ok(())
      ensures buffer == Put(old(buffer), old(pos), [value]) && pos == old(pos) + 1
    {
      PutOne(buffer, pos, value);
      if pos < |buffer| {
        buffer := buffer[pos := value];
      } else {
        buffer := buffer + [value];
      }
      pos := pos + 1;
      r := Ok(());
    }

    method WriteU16(value: u16) returns (r: Result<()>)
      requires Valid()
      modifies this
      ensures Valid() && r == Ok(())
      ensures buffer == Put(old(buffer), old(pos), Be(1, value)) && pos == old(pos) + 2
    {
      ghost var b0, p0 := buffer, pos;
      var u := Write(value / 0x100);
      r := Write(value % 0x100);
      PutPut(b0, p0, [value / 0x100], [value % 0x100]);
    }

    method WriteU32(value: u32) returns (r: Result<()>)
      requires Valid()
      modifies this
      ensures Valid() && r == Ok(())
      ensures buffer == Put(old(buffer), old(pos), Be(2, value)) && pos == old(pos) + 4
    {
      ghost var b0, p0 := buffer, pos;
      Ranges();
      var u := WriteU16(value / 0x1_0000);
      r := WriteU16(value % 0x1_0000);
      PutPut(b0, p0, Be(1, value / 0x1_0000), Be(1, value % 0x1_0000));
    }

    method WriteU64(value: u64) returns (r: Result<()>)
      requires Valid()
      modifies this
      ensures Valid() && r == Ok(())
      ensures buffer == Put(old(buffer), old(pos), Be(3, value)) && pos == old(pos) + 8
    {
      ghost var b0, p0 := buffer, pos;
      Ranges();
      var u := WriteU32(value / 0x1_0000_0000);
      r := WriteU32(value % 0x1_0000_0000);
      PutPut(b0, p0, Be(2, value / 0x1_0000_0000), Be(2, value % 0x1_0000_0000));
    }

    method WriteBytes(bytes: seq<u8>) returns (r: Result<()>)
      requires Valid()
      modifies this
      ensures Valid() && r == Ok(())
      ensures buffer == Put(old(buffer), old(pos), bytes) && pos == old(pos) + |bytes|
    {
      ghost var b0, p0 := buffer, pos;
      assert Put(b0, p0, bytes[..0]) == b0 by {
        assert b0[..p0] + b0[p0..] == b0;
      }
      for i := 0 to |bytes|
        invariant Valid()
        invariant buffer == Put(b0, p0, bytes[..i]) && pos == p0 + i
      {
        var u := Write(bytes[i]);
        PutPut(b0, p0, bytes[..i], [bytes[i]]);
        assert bytes[..i] + [bytes[i]] == bytes[..i + 1];
      }
      assert bytes[..|bytes|] == bytes;
      r := Ok(());
    }
  }
}
