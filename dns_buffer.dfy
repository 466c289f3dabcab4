// `PacketBuffer` of src/dns/buffer.rs: a 512-byte array and a cursor, both
// updated in place.  Every method is proved to do exactly what the DnsWire
// function of the same name does to the state (bytes and cursor), so the
// lemmas about those functions apply to the object.

module DnsBuffer {
  import opened Bytes
  import Utf8
  import W = DnsWire
  import WP = DnsWireProofs
  import P = DnsNameProofs


  /** One step of `WriteWord`: the two halves of a write of level k. */
  lemma WriteHalves(st: W.St, k: nat, v: nat)
    requires k > 0 && v < Range(k)
    ensures v / Range(k - 1) < Range(k - 1)
    ensures var hi := W.WriteWord(st, k - 1, v / Range(k - 1));
      W.WriteWord(st, k, v) == if hi.Failed? then hi else W.WriteWord(hi.st, k - 1, v % Range(k - 1))
  {
    Halves(v, Range(k - 1));
  }

  class PacketBuffer {
    const buffer: array<u8>
    var pos: nat

    ghost predicate Valid()
      reads this
    {
      buffer.Length == W.Capacity && pos <= W.Capacity
    }

    /** The abstract state: the bytes and the cursor. */
    ghost function State(): W.St
      reads this, buffer
    {
      W.St(buffer[..], pos)
    }

    /** `PacketBuffer::new`: 512 zero bytes, cursor at 0. */
    constructor ()
      ensures Valid() && fresh(buffer)
      ensures State() == W.St(seq(W.Capacity, _ => 0), 0)
    {
      buffer := new u8[W.Capacity](_ => 0);
      pos := 0;
    }

    method Seek(p: nat) returns (r: W.Result<()>)
      requires Valid()
      modifies this
      ensures Valid()
      ensures r.Ok? <==> p < W.Capacity
      ensures pos == if r.Ok? then p else old(pos)
      ensures r.Err? ==> r.error == W.PositionOutOfBounds(p)
      ensures var s := W.Seek(old(State()), p); r == s.Res() && State() == s.st
    {
      if p >= buffer.Length {
        return W.Err(W.PositionOutOfBounds(p));
      }
      pos := p;
      r := W.Ok(());
    }

    method Get(p: nat) returns (r: W.Result<u8>)
      requires Valid()
      ensures p < W.Capacity ==> r == W.Ok(buffer[p])
      ensures p >= W.Capacity ==> r == W.Err(W.EndOfBuffer)
      ensures r == W.Get(State(), p)
    {
      if p >= buffer.Length {
        return W.Err(W.EndOfBuffer);
      }
      r := W.Ok(buffer[p]);
    }

    method GetBytes(p: nat, len: nat) returns (r: W.Result<seq<u8>>)
      requires Valid()
      ensures p + len <= W.Capacity ==> r == W.Ok(buffer[p..p + len])
      ensures p + len > W.Capacity ==> r == W.Err(W.EndOfBuffer)
      ensures r == W.GetBytes(State(), p, len)
    {
      if p + len > buffer.Length {
        return W.Err(W.EndOfBuffer);
      }
      r := W.Ok(buffer[p..p + len]);
    }

    method Read() returns (r: W.Result<u8>)
      requires Valid()
      modifies this
      ensures Valid()
      ensures var s := W.Read(old(State())); r == s.Res() && State() == s.st
    {
      r := Get(pos);
      if r.Ok? {
        pos := pos + 1;
      }
    }

    method ReadU16() returns (r: W.Result<u16>)
      requires Valid()
      modifies this
      ensures Valid()
      ensures var s := W.ReadWord(old(State()), 1); r == s.Res() && State() == s.st
    {
      WP.ReadHalves(State(), 1);
      Ranges();
      var hi := Read();
      if hi.Err? {
        return W.Err(hi.error);
      }
      var lo := Read();
      if lo.Err? {
        return W.Err(lo.error);
      }
      r := W.Ok(hi.value as int * 0x100 + lo.value);
    }

    method ReadU32() returns (r: W.Result<u32>)
      requires Valid()
      modifies this
      ensures Valid()
      ensures var s := W.ReadWord(old(State()), 2); r == s.Res() && State() == s.st
    {
      WP.ReadHalves(State(), 2);
      Ranges();
      var hi := ReadU16();
      if hi.Err? {
        return W.Err(hi.error);
      }
      var lo := ReadU16();
      if lo.Err? {
        return W.Err(lo.error);
      }
      r := W.Ok(hi.value as int * 0x1_0000 + lo.value);
    }

    method ReadU64() returns (r: W.Result<u64>)
      requires Valid()
      modifies this
      ensures Valid()
      ensures var s := W.ReadWord(old(State()), 3); r == s.Res() && State() == s.st
    {
      WP.ReadHalves(State(), 3);
      Ranges();
      var hi := ReadU32();
      if hi.Err? {
        return W.Err(hi.error);
      }
      var lo := ReadU32();
      if lo.Err? {
        return W.Err(lo.error);
      }
      r := W.Ok(hi.value as int * 0x1_0000_0000 + lo.value);
    }

    method ReadU128() returns (r: W.Result<u128>)
      requires Valid()
      modifies this
      ensures Valid()
      ensures var s := W.ReadWord(old(State()), 4); r == s.Res() && State() == s.st
    {
      WP.ReadHalves(State(), 4);
      Ranges();
      var hi := ReadU64();
      if hi.Err? {
        return W.Err(hi.error);
      }
      var lo := ReadU64();
      if lo.Err? {
        return W.Err(lo.error);
      }
      r := W.Ok(hi.value as int * 0x1_0000_0000_0000_0000 + lo.value);
    }

    method ReadBytes(len: nat) returns (r: W.Result<seq<u8>>)
      requires Valid()
      modifies this
      ensures Valid()
      ensures old(pos) + len <= W.Capacity ==> r == W.Ok(buffer[old(pos)..old(pos) + len]) && pos == old(pos) + len
      ensures old(pos) + len > W.Capacity ==> r == W.Err(W.EndOfBuffer) && pos == old(pos)
      ensures var s := W.ReadBytes(old(State()), len); r == s.Res() && State() == s.st
    {
      if pos + len > buffer.Length {
        return W.Err(W.EndOfBuffer);
      }
      r := W.Ok(buffer[pos..pos + len]);
      pos := pos + len;
    }

    /** One pass through the body of the loop of `read_query_name`. */
    method NameIteration(p: nat, jumped: bool, jumps: nat, labels: seq<seq<u8>>) returns (next: W.NameLoop)
      requires Valid()
      modifies this
      ensures Valid() && buffer[..] == old(buffer[..])
      ensures next == W.NameIteration(buffer[..], old(pos), p, jumped, jumps, labels)
      ensures pos == match next case Break(_) => old(pos) case Fail(_, c) => c case Next(c, _, _, _, _) => c
    {
      if jumps > W.MaxJumps {
        return W.Fail(W.JumpLimitExceeded, pos);
      }
      var len := Get(p);
      if len.Err? {
        return W.Fail(len.error, pos);
      }
      if len.value >= 0xC0 {
        if !jumped {
          var sk := Seek(p + 2);
          if sk.Err? {
            return W.Fail(sk.error, pos);
          }
        }
        var b2 := Get(p + 1);
        if b2.Err? {
          return W.Fail(b2.error, pos);
        }
        return W.Next(pos, (len.value as int - 0xC0) * 0x100 + b2.value, true, jumps + 1, labels);
      }
      if len.value == 0 {
        return W.Break(p + 1);
      }
      var bytes := GetBytes(p + 1, len.value);
      if bytes.Err? {
        return W.Fail(bytes.error, pos);
      }
      if !Utf8.IsValid(bytes.value) {
        return W.Fail(W.Utf8ConversionError, pos);
      }
      next := W.Next(pos, p + 1 + len.value, jumped, jumps, labels + [bytes.value]);
    }

    /** `read_query_name`: the decoding loop, following compression pointers. */
    method ReadQueryName() returns (r: W.Result<seq<u8>>)
      requires Valid()
      modifies this
      ensures Valid()
      ensures var s := W.ReadQueryName(old(State())); r == s.Res() && State() == s.st
    {
      var p: nat := pos;
      var labels: seq<seq<u8>> := [];
      var jumped := false;
      var jumps: nat := 0;
      ghost var b := buffer[..];
      ghost var spec := W.ReadQueryName(State());
      while true
        invariant Valid() && buffer[..] == b
        invariant W.NameFrom(b, pos, p, jumped, jumps, labels) == spec
        decreases W.JumpsLeft(jumps), W.BytesLeft(b, p)
      {
        var next := NameIteration(p, jumped, jumps, labels);
        match next
        case Fail(e, _) =>
          return W.Err(e);
        case Break(end) =>
          p := end;
          break;
        case Next(_, p', jumped', jumps', labels') =>
          p, jumped, jumps, labels := p', jumped', jumps', labels';
      }
      if !jumped {
        var sk := Seek(p);
        if sk.Err? {
          return W.Err(sk.error);
        }
      }
      r := W.Ok(W.Join(labels));
    }

    method Write(v: u8) returns (r: W.Result<()>)
      requires Valid()
      modifies this, buffer
      ensures Valid()
      ensures r.Ok? <==> old(pos) < W.Capacity
      ensures r.Ok? ==> buffer[..] == old(buffer[..])[old(pos) := v] && pos == old(pos) + 1
      ensures r.Err? ==> r.error == W.EndOfBuffer && buffer[..] == old(buffer[..]) && pos == old(pos)
      ensures var s := W.Write(old(State()), v); r == s.Res() && State() == s.st
    {
      if pos >= buffer.Length {
        return W.Err(W.EndOfBuffer);
      }
      buffer[pos] := v;
      pos := pos + 1;
      r := W.Ok(());
    }

    method WriteU16(v: u16) returns (r: W.Result<()>)
      requires Valid()
      modifies this, buffer
      ensures Valid()
      ensures var s := W.WriteWord(old(State()), 1, v); r == s.Res() && State() == s.st
    {
      WriteHalves(State(), 1, v);
      Ranges();
      r := Write(v / 0x100);
      if r.Err? {
        return;
      }
      r := Write(v % 0x100);
    }

    method WriteU32(v: u32) returns (r: W.Result<()>)
      requires Valid()
      modifies this, buffer
      ensures Valid()
      ensures var s := W.WriteWord(old(State()), 2, v); r == s.Res() && State() == s.st
    {
      WriteHalves(State(), 2, v);
      Ranges();
      r := WriteU16(v / 0x1_0000);
      if r.Err? {
        return;
      }
      r := WriteU16(v % 0x1_0000);
    }

    method WriteU64(v: u64) returns (r: W.Result<()>)
      requires Valid()
      modifies this, buffer
      ensures Valid()
      ensures var s := W.WriteWord(old(State()), 3, v); r == s.Res() && State() == s.st
    {
      WriteHalves(State(), 3, v);
      Ranges();
      r := WriteU32(v / 0x1_0000_0000);
      if r.Err? {
        return;
      }
      r := WriteU32(v % 0x1_0000_0000);
    }

    method WriteU128(v: u128) returns (r: W.Result<()>)
      requires Valid()
      modifies this, buffer
      ensures Valid()
      ensures var s := W.WriteWord(old(State()), 4, v); r == s.Res() && State() == s.st
    {
      WriteHalves(State(), 4, v);
      Ranges();
      r := WriteU64(v / 0x1_0000_0000_0000_0000);
      if r.Err? {
        return;
      }
      r := WriteU64(v % 0x1_0000_0000_0000_0000);
    }

    method WriteBytes(d: seq<u8>) returns (r: W.Result<()>)
      requires Valid()
      modifies this, buffer
      ensures Valid()
      ensures var s := W.WriteBytes(old(State()), d); r == s.Res() && State() == s.st
    {
      var i := 0;
      while i < |d|
        invariant 0 <= i <= |d| && Valid()
        invariant W.WriteBytes(State(), d[i..]) == W.WriteBytes(old(State()), d)
      {
        assert d[i..][0] == d[i] && d[i..][1..] == d[i + 1..];
        r := Write(d[i]);
        if r.Err? {
          return;
        }
        i := i + 1;
      }
      r := W.Ok(());
    }

    /** `write_query_name`: label by label, each a length byte and its bytes, then a zero byte. */
    method WriteQueryName(name: seq<u8>) returns (r: W.Result<()>)
      requires Valid()
      modifies this, buffer
      ensures Valid()
      ensures var s := W.WriteQueryName(old(State()), name); r == s.Res() && State() == s.st
    {
      var start := pos;
      var labels := W.Split(name);
      var i := 0;
      while i < |labels|
        invariant 0 <= i <= |labels| && Valid()
        invariant W.WriteNameRest(State(), labels[i..], start) == W.WriteQueryName(old(State()), name)
      {
        assert labels[i..][0] == labels[i] && labels[i..][1..] == labels[i + 1..];
        if |labels[i]| > W.MaxLabel {
          pos := start;
          return W.Err(W.InvalidLabelLength);
        }
        r := Write(|labels[i]|);
        if r.Err? {
          return;
        }
        r := WriteBytes(labels[i]);
        if r.Err? {
          return;
        }
        i := i + 1;
      }
      r := Write(0);
    }
  }
}
