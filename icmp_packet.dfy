// `IcmpPacket` of src/icmp/packet.rs: an ICMP message (RFC 792) with its
// 8-byte header -- type, code, 16-bit checksum, 32-bit content -- and the
// payload after it. `Encode` and `Decode` give the layout that `write` and
// `read` produce and consume; the class `Packet` is the mutable struct whose
// `write` stores the checksum it computes and patches it in at offset 2.

module IcmpPacket {
  import opened Bytes
  import opened IcmpBuffer
  import opened IcmpTypes

  /** The fields of a packet, as a value. */
  datatype Message = Message(
    msgType: IcmpType,
    msgCode: u8,
    checksum: u16,
    content: IcmpContentType,
    payload: seq<u8>)
  {
    /** Messages that `read` gives back after `write`: a known type and content of its variant. */
    predicate Fits()
    {
      !msgType.Unknown? && content.Matches(msgType) && content.WellFormed()
    }
  }

  /** `IcmpPacket::default`: an echo request with id and sequence number 1 and 32 zero bytes. */
  function DefaultMessage(): (m: Message)
    ensures m.Fits() && m.msgType == IcmpType.EchoRequest && m.msgCode == 0 && m.checksum == 0
    ensures m.content == Echo(1, 1)
    ensures |m.payload| == 32 && forall i | 0 <= i < 32 :: m.payload[i] == 0
  {
    Message(IcmpType.EchoRequest, 0, 0, Echo(1, 1), seq(32, _ => 0))
  }

  /** `echo_request`: the default packet with the given id, sequence number and payload size. */
  function EchoMessage(id: u16, sequenceNo: u16, packetSize: nat): (m: Message)
    ensures m.Fits() && m.msgType == IcmpType.EchoRequest && m.msgCode == 0 && m.checksum == 0
    ensures m.content == Echo(id, sequenceNo)
    ensures |m.payload| == packetSize && forall i | 0 <= i < packetSize :: m.payload[i] == 0
  {
    DefaultMessage().(content := Echo(id, sequenceNo), payload := seq(packetSize, _ => 0))
  }

  /** The bytes `write` lays out before patching the checksum. */
  function Encode(m: Message): (b: seq<u8>)
    ensures |b| == 8 + |m.payload| && b[8..] == m.payload
    ensures b[0] == m.msgType.ToU8() && b[1] == m.msgCode
  {
    Ranges();
    assert Width(1) == 2 && Width(2) == 4;
    [m.msgType.ToU8(), m.msgCode] + Be(1, m.checksum) + Be(2, m.content.ToU32()) + m.payload
  }

  /**
   * What `read` makes of the bytes from p: `EndOfBuffer` when fewer than 8
   * remain, the panic of `IcmpContentType::new` for an unknown type byte,
   * and otherwise the fields with all remaining bytes as payload. The
   * checksum is taken as it stands, not verified.
   */
  function Decode(b: seq<u8>, p: nat): (r: Result<Message>)
    requires p <= |b|
    ensures r.Ok? <==> p + 8 <= |b| && b[p] in Codes
    ensures r.Err? ==> r.error == if p + 8 <= |b| then Unimplemented else EndOfBuffer
    ensures r.Ok? ==> r.value.payload == b[p + 8..] && |r.value.payload| == |b| - p - 8
    ensures r.Ok? ==> r.value.Fits()
  {
    if p + 8 > |b| then Err(EndOfBuffer)
    else
      Ranges();
      var msgType := IcmpType.FromU8(b[p]);
      var content :- IcmpContentType.New(msgType, Dec(2, b[p + 4..p + 8]));
      Ok(Message(msgType, b[p + 1], Dec(1, b[p + 2..p + 4]), content, b[p + 8..]))
  }

  /** Decoding undoes encoding for every message that `Fits`. */
  lemma DecodeEncode(m: Message)
    requires m.Fits()
    ensures Decode(Encode(m), 0) == Ok(m)
  {
    Ranges();
    var b := Encode(m);
    assert b[2..4] == Be(1, m.checksum);
    assert b[4..8] == Be(2, m.content.ToU32());
    DecBe(1, m.checksum);
    DecBe(2, m.content.ToU32());
    FromToU8(m.msgType);
    NewToU32(m.msgType, m.content);
  }

  /** The encoding as type and code, checksum field, and the rest. */
  lemma EncodeSplit(m: Message)
    ensures Range(1) == 0x1_0000
    ensures Encode(m) == [m.msgType.ToU8(), m.msgCode] + (Be(1, m.checksum) + (Be(2, m.content.ToU32()) + m.payload))
  {
    Ranges();
  }

  /** Overwriting two bytes after a two-byte prefix. */
  lemma PutTwo(h: seq<u8>, x: seq<u8>, y: seq<u8>, tail: seq<u8>)
    requires |h| == |x| == |y| == 2
    ensures Put(h + (x + tail), 2, y) == h + (y + tail)
  {
    PutAfter(h, x + tail, y);
    assert (x + tail)[2..] == tail;
  }

  /** Writing a checksum over bytes 2..3 of an encoding is encoding with that checksum. */
  lemma PatchChecksum(m: Message, c: u16)
    ensures 2 <= |Encode(m)|
    ensures Put(Encode(m), 2, Be(1, c)) == Encode(m.(checksum := c))
  {
    EncodeSplit(m);
    EncodeSplit(m.(checksum := c));
    assert Width(1) == 2;
    PutTwo([m.msgType.ToU8(), m.msgCode], Be(1, m.checksum), Be(1, c), Be(2, m.content.ToU32()) + m.payload);
  }

  // ---- calculate_checksum ----

  /** One 2-byte chunk as a big-endian word; a final odd byte is the high byte. */
  function ChunkWord(b: seq<u8>): (w: nat)
    requires |b| > 0
    ensures w < 0x1_0000
  {
    if |b| >= 2 then (b[0] as int) * 0x100 + b[1] else (b[0] as int) * 0x100
  }

  /** The bytes after the first chunk. */
  function NextChunks(b: seq<u8>): (rest: seq<u8>)
    requires |b| > 0
    ensures |rest| < |b|
  {
    if |b| >= 2 then b[2..] else []
  }

  /** The `fold` of `calculate_checksum`: the chunk words added with 32-bit wrap-around. */
  function Fold(acc: u32, b: seq<u8>): u32
    decreases |b|
  {
    if b == [] then acc else Fold((acc + ChunkWord(b)) % 0x1_0000_0000, NextChunks(b))
  }

  /** The plain sum of the chunk words, the reference for `Fold`. */
  function WordSum(b: seq<u8>): nat
    decreases |b|
  {
    if b == [] then 0 else ChunkWord(b) + WordSum(NextChunks(b))
  }

  /**
   * `calculate_checksum` as written: the 32-bit sum s of the words, then the
   * bitwise NOT of the low 16 bits of `(s & 0xFFFFF) * (s >> 16)`, the
   * product taken modulo 2^32.
   */
  function CalculateChecksum(b: seq<u8>): u16
  {
    var sum := Fold(0, b);
    var product := (sum % 0x10_0000) * (sum / 0x1_0000) % 0x1_0000_0000;
    0xFFFF - product % 0x1_0000
  }

  /** Adding a multiple of m does not change the remainder by m. */
  lemma ModShift(k: nat, z: nat, m: nat)
    requires m > 0
    ensures (k * m + z) % m == z % m
  {
    var q := z / m;
    assert z == q * m + z % m;
    assert k * m + z == (k + q) * m + z % m;
    Unhalves(k + q, z % m, m);
  }

  lemma ModAdd(x: nat, y: nat, m: nat)
    requires m > 0
    ensures (x % m + y) % m == (x + y) % m
  {
    assert x == x / m * m + x % m;
    ModShift(x / m, x % m + y, m);
  }

  lemma ModMod(x: nat, a: nat, b: nat)
    requires a > 0 && b > 0
    ensures x % (a * b) % a == x % a
  {
    var q := x / (a * b);
    assert x == q * (a * b) + x % (a * b);
    assert q * (a * b) == (q * b) * a;
    ModShift(q * b, x % (a * b), a);
  }

  /** The wrapping fold is the plain sum modulo 2^32. */
  lemma {:induction false} FoldSum(acc: u32, b: seq<u8>)
    ensures Fold(acc, b) == (acc + WordSum(b)) % 0x1_0000_0000
    decreases |b|
  {
    if b != [] {
      var w := ChunkWord(b);
      FoldSum((acc + w) % 0x1_0000_0000, NextChunks(b));
      ModAdd(acc + w, WordSum(NextChunks(b)), 0x1_0000_0000);
    }
  }

  /** The checksum in terms of the word sum s modulo 2^32. */
  lemma ChecksumFormula(b: seq<u8>)
    ensures var s := WordSum(b) % 0x1_0000_0000;
      CalculateChecksum(b) == 0xFFFF - (s % 0x10_0000) * (s / 0x1_0000) % 0x1_0000
  {
    FoldSum(0, b);
    var s := WordSum(b) % 0x1_0000_0000;
    var x := (s % 0x10_0000) * (s / 0x1_0000);
    ModMod(x, 0x1_0000, 0x1_0000);
  }

  /** Whenever the words sum to less than 2^16, `sum >> 16` is 0 and the checksum is 0xFFFF. */
  lemma SmallSumChecksum(b: seq<u8>)
    requires WordSum(b) < 0x1_0000
    ensures CalculateChecksum(b) == 0xFFFF
  {
    ChecksumFormula(b);
  }

  // ---- the Internet checksum of RFC 1071, for comparison ----

  /** One's-complement sum of the words: a carry out of bit 15 is added back in. */
  function OnesSum(acc: u16, b: seq<u8>): u16
    decreases |b|
  {
    if b == [] then acc
    else
      var s := acc + ChunkWord(b);
      OnesSum(if s >= 0x1_0000 then s - 0xFFFF else s, NextChunks(b))
  }

  /**
   * The checksum the Checksum field of the Echo and Echo Reply message
   * format of RFC 792 asks for: the complement of the one's-complement sum.
   */
  function InternetChecksum(b: seq<u8>): u16
  {
    0xFFFF - OnesSum(0, b)
  }

  /** Without carries the one's-complement sum is the plain sum. */
  lemma {:induction false} OnesSumNoCarry(acc: u16, b: seq<u8>)
    requires acc + WordSum(b) < 0x1_0000
    ensures OnesSum(acc, b) == acc + WordSum(b)
    decreases |b|
  {
    if b != [] {
      OnesSumNoCarry(acc + ChunkWord(b), NextChunks(b));
    }
  }

  /**
   * The two checksums differ on every buffer whose words sum to a value in
   * 1..0xFFFF: `calculate_checksum` gives 0xFFFF, RFC 1071 gives 0xFFFF - sum.
   */
  lemma ChecksumNotInternet(b: seq<u8>)
    requires 0 < WordSum(b) < 0x1_0000
    ensures CalculateChecksum(b) == 0xFFFF
    ensures InternetChecksum(b) == 0xFFFF - WordSum(b) != CalculateChecksum(b)
  {
    SmallSumChecksum(b);
    OnesSumNoCarry(0, b);
  }

  /** The words of a run of even length followed by more bytes. */
  lemma {:induction false} WordSumAppend(a: seq<u8>, b: seq<u8>)
    requires |a| % 2 == 0
    ensures WordSum(a + b) == WordSum(a) + WordSum(b)
    decreases |a|
  {
    if a != [] {
      assert |a| >= 2;
      assert (a + b)[0] == a[0] && (a + b)[1] == a[1];
      assert (a + b)[2..] == a[2..] + b;
      WordSumAppend(NextChunks(a), b);
    } else {
      assert a + b == b;
    }
  }

  /** The first word of at least two bytes and the words after it. */
  lemma WordSumStep(b: seq<u8>)
    requires |b| >= 2
    ensures WordSum(b) == b[0] * 0x100 + b[1] + WordSum(b[2..])
  {
  }

  lemma {:induction false} WordSumZeros(n: nat)
    ensures WordSum(seq(n, _ => 0)) == 0
    decreases n
  {
    if n > 0 {
      var z: seq<u8> := seq(n, _ => 0);
      assert NextChunks(z) == seq(if n >= 2 then n - 2 else 0, _ => 0);
      WordSumZeros(if n >= 2 then n - 2 else 0);
    }
  }

  /**
   * An echo request as `write` first lays it out (checksum field 0) sums to
   * 0x0800 + id + sequence number, so unless id + sequence number reaches
   * 0xF800 its checksum is 0xFFFF, not the RFC 1071 value.
   */
  lemma EchoChecksum(id: u16, sequenceNo: u16, packetSize: nat)
    requires id + sequenceNo < 0xF800
    ensures var b := Encode(EchoMessage(id, sequenceNo, packetSize));
      WordSum(b) == 0x0800 + id + sequenceNo &&
      CalculateChecksum(b) == 0xFFFF &&
      InternetChecksum(b) == 0xFFFF - (0x0800 + id + sequenceNo)
  {
    var m := EchoMessage(id, sequenceNo, packetSize);
    Ranges();
    var head: seq<u8> := [8, 0] + Be(1, 0) + Be(2, m.content.ToU32());
    assert Encode(m) == head + m.payload;
    EchoHeaderSum(id, sequenceNo);
    WordSumAppend(head, m.payload);
    WordSumZeros(packetSize);
    assert m.payload == seq(packetSize, _ => 0);
    ChecksumNotInternet(Encode(m));
  }

  /** The words of eight bytes. */
  lemma WordSumEight(h: seq<u8>)
    requires |h| == 8
    ensures WordSum(h) == (h[0] as int) * 0x100 + h[1] + (h[2] as int) * 0x100 + h[3]
                        + (h[4] as int) * 0x100 + h[5] + (h[6] as int) * 0x100 + h[7]
  {
    WordSumStep(h);
    WordSumStep(h[2..]);
    WordSumStep(h[4..]);
    WordSumStep(h[6..]);
    assert h[2..][2..] == h[4..] && h[4..][2..] == h[6..] && h[6..][2..] == [];
  }

  /** The two bytes of a 16-bit value. */
  lemma BeU16(v: u16)
    ensures Range(1) == 0x1_0000
    ensures Be(1, v) == [v / 0x100, v % 0x100] && (v / 0x100) * 0x100 + v % 0x100 == v
  {
    Ranges();
  }

  /** The header words of an echo request with checksum field 0: 0x0800, 0, id, sequence number. */
  lemma EchoHeaderSum(id: u16, sequenceNo: u16)
    ensures Range(1) == 0x1_0000
    ensures var head: seq<u8> := [8, 0] + Be(1, 0) + Be(2, Echo(id, sequenceNo).ToU32());
      |head| % 2 == 0 && WordSum(head) == 0x0800 + id + sequenceNo
  {
    Ranges();
    var v := Echo(id, sequenceNo).ToU32();
    var head: seq<u8> := [8, 0] + Be(1, 0) + Be(2, v);
    var h: seq<u8> := [8, 0, 0, 0, id / 0x100, id % 0x100, sequenceNo / 0x100, sequenceNo % 0x100];
    assert head == h by {
      BeU16(0);
      BeU16(id);
      BeU16(sequenceNo);
      BeJoin(2, id, sequenceNo);
      assert v == id * 0x1_0000 + sequenceNo;
    }
    WordSumEight(h);
    assert WordSum(h) == 0x0800 + id + sequenceNo by {
      BeU16(id);
      BeU16(sequenceNo);
    }
  }

  // ---- the checksum RFC 1071 describes, verified over the patched message ----

  /** A sum folded into 1..0xFFFF by adding each carry back in; 0 stays 0. */
  function EndAround(x: nat): (r: nat)
    ensures r <= 0xFFFF && (r == 0 <==> x == 0)
  {
    if x == 0 then 0 else (x - 1) % 0xFFFF + 1
  }

  /** The one's-complement sum is the plain word sum with every carry added back in. */
  lemma {:induction false} OnesSumFolds(acc: u16, b: seq<u8>)
    ensures OnesSum(acc, b) == EndAround(acc + WordSum(b))
    decreases |b|
  {
    if b != [] {
      var s := acc + ChunkWord(b);
      var rest := WordSum(NextChunks(b));
      OnesSumFolds(if s >= 0x1_0000 then s - 0xFFFF else s, NextChunks(b));
      if s >= 0x1_0000 {
        ModShift(1, s - 0xFFFF + rest - 1, 0xFFFF);
      }
    }
  }

  /** The checksum field adds its value to the word sum of the message. */
  lemma WordSumChecksum(m: Message)
    ensures WordSum(Encode(m)) == WordSum(Encode(m.(checksum := 0))) + m.checksum
  {
    var m0 := m.(checksum := 0);
    var tail := Be(2, m.content.ToU32()) + m.payload;
    EncodeSplit(m);
    EncodeSplit(m0);
    BeU16(m.checksum);
    BeU16(0);
    var e, e0 := Encode(m), Encode(m0);
    WordSumStep(e);
    WordSumStep(e0);
    assert e[2..] == Be(1, m.checksum) + tail && e0[2..] == Be(1, 0) + tail;
    WordSumStep(e[2..]);
    WordSumStep(e0[2..]);
    assert e[2..][2..] == tail && e0[2..][2..] == tail;
  }

  /**
   * The RFC 1071 checksum, computed with the field at 0 and then written
   * into it, makes the one's-complement sum of the whole message 0xFFFF:
   * what a receiver verifying the checksum, and `ping` echo replies, rely on.
   */
  lemma InternetChecksumVerifies(m: Message)
    ensures var c := InternetChecksum(Encode(m.(checksum := 0)));
      OnesSum(0, Encode(m.(checksum := c))) == 0xFFFF
  {
    var e0 := Encode(m.(checksum := 0));
    var c := InternetChecksum(e0);
    var t := WordSum(e0);
    OnesSumFolds(0, e0);
    WordSumChecksum(m.(checksum := c));
    assert m.(checksum := c).(checksum := 0) == m.(checksum := 0);
    OnesSumFolds(0, Encode(m.(checksum := c)));
    if t > 0 {
      var k := (t - 1) / 0xFFFF;
      assert t + c - 1 == k * 0xFFFF + 0xFFFE;
      ModShift(k, 0xFFFE, 0xFFFF);
    }
  }

  class Packet {
    var msgType: IcmpType
    var msgCode: u8
    var checksum: u16
    var content: IcmpContentType
    var payload: seq<u8>

    function Value(): Message
      reads this
    {
      Message(msgType, msgCode, checksum, content, payload)
    }

    /** A packet with the given fields. */
    constructor (m: Message)
      ensures Value() == m
    {
      msgType, msgCode, checksum, content, payload :=
        m.msgType, m.msgCode, m.checksum, m.content, m.payload;
    }

    /** `IcmpPacket::default`. */
    constructor Default()
      ensures Value() == DefaultMessage()
    {
      var m := DefaultMessage();
      msgType, msgCode, checksum, content, payload :=
        m.msgType, m.msgCode, m.checksum, m.content, m.payload;
    }

    /** `IcmpPacket::echo_request`. */
    constructor EchoRequest(id: u16, sequenceNo: u16, packetSize: nat)
      ensures Value() == EchoMessage(id, sequenceNo, packetSize)
    {
      var m := EchoMessage(id, sequenceNo, packetSize);
      msgType, msgCode, checksum, content, payload :=
        m.msgType, m.msgCode, m.checksum, m.content, m.payload;
    }

    /**
     * The first part of `write`: type, code, the current checksum field, the
     * content word and the payload, from the cursor on. The buffer's writes
     * never fail, so neither `?` nor `unwrap` can fire.
     */
    method WriteFields(buf: PacketBuffer)
      requires buf.Valid()
      modifies buf
      ensures buf.Valid()
      ensures buf.buffer == Put(old(buf.buffer), old(buf.pos), Encode(Value()))
      ensures buf.pos == old(buf.pos) + |Encode(Value())|
    {
      ghost var b0, p0 := buf.buffer, buf.pos;
      Ranges();
      ghost var d1: seq<u8> := [msgType.ToU8(), msgCode];
      var u := buf.Write(msgType.ToU8());
      u := buf.Write(msgCode);
      PutPut(b0, p0, [msgType.ToU8()], [msgCode]);
      assert [msgType.ToU8()] + [msgCode] == d1;
      assert buf.buffer == Put(b0, p0, d1) && buf.pos == p0 + |d1|;
      ghost var d2 := d1 + Be(1, checksum);
      u := buf.WriteU16(checksum);
      PutPut(b0, p0, d1, Be(1, checksum));
      assert buf.buffer == Put(b0, p0, d2) && buf.pos == p0 + |d2|;
      ghost var d3 := d2 + Be(2, content.ToU32());
      u := buf.WriteU32(content.ToU32());
      PutPut(b0, p0, d2, Be(2, content.ToU32()));
      assert buf.buffer == Put(b0, p0, d3) && buf.pos == p0 + |d3|;
      u := buf.WriteBytes(payload);
      PutPut(b0, p0, d3, payload);
      assert d3 + payload == Encode(Value());
    }

    /**
     * `write`: lays out the packet at the cursor, computes the checksum over
     * the whole buffer (old checksum field included), stores it in
     * `checksum` and writes it at offset 2, leaving the cursor at 4. The
     * seek to 2 always succeeds, as at least 8 bytes were laid out.
     */
    method Write(buf: PacketBuffer) returns (r: Result<()>)
      requires buf.Valid()
      modifies this, buf
      ensures buf.Valid() && r == Ok(())
      ensures var laidOut := Put(old(buf.buffer), old(buf.pos), Encode(old(Value())));
        checksum == CalculateChecksum(laidOut) &&
        Value() == old(Value()).(checksum := checksum) &&
        2 < |laidOut| && buf.buffer == Put(laidOut, 2, Be(1, checksum)) && buf.pos == 4
    {
      ghost var b0, p0, m := buf.buffer, buf.pos, Value();
      WriteFields(buf);
      PutShape(b0, p0, Encode(m));
      checksum := CalculateChecksum(buf.buffer);
      var s := buf.Seek(2);
      var u := buf.WriteU16(checksum);
      r := Ok(());
    }

    /**
     * `read`: type, code, checksum and content word from the cursor, then
     * every remaining byte as payload; the result is `Decode` of the bytes.
     */
    static method Read(buf: PacketBuffer) returns (r: Result<Packet>)
      requires buf.Valid()
      modifies buf
      ensures buf.Valid() && buf.buffer == old(buf.buffer)
      ensures var d := Decode(buf.buffer, old(buf.pos));
        (r.Ok? <==> d.Ok?) &&
        (r.Ok? ==> fresh(r.value) && r.value.Value() == d.value && buf.pos == |buf.buffer|) &&
        (r.Err? ==> r.error == d.error)
      ensures r.Err? && r.error == EndOfBuffer ==> buf.pos == |buf.buffer|
    {
      ghost var b, p0 := buf.buffer, buf.pos;
      Ranges();
      assert Width(1) == 2 && Width(2) == 4;
      var t :- buf.Read();
      var code :- buf.Read();
      var sum :- buf.ReadU16();
      var word :- buf.ReadU32();
      assert t == b[p0] && code == b[p0 + 1];
      var msgType := IcmpType.FromU8(t);
      var content :- IcmpContentType.New(msgType, word);
      var payload := buf.ReadBytes(|buf.buffer| - buf.pos);
      var pk := new Packet(Message(msgType, code, sum, content, payload.value));
      r := Ok(pk);
    }
  }

  /**
   * Writing a packet into an empty buffer yields its encoding with the
   * computed checksum in place, and reading those bytes back returns the
   * packet as it stands after `write`.
   */
  lemma WriteReadBack(m: Message)
    requires m.Fits()
    ensures var c := CalculateChecksum(Put([], 0, Encode(m)));
      Put(Put([], 0, Encode(m)), 2, Be(1, c)) == Encode(m.(checksum := c)) &&
      Decode(Encode(m.(checksum := c)), 0) == Ok(m.(checksum := c))
  {
    var c := CalculateChecksum(Put([], 0, Encode(m)));
    PutEmpty(Encode(m));
    PatchChecksum(m, c);
    DecodeEncode(m.(checksum := c));
  }
}
