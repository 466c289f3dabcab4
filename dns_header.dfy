// The 12-byte DNS header of src/dns/header.rs (section 4.1.1 of RFC 1035):
// identifier, flag word and four section counts.  The flag word is built and
// taken apart with the source's masks and shifts, on 16-bit words; the opcode
// and reserved fields are `u8` in the source and `bv8` here, so the bits an
// out-of-range value spills into neighbouring fields are modelled too.

module DnsHeader {
  import opened Bytes
  import W = DnsWire
  import WP = DnsWireProofs
  import opened DnsBuffer

  datatype ResponseCode = NoError | FormErr | ServFail | NxDomain | NotImp | Refused
  {
    /** `DnsResponseCode::from_u8`; the source panics on any other value. */
    static function FromU8(v: bv8): (c: ResponseCode)
      requires v <= 5
      ensures c.ToU8() == v
    {
      match v
      case 0 => NoError
      case 1 => FormErr
      case 2 => ServFail
      case 3 => NxDomain
      case 4 => NotImp
      case _ => Refused
    }

    /** The enum's discriminant, `response_code as u16`. */
    function ToU8(): (v: bv8)
      ensures v <= 5
    {
      match this
      case NoError => 0
      case FormErr => 1
      case ServFail => 2
      case NxDomain => 3
      case NotImp => 4
      case Refused => 5
    }
  }

  /** A flag word as the 16-bit value the buffer writes. */
  function Word(flags: bv16): (v: u16)
    ensures v as bv16 == flags
  {
    flags as int
  }

  /** A 16-bit value the buffer read, as a flag word. */
  function FlagBits(v: u16): bv16
  {
    v as bv16
  }

  /** The number of bytes a header takes on the wire. */
  const HeaderSize: nat := 12

  datatype Header = Header(
    id: u16,
    queryResponse: bool,
    opcode: bv8,
    authoritativeAnswer: bool,
    truncatedMessage: bool,
    recursionDesired: bool,
    recursionAvailable: bool,
    reserved: bv8,
    responseCode: ResponseCode,
    questionCount: u16,
    answerCount: u16,
    authorityCount: u16,
    additionalCount: u16)
  {
    /** `DnsHeader::new`: everything zero, false or `NoError`. */
    static function New(): (h: Header)
      ensures h.id == 0 && h.questionCount == 0 && h.answerCount == 0
      ensures h.authorityCount == 0 && h.additionalCount == 0
      ensures h.FlagsInRange() && h.GetFlags() == 0
    {
      Header(0, false, 0, false, false, false, false, 0, NoError, 0, 0, 0, 0)
    }

    /** The flag fields fit their widths on the wire (4 bits of opcode, 3 of reserved). */
    predicate FlagsInRange()
    {
      opcode < 16 && reserved < 8
    }

    /** `set_flags`: the flag fields taken from a flag word; the identifier and counts stay. */
    function SetFlags(flags: bv16): (h: Header)
      requires flags & 0x000F <= 5
      ensures h.id == id && h.questionCount == questionCount && h.answerCount == answerCount
      ensures h.authorityCount == authorityCount && h.additionalCount == additionalCount
      ensures h.FlagsInRange()
    {
      this.(
        queryResponse := flags & 0x8000 != 0,
        opcode := ((flags & 0x7800) >> 11) as bv8,
        authoritativeAnswer := flags & 0x0400 != 0,
        truncatedMessage := flags & 0x0200 != 0,
        recursionDesired := flags & 0x0100 != 0,
        recursionAvailable := flags & 0x0080 != 0,
        reserved := ((flags & 0x0070) >> 4) as bv8,
        responseCode := ResponseCode.FromU8((flags & 0x000F) as bv8))
    }

    /** `get_flags`: the flag word, each field shifted into place and or-ed in. */
    function GetFlags(): bv16
    {
      (if queryResponse then 0x8000 else 0)
      | ((opcode as bv16) << 11)
      | (if authoritativeAnswer then 0x0400 else 0)
      | (if truncatedMessage then 0x0200 else 0)
      | (if recursionDesired then 0x0100 else 0)
      | (if recursionAvailable then 0x0080 else 0)
      | ((reserved as bv16) << 4)
      | (responseCode.ToU8() as bv16)
    }

    /** The header's wire form: six big-endian 16-bit words. */
    function Bytes(): (d: seq<u8>)
      ensures |d| == HeaderSize
    {
      Ranges();
      Be(1, id) + (Be(1, Word(GetFlags())) + (Be(1, questionCount)
      + (Be(1, answerCount) + (Be(1, authorityCount) + Be(1, additionalCount)))))
    }

    /** `DnsHeader::read` */
    static method Read(buf: PacketBuffer) returns (r: W.Result<Header>)
      requires buf.Valid()
      modifies buf
      ensures buf.Valid()
      ensures var s := ReadHeader(old(buf.State())); r == s.Res() && buf.State() == s.st
    {
      var header := New();
      var id := buf.ReadU16();
      if id.Err? {
        return W.Err(id.error);
      }
      header := header.(id := id.value);
      var flags := buf.ReadU16();
      if flags.Err? {
        return W.Err(flags.error);
      }
      if (FlagBits(flags.value)) & 0x000F > 5 {
        return W.Err(W.Abort);
      }
      header := header.SetFlags(FlagBits(flags.value));
      r := ReadCountsOf(buf, header);
    }

    /** The four counts that end `DnsHeader::read`, stored into `h`. */
    static method ReadCountsOf(buf: PacketBuffer, h: Header) returns (r: W.Result<Header>)
      requires buf.Valid()
      modifies buf
      ensures buf.Valid()
      ensures var s := ReadCounts(old(buf.State()), h); r == s.Res() && buf.State() == s.st
    {
      var qd := buf.ReadU16();
      if qd.Err? {
        return W.Err(qd.error);
      }
      var an := buf.ReadU16();
      if an.Err? {
        return W.Err(an.error);
      }
      var ns := buf.ReadU16();
      if ns.Err? {
        return W.Err(ns.error);
      }
      var ar := buf.ReadU16();
      if ar.Err? {
        return W.Err(ar.error);
      }
      r := W.Ok(h.(questionCount := qd.value, answerCount := an.value,
        authorityCount := ns.value, additionalCount := ar.value));
    }

    /** `DnsHeader::write` */
    method Write(buf: PacketBuffer) returns (r: W.Result<()>)
      requires buf.Valid()
      modifies buf, buf.buffer
      ensures buf.Valid()
      ensures var s := WriteHeader(old(buf.State()), this); r == s.Res() && buf.State() == s.st
    {
      r := buf.WriteU16(id);
      if r.Err? {
        return;
      }
      r := buf.WriteU16(Word(GetFlags()));
      if r.Err? {
        return;
      }
      r := buf.WriteU16(questionCount);
      if r.Err? {
        return;
      }
      r := buf.WriteU16(answerCount);
      if r.Err? {
        return;
      }
      r := buf.WriteU16(authorityCount);
      if r.Err? {
        return;
      }
      r := buf.WriteU16(additionalCount);
    }
  }

  /** What `DnsHeader::read` does to the buffer; a response code above 5 is the source's panic. */
  function ReadHeader(st: W.St): W.Step<Header>
  {
    Ranges();
    var id :- W.ReadWord(st, 1);
    var flags :- W.ReadWord(id.st, 1);
    if (FlagBits(flags.value)) & 0x000F > 5 then W.Failed(W.Abort, flags.st)
    else ReadCounts(flags.st, Header.New().(id := id.value).SetFlags(FlagBits(flags.value)))
  }

  /** The four 16-bit counts, read in order into `h`. */
  function ReadCounts(st: W.St, h: Header): W.Step<Header>
  {
    Ranges();
    var qd :- W.ReadWord(st, 1);
    var an :- W.ReadWord(qd.st, 1);
    var ns :- W.ReadWord(an.st, 1);
    var ar :- W.ReadWord(ns.st, 1);
    W.Done(h.(questionCount := qd.value, answerCount := an.value,
      authorityCount := ns.value, additionalCount := ar.value), ar.st)
  }

  /** What `DnsHeader::write` does to the buffer. */
  function WriteHeader(st: W.St, h: Header): W.Step<()>
  {
    Ranges();
    var s :- W.WriteWord(st, 1, h.id);
    var s :- W.WriteWord(s.st, 1, Word(h.GetFlags()));
    var s :- W.WriteWord(s.st, 1, h.questionCount);
    var s :- W.WriteWord(s.st, 1, h.answerCount);
    var s :- W.WriteWord(s.st, 1, h.authorityCount);
    W.WriteWord(s.st, 1, h.additionalCount)
  }

  // ---- the flag word ----

  /** Unpacking a flag word and packing it again gives the word back. */
  lemma FlagWordRoundTrip(h: Header, flags: bv16)
    requires flags & 0x000F <= 5
    ensures h.SetFlags(flags).GetFlags() == flags
  {
    var c := (flags & 0x000F) as bv8;
    assert ResponseCode.FromU8(c).ToU8() as bv16 == flags & 0x000F;
  }

  /** Packing the flag fields and unpacking them gives them back exactly when they fit their widths. */
  lemma FlagFieldsRoundTrip(h: Header)
    ensures h.GetFlags() & 0x000F <= 5
    ensures h.SetFlags(h.GetFlags()) == h <==> h.FlagsInRange()
  {
    var c := h.responseCode;
    assert ResponseCode.FromU8(c.ToU8()) == c;
  }

  /** An opcode of 16 lands in the QR bit: the response flag reads back set. */
  lemma OpcodeSpill(h: Header)
    requires h.opcode == 16 && !h.queryResponse && h.reserved < 8
    ensures h.GetFlags() & 0x000F <= 5
    ensures h.SetFlags(h.GetFlags()).queryResponse && h.SetFlags(h.GetFlags()).opcode == 0
  {
    FlagFieldsRoundTrip(h);
  }

  // ---- the header on the wire ----

  lemma WriteHeaderBytes(st: W.St, h: Header)
    ensures WriteHeader(st, h) == W.WriteBytes(st, h.Bytes())
  {
    Ranges();
    var fl := Word(h.GetFlags());
    var tail4 := Be(1, h.authorityCount) + Be(1, h.additionalCount);
    var tail3 := Be(1, h.answerCount) + tail4;
    var tail2 := Be(1, h.questionCount) + tail3;
    var tail1 := Be(1, fl) + tail2;
    assert h.Bytes() == Be(1, h.id) + tail1;
    WP.WriteWordThen(st, 1, h.id, tail1);
    var s1 := W.WriteWord(st, 1, h.id);
    if s1.Done? {
      WP.WriteWordThen(s1.st, 1, fl, tail2);
      var s2 := W.WriteWord(s1.st, 1, fl);
      if s2.Done? {
        WP.WriteWordThen(s2.st, 1, h.questionCount, tail3);
        var s3 := W.WriteWord(s2.st, 1, h.questionCount);
        if s3.Done? {
          WP.WriteWordThen(s3.st, 1, h.answerCount, tail4);
          var s4 := W.WriteWord(s3.st, 1, h.answerCount);
          if s4.Done? {
            WP.WriteWordThen(s4.st, 1, h.authorityCount, Be(1, h.additionalCount));
            var s5 := W.WriteWord(s4.st, 1, h.authorityCount);
            if s5.Done? {
              WP.WriteWordBytes(s5.st, 1, h.additionalCount);
            }
          }
        }
      }
    }
  }

  /** The header `DnsHeader::read` builds from the six words of a header with fitting flag fields is that header. */
  lemma Reassemble(h: Header)
    requires h.FlagsInRange()
    ensures FlagBits(Word(h.GetFlags())) & 0x000F <= 5
    ensures Header.New().(id := h.id).SetFlags(FlagBits(Word(h.GetFlags()))).(
      questionCount := h.questionCount, answerCount := h.answerCount,
      authorityCount := h.authorityCount, additionalCount := h.additionalCount) == h
  {
    FlagFieldsRoundTrip(h);
    assert FlagBits(Word(h.GetFlags())) == h.GetFlags();
  }

  /** The six words of a header's wire form, each read from its place. */
  lemma HeaderWordsAt(b: seq<u8>, p: nat, h: Header)
    requires W.At(b, p, h.Bytes())
    ensures W.ReadWord(W.St(b, p), 1) == W.Done(h.id, W.St(b, p + 2))
    ensures W.ReadWord(W.St(b, p + 2), 1) == W.Done(Word(h.GetFlags()), W.St(b, p + 4))
    ensures W.ReadWord(W.St(b, p + 4), 1) == W.Done(h.questionCount, W.St(b, p + 6))
    ensures W.ReadWord(W.St(b, p + 6), 1) == W.Done(h.answerCount, W.St(b, p + 8))
    ensures W.ReadWord(W.St(b, p + 8), 1) == W.Done(h.authorityCount, W.St(b, p + 10))
    ensures W.ReadWord(W.St(b, p + 10), 1) == W.Done(h.additionalCount, W.St(b, p + 12))
  {
    Ranges();
    var fl := Word(h.GetFlags());
    var tail4 := Be(1, h.authorityCount) + Be(1, h.additionalCount);
    var tail3 := Be(1, h.answerCount) + tail4;
    var tail2 := Be(1, h.questionCount) + tail3;
    var tail1 := Be(1, fl) + tail2;
    assert h.Bytes() == Be(1, h.id) + tail1;
    assert Be(1, h.additionalCount) == Be(1, h.additionalCount) + [];
    var p2, p4, p6, p8, p10, p12 := p + 2, p + 4, p + 6, p + 8, p + 10, p + 12;
    WP.U16At(b, p, p2, h.id, tail1);
    WP.U16At(b, p2, p4, fl, tail2);
    WP.U16At(b, p4, p6, h.questionCount, tail3);
    WP.U16At(b, p6, p8, h.answerCount, tail4);
    WP.U16At(b, p8, p10, h.authorityCount, Be(1, h.additionalCount));
    WP.U16At(b, p10, p12, h.additionalCount, []);
  }

  /** A header's wire form reads back as the header when its flag fields fit their widths. */
  lemma ReadHeaderAt(b: seq<u8>, p: nat, h: Header)
    requires h.FlagsInRange() && W.At(b, p, h.Bytes())
    ensures ReadHeader(W.St(b, p)) == W.Done(h, W.St(b, p + HeaderSize))
  {
    HeaderWordsAt(b, p, h);
    Reassemble(h);
  }

  /** Writing a header into room for it and reading it back gives the same header. */
  lemma HeaderRoundTrip(b: seq<u8>, p: nat, h: Header)
    requires p + HeaderSize <= |b| && h.FlagsInRange()
    ensures var w := WriteHeader(W.St(b, p), h);
      && w == W.Done((), W.St(W.Splice(b, p, h.Bytes()), p + HeaderSize))
      && ReadHeader(W.St(w.st.bytes, p)) == W.Done(h, w.st)
  {
    WriteHeaderBytes(W.St(b, p), h);
    WP.WriteBytesEffect(b, p, h.Bytes());
    WP.SpliceAt(b, p, h.Bytes());
    ReadHeaderAt(W.Splice(b, p, h.Bytes()), p, h);
  }

  /** Reading a header never changes the bytes and, when it succeeds, consumes exactly 12 of them. */
  lemma ReadHeaderConsumes(st: W.St)
    ensures var r := ReadHeader(st);
      r.st.bytes == st.bytes && (r.Done? ==> r.st.pos == st.pos + HeaderSize)
  {
    WP.ReadWordMoves(st, 1);
    var id := W.ReadWord(st, 1);
    if id.Done? {
      WP.ReadWordMoves(id.st, 1);
      var fl := W.ReadWord(id.st, 1);
      if fl.Done? {
        WP.ReadWordMoves(fl.st, 1);
        var qd := W.ReadWord(fl.st, 1);
        if qd.Done? {
          WP.ReadWordMoves(qd.st, 1);
          var an := W.ReadWord(qd.st, 1);
          if an.Done? {
            WP.ReadWordMoves(an.st, 1);
            var ns := W.ReadWord(an.st, 1);
            if ns.Done? {
              WP.ReadWordMoves(ns.st, 1);
            }
          }
        }
      }
    }
  }

  /**
   * A flag word whose response code is 6 to 15 stops the read right after it:
   * `DnsResponseCode::from_u8` panics, whatever the rest of the header holds.
   */
  lemma ResponseCodeAborts(b: seq<u8>, p: nat)
    requires p + 4 <= |b| && FlagBits(Dec(1, b[p + 2..p + 4])) & 0x000F > 5
    ensures ReadHeader(W.St(b, p)) == W.Failed(W.Abort, W.St(b, p + 4))
  {
    WP.ReadWordEffect(b, p, 1);
    WP.ReadWordEffect(b, p + 2, 1);
  }
}
