// Message types and the four content bytes of src/icmp/types.rs, with the
// type codes of RFC 792. The shifts and masks of the source are written as
// division and remainder by powers of two, and an `Ipv4Addr` as its 32-bit
// value.

module IcmpTypes {
  import opened Bytes
  import opened IcmpBuffer

  /** The type codes `from_u8` recognises; every other byte is `Unknown`. */
  const Codes: set<u8> := {0, 3, 4, 5, 8, 11, 12, 13, 14, 15, 16}

  /** The code `to_u8` gives `Unknown`, outside `Codes`. */
  const UnknownCode: u8 := 17

  datatype IcmpType =
    | EchoReply
    | DestinationUnreachable
    | SourceQuench
    | Redirect
    | EchoRequest
    | TimeExceeded
    | ParameterProblem
    | TimestampRequest
    | TimestampReply
    | InformationRequest
    | InformationReply
    | Unknown
  {
    /** `to_u8`: the named types get their RFC 792 codes and `Unknown` gets 17. */
    function ToU8(): (v: u8)
      ensures v in Codes <==> !Unknown?
      ensures Unknown? ==> v == UnknownCode
    {
      match this
      case EchoReply => 0
      case DestinationUnreachable => 3
      case SourceQuench => 4
      case Redirect => 5
      case EchoRequest => 8
      case TimeExceeded => 11
      case ParameterProblem => 12
      case TimestampRequest => 13
      case TimestampReply => 14
      case InformationRequest => 15
      case InformationReply => 16
      case Unknown => 17
    }

    /** `from_u8`: total, with every byte outside `Codes` read as `Unknown`. */
    static function FromU8(v: u8): (t: IcmpType)
      ensures t.Unknown? <==> v !in Codes
    {
      match v
      case 0 => EchoReply
      case 3 => IcmpType.DestinationUnreachable
      case 4 => IcmpType.SourceQuench
      case 5 => IcmpType.Redirect
      case 8 => EchoRequest
      case 11 => IcmpType.TimeExceeded
      case 12 => IcmpType.ParameterProblem
      case 13 => TimestampRequest
      case 14 => TimestampReply
      case 15 => InformationRequest
      case 16 => InformationReply
      case _ => Unknown
    }
  }

  /** Decoding undoes encoding for every type, `Unknown` included. */
  lemma FromToU8(t: IcmpType)
    ensures IcmpType.FromU8(t.ToU8()) == t
  {
  }

  /** Encoding undoes decoding exactly on `Codes`; every other byte comes back as 17. */
  lemma ToFromU8(v: u8)
    ensures IcmpType.FromU8(v).ToU8() == if v in Codes then v else UnknownCode
  {
  }

  /** The four bytes after the checksum, by message type. */
  datatype IcmpContentType =
    | Echo(id: u16, sequenceNo: u16)
    | DestinationUnreachable(unused: u32)
    | TimeExceeded(unused: u32)
    | ParameterProblem(pointer: u8, unused: u32)
    | SourceQuench(unused: u32)
    | Redirect(gatewayAddress: u32)
    | Timestamp(id: u16, sequenceNo: u16)
    | Information(id: u16, sequenceNo: u16)
  {
    /** The content variant `new` builds for messages of type t. */
    predicate Matches(t: IcmpType)
    {
      match this
      case Echo(_, _) => t == IcmpType.EchoRequest || t == IcmpType.EchoReply
      case DestinationUnreachable(_) => t == IcmpType.DestinationUnreachable
      case TimeExceeded(_) => t == IcmpType.TimeExceeded
      case ParameterProblem(_, _) => t == IcmpType.ParameterProblem
      case SourceQuench(_) => t == IcmpType.SourceQuench
      case Redirect(_) => t == IcmpType.Redirect
      case Timestamp(_, _) => t == IcmpType.TimestampRequest || t == IcmpType.TimestampReply
      case Information(_, _) => t == IcmpType.InformationRequest || t == IcmpType.InformationReply
    }

    /** Content that `to_u32` encodes without loss: the 24-bit field fits its 24 bits. */
    predicate WellFormed()
    {
      ParameterProblem? ==> unused < 0x100_0000
    }

    /**
     * `to_u32`: identifier and sequence number as high and low halves, the
     * unused word or the gateway address as is, and the pointer in the top
     * byte above the low 24 bits of the unused field.
     */
    function ToU32(): (v: u32)
      ensures (Echo? || Timestamp? || Information?) ==>
                v / 0x1_0000 == id && v % 0x1_0000 == sequenceNo
      ensures (DestinationUnreachable? || TimeExceeded? || SourceQuench?) ==> v == unused
      ensures Redirect? ==> v == gatewayAddress
      ensures ParameterProblem? ==>
                v / 0x100_0000 == pointer && v % 0x100_0000 == unused % 0x100_0000
    {
      match this
      case Echo(id, sequenceNo) => Join(id, sequenceNo)
      case Timestamp(id, sequenceNo) => Join(id, sequenceNo)
      case Information(id, sequenceNo) => Join(id, sequenceNo)
      case DestinationUnreachable(unused) => unused
      case TimeExceeded(unused) => unused
      case SourceQuench(unused) => unused
      case Redirect(gatewayAddress) => gatewayAddress
      case ParameterProblem(pointer, unused) =>
        Unhalves(pointer, unused % 0x100_0000, 0x100_0000);
        Combine(pointer, unused % 0x100_0000, 0x100_0000);
        pointer * 0x100_0000 + unused % 0x100_0000
    }

    /**
     * `IcmpContentType::new`: splits the word by the message type;
     * `Unknown` reaches `unimplemented!()`, modelled as `Unimplemented`.
     */
    static function New(t: IcmpType, content: u32): (r: Result<IcmpContentType>)
      ensures r.Err? <==> t.Unknown?
      ensures r.Err? ==> r.error == Unimplemented
      ensures r.Ok? ==> r.value.Matches(t) && r.value.WellFormed() && r.value.ToU32() == content
    {
      Ranges();
      Halves(content, 0x1_0000);
      match t
      case EchoRequest | EchoReply =>
        Ok(Echo(content / 0x1_0000, content % 0x1_0000))
      case DestinationUnreachable => Ok(IcmpContentType.DestinationUnreachable(content))
      case TimeExceeded => Ok(IcmpContentType.TimeExceeded(content))
      case ParameterProblem =>
        assert content / 0x100_0000 < 0x100;
        Ok(IcmpContentType.ParameterProblem(content / 0x100_0000, content % 0x100_0000))
      case SourceQuench => Ok(IcmpContentType.SourceQuench(content))
      case Redirect => Ok(IcmpContentType.Redirect(content))
      case TimestampRequest | TimestampReply =>
        Ok(Timestamp(content / 0x1_0000, content % 0x1_0000))
      case InformationRequest | InformationReply =>
        Ok(Information(content / 0x1_0000, content % 0x1_0000))
      case Unknown => Err(Unimplemented)
    }
  }

  /** `(id << 16) | sequence_no`: the two halves of a 32-bit word. */
  function Join(hi: u16, lo: u16): (v: u32)
    ensures v / 0x1_0000 == hi && v % 0x1_0000 == lo
  {
    Combine(hi, lo, 0x1_0000);
    Unhalves(hi, lo, 0x1_0000);
    hi * 0x1_0000 + lo
  }

  /**
   * `new` undoes `to_u32` for content of the variant the type selects,
   * provided the ParameterProblem unused field fits its 24 bits.
   */
  lemma NewToU32(t: IcmpType, c: IcmpContentType)
    requires c.Matches(t) && c.WellFormed()
    ensures IcmpContentType.New(t, c.ToU32()) == Ok(c)
  {
    var v := c.ToU32();
    if c.ParameterProblem? {
      assert v % 0x100_0000 == c.unused;
    }
  }

  /** `to_u32` keeps only the low 24 bits of a ParameterProblem's unused field. */
  lemma ParameterProblemMasks(pointer: u8, unused: u32)
    ensures IcmpContentType.ParameterProblem(pointer, unused).ToU32()
         == IcmpContentType.ParameterProblem(pointer, unused % 0x100_0000).ToU32()
  {
    var a := IcmpContentType.ParameterProblem(pointer, unused).ToU32();
    var b := IcmpContentType.ParameterProblem(pointer, unused % 0x100_0000).ToU32();
    assert a == a / 0x100_0000 * 0x100_0000 + a % 0x100_0000;
    assert b == b / 0x100_0000 * 0x100_0000 + b % 0x100_0000;
  }
}
