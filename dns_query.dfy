// Query types and classes of src/dns/query.rs and their 16-bit codes
// (sections 3.2.2 and 3.2.4 of RFC 1035).

module DnsQuery {
  import opened Bytes

  /** The type codes with a variant of their own. */
  const KnownTypes: set<u16> := {1, 2, 5, 6, 12, 15, 16, 28, 33}

  datatype QueryType = A | NS | CNAME | SOA | PTR | MX | TXT | AAAA | SRV | UNKNOWN(code: u16)
  {
    /** `DnsQueryType::from_u16`: every code not in `KnownTypes` is kept in `UNKNOWN`. */
    static function FromU16(v: u16): (t: QueryType)
      ensures t.UNKNOWN? <==> v !in KnownTypes
      ensures t.UNKNOWN? ==> t.code == v
    {
      match v
      case 1 => A
      case 2 => NS
      case 5 => CNAME
      case 6 => SOA
      case 12 => PTR
      case 15 => MX
      case 16 => TXT
      case 28 => AAAA
      case 33 => SRV
      case _ => UNKNOWN(v)
    }

    /** `DnsQueryType::to_u16` */
    function ToU16(): (v: u16)
      ensures !UNKNOWN? ==> v in KnownTypes
    {
      match this
      case A => 1
      case NS => 2
      case CNAME => 5
      case SOA => 6
      case PTR => 12
      case MX => 15
      case TXT => 16
      case AAAA => 28
      case SRV => 33
      case UNKNOWN(code) => code
    }
  }

  /** Every type code survives decoding and re-encoding. */
  lemma TypeCodeRoundTrip(v: u16)
    ensures QueryType.FromU16(v).ToU16() == v
  {
  }

  /** A type survives encoding and decoding unless it is `UNKNOWN` of a code that has its own variant. */
  lemma TypeRoundTrip(t: QueryType)
    ensures QueryType.FromU16(t.ToU16()) == t <==> !(t.UNKNOWN? && t.code in KnownTypes)
  {
  }

  /** Distinct types other than such `UNKNOWN`s have distinct codes. */
  lemma TypeCodesDistinct(t1: QueryType, t2: QueryType)
    requires !(t1.UNKNOWN? && t1.code in KnownTypes) && !(t2.UNKNOWN? && t2.code in KnownTypes)
    requires t1 != t2
    ensures t1.ToU16() != t2.ToU16()
  {
    TypeRoundTrip(t1);
    TypeRoundTrip(t2);
  }

  /** The class codes that `QueryClass::from_u16` maps to a variant other than `UNASSIGNED`. */
  predicate AssignedClass(v: u16)
  {
    v in {0, 1, 3, 4, 254, 255} || 0xFF00 <= v
  }

  datatype QueryClass = IN | CH | HS | NONE | ANY | RESERVED | ReservedPrivate | UNASSIGNED
  {
    /** `DnsQueryClass::from_u16`: the whole range 0xFF00..0xFFFF is `ReservedPrivate`. */
    static function FromU16(v: u16): (c: QueryClass)
      ensures c.UNASSIGNED? <==> !AssignedClass(v)
      ensures c.ReservedPrivate? <==> 0xFF00 <= v
    {
      match v
      case 1 => IN
      case 3 => CH
      case 4 => HS
      case 254 => NONE
      case 255 => ANY
      case 0 => RESERVED
      case _ => if 0xFF00 <= v then ReservedPrivate else UNASSIGNED
    }

    /** `DnsQueryClass::to_u16`; `UNASSIGNED` is written as 0xFFFF. */
    function ToU16(): (v: u16)
      ensures AssignedClass(v)
    {
      match this
      case IN => 1
      case CH => 3
      case HS => 4
      case NONE => 254
      case ANY => 255
      case RESERVED => 0
      case ReservedPrivate => 0xFF00
      case UNASSIGNED => 0xFFFF
    }
  }

  /** Every class but `UNASSIGNED` survives encoding and decoding; `UNASSIGNED` comes back as `ReservedPrivate`. */
  lemma ClassRoundTrip(c: QueryClass)
    ensures QueryClass.FromU16(c.ToU16()) == c <==> !c.UNASSIGNED?
    ensures c.UNASSIGNED? ==> QueryClass.FromU16(c.ToU16()) == ReservedPrivate
  {
  }

  /** Exactly seven class codes survive decoding and re-encoding. */
  lemma ClassCodeRoundTrip(v: u16)
    ensures QueryClass.FromU16(v).ToU16() == v <==> v in {0, 1, 3, 4, 254, 255, 0xFF00}
  {
  }
}
