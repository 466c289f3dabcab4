// Resource records, src/dns/record.rs (section 4.1.3 of RFC 1035): a name,
// the type and class codes, a 32-bit TTL, a 16-bit RDLENGTH and the data,
// whose layout depends on the type.  IPv4 and IPv6 addresses are their 32-
// and 128-bit values; text is its UTF-8 bytes.

module DnsRecord {
  import opened Bytes
  import Utf8
  import W = DnsWire
  import Q = DnsQuery
  import opened DnsBuffer

  datatype Record =
    | A(domain: seq<u8>, addr: u32, ttl: u32)
    | NS(domain: seq<u8>, host: seq<u8>, ttl: u32)
    | CNAME(domain: seq<u8>, host: seq<u8>, ttl: u32)
    | SOA(domain: seq<u8>, primaryNs: seq<u8>, mailbox: seq<u8>, serial: u32, refresh: u32,
          retry: u32, expire: u32, minimumTtl: u32, ttl: u32)
    | PTR(domain: seq<u8>, host: seq<u8>, ttl: u32)
    | MX(domain: seq<u8>, priority: u16, host: seq<u8>, ttl: u32)
    | TXT(domain: seq<u8>, text: seq<u8>, ttl: u32)
    | AAAA(domain: seq<u8>, addr6: u128, ttl: u32)
    | SRV(domain: seq<u8>, priority: u16, weight: u16, port: u16, target: seq<u8>, ttl: u32)
    | UNKNOWN(domain: seq<u8>, queryType: Q.QueryType, data: seq<u8>, ttl: u32)
  {
    /** The type a record is written with: its variant's, or the stored one for `UNKNOWN`. */
    function RecordType(): (t: Q.QueryType)
      ensures UNKNOWN? ==> t == queryType
      ensures !UNKNOWN? ==> !t.UNKNOWN?
    {
      match this
      case A(_, _, _) => Q.A
      case NS(_, _, _) => Q.NS
      case CNAME(_, _, _) => Q.CNAME
      case SOA(_, _, _, _, _, _, _, _, _) => Q.SOA
      case PTR(_, _, _) => Q.PTR
      case MX(_, _, _, _) => Q.MX
      case TXT(_, _, _) => Q.TXT
      case AAAA(_, _, _) => Q.AAAA
      case SRV(_, _, _, _, _, _) => Q.SRV
      case UNKNOWN(_, t, _, _) => t
    }

    /** `matches_query_type` */
    predicate MatchesQueryType(t: Q.QueryType)
    {
      match (this, t)
      case (A(_, _, _), A) => true
      case (NS(_, _, _), NS) => true
      case (CNAME(_, _, _), CNAME) => true
      case (SOA(_, _, _, _, _, _, _, _, _), SOA) => true
      case (PTR(_, _, _), PTR) => true
      case (MX(_, _, _, _), MX) => true
      case (TXT(_, _, _), TXT) => true
      case (AAAA(_, _, _), AAAA) => true
      case (SRV(_, _, _, _, _, _), SRV) => true
      case (UNKNOWN(_, rt, _, _), _) => rt == t
      case _ => false
    }

    /** Every name of the record has labels `write_query_name` accepts. */
    predicate NamesFit()
    {
      && W.LabelsFit(W.Split(domain))
      && (SOA? ==> W.LabelsFit(W.Split(primaryNs)) && W.LabelsFit(W.Split(mailbox)))
      && (MX? ==> W.LabelsFit(W.Split(host)))
      && (SRV? ==> W.LabelsFit(W.Split(target)))
    }

    /** The record's wire form up to the TTL: name, type, class 1 (IN) and TTL. */
    function HeadBytes(): (d: seq<u8>)
      ensures |d| == |W.EncName(domain)| + 8
    {
      Ranges();
      W.EncName(domain) + (Be(1, RecordType().ToU16()) + (Be(1, 1) + Be(2, ttl)))
    }

    /** What `write` emits after the TTL; every variant but SOA starts with an RDLENGTH. */
    function DataBytes(): seq<u8>
    {
      Ranges();
      match this
      case A(_, addr, _) => Be(1, 4) + Be(2, addr)
      case NS(_, host, _) => Be(1, |host| % 0x1_0000) + host
      case CNAME(_, host, _) => Be(1, |host| % 0x1_0000) + host
      case SOA(_, pn, mb, serial, refresh, retry, expire, minimum, _) =>
        W.EncName(pn) + (W.EncName(mb) + (Be(2, serial) + (Be(2, refresh)
        + (Be(2, retry) + (Be(2, expire) + Be(2, minimum))))))
      case PTR(_, host, _) => Be(1, |host| % 0x1_0000) + host
      case MX(_, priority, host, _) => Be(1, 2) + (Be(1, priority) + W.EncName(host))
      case TXT(_, text, _) => Be(1, |text| % 0x1_0000) + text
      case AAAA(_, addr, _) => Be(1, 16) + Be(4, addr)
      case SRV(_, priority, weight, port, target, _) =>
        Be(1, 6) + (Be(1, priority) + (Be(1, weight) + (Be(1, port) + W.EncName(target))))
      case UNKNOWN(_, _, data, _) => Be(1, |data| % 0x1_0000) + data
    }

    function Bytes(): seq<u8>
    {
      HeadBytes() + DataBytes()
    }

    /** The records that come back unchanged from their wire form. */
    predicate RoundTrips()
    {
      && W.WellFormedName(domain)
      && match this
         case A(_, _, _) => true
         case AAAA(_, _, _) => true
         case MX(_, _, host, _) => W.WellFormedName(host)
         case SRV(_, _, _, _, target, _) => W.WellFormedName(target)
         case TXT(_, text, _) => Utf8.IsValid(text) && |text| < 0x1_0000
         case UNKNOWN(_, t, data, _) => t.UNKNOWN? && t.code !in Q.KnownTypes && |data| < 0x1_0000
         case _ => false
    }

    /** Records whose wire form ends with a name, which `read_query_name` needs a byte after. */
    predicate EndsWithName()
    {
      MX? || SRV? || SOA?
    }

    /** `DnsRecord::read` */
    static method Read(buf: PacketBuffer) returns (r: W.Result<Record>)
      requires buf.Valid()
      modifies buf
      ensures buf.Valid()
      ensures var s := ReadRecord(old(buf.State())); r == s.Res() && buf.State() == s.st
    {
      var head := ReadHeadOf(buf);
      if head.Err? {
        return W.Err(head.error);
      }
      r := ReadDataOf(buf, head.value);
    }

    /** `DnsRecord::write` */
    method Write(buf: PacketBuffer) returns (r: W.Result<()>)
      requires buf.Valid()
      modifies buf, buf.buffer
      ensures buf.Valid()
      ensures var s := WriteRecord(old(buf.State()), this); r == s.Res() && buf.State() == s.st
    {
      r := WriteHeadOf(buf, this);
      if r.Err? {
        return;
      }
      r := WriteDataOf(buf, this);
    }
  }

  /** The fields `read` takes before the data; the class is read and dropped. */
  datatype Head = Head(domain: seq<u8>, queryType: Q.QueryType, ttl: u32, length: u16)

  function ReadHead(st: W.St): W.Step<Head>
  {
    var domain :- W.ReadQueryName(st);
    ReadHeadFields(domain.st, domain.value)
  }

  /** The fixed-width fields after the name: type, class, TTL and RDLENGTH. */
  function ReadHeadFields(st: W.St, domain: seq<u8>): W.Step<Head>
  {
    Ranges();
    var t :- W.ReadWord(st, 1);
    var c :- W.ReadWord(t.st, 1);
    var ttl :- W.ReadWord(c.st, 2);
    var len :- W.ReadWord(ttl.st, 1);
    W.Done(Head(domain, Q.QueryType.FromU16(t.value), ttl.value, len.value), len.st)
  }

  /** The data part of `read`, by the type just read: only TXT and unknown types use RDLENGTH. */
  function ReadData(st: W.St, h: Head): W.Step<Record>
  {
    match h.queryType
    case A => ReadAData(st, h)
    case NS =>
      var host :- W.ReadQueryName(st);
      W.Done(NS(h.domain, host.value, h.ttl), host.st)
    case CNAME =>
      var host :- W.ReadQueryName(st);
      W.Done(CNAME(h.domain, host.value, h.ttl), host.st)
    case SOA => ReadSoaData(st, h)
    case PTR =>
      var host :- W.ReadQueryName(st);
      W.Done(PTR(h.domain, host.value, h.ttl), host.st)
    case MX => ReadMxData(st, h)
    case TXT =>
      var data :- W.ReadBytes(st, h.length);
      W.Done(TXT(h.domain, Utf8.Lossy(data.value), h.ttl), data.st)
    case AAAA => ReadAaaaData(st, h)
    case SRV => ReadSrvData(st, h)
    case UNKNOWN(_) =>
      var data :- W.ReadBytes(st, h.length);
      W.Done(UNKNOWN(h.domain, h.queryType, data.value, h.ttl), data.st)
  }

  /** The A arm: a 32-bit address. */
  function ReadAData(st: W.St, h: Head): W.Step<Record>
  {
    Ranges();
    var addr :- W.ReadWord(st, 2);
    W.Done(A(h.domain, addr.value, h.ttl), addr.st)
  }

  /** The AAAA arm: a 128-bit address. */
  function ReadAaaaData(st: W.St, h: Head): W.Step<Record>
  {
    Ranges();
    var addr :- W.ReadWord(st, 4);
    W.Done(AAAA(h.domain, addr.value, h.ttl), addr.st)
  }

  /** The SOA arm: two names, then five 32-bit fields. */
  function ReadSoaData(st: W.St, h: Head): W.Step<Record>
  {
    var pn :- W.ReadQueryName(st);
    var mb :- W.ReadQueryName(pn.st);
    ReadSoaFields(mb.st, h, pn.value, mb.value)
  }

  /** The five 32-bit fields of SOA data, after its two names. */
  function ReadSoaFields(st: W.St, h: Head, primaryNs: seq<u8>, mailbox: seq<u8>): (r: W.Step<Record>)
    ensures r.Done? ==> && r.value.SOA? && r.value.domain == h.domain && r.value.ttl == h.ttl
                        && r.value.primaryNs == primaryNs && r.value.mailbox == mailbox
  {
    Ranges();
    var serial :- W.ReadWord(st, 2);
    var refresh :- W.ReadWord(serial.st, 2);
    ReadSoaTimers(refresh.st, h, primaryNs, mailbox, serial.value, refresh.value)
  }

  /** The last three fields of SOA data: retry, expire and minimum TTL. */
  function ReadSoaTimers(st: W.St, h: Head, primaryNs: seq<u8>, mailbox: seq<u8>, serial: u32, refresh: u32): W.Step<Record>
  {
    Ranges();
    var retry :- W.ReadWord(st, 2);
    var expire :- W.ReadWord(retry.st, 2);
    var minimum :- W.ReadWord(expire.st, 2);
    W.Done(SOA(h.domain, primaryNs, mailbox, serial, refresh, retry.value,
               expire.value, minimum.value, h.ttl), minimum.st)
  }

  /** The MX arm: a 16-bit preference, then the exchange name. */
  function ReadMxData(st: W.St, h: Head): W.Step<Record>
  {
    Ranges();
    var priority :- W.ReadWord(st, 1);
    var host :- W.ReadQueryName(priority.st);
    W.Done(MX(h.domain, priority.value, host.value, h.ttl), host.st)
  }

  /** The SRV arm: priority, weight and port, then the target name. */
  function ReadSrvData(st: W.St, h: Head): W.Step<Record>
  {
    Ranges();
    var priority :- W.ReadWord(st, 1);
    var weight :- W.ReadWord(priority.st, 1);
    var port :- W.ReadWord(weight.st, 1);
    var target :- W.ReadQueryName(port.st);
    W.Done(SRV(h.domain, priority.value, weight.value, port.value, target.value, h.ttl), target.st)
  }

  /** What `DnsRecord::read` does to the buffer. */
  function ReadRecord(st: W.St): W.Step<Record>
  {
    var h :- ReadHead(st);
    ReadData(h.st, h.value)
  }

  /** The part every arm of `write` shares: name, type, class 1 and TTL. */
  function WriteHead(st: W.St, r: Record): W.Step<()>
  {
    var s :- W.WriteQueryName(st, r.domain);
    WriteHeadFields(s.st, r)
  }

  /** The fixed-width fields after the name: type, class 1 and TTL. */
  function WriteHeadFields(st: W.St, r: Record): W.Step<()>
  {
    Ranges();
    var s :- W.WriteWord(st, 1, r.RecordType().ToU16());
    var s :- W.WriteWord(s.st, 1, 1);
    W.WriteWord(s.st, 2, r.ttl)
  }

  /** The rest of each arm of `write`; lengths are cast to 16 bits as in the source. */
  function WriteData(st: W.St, r: Record): W.Step<()>
  {
    Ranges();
    match r
    case A(_, addr, _) =>
      var s :- W.WriteWord(st, 1, 4);
      W.WriteWord(s.st, 2, addr)
    case NS(_, host, _) =>
      var s :- W.WriteWord(st, 1, |host| % 0x1_0000);
      W.WriteBytes(s.st, host)
    case CNAME(_, host, _) =>
      var s :- W.WriteWord(st, 1, |host| % 0x1_0000);
      W.WriteBytes(s.st, host)
    case SOA(_, pn, mb, serial, refresh, retry, expire, minimum, _) =>
      var s :- W.WriteQueryName(st, pn);
      var s :- W.WriteQueryName(s.st, mb);
      var s :- W.WriteWord(s.st, 2, serial);
      var s :- W.WriteWord(s.st, 2, refresh);
      var s :- W.WriteWord(s.st, 2, retry);
      var s :- W.WriteWord(s.st, 2, expire);
      W.WriteWord(s.st, 2, minimum)
    case PTR(_, host, _) =>
      var s :- W.WriteWord(st, 1, |host| % 0x1_0000);
      W.WriteBytes(s.st, host)
    case MX(_, priority, host, _) =>
      var s :- W.WriteWord(st, 1, 2);
      var s :- W.WriteWord(s.st, 1, priority);
      W.WriteQueryName(s.st, host)
    case TXT(_, text, _) =>
      var s :- W.WriteWord(st, 1, |text| % 0x1_0000);
      W.WriteBytes(s.st, text)
    case AAAA(_, addr, _) =>
      var s :- W.WriteWord(st, 1, 16);
      W.WriteWord(s.st, 4, addr)
    case SRV(_, priority, weight, port, target, _) =>
      var s :- W.WriteWord(st, 1, 6);
      var s :- W.WriteWord(s.st, 1, priority);
      var s :- W.WriteWord(s.st, 1, weight);
      var s :- W.WriteWord(s.st, 1, port);
      W.WriteQueryName(s.st, target)
    case UNKNOWN(_, _, data, _) =>
      var s :- W.WriteWord(st, 1, |data| % 0x1_0000);
      W.WriteBytes(s.st, data)
  }

  /** What `DnsRecord::write` does to the buffer. */
  function WriteRecord(st: W.St, r: Record): W.Step<()>
  {
    var s :- WriteHead(st, r);
    WriteData(s.st, r)
  }

  // ---- the buffer calls of `read` and `write`, split where the source dispatches on the type ----

  method ReadHeadOf(buf: PacketBuffer) returns (r: W.Result<Head>)
    requires buf.Valid()
    modifies buf
    ensures buf.Valid()
    ensures var s := ReadHead(old(buf.State())); r == s.Res() && buf.State() == s.st
  {
    var domain := buf.ReadQueryName();
    if domain.Err? {
      return W.Err(domain.error);
    }
    var t := buf.ReadU16();
    if t.Err? {
      return W.Err(t.error);
    }
    var c := buf.ReadU16();
    if c.Err? {
      return W.Err(c.error);
    }
    var ttl := buf.ReadU32();
    if ttl.Err? {
      return W.Err(ttl.error);
    }
    var len := buf.ReadU16();
    if len.Err? {
      return W.Err(len.error);
    }
    r := W.Ok(Head(domain.value, Q.QueryType.FromU16(t.value), ttl.value, len.value));
  }

  method ReadDataOf(buf: PacketBuffer, h: Head) returns (r: W.Result<Record>)
    requires buf.Valid()
    modifies buf
    ensures buf.Valid()
    ensures var s := ReadData(old(buf.State()), h); r == s.Res() && buf.State() == s.st
  {
    match h.queryType
    case A =>
      var addr := buf.ReadU32();
      if addr.Err? {
        return W.Err(addr.error);
      }
      r := W.Ok(A(h.domain, addr.value, h.ttl));
    case NS =>
      var host := buf.ReadQueryName();
      if host.Err? {
        return W.Err(host.error);
      }
      r := W.Ok(NS(h.domain, host.value, h.ttl));
    case CNAME =>
      var host := buf.ReadQueryName();
      if host.Err? {
        return W.Err(host.error);
      }
      r := W.Ok(CNAME(h.domain, host.value, h.ttl));
    case SOA =>
      r := ReadSoaOf(buf, h);
    case PTR =>
      var host := buf.ReadQueryName();
      if host.Err? {
        return W.Err(host.error);
      }
      r := W.Ok(PTR(h.domain, host.value, h.ttl));
    case MX =>
      var priority := buf.ReadU16();
      if priority.Err? {
        return W.Err(priority.error);
      }
      var host := buf.ReadQueryName();
      if host.Err? {
        return W.Err(host.error);
      }
      r := W.Ok(MX(h.domain, priority.value, host.value, h.ttl));
    case TXT =>
      var data := buf.ReadBytes(h.length);
      if data.Err? {
        return W.Err(data.error);
      }
      r := W.Ok(TXT(h.domain, Utf8.Lossy(data.value), h.ttl));
    case AAAA =>
      var addr := buf.ReadU128();
      if addr.Err? {
        return W.Err(addr.error);
      }
      r := W.Ok(AAAA(h.domain, addr.value, h.ttl));
    case SRV =>
      r := ReadSrvOf(buf, h);
    case UNKNOWN(_) =>
      var data := buf.ReadBytes(h.length);
      if data.Err? {
        return W.Err(data.error);
      }
      r := W.Ok(UNKNOWN(h.domain, h.queryType, data.value, h.ttl));
  }

  method ReadSoaOf(buf: PacketBuffer, h: Head) returns (r: W.Result<Record>)
    requires buf.Valid() && h.queryType == Q.SOA
    modifies buf
    ensures buf.Valid()
    ensures var s := ReadData(old(buf.State()), h); r == s.Res() && buf.State() == s.st
  {
    var pn := buf.ReadQueryName();
    if pn.Err? {
      return W.Err(pn.error);
    }
    var mb := buf.ReadQueryName();
    if mb.Err? {
      return W.Err(mb.error);
    }
    var serial := buf.ReadU32();
    if serial.Err? {
      return W.Err(serial.error);
    }
    var refresh := buf.ReadU32();
    if refresh.Err? {
      return W.Err(refresh.error);
    }
    var retry := buf.ReadU32();
    if retry.Err? {
      return W.Err(retry.error);
    }
    var expire := buf.ReadU32();
    if expire.Err? {
      return W.Err(expire.error);
    }
    var minimum := buf.ReadU32();
    if minimum.Err? {
      return W.Err(minimum.error);
    }
    r := W.Ok(SOA(h.domain, pn.value, mb.value, serial.value, refresh.value, retry.value,
                  expire.value, minimum.value, h.ttl));
  }

  method ReadSrvOf(buf: PacketBuffer, h: Head) returns (r: W.Result<Record>)
    requires buf.Valid() && h.queryType == Q.SRV
    modifies buf
    ensures buf.Valid()
    ensures var s := ReadData(old(buf.State()), h); r == s.Res() && buf.State() == s.st
  {
    var priority := buf.ReadU16();
    if priority.Err? {
      return W.Err(priority.error);
    }
    var weight := buf.ReadU16();
    if weight.Err? {
      return W.Err(weight.error);
    }
    var port := buf.ReadU16();
    if port.Err? {
      return W.Err(port.error);
    }
    var target := buf.ReadQueryName();
    if target.Err? {
      return W.Err(target.error);
    }
    r := W.Ok(SRV(h.domain, priority.value, weight.value, port.value, target.value, h.ttl));
  }

  method WriteHeadOf(buf: PacketBuffer, rec: Record) returns (r: W.Result<()>)
    requires buf.Valid()
    modifies buf, buf.buffer
    ensures buf.Valid()
    ensures var s := WriteHead(old(buf.State()), rec); r == s.Res() && buf.State() == s.st
  {
    r := buf.WriteQueryName(rec.domain);
    if r.Err? {
      return;
    }
    r := buf.WriteU16(rec.RecordType().ToU16());
    if r.Err? {
      return;
    }
    r := buf.WriteU16(1);
    if r.Err? {
      return;
    }
    r := buf.WriteU32(rec.ttl);
  }

  method WriteDataOf(buf: PacketBuffer, rec: Record) returns (r: W.Result<()>)
    requires buf.Valid()
    modifies buf, buf.buffer
    ensures buf.Valid()
    ensures var s := WriteData(old(buf.State()), rec); r == s.Res() && buf.State() == s.st
  {
    match rec
    case A(_, addr, _) =>
      r := buf.WriteU16(4);
      if r.Err? {
        return;
      }
      r := buf.WriteU32(addr);
    case NS(_, host, _) =>
      r := buf.WriteU16(|host| % 0x1_0000);
      if r.Err? {
        return;
      }
      r := buf.WriteBytes(host);
    case CNAME(_, host, _) =>
      r := buf.WriteU16(|host| % 0x1_0000);
      if r.Err? {
        return;
      }
      r := buf.WriteBytes(host);
    case SOA(_, _, _, _, _, _, _, _, _) =>
      r := WriteSoaOf(buf, rec);
    case PTR(_, host, _) =>
      r := buf.WriteU16(|host| % 0x1_0000);
      if r.Err? {
        return;
      }
      r := buf.WriteBytes(host);
    case MX(_, priority, host, _) =>
      r := buf.WriteU16(2);
      if r.Err? {
        return;
      }
      r := buf.WriteU16(priority);
      if r.Err? {
        return;
      }
      r := buf.WriteQueryName(host);
    case TXT(_, text, _) =>
      r := buf.WriteU16(|text| % 0x1_0000);
      if r.Err? {
        return;
      }
      r := buf.WriteBytes(text);
    case AAAA(_, addr, _) =>
      r := buf.WriteU16(16);
      if r.Err? {
        return;
      }
      r := buf.WriteU128(addr);
    case SRV(_, _, _, _, _, _) =>
      r := WriteSrvOf(buf, rec);
    case UNKNOWN(_, _, data, _) =>
      r := buf.WriteU16(|data| % 0x1_0000);
      if r.Err? {
        return;
      }
      r := buf.WriteBytes(data);
  }

  method WriteSoaOf(buf: PacketBuffer, rec: Record) returns (r: W.Result<()>)
    requires buf.Valid() && rec.SOA?
    modifies buf, buf.buffer
    ensures buf.Valid()
    ensures var s := WriteData(old(buf.State()), rec); r == s.Res() && buf.State() == s.st
  {
    r := buf.WriteQueryName(rec.primaryNs);
    if r.Err? {
      return;
    }
    r := buf.WriteQueryName(rec.mailbox);
    if r.Err? {
      return;
    }
    r := buf.WriteU32(rec.serial);
    if r.Err? {
      return;
    }
    r := buf.WriteU32(rec.refresh);
    if r.Err? {
      return;
    }
    r := buf.WriteU32(rec.retry);
    if r.Err? {
      return;
    }
    r := buf.WriteU32(rec.expire);
    if r.Err? {
      return;
    }
    r := buf.WriteU32(rec.minimumTtl);
  }

  method WriteSrvOf(buf: PacketBuffer, rec: Record) returns (r: W.Result<()>)
    requires buf.Valid() && rec.SRV?
    modifies buf, buf.buffer
    ensures buf.Valid()
    ensures var s := WriteData(old(buf.State()), rec); r == s.Res() && buf.State() == s.st
  {
    r := buf.WriteU16(6);
    if r.Err? {
      return;
    }
    r := buf.WriteU16(rec.priority);
    if r.Err? {
      return;
    }
    r := buf.WriteU16(rec.weight);
    if r.Err? {
      return;
    }
    r := buf.WriteU16(rec.port);
    if r.Err? {
      return;
    }
    r := buf.WriteQueryName(rec.target);
  }
}
