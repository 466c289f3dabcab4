// What the record codec of src/dns/record.rs does on the wire: which records
// come back from their wire form, which do not, and why.

module DnsRecordProofs {
  import opened Bytes
  import Utf8
  import opened DnsWire
  import WP = DnsWireProofs
  import P = DnsNameProofs
  import Q = DnsQuery
  import opened DnsRecord

  /** `matches_query_type` holds exactly for the type the record is written with. */
  lemma MatchesRecordType(r: Record, t: Q.QueryType)
    ensures r.MatchesQueryType(t) <==> r.RecordType() == t
  {
  }

  /** Sequence concatenation regrouped to the right. */
  lemma Regroup(e: seq<u8>, t: seq<u8>, c: seq<u8>, l: seq<u8>, d: seq<u8>, rest: seq<u8>)
    ensures (e + (t + (c + l))) + d + rest == e + (t + (c + (l + (d + rest))))
  {
  }

  lemma Assoc(a: seq<u8>, b: seq<u8>, c: seq<u8>)
    ensures (a + b) + c == a + (b + c)
  {
  }

  /** A record's wire form, with what follows it, regrouped field by field. */
  lemma BytesThen(r: Record, rest: seq<u8>)
    ensures r.Bytes() + rest == EncName(r.domain) + (Be(1, r.RecordType().ToU16()) + (Be(1, 1) + (Be(2, r.ttl) + (r.DataBytes() + rest))))
  {
    Ranges();
    Regroup(EncName(r.domain), Be(1, r.RecordType().ToU16()), Be(1, 1), Be(2, r.ttl), r.DataBytes(), rest);
  }

  /** Every record is written with class 1 (IN), right after its name and type. */
  lemma ClassIsIn(r: Record)
    ensures var n := |EncName(r.domain)|;
      |r.Bytes()| >= n + 4 && r.Bytes()[n + 2] == 0 && r.Bytes()[n + 3] == 1
  {
    Ranges();
    ClassCode();
    ClassAfterType(EncName(r.domain), Be(1, r.RecordType().ToU16()), Be(1, 1), Be(2, r.ttl), r.DataBytes());
  }

  /** The class code 1 on the wire. */
  lemma ClassCode()
    ensures Be(1, 1) == [0, 1]
  {
    Ranges();
    assert Be(1, 1) == Be(0, 0) + Be(0, 1);
  }

  /** The two bytes after a name and a two-byte type. */
  lemma ClassAfterType(e: seq<u8>, t: seq<u8>, c: seq<u8>, ttl: seq<u8>, d: seq<u8>)
    requires |t| == 2 && c == [0, 1]
    ensures var w := (e + (t + (c + ttl))) + d;
      |w| >= |e| + 4 && w[|e| + 2] == 0 && w[|e| + 3] == 1
  {
    var w := (e + (t + (c + ttl))) + d;
    assert w[|e| + 2] == c[0] && w[|e| + 3] == c[1];
  }

  // ---- writing ----

  /** The shared part of `write` and then more bytes, as one write of their concatenation. */
  lemma WriteHeadThen(st: St, r: Record, rest: seq<u8>)
    requires LabelsFit(Split(r.domain))
    ensures var w := WriteHead(st, r);
      WriteBytes(st, r.HeadBytes() + rest) == if w.Failed? then w else WriteBytes(w.st, rest)
  {
    Ranges();
    var t, ttl := r.RecordType().ToU16(), Be(2, r.ttl);
    assert r.HeadBytes() + rest == EncName(r.domain) + (Be(1, t) + (Be(1, 1) + (ttl + rest)));
    P.WriteNameThen(st, r.domain, Be(1, t) + (Be(1, 1) + (ttl + rest)));
    var s1 := WriteQueryName(st, r.domain);
    if s1.Done? {
      WriteHeadFieldsThen(s1.st, r, rest);
    }
  }

  /** The fixed-width fields after the name and then more bytes, as one write of their concatenation. */
  lemma WriteHeadFieldsThen(st: St, r: Record, rest: seq<u8>)
    ensures Range(1) == 0x1_0000
    ensures var w := WriteHeadFields(st, r);
      WriteBytes(st, Be(1, r.RecordType().ToU16()) + (Be(1, 1) + (Be(2, r.ttl) + rest)))
        == if w.Failed? then w else WriteBytes(w.st, rest)
  {
    Ranges();
    var t, ttl := r.RecordType().ToU16(), Be(2, r.ttl);
    WP.WriteWordThen(st, 1, t, Be(1, 1) + (ttl + rest));
    var s2 := WriteWord(st, 1, t);
    if s2.Done? {
      WP.WriteWordThen(s2.st, 1, 1, ttl + rest);
      var s3 := WriteWord(s2.st, 1, 1);
      if s3.Done? {
        WP.WriteWordThen(s3.st, 2, r.ttl, rest);
      }
    }
  }

  /** A 16-bit length and then bytes: the data of NS, CNAME, PTR, TXT and unknown records. */
  lemma WriteLengthThenBytes(st: St, len: nat, d: seq<u8>)
    requires len < Range(1)
    ensures var w := WriteWord(st, 1, len);
      WriteBytes(st, Be(1, len) + d) == if w.Failed? then w else WriteBytes(w.st, d)
  {
    WP.WriteWordThen(st, 1, len, d);
  }

  lemma WriteSoaDataBytes(st: St, r: Record)
    requires r.SOA? && r.NamesFit()
    ensures WriteData(st, r) == WriteBytes(st, r.DataBytes())
  {
    Ranges();
    var w5 := Be(2, r.minimumTtl);
    var w4 := Be(2, r.expire) + w5;
    var w3 := Be(2, r.retry) + w4;
    var w2 := Be(2, r.refresh) + w3;
    var w1 := Be(2, r.serial) + w2;
    var m := EncName(r.mailbox) + w1;
    assert r.DataBytes() == EncName(r.primaryNs) + m;
    P.WriteNameThen(st, r.primaryNs, m);
    var s1 := WriteQueryName(st, r.primaryNs);
    if s1.Done? {
      P.WriteNameThen(s1.st, r.mailbox, w1);
      var s2 := WriteQueryName(s1.st, r.mailbox);
      if s2.Done? {
        WP.WriteWordThen(s2.st, 2, r.serial, w2);
        var s3 := WriteWord(s2.st, 2, r.serial);
        if s3.Done? {
          WP.WriteWordThen(s3.st, 2, r.refresh, w3);
          var s4 := WriteWord(s3.st, 2, r.refresh);
          if s4.Done? {
            WP.WriteWordThen(s4.st, 2, r.retry, w4);
            var s5 := WriteWord(s4.st, 2, r.retry);
            if s5.Done? {
              WP.WriteWordThen(s5.st, 2, r.expire, w5);
              var s6 := WriteWord(s5.st, 2, r.expire);
              if s6.Done? {
                WP.WriteWordBytes(s6.st, 2, r.minimumTtl);
              }
            }
          }
        }
      }
    }
  }

  lemma WriteSrvDataBytes(st: St, r: Record)
    requires r.SRV? && r.NamesFit()
    ensures WriteData(st, r) == WriteBytes(st, r.DataBytes())
  {
    Ranges();
    var n := EncName(r.target);
    var d3 := Be(1, r.port) + n;
    var d2 := Be(1, r.weight) + d3;
    var d1 := Be(1, r.priority) + d2;
    assert r.DataBytes() == Be(1, 6) + d1;
    WP.WriteWordThen(st, 1, 6, d1);
    var s1 := WriteWord(st, 1, 6);
    if s1.Done? {
      WP.WriteWordThen(s1.st, 1, r.priority, d2);
      var s2 := WriteWord(s1.st, 1, r.priority);
      if s2.Done? {
        WP.WriteWordThen(s2.st, 1, r.weight, d3);
        var s3 := WriteWord(s2.st, 1, r.weight);
        if s3.Done? {
          WP.WriteWordThen(s3.st, 1, r.port, n);
          var s4 := WriteWord(s3.st, 1, r.port);
          if s4.Done? {
            P.WriteQueryNameBytes(s4.st, r.target);
          }
        }
      }
    }
  }

  lemma WriteMxDataBytes(st: St, r: Record)
    requires r.MX? && r.NamesFit()
    ensures WriteData(st, r) == WriteBytes(st, r.DataBytes())
  {
    Ranges();
    var n := EncName(r.host);
    WP.WriteWordThen(st, 1, 2, Be(1, r.priority) + n);
    var s1 := WriteWord(st, 1, 2);
    if s1.Done? {
      WP.WriteWordThen(s1.st, 1, r.priority, n);
      var s2 := WriteWord(s1.st, 1, r.priority);
      if s2.Done? {
        P.WriteQueryNameBytes(s2.st, r.host);
      }
    }
  }

  /** The data part of `write` emits the record's data layout, byte by byte. */
  lemma WriteDataBytes(st: St, r: Record)
    requires r.NamesFit()
    ensures WriteData(st, r) == WriteBytes(st, r.DataBytes())
  {
    Ranges();
    match r
    case A(_, addr, _) =>
      WP.WriteWordThen(st, 1, 4, Be(2, addr));
      var s := WriteWord(st, 1, 4);
      if s.Done? {
        WP.WriteWordBytes(s.st, 2, addr);
      }
    case AAAA(_, addr, _) =>
      WP.WriteWordThen(st, 1, 16, Be(4, addr));
      var s := WriteWord(st, 1, 16);
      if s.Done? {
        WP.WriteWordBytes(s.st, 4, addr);
      }
    case NS(_, host, _) => WriteLengthThenBytes(st, |host| % 0x1_0000, host);
    case CNAME(_, host, _) => WriteLengthThenBytes(st, |host| % 0x1_0000, host);
    case PTR(_, host, _) => WriteLengthThenBytes(st, |host| % 0x1_0000, host);
    case TXT(_, text, _) => WriteLengthThenBytes(st, |text| % 0x1_0000, text);
    case UNKNOWN(_, _, data, _) => WriteLengthThenBytes(st, |data| % 0x1_0000, data);
    case SOA(_, _, _, _, _, _, _, _, _) => WriteSoaDataBytes(st, r);
    case MX(_, _, _, _) => WriteMxDataBytes(st, r);
    case SRV(_, _, _, _, _, _) => WriteSrvDataBytes(st, r);
  }

  /** A record whose names' labels fit is written as its wire form, byte by byte. */
  lemma WriteRecordBytes(st: St, r: Record)
    requires r.NamesFit()
    ensures WriteRecord(st, r) == WriteBytes(st, r.Bytes())
  {
    WriteHeadThen(st, r, r.DataBytes());
    var s := WriteHead(st, r);
    if s.Done? {
      WriteDataBytes(s.st, r);
    }
  }

  // ---- reading ----

  /** The four fixed-width fields after a record's name, each read from its place. */
  lemma HeadWordsAt(b: seq<u8>, q: nat, q2: nat, q4: nat, q8: nat, q10: nat,
                    t: nat, ttl: nat, len: nat, x: seq<u8>)
    requires q2 == q + 2 && q4 == q + 4 && q8 == q + 8 && q10 == q + 10
    requires t < 0x1_0000 && ttl < 0x1_0000_0000 && len < 0x1_0000
    requires At(b, q, Be(1, t) + (Be(1, 1) + (Be(2, ttl) + (Be(1, len) + x))))
    ensures ReadWord(St(b, q), 1) == Done(t, St(b, q2))
    ensures ReadWord(St(b, q2), 1) == Done(1, St(b, q4))
    ensures ReadWord(St(b, q4), 2) == Done(ttl, St(b, q8))
    ensures ReadWord(St(b, q8), 1) == Done(len, St(b, q10))
    ensures At(b, q10, x)
  {
    Ranges();
    WP.U16At(b, q, q2, t, Be(1, 1) + (Be(2, ttl) + (Be(1, len) + x)));
    WP.U16At(b, q2, q4, 1, Be(2, ttl) + (Be(1, len) + x));
    WP.U32At(b, q4, q8, ttl, Be(1, len) + x);
    WP.U16At(b, q8, q10, len, x);
  }

  /** The fixed-width fields after a record's name read back, ending 10 bytes on. */
  lemma HeadFieldsAt(b: seq<u8>, q: nat, q10: nat, domain: seq<u8>, ty: Q.QueryType, ttl: nat, len: nat, x: seq<u8>)
    requires q10 == q + 10
    requires Q.QueryType.FromU16(ty.ToU16()) == ty && ttl < 0x1_0000_0000 && len < 0x1_0000
    requires At(b, q, Be(1, ty.ToU16()) + (Be(1, 1) + (Be(2, ttl) + (Be(1, len) + x))))
    ensures ReadHeadFields(St(b, q), domain) == Done(Head(domain, ty, ttl, len), St(b, q10))
    ensures At(b, q10, x)
  {
    var q2, q4, q8 := q + 2, q + 4, q + 8;
    HeadWordsAt(b, q, q2, q4, q8, q10, ty.ToU16(), ttl, len, x);
  }

  /** The layout of a record: the fields before the data, then RDLENGTH and the data. */
  function Layout(domain: seq<u8>, t: u16, ttl: u32, len: u16, x: seq<u8>): (d: seq<u8>)
    ensures |d| == |EncName(domain)| + 10 + |x|
  {
    Ranges();
    EncName(domain) + (Be(1, t) + (Be(1, 1) + (Be(2, ttl) + (Be(1, len) + x))))
  }

  /** A record whose data starts with RDLENGTH, laid out field by field, followed by `rest`. */
  lemma BytesLayout(r: Record, len: u16, x: seq<u8>, rest: seq<u8>)
    requires r.DataBytes() == Be(1, len) + x
    ensures r.Bytes() + rest == Layout(r.domain, r.RecordType().ToU16(), r.ttl, len, x + rest)
  {
    Ranges();
    BytesThen(r, rest);
    Assoc(Be(1, len), x, rest);
  }

  // Each arm of `read` composed from the reads of its fields, for any buffer states.

  /** The fields before the data are the name, then the fixed-width fields. */
  lemma HeadParts(st: St, st1: St, st2: St, domain: seq<u8>, ty: Q.QueryType, ttl: u32, len: u16)
    requires ReadQueryName(st) == Done(domain, st1)
    requires ReadHeadFields(st1, domain) == Done(Head(domain, ty, ttl, len), st2)
    ensures ReadHead(st) == Done(Head(domain, ty, ttl, len), st2)
  {
  }

  /** `read` is the fields before the data, then the data. */
  lemma ReadParts(st: St, st1: St, h: Head, d: Step<Record>)
    requires ReadHead(st) == Done(h, st1) && ReadData(st1, h) == d
    ensures ReadRecord(st) == d
  {
  }

  /** The A arm: one 32-bit read; RDLENGTH plays no part. */
  lemma AParts(st: St, st1: St, domain: seq<u8>, ttl: u32, len: u16, addr: u32)
    requires ReadWord(st, 2) == Done(addr, st1)
    ensures ReadData(st, Head(domain, Q.A, ttl, len)) == Done(A(domain, addr, ttl), st1)
  {
  }

  /** The AAAA arm: one 128-bit read; RDLENGTH plays no part. */
  lemma AaaaParts(st: St, st1: St, domain: seq<u8>, ttl: u32, len: u16, addr: u128)
    requires ReadWord(st, 4) == Done(addr, st1)
    ensures ReadData(st, Head(domain, Q.AAAA, ttl, len)) == Done(AAAA(domain, addr, ttl), st1)
  {
  }

  /** The MX arm: a 16-bit read, then a name; RDLENGTH plays no part. */
  lemma MxParts(st: St, st1: St, st2: St, domain: seq<u8>, ttl: u32, len: u16, priority: u16, host: seq<u8>)
    requires ReadWord(st, 1) == Done(priority, st1) && ReadQueryName(st1) == Done(host, st2)
    ensures ReadData(st, Head(domain, Q.MX, ttl, len)) == Done(MX(domain, priority, host, ttl), st2)
  {
  }

  /** The SRV arm: three 16-bit reads, then a name; RDLENGTH plays no part. */
  lemma SrvParts(st: St, st1: St, st2: St, st3: St, st4: St, domain: seq<u8>, ttl: u32, len: u16,
                 priority: u16, weight: u16, port: u16, target: seq<u8>)
    requires ReadWord(st, 1) == Done(priority, st1) && ReadWord(st1, 1) == Done(weight, st2)
    requires ReadWord(st2, 1) == Done(port, st3) && ReadQueryName(st3) == Done(target, st4)
    ensures ReadData(st, Head(domain, Q.SRV, ttl, len)) == Done(SRV(domain, priority, weight, port, target, ttl), st4)
  {
  }

  /** The TXT arm: RDLENGTH raw bytes, converted to text lossily. */
  lemma TxtParts(st: St, st1: St, domain: seq<u8>, ttl: u32, d: seq<u8>)
    requires |d| < 0x1_0000 && ReadBytes(st, |d|) == Done(d, st1)
    ensures ReadData(st, Head(domain, Q.TXT, ttl, |d|)) == Done(TXT(domain, Utf8.Lossy(d), ttl), st1)
  {
  }

  /** The arm of the type codes without a variant: RDLENGTH raw bytes. */
  lemma UnknownParts(st: St, st1: St, domain: seq<u8>, code: u16, ttl: u32, d: seq<u8>)
    requires |d| < 0x1_0000 && ReadBytes(st, |d|) == Done(d, st1)
    ensures ReadData(st, Head(domain, Q.UNKNOWN(code), ttl, |d|)) == Done(UNKNOWN(domain, Q.UNKNOWN(code), d, ttl), st1)
  {
  }

  // The data of each arm read from its place q, ending at e.

  /** The A data: a 32-bit address, read whatever RDLENGTH says. */
  lemma ADataAt(b: seq<u8>, q: nat, e: nat, domain: seq<u8>, ttl: u32, len: u16, addr: u32, rest: seq<u8>)
    requires e == q + 4 && At(b, q, Be(2, addr) + rest)
    ensures ReadData(St(b, q), Head(domain, Q.A, ttl, len)) == Done(A(domain, addr, ttl), St(b, e))
  {
    WP.U32At(b, q, e, addr, rest);
    AParts(St(b, q), St(b, e), domain, ttl, len, addr);
  }

  /** The AAAA data: a 128-bit address, read whatever RDLENGTH says. */
  lemma AaaaDataAt(b: seq<u8>, q: nat, e: nat, domain: seq<u8>, ttl: u32, len: u16, addr: u128, rest: seq<u8>)
    requires e == q + 16 && At(b, q, Be(4, addr) + rest)
    ensures ReadData(St(b, q), Head(domain, Q.AAAA, ttl, len)) == Done(AAAA(domain, addr, ttl), St(b, e))
  {
    WP.U128At(b, q, e, addr, rest);
    AaaaParts(St(b, q), St(b, e), domain, ttl, len, addr);
  }

  /** The MX data: a priority, then a name, read whatever RDLENGTH says. */
  lemma MxDataAt(b: seq<u8>, q: nat, e: nat, domain: seq<u8>, ttl: u32, len: u16, priority: u16, host: seq<u8>, rest: seq<u8>)
    requires e == q + 2 + |EncName(host)|
    requires WellFormedName(host) && rest != [] && At(b, q, Be(1, priority) + (EncName(host) + rest))
    ensures ReadData(St(b, q), Head(domain, Q.MX, ttl, len)) == Done(MX(domain, priority, host, ttl), St(b, e))
  {
    var q2 := q + 2;
    WP.U16At(b, q, q2, priority, EncName(host) + rest);
    P.ReadNameThen(b, q2, e, host, rest);
    MxParts(St(b, q), St(b, q2), St(b, e), domain, ttl, len, priority, host);
  }

  /** The fields of SRV data before the target, each read from its place. */
  lemma SrvFieldsAt(b: seq<u8>, q: nat, q2: nat, q4: nat, q6: nat, priority: u16, weight: u16, port: u16, x: seq<u8>)
    requires q2 == q + 2 && q4 == q + 4 && q6 == q + 6
    requires At(b, q, Be(1, priority) + (Be(1, weight) + (Be(1, port) + x)))
    ensures ReadWord(St(b, q), 1) == Done(priority, St(b, q2))
    ensures ReadWord(St(b, q2), 1) == Done(weight, St(b, q4))
    ensures ReadWord(St(b, q4), 1) == Done(port, St(b, q6))
    ensures At(b, q6, x)
  {
    Ranges();
    WP.U16At(b, q, q2, priority, Be(1, weight) + (Be(1, port) + x));
    WP.U16At(b, q2, q4, weight, Be(1, port) + x);
    WP.U16At(b, q4, q6, port, x);
  }

  /** The SRV data: priority, weight, port, then a name, read whatever RDLENGTH says. */
  lemma SrvDataAt(b: seq<u8>, q: nat, e: nat, domain: seq<u8>, ttl: u32, len: u16,
                  priority: u16, weight: u16, port: u16, target: seq<u8>, rest: seq<u8>)
    requires e == q + 6 + |EncName(target)|
    requires WellFormedName(target) && rest != []
    requires At(b, q, Be(1, priority) + (Be(1, weight) + (Be(1, port) + (EncName(target) + rest))))
    ensures ReadData(St(b, q), Head(domain, Q.SRV, ttl, len)) ==
      Done(SRV(domain, priority, weight, port, target, ttl), St(b, e))
  {
    var q2, q4, q6 := q + 2, q + 4, q + 6;
    SrvFieldsAt(b, q, q2, q4, q6, priority, weight, port, EncName(target) + rest);
    P.ReadNameThen(b, q6, e, target, rest);
    SrvParts(St(b, q), St(b, q2), St(b, q4), St(b, q6), St(b, e), domain, ttl, len, priority, weight, port, target);
  }

  /** The TXT data: RDLENGTH bytes of text. */
  lemma TxtDataAt(b: seq<u8>, q: nat, e: nat, domain: seq<u8>, ttl: u32, d: seq<u8>, rest: seq<u8>)
    requires e == q + |d| && |d| < 0x1_0000 && At(b, q, d + rest)
    ensures ReadData(St(b, q), Head(domain, Q.TXT, ttl, |d|)) == Done(TXT(domain, Utf8.Lossy(d), ttl), St(b, e))
  {
    WP.ReadBytesAt(b, q, e, d, rest);
    TxtParts(St(b, q), St(b, e), domain, ttl, d);
  }

  /** The data of a type code without a variant: RDLENGTH raw bytes. */
  lemma UnknownDataAt(b: seq<u8>, q: nat, e: nat, domain: seq<u8>, code: u16, ttl: u32, d: seq<u8>, rest: seq<u8>)
    requires e == q + |d| && |d| < 0x1_0000 && At(b, q, d + rest)
    ensures ReadData(St(b, q), Head(domain, Q.UNKNOWN(code), ttl, |d|)) ==
      Done(UNKNOWN(domain, Q.UNKNOWN(code), d, ttl), St(b, e))
  {
    WP.ReadBytesAt(b, q, e, d, rest);
    UnknownParts(St(b, q), St(b, e), domain, code, ttl, d);
  }

  /** The fields before the data of a record laid out at p read back: the name ends at m, the data starts at q. */
  lemma ReadLaidOut(b: seq<u8>, p: nat, m: nat, q: nat, domain: seq<u8>, ty: Q.QueryType, ttl: u32, len: u16, x: seq<u8>)
    requires m == p + |EncName(domain)| && q == m + 10
    requires WellFormedName(domain) && Q.QueryType.FromU16(ty.ToU16()) == ty
    requires At(b, p, Layout(domain, ty.ToU16(), ttl, len, x))
    ensures ReadHead(St(b, p)) == Done(Head(domain, ty, ttl, len), St(b, q)) && At(b, q, x)
  {
    Ranges();
    P.ReadNameThen(b, p, m, domain, Be(1, ty.ToU16()) + (Be(1, 1) + (Be(2, ttl) + (Be(1, len) + x))));
    HeadFieldsAt(b, m, q, domain, ty, ttl, len, x);
    HeadParts(St(b, p), St(b, m), St(b, q), domain, ty, ttl, len);
  }

  // Each kind of record read back from its wire form, laid out from p to e.

  /** An A record's wire form reads back as the record. */
  lemma ReadBackA(b: seq<u8>, p: nat, e: nat, r: Record, rest: seq<u8>)
    requires e == p + |r.Bytes()|
    requires r.A? && WellFormedName(r.domain) && At(b, p, r.Bytes() + rest)
    ensures ReadRecord(St(b, p)) == Done(r, St(b, e))
  {
    Ranges();
    var m := p + |EncName(r.domain)|;
    var q := m + 10;
    BytesLayout(r, 4, Be(2, r.addr), rest);
    ReadLaidOut(b, p, m, q, r.domain, Q.A, r.ttl, 4, Be(2, r.addr) + rest);
    ADataAt(b, q, e, r.domain, r.ttl, 4, r.addr, rest);
    ReadParts(St(b, p), St(b, q), Head(r.domain, Q.A, r.ttl, 4), Done(r, St(b, e)));
  }

  /** An AAAA record's wire form reads back as the record. */
  lemma ReadBackAaaa(b: seq<u8>, p: nat, e: nat, r: Record, rest: seq<u8>)
    requires e == p + |r.Bytes()|
    requires r.AAAA? && WellFormedName(r.domain) && At(b, p, r.Bytes() + rest)
    ensures ReadRecord(St(b, p)) == Done(r, St(b, e))
  {
    Ranges();
    var m := p + |EncName(r.domain)|;
    var q := m + 10;
    BytesLayout(r, 16, Be(4, r.addr6), rest);
    ReadLaidOut(b, p, m, q, r.domain, Q.AAAA, r.ttl, 16, Be(4, r.addr6) + rest);
    AaaaDataAt(b, q, e, r.domain, r.ttl, 16, r.addr6, rest);
    ReadParts(St(b, p), St(b, q), Head(r.domain, Q.AAAA, r.ttl, 16), Done(r, St(b, e)));
  }

  /** An MX record's wire form reads back as the record. */
  lemma ReadBackMx(b: seq<u8>, p: nat, e: nat, r: Record, rest: seq<u8>)
    requires e == p + |r.Bytes()|
    requires r.MX? && WellFormedName(r.domain) && WellFormedName(r.host) && rest != []
    requires At(b, p, r.Bytes() + rest)
    ensures ReadRecord(St(b, p)) == Done(r, St(b, e))
  {
    Ranges();
    var m := p + |EncName(r.domain)|;
    var q := m + 10;
    var h := EncName(r.host);
    BytesLayout(r, 2, Be(1, r.priority) + h, rest);
    Assoc(Be(1, r.priority), h, rest);
    ReadLaidOut(b, p, m, q, r.domain, Q.MX, r.ttl, 2, Be(1, r.priority) + (h + rest));
    MxDataAt(b, q, e, r.domain, r.ttl, 2, r.priority, r.host, rest);
    ReadParts(St(b, p), St(b, q), Head(r.domain, Q.MX, r.ttl, 2), Done(r, St(b, e)));
  }

  /** An SRV record's wire form reads back as the record. */
  lemma ReadBackSrv(b: seq<u8>, p: nat, e: nat, r: Record, rest: seq<u8>)
    requires e == p + |r.Bytes()|
    requires r.SRV? && WellFormedName(r.domain) && WellFormedName(r.target) && rest != []
    requires At(b, p, r.Bytes() + rest)
    ensures ReadRecord(St(b, p)) == Done(r, St(b, e))
  {
    Ranges();
    var m := p + |EncName(r.domain)|;
    var q := m + 10;
    var t := EncName(r.target);
    var x2 := Be(1, r.port) + t;
    var x1 := Be(1, r.weight) + x2;
    BytesLayout(r, 6, Be(1, r.priority) + x1, rest);
    Assoc(Be(1, r.priority), x1, rest);
    Assoc(Be(1, r.weight), x2, rest);
    Assoc(Be(1, r.port), t, rest);
    ReadLaidOut(b, p, m, q, r.domain, Q.SRV, r.ttl, 6, Be(1, r.priority) + (Be(1, r.weight) + (Be(1, r.port) + (t + rest))));
    SrvDataAt(b, q, e, r.domain, r.ttl, 6, r.priority, r.weight, r.port, r.target, rest);
    ReadParts(St(b, p), St(b, q), Head(r.domain, Q.SRV, r.ttl, 6), Done(r, St(b, e)));
  }

  /** A TXT record's wire form reads back as the record: the lossy conversion keeps well-formed text. */
  lemma ReadBackTxt(b: seq<u8>, p: nat, e: nat, r: Record, rest: seq<u8>)
    requires e == p + |r.Bytes()|
    requires r.TXT? && Utf8.IsValid(r.text) && |r.text| < 0x1_0000
    requires WellFormedName(r.domain) && At(b, p, r.Bytes() + rest)
    ensures ReadRecord(St(b, p)) == Done(r, St(b, e))
  {
    Ranges();
    var m := p + |EncName(r.domain)|;
    var q := m + 10;
    BytesLayout(r, |r.text|, r.text, rest);
    ReadLaidOut(b, p, m, q, r.domain, Q.TXT, r.ttl, |r.text|, r.text + rest);
    TxtDataAt(b, q, e, r.domain, r.ttl, r.text, rest);
    Utf8.LossyOfValid(r.text);
    ReadParts(St(b, p), St(b, q), Head(r.domain, Q.TXT, r.ttl, |r.text|), Done(r, St(b, e)));
  }

  /** A record of a type code with no variant reads back with its data as RDLENGTH raw bytes. */
  lemma ReadBackUnknown(b: seq<u8>, p: nat, e: nat, r: Record, rest: seq<u8>)
    requires e == p + |r.Bytes()|
    requires r.UNKNOWN? && r.queryType.UNKNOWN? && r.queryType.code !in Q.KnownTypes && |r.data| < 0x1_0000
    requires WellFormedName(r.domain) && At(b, p, r.Bytes() + rest)
    ensures ReadRecord(St(b, p)) == Done(r, St(b, e))
  {
    Ranges();
    var m := p + |EncName(r.domain)|;
    var q := m + 10;
    assert r.DataBytes() == Be(1, |r.data|) + r.data by {
      assert |r.data| % 0x1_0000 == |r.data|;
    }
    BytesLayout(r, |r.data|, r.data, rest);
    assert r.queryType == Q.UNKNOWN(r.queryType.code);
    Q.TypeRoundTrip(r.queryType);
    ReadLaidOut(b, p, m, q, r.domain, r.queryType, r.ttl, |r.data|, r.data + rest);
    UnknownDataAt(b, q, e, r.domain, r.queryType.code, r.ttl, r.data, rest);
    ReadParts(St(b, p), St(b, q), Head(r.domain, r.queryType, r.ttl, |r.data|), Done(r, St(b, e)));
  }

  /** The record read back from a written record's wire form, with what follows in the buffer. */
  lemma ReadRecordAt(b: seq<u8>, p: nat, e: nat, r: Record, rest: seq<u8>)
    requires e == p + |r.Bytes()|
    requires r.RoundTrips() && At(b, p, r.Bytes() + rest) && (r.EndsWithName() ==> rest != [])
    ensures ReadRecord(St(b, p)) == Done(r, St(b, e))
  {
    match r
    case A(_, _, _) => ReadBackA(b, p, e, r, rest);
    case AAAA(_, _, _) => ReadBackAaaa(b, p, e, r, rest);
    case MX(_, _, _, _) => ReadBackMx(b, p, e, r, rest);
    case SRV(_, _, _, _, _, _) => ReadBackSrv(b, p, e, r, rest);
    case TXT(_, _, _) => ReadBackTxt(b, p, e, r, rest);
    case UNKNOWN(_, _, _, _) => ReadBackUnknown(b, p, e, r, rest);
  }

  // The records whose wire form `read` does not give back.

  /** The NS, CNAME and PTR arms: the host is read as a name. */
  lemma HostParts(st: St, h: Head)
    requires h.queryType in {Q.NS, Q.CNAME, Q.PTR}
    ensures var s := ReadData(st, h); s.Done? ==>
      var n := ReadQueryName(st);
      && n.Done?
      && (s.value.NS? || s.value.CNAME? || s.value.PTR?)
      && s.value.RecordType() == h.queryType
      && s.value.host == n.value
  {
  }

  /** The data of NS, CNAME and PTR records: RDLENGTH, then the host's raw bytes. */
  lemma HostBytes(r: Record)
    requires (r.NS? || r.CNAME? || r.PTR?) && |r.host| < 0x1_0000
    ensures r.DataBytes() == Be(1, |r.host|) + r.host
  {
    assert |r.host| % 0x1_0000 == |r.host|;
  }

  /**
   * NS, CNAME and PTR records are written with RDLENGTH and the host's raw
   * bytes, but read with a name decoder: a host of fewer bytes than the value
   * of its first byte (any host name starting with a letter or a digit and
   * shorter than 48 bytes) is read back, if at all, as a longer name, so the
   * record does not come back.
   */
  lemma HostNotReadBack(b: seq<u8>, p: nat, r: Record, rest: seq<u8>)
    requires (r.NS? || r.CNAME? || r.PTR?) && WellFormedName(r.domain)
    requires 0 < |r.host| < r.host[0] as nat < 0xC0
    requires At(b, p, r.Bytes() + rest)
    ensures var s := ReadRecord(St(b, p)); s.Done? ==>
      && (s.value.NS? || s.value.CNAME? || s.value.PTR?)
      && s.value.RecordType() == r.RecordType()
      && |s.value.host| >= r.host[0] as nat
      && s.value != r
  {
    var q := HostHeadAt(b, p, r, rest);
    P.FirstLabelLength(b, q);
    HostReadLonger(St(b, p), St(b, q), Head(r.domain, r.RecordType(), r.ttl, |r.host| as u16), r.host[0] as nat);
  }

  /** The head of an NS, CNAME or PTR record, read from its wire form: RDLENGTH is the host's length, and the host's first byte follows. */
  lemma HostHeadAt(b: seq<u8>, p: nat, r: Record, rest: seq<u8>) returns (q: nat)
    requires (r.NS? || r.CNAME? || r.PTR?) && WellFormedName(r.domain)
    requires 0 < |r.host| < 0xC0
    requires At(b, p, r.Bytes() + rest)
    ensures |r.host| < 0x1_0000
    ensures ReadHead(St(b, p)) == Done(Head(r.domain, r.RecordType(), r.ttl, |r.host| as u16), St(b, q))
    ensures q < |b| && b[q] == r.host[0]
  {
    Ranges();
    var m := p + |EncName(r.domain)|;
    q := m + 10;
    var ty := r.RecordType();
    assert ReadHead(St(b, p)) == Done(Head(r.domain, ty, r.ttl, |r.host|), St(b, q)) && At(b, q, r.host + rest) by {
      HostBytes(r);
      BytesLayout(r, |r.host|, r.host, rest);
      ReadLaidOut(b, p, m, q, r.domain, ty, r.ttl, |r.host|, r.host + rest);
    }
    WP.AtHead(b, q, r.host + rest);
  }

  /** A record whose head announces NS, CNAME or PTR reads a host at least as long as the name after the head. */
  lemma HostReadLonger(st: St, st1: St, h: Head, n: nat)
    requires h.queryType in {Q.NS, Q.CNAME, Q.PTR}
    requires ReadHead(st) == Done(h, st1)
    requires var m := ReadQueryName(st1); m.Done? ==> |m.value| >= n
    ensures var s := ReadRecord(st); s.Done? ==>
      && (s.value.NS? || s.value.CNAME? || s.value.PTR?)
      && s.value.RecordType() == h.queryType
      && |s.value.host| >= n
  {
    HostParts(st1, h);
  }

  /** The SOA arm: the primary name is read first. */
  lemma SoaParts(st: St, h: Head)
    requires h.queryType == Q.SOA
    ensures var s := ReadData(st, h); s.Done? ==>
      var n := ReadQueryName(st);
      n.Done? && s.value.SOA? && s.value.primaryNs == n.value
  {
  }

  /** SOA data starts with the primary name's length byte and first byte, then the rest of its first label. */
  lemma SoaDataSplit(r: Record)
    requires r.SOA? && |Split(r.primaryNs)[0]| >= 2
    ensures var e := EncName(r.primaryNs);
      && |e| >= 3 && e[2] == Split(r.primaryNs)[0][1]
      && r.DataBytes() == e[..2] + (e[2..] + r.DataBytes()[|e|..])
  {
    var l := Split(r.primaryNs)[0];
    var e := EncName(r.primaryNs);
    assert |e| >= 3 && e[2] == l[1] by {
      assert e == ([|l| % 0x100] + (l + EncLabels(Split(r.primaryNs)[1..]))) + [0];
    }
    var t := EncName(r.mailbox) + (Be(2, r.serial) + (Be(2, r.refresh)
      + (Be(2, r.retry) + (Be(2, r.expire) + Be(2, r.minimumTtl)))));
    assert r.DataBytes() == e + t;
    SplitAfterTwo(e, t);
  }

  /** A sequence of at least two elements followed by more, cut after its first two. */
  lemma SplitAfterTwo(e: seq<u8>, t: seq<u8>)
    requires |e| >= 2
    ensures e + t == e[..2] + (e[2..] + (e + t)[|e|..])
  {
    assert (e + t)[|e|..] == t;
  }

  /**
   * SOA records are written without RDLENGTH, so `read` takes the first two
   * bytes of the primary name's wire form for it and starts decoding two
   * bytes late, inside the first label.  When the primary name is shorter
   * than the value of its second byte (any name whose first label has at
   * least two letters or digits and which is shorter than 48 bytes), the
   * primary name read back, if any, is a longer one, so the record does not
   * come back.
   */
  lemma SoaNotReadBack(b: seq<u8>, p: nat, r: Record, rest: seq<u8>)
    requires r.SOA? && WellFormedName(r.domain) && WellFormedName(r.primaryNs)
    requires var l := Split(r.primaryNs)[0]; |l| >= 2 && |r.primaryNs| < l[1] as nat < 0xC0
    requires At(b, p, r.Bytes() + rest)
    ensures var s := ReadRecord(St(b, p)); s.Done? ==>
      && s.value.SOA?
      && |s.value.primaryNs| >= Split(r.primaryNs)[0][1] as nat
      && s.value != r
  {
    Ranges();
    var l := Split(r.primaryNs)[0];
    var e := EncName(r.primaryNs);
    var x := e[2..] + r.DataBytes()[|e|..];
    SoaDataSplit(r);
    var len := Dec(1, e[..2]);
    var m := p + |EncName(r.domain)|;
    var q := m + 10;
    var h := Head(r.domain, Q.SOA, r.ttl, len);
    assert ReadHead(St(b, p)) == Done(h, St(b, q)) && At(b, q, x + rest) by {
      BeDec(1, e[..2]);
      BytesLayout(r, len, x, rest);
      ReadLaidOut(b, p, m, q, r.domain, Q.SOA, r.ttl, len, x + rest);
    }
    assert q < |b| && b[q] == l[1] by {
      WP.AtHead(b, q, x + rest);
    }
    P.FirstLabelLength(b, q);
    SoaParts(St(b, q), h);
  }

  /**
   * Record round trip: an A, AAAA, MX, SRV or TXT record, or a record of an
   * unknown type code, with well-formed names and less than 64 KiB of text
   * or data, written at p reads back from p as the same record, with the
   * cursor where the write left it.  A record that ends with a name needs one
   * more byte in the buffer, for the final `seek` of `read_query_name`.
   */
  lemma RecordRoundTrip(b: seq<u8>, p: nat, r: Record)
    requires r.RoundTrips() && p + |r.Bytes()| + (if r.EndsWithName() then 1 else 0) <= |b|
    ensures var w := WriteRecord(St(b, p), r);
      && w == Done((), St(Splice(b, p, r.Bytes()), p + |r.Bytes()|))
      && ReadRecord(St(w.st.bytes, p)) == Done(r, w.st)
  {
    P.WellFormedLabelsFit(r.domain);
    if r.MX? {
      P.WellFormedLabelsFit(r.host);
    } else if r.SRV? {
      P.WellFormedLabelsFit(r.target);
    }
    RecordWritten(b, p, r);
    var b' := Splice(b, p, r.Bytes());
    var e := p + |r.Bytes()|;
    ReadRecordAt(b', p, e, r, b'[e..]);
  }

  /** A record whose names' labels fit is written as its wire form, spliced into the buffer at p. */
  lemma RecordWritten(b: seq<u8>, p: nat, r: Record)
    requires r.NamesFit() && p + |r.Bytes()| <= |b|
    ensures WriteRecord(St(b, p), r) == Done((), St(Splice(b, p, r.Bytes()), p + |r.Bytes()|))
    ensures var b' := Splice(b, p, r.Bytes()); At(b', p, r.Bytes() + b'[p + |r.Bytes()|..])
  {
    WriteRecordBytes(St(b, p), r);
    WP.WriteBytesEffect(b, p, r.Bytes());
    var b' := Splice(b, p, r.Bytes());
    WP.SpliceAt(b, p, r.Bytes());
    WP.AtRest(b', p, r.Bytes());
  }

  // ---- the corrected writer: every record with well-formed names comes back ----

  /** The five 32-bit fields of SOA data, each read from its place, ending 20 bytes on. */
  lemma SoaFieldsAt(b: seq<u8>, q: nat, e: nat, h: Head, primaryNs: seq<u8>, mailbox: seq<u8>,
                    serial: u32, refresh: u32, retry: u32, expire: u32, minimum: u32, rest: seq<u8>)
    requires e == q + 20
    requires At(b, q, Be(2, serial) + (Be(2, refresh) + (Be(2, retry) + (Be(2, expire) + (Be(2, minimum) + rest)))))
    ensures ReadSoaFields(St(b, q), h, primaryNs, mailbox) ==
      Done(SOA(h.domain, primaryNs, mailbox, serial, refresh, retry, expire, minimum, h.ttl), St(b, e))
  {
    var q4, q8, q12, q16 := q + 4, q + 8, q + 12, q + 16;
    SoaWordsAt(b, q, q4, q8, q12, q16, e, serial, refresh, retry, expire, minimum, rest);
    SoaFieldsParts(St(b, q), St(b, q4), St(b, q8), St(b, q12), St(b, q16), St(b, e), h, primaryNs, mailbox,
                   serial, refresh, retry, expire, minimum);
  }

  /** The five fields of SOA data, each read from its place. */
  lemma SoaWordsAt(b: seq<u8>, q: nat, q4: nat, q8: nat, q12: nat, q16: nat, q20: nat,
                   serial: u32, refresh: u32, retry: u32, expire: u32, minimum: u32, rest: seq<u8>)
    requires q4 == q + 4 && q8 == q + 8 && q12 == q + 12 && q16 == q + 16 && q20 == q + 20
    requires At(b, q, Be(2, serial) + (Be(2, refresh) + (Be(2, retry) + (Be(2, expire) + (Be(2, minimum) + rest)))))
    ensures ReadWord(St(b, q), 2) == Done(serial, St(b, q4))
    ensures ReadWord(St(b, q4), 2) == Done(refresh, St(b, q8))
    ensures ReadWord(St(b, q8), 2) == Done(retry, St(b, q12))
    ensures ReadWord(St(b, q12), 2) == Done(expire, St(b, q16))
    ensures ReadWord(St(b, q16), 2) == Done(minimum, St(b, q20))
  {
    Ranges();
    WP.U32At(b, q, q4, serial, Be(2, refresh) + (Be(2, retry) + (Be(2, expire) + (Be(2, minimum) + rest))));
    WP.U32At(b, q4, q8, refresh, Be(2, retry) + (Be(2, expire) + (Be(2, minimum) + rest)));
    WP.U32At(b, q8, q12, retry, Be(2, expire) + (Be(2, minimum) + rest));
    WP.U32At(b, q12, q16, expire, Be(2, minimum) + rest);
    WP.U32At(b, q16, q20, minimum, rest);
  }

  /** The SOA fields composed from the reads of its five words, for any buffer states. */
  lemma SoaFieldsParts(st: St, st1: St, st2: St, st3: St, st4: St, st5: St, h: Head, primaryNs: seq<u8>, mailbox: seq<u8>,
                       serial: u32, refresh: u32, retry: u32, expire: u32, minimum: u32)
    requires ReadWord(st, 2) == Done(serial, st1) && ReadWord(st1, 2) == Done(refresh, st2)
    requires ReadWord(st2, 2) == Done(retry, st3) && ReadWord(st3, 2) == Done(expire, st4)
    requires ReadWord(st4, 2) == Done(minimum, st5)
    ensures ReadSoaFields(st, h, primaryNs, mailbox) ==
      Done(SOA(h.domain, primaryNs, mailbox, serial, refresh, retry, expire, minimum, h.ttl), st5)
  {
    SoaTimersParts(st2, st3, st4, st5, h, primaryNs, mailbox, serial, refresh, retry, expire, minimum);
  }

  /** The last three SOA fields composed from the reads of their words. */
  lemma SoaTimersParts(st2: St, st3: St, st4: St, st5: St, h: Head, primaryNs: seq<u8>, mailbox: seq<u8>,
                       serial: u32, refresh: u32, retry: u32, expire: u32, minimum: u32)
    requires ReadWord(st2, 2) == Done(retry, st3) && ReadWord(st3, 2) == Done(expire, st4)
    requires ReadWord(st4, 2) == Done(minimum, st5)
    ensures ReadSoaTimers(st2, h, primaryNs, mailbox, serial, refresh) ==
      Done(SOA(h.domain, primaryNs, mailbox, serial, refresh, retry, expire, minimum, h.ttl), st5)
  {
  }

  /** SOA data: two names, then the five fields, read whatever RDLENGTH says. */
  lemma SoaDataAt(b: seq<u8>, q: nat, e: nat, domain: seq<u8>, ttl: u32, len: u16, primaryNs: seq<u8>, mailbox: seq<u8>,
                  serial: u32, refresh: u32, retry: u32, expire: u32, minimum: u32, rest: seq<u8>)
    requires e == q + |EncName(primaryNs)| + |EncName(mailbox)| + 20
    requires WellFormedName(primaryNs) && WellFormedName(mailbox)
    requires At(b, q, EncName(primaryNs) + (EncName(mailbox) + (Be(2, serial) + (Be(2, refresh)
      + (Be(2, retry) + (Be(2, expire) + (Be(2, minimum) + rest)))))))
    ensures ReadData(St(b, q), Head(domain, Q.SOA, ttl, len)) ==
      Done(SOA(domain, primaryNs, mailbox, serial, refresh, retry, expire, minimum, ttl), St(b, e))
  {
    Ranges();
    var f := Be(2, serial) + (Be(2, refresh) + (Be(2, retry) + (Be(2, expire) + (Be(2, minimum) + rest))));
    var m1 := q + |EncName(primaryNs)|;
    var m2 := m1 + |EncName(mailbox)|;
    var h := Head(domain, Q.SOA, ttl, len);
    P.ReadNameThen(b, q, m1, primaryNs, EncName(mailbox) + f);
    P.ReadNameThen(b, m1, m2, mailbox, f);
    SoaFieldsAt(b, m2, e, h, primaryNs, mailbox, serial, refresh, retry, expire, minimum, rest);
    SoaDataParts(St(b, q), St(b, m1), St(b, m2), St(b, e), h, primaryNs, mailbox,
                 SOA(domain, primaryNs, mailbox, serial, refresh, retry, expire, minimum, ttl));
  }

  /** An SOA record's data read back from its place, whatever RDLENGTH says. */
  lemma SoaRecordDataAt(b: seq<u8>, q: nat, e: nat, r: Record, len: u16, rest: seq<u8>)
    requires r.SOA? && WellFormedName(r.primaryNs) && WellFormedName(r.mailbox)
    requires e == q + |r.DataBytes()| && At(b, q, r.DataBytes() + rest)
    ensures ReadData(St(b, q), Head(r.domain, Q.SOA, r.ttl, len)) == Done(r, St(b, e))
  {
    SoaBytesThen(r, rest);
    SoaDataAt(b, q, e, r.domain, r.ttl, len, r.primaryNs, r.mailbox,
              r.serial, r.refresh, r.retry, r.expire, r.minimumTtl, rest);
  }

  /** SOA data, with what follows it, regrouped field by field. */
  lemma SoaBytesThen(r: Record, rest: seq<u8>)
    requires r.SOA?
    ensures r.DataBytes() + rest == EncName(r.primaryNs) + (EncName(r.mailbox) + (Be(2, r.serial) + (Be(2, r.refresh)
      + (Be(2, r.retry) + (Be(2, r.expire) + (Be(2, r.minimumTtl) + rest))))))
    ensures |r.DataBytes()| == |EncName(r.primaryNs)| + |EncName(r.mailbox)| + 20
  {
    Ranges();
    var w5 := Be(2, r.minimumTtl);
    var w4 := Be(2, r.expire) + w5;
    var w3 := Be(2, r.retry) + w4;
    var w2 := Be(2, r.refresh) + w3;
    var w1 := Be(2, r.serial) + w2;
    assert r.DataBytes() == EncName(r.primaryNs) + (EncName(r.mailbox) + w1);
    Assoc(Be(2, r.expire), w5, rest);
    Assoc(Be(2, r.retry), w4, rest);
    Assoc(Be(2, r.refresh), w3, rest);
    Assoc(Be(2, r.serial), w2, rest);
    Assoc(EncName(r.mailbox), w1, rest);
    Assoc(EncName(r.primaryNs), EncName(r.mailbox) + w1, rest);
  }

  /** The SOA arm composed from the reads of its two names and five fields, for any buffer states. */
  lemma SoaDataParts(st: St, st1: St, st2: St, st3: St, h: Head, primaryNs: seq<u8>, mailbox: seq<u8>, r: Record)
    requires h.queryType == Q.SOA
    requires ReadQueryName(st) == Done(primaryNs, st1) && ReadQueryName(st1) == Done(mailbox, st2)
    requires ReadSoaFields(st2, h, primaryNs, mailbox) == Done(r, st3)
    ensures ReadData(st, h) == Done(r, st3)
  {
  }
}
