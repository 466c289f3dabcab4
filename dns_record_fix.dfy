// A record writer that `read` of src/dns/record.rs can undo for every kind
// of record.  `write` emits the host of NS, CNAME and PTR records as raw
// bytes and SOA data without RDLENGTH, while `read` decodes a name and
// consumes RDLENGTH (see `HostNotReadBack` and `SoaNotReadBack`); the
// writer here emits RDLENGTH and then the host through `write_query_name`,
// and RDLENGTH before SOA data, and every record comes back.

module DnsRecordCorrected {
  import opened Bytes
  import opened DnsWire
  import WP = DnsWireProofs
  import P = DnsNameProofs
  import Q = DnsQuery
  import opened DnsRecord
  import opened DnsRecordProofs

  /**
   * The data `read` expects after the TTL: as `write` emits it, except that
   * NS, CNAME and PTR records carry RDLENGTH and then the host as a name,
   * and SOA records carry RDLENGTH before their names and fields.
   */
  function CorrectedDataBytes(r: Record): seq<u8>
  {
    Ranges();
    match r
    case NS(_, host, _) => Be(1, |EncName(host)| % 0x1_0000) + EncName(host)
    case CNAME(_, host, _) => Be(1, |EncName(host)| % 0x1_0000) + EncName(host)
    case PTR(_, host, _) => Be(1, |EncName(host)| % 0x1_0000) + EncName(host)
    case SOA(_, _, _, _, _, _, _, _, _) => Be(1, |r.DataBytes()| % 0x1_0000) + r.DataBytes()
    case _ => r.DataBytes()
  }

  /** The corrected wire form of a record: the fields before the data, then the corrected data. */
  function CorrectedBytes(r: Record): seq<u8>
  {
    r.HeadBytes() + CorrectedDataBytes(r)
  }

  /** The records that come back unchanged from their corrected wire form: every kind but TXT with ill-formed text. */
  predicate CorrectedRoundTrips(r: Record)
  {
    && WellFormedName(r.domain)
    && match r
       case NS(_, host, _) => WellFormedName(host)
       case CNAME(_, host, _) => WellFormedName(host)
       case PTR(_, host, _) => WellFormedName(host)
       case SOA(_, pn, mb, _, _, _, _, _, _) => WellFormedName(pn) && WellFormedName(mb)
       case _ => r.RoundTrips()
  }

  /** Records whose corrected wire form ends with a name. */
  predicate CorrectedEndsWithName(r: Record)
  {
    r.NS? || r.CNAME? || r.PTR? || r.MX? || r.SRV?
  }

  /** The data part of a `write` that `read` can undo: RDLENGTH before NS, CNAME, PTR and SOA data, and host names as names. */
  function WriteCorrectedData(st: St, r: Record): Step<()>
  {
    Ranges();
    match r
    case NS(_, host, _) =>
      var s :- WriteWord(st, 1, |EncName(host)| % 0x1_0000);
      WriteQueryName(s.st, host)
    case CNAME(_, host, _) =>
      var s :- WriteWord(st, 1, |EncName(host)| % 0x1_0000);
      WriteQueryName(s.st, host)
    case PTR(_, host, _) =>
      var s :- WriteWord(st, 1, |EncName(host)| % 0x1_0000);
      WriteQueryName(s.st, host)
    case SOA(_, _, _, _, _, _, _, _, _) =>
      var s :- WriteWord(st, 1, |r.DataBytes()| % 0x1_0000);
      WriteData(s.st, r)
    case _ => WriteData(st, r)
  }

  /** `write` corrected so that `read` gives every record back. */
  function WriteCorrectedRecord(st: St, r: Record): Step<()>
  {
    var s :- WriteHead(st, r);
    WriteCorrectedData(s.st, r)
  }

  /** NS, CNAME and PTR data: the host as a name, read whatever RDLENGTH says. */
  lemma HostDataAt(b: seq<u8>, q: nat, e: nat, r: Record, len: u16, rest: seq<u8>)
    requires (r.NS? || r.CNAME? || r.PTR?) && WellFormedName(r.host) && rest != []
    requires e == q + |EncName(r.host)| && At(b, q, EncName(r.host) + rest)
    ensures ReadData(St(b, q), Head(r.domain, r.RecordType(), r.ttl, len)) == Done(r, St(b, e))
  {
    P.ReadNameThen(b, q, e, r.host, rest);
  }

  /** A record's corrected wire form, with what follows it, laid out field by field. */
  lemma CorrectedLayout(r: Record, len: u16, x: seq<u8>, rest: seq<u8>)
    requires CorrectedDataBytes(r) == Be(1, len) + x
    ensures CorrectedBytes(r) + rest == Layout(r.domain, r.RecordType().ToU16(), r.ttl, len, x + rest)
  {
    Ranges();
    Regroup(EncName(r.domain), Be(1, r.RecordType().ToU16()), Be(1, 1), Be(2, r.ttl), CorrectedDataBytes(r), rest);
    Assoc(Be(1, len), x, rest);
  }

  /** An NS, CNAME or PTR record's corrected wire form reads back as the record. */
  lemma ReadBackHost(b: seq<u8>, p: nat, e: nat, r: Record, rest: seq<u8>)
    requires e == p + |CorrectedBytes(r)|
    requires (r.NS? || r.CNAME? || r.PTR?) && WellFormedName(r.domain) && WellFormedName(r.host) && rest != []
    requires At(b, p, CorrectedBytes(r) + rest)
    ensures ReadRecord(St(b, p)) == Done(r, St(b, e))
  {
    Ranges();
    var m := p + |EncName(r.domain)|;
    var q := m + 10;
    var n := EncName(r.host);
    var len := |n| % 0x1_0000;
    var ty := r.RecordType();
    CorrectedLayout(r, len, n, rest);
    Q.TypeRoundTrip(ty);
    ReadLaidOut(b, p, m, q, r.domain, ty, r.ttl, len, n + rest);
    HostDataAt(b, q, e, r, len, rest);
    ReadParts(St(b, p), St(b, q), Head(r.domain, ty, r.ttl, len), Done(r, St(b, e)));
  }

  /** An SOA record's corrected wire form reads back as the record. */
  lemma ReadBackSoa(b: seq<u8>, p: nat, e: nat, r: Record, rest: seq<u8>)
    requires e == p + |CorrectedBytes(r)|
    requires r.SOA? && WellFormedName(r.domain) && WellFormedName(r.primaryNs) && WellFormedName(r.mailbox)
    requires At(b, p, CorrectedBytes(r) + rest)
    ensures ReadRecord(St(b, p)) == Done(r, St(b, e))
  {
    Ranges();
    var m := p + |EncName(r.domain)|;
    var q := m + 10;
    var d := r.DataBytes();
    var len := |d| % 0x1_0000;
    var h := Head(r.domain, Q.SOA, r.ttl, len);
    assert ReadHead(St(b, p)) == Done(h, St(b, q)) && At(b, q, d + rest) && e == q + |d| by {
      assert CorrectedDataBytes(r) == Be(1, len) + d;
      CorrectedLayout(r, len, d, rest);
      ReadLaidOut(b, p, m, q, r.domain, Q.SOA, r.ttl, len, d + rest);
    }
    SoaRecordDataAt(b, q, e, r, len, rest);
    ReadParts(St(b, p), St(b, q), h, Done(r, St(b, e)));
  }

  /** The corrected data part of `write` emits the corrected data layout. */
  lemma WriteCorrectedDataBytes(st: St, r: Record)
    requires r.NamesFit() && ((r.NS? || r.CNAME? || r.PTR?) ==> LabelsFit(Split(r.host)))
    ensures WriteCorrectedData(st, r) == WriteBytes(st, CorrectedDataBytes(r))
  {
    Ranges();
    if r.NS? || r.CNAME? || r.PTR? {
      var n := EncName(r.host);
      WP.WriteWordThen(st, 1, |n| % 0x1_0000, n);
      var s := WriteWord(st, 1, |n| % 0x1_0000);
      if s.Done? {
        P.WriteQueryNameBytes(s.st, r.host);
      }
    } else if r.SOA? {
      var d := r.DataBytes();
      WP.WriteWordThen(st, 1, |d| % 0x1_0000, d);
      var s := WriteWord(st, 1, |d| % 0x1_0000);
      if s.Done? {
        WriteSoaDataBytes(s.st, r);
      }
    } else {
      WriteDataBytes(st, r);
    }
  }

  /** A record whose names' labels fit is written by the corrected `write` as its corrected wire form. */
  lemma WriteCorrectedRecordBytes(st: St, r: Record)
    requires r.NamesFit() && ((r.NS? || r.CNAME? || r.PTR?) ==> LabelsFit(Split(r.host)))
    ensures WriteCorrectedRecord(st, r) == WriteBytes(st, CorrectedBytes(r))
  {
    WriteHeadThen(st, r, CorrectedDataBytes(r));
    var s := WriteHead(st, r);
    if s.Done? {
      WriteCorrectedDataBytes(s.st, r);
    }
  }

  /**
   * Round trip of the corrected `write`: every record with well-formed names
   * (and, for TXT, well-formed text and for unknown type codes, data of less
   * than 64 KiB) written at p reads back from p as the same record, NS,
   * CNAME, PTR and SOA included.  A record that ends with a name needs one
   * more byte in the buffer.
   */
  lemma CorrectedRecordRoundTrip(b: seq<u8>, p: nat, r: Record)
    requires CorrectedRoundTrips(r)
    requires p + |CorrectedBytes(r)| + (if CorrectedEndsWithName(r) then 1 else 0) <= |b|
    ensures var w := WriteCorrectedRecord(St(b, p), r);
      && w == Done((), St(Splice(b, p, CorrectedBytes(r)), p + |CorrectedBytes(r)|))
      && ReadRecord(St(w.st.bytes, p)) == Done(r, w.st)
  {
    var d := CorrectedBytes(r);
    var b' := Splice(b, p, d);
    var e := p + |d|;
    CorrectedNamesFit(r);
    CorrectedRecordWritten(b, p, r);
    var w := WriteCorrectedRecord(St(b, p), r);
    assert w.st == St(b', e);
    assert |b'| == |b|;
    ReadCorrectedAt(b', p, e, r, b'[e..]);
  }

  /** Well-formed names have labels `write_query_name` accepts. */
  lemma CorrectedNamesFit(r: Record)
    requires CorrectedRoundTrips(r)
    ensures r.NamesFit() && ((r.NS? || r.CNAME? || r.PTR?) ==> LabelsFit(Split(r.host)))
  {
    P.WellFormedLabelsFit(r.domain);
    if r.NS? || r.CNAME? || r.PTR? || r.MX? {
      P.WellFormedLabelsFit(r.host);
    } else if r.SOA? {
      P.WellFormedLabelsFit(r.primaryNs);
      P.WellFormedLabelsFit(r.mailbox);
    } else if r.SRV? {
      P.WellFormedLabelsFit(r.target);
    }
  }

  /** A record whose names' labels fit is written by the corrected `write` as its corrected wire form, spliced in at p. */
  lemma CorrectedRecordWritten(b: seq<u8>, p: nat, r: Record)
    requires r.NamesFit() && ((r.NS? || r.CNAME? || r.PTR?) ==> LabelsFit(Split(r.host)))
    requires p + |CorrectedBytes(r)| <= |b|
    ensures WriteCorrectedRecord(St(b, p), r) == Done((), St(Splice(b, p, CorrectedBytes(r)), p + |CorrectedBytes(r)|))
    ensures var b' := Splice(b, p, CorrectedBytes(r)); At(b', p, CorrectedBytes(r) + b'[p + |CorrectedBytes(r)|..])
  {
    var d := CorrectedBytes(r);
    WriteCorrectedRecordBytes(St(b, p), r);
    WP.WriteBytesEffect(b, p, d);
    WP.SpliceAt(b, p, d);
    WP.AtRest(Splice(b, p, d), p, d);
  }

  /** The record read back from its corrected wire form, with what follows in the buffer. */
  lemma ReadCorrectedAt(b: seq<u8>, p: nat, e: nat, r: Record, rest: seq<u8>)
    requires e == p + |CorrectedBytes(r)|
    requires CorrectedRoundTrips(r) && At(b, p, CorrectedBytes(r) + rest) && (CorrectedEndsWithName(r) ==> rest != [])
    ensures ReadRecord(St(b, p)) == Done(r, St(b, e))
  {
    if r.NS? || r.CNAME? || r.PTR? {
      ReadBackHost(b, p, e, r, rest);
    } else if r.SOA? {
      ReadBackSoa(b, p, e, r, rest);
    } else {
      assert CorrectedBytes(r) == r.Bytes();
      ReadRecordAt(b, p, e, r, rest);
    }
  }
}
