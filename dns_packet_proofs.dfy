// What the message codec of src/dns/packet.rs does on the wire, and what its
// query helpers find in the sections.

module DnsPacketProofs {
  import opened Bytes
  import W = DnsWire
  import WP = DnsWireProofs
  import P = DnsNameProofs
  import Q = DnsQuery
  import opened DnsHeader
  import opened DnsQuestion
  import opened DnsRecord
  import RP = DnsRecordProofs
  import opened DnsPacket

  // ---- a section's wire form and where each element starts in it ----

  /** Where element `i` of `xs` starts when the section starts at `p`. */
  function Offset<T>(enc: T -> seq<u8>, p: nat, xs: seq<T>, i: nat): nat
    requires i <= |xs|
  {
    p + |Joined(enc, xs[..i])|
  }

  lemma {:induction false} JoinedAppend<T>(enc: T -> seq<u8>, a: seq<T>, c: seq<T>)
    ensures Joined(enc, a + c) == Joined(enc, a) + Joined(enc, c)
    decreases |a|
  {
    if a == [] {
      assert a + c == c;
    } else {
      assert (a + c)[0] == a[0] && (a + c)[1..] == a[1..] + c;
      JoinedAppend(enc, a[1..], c);
    }
  }

  /** A section's wire form around its element `i`. */
  lemma JoinedAround<T>(enc: T -> seq<u8>, xs: seq<T>, i: nat)
    requires i < |xs|
    ensures Joined(enc, xs) == Joined(enc, xs[..i]) + (enc(xs[i]) + Joined(enc, xs[i + 1..]))
    ensures Joined(enc, xs[..i + 1]) == Joined(enc, xs[..i]) + enc(xs[i])
  {
    assert xs == xs[..i] + xs[i..];
    JoinedAppend(enc, xs[..i], xs[i..]);
    assert xs[i..][0] == xs[i] && xs[i..][1..] == xs[i + 1..];
    assert xs[..i + 1] == xs[..i] + [xs[i]];
    JoinedAppend(enc, xs[..i], [xs[i]]);
    assert [xs[i]][1..] == [];
  }

  /** Element `i` of a section laid out at `p` is laid out at its offset, the rest of the section after it. */
  lemma ElementAt<T>(enc: T -> seq<u8>, b: seq<u8>, p: nat, xs: seq<T>, rest: seq<u8>, i: nat)
    requires i < |xs| && W.At(b, p, Joined(enc, xs) + rest)
    ensures W.At(b, Offset(enc, p, xs, i), enc(xs[i]) + (Joined(enc, xs[i + 1..]) + rest))
    ensures Offset(enc, p, xs, i + 1) == Offset(enc, p, xs, i) + |enc(xs[i])|
  {
    JoinedAround(enc, xs, i);
    var a, t := Joined(enc, xs[..i]), enc(xs[i]) + (Joined(enc, xs[i + 1..]) + rest);
    assert Joined(enc, xs) + rest == a + t;
    WP.AtAppend(b, p, a, t);
  }

  // ---- writing: a message is written as its wire form ----

  /** The questions are written as their wire forms, one after the other. */
  lemma {:induction false} WriteQuestionsBytes(st: W.St, qs: seq<Question>)
    requires forall i :: 0 <= i < |qs| ==> W.LabelsFit(W.Split(qs[i].name))
    ensures WriteQuestions(st, qs) == W.WriteBytes(st, Joined(QuestionBytes, qs))
    decreases |qs|
  {
    if qs != [] {
      WriteQuestionBytes(st, qs[0]);
      WP.WriteBytesAppend(st, qs[0].Bytes(), Joined(QuestionBytes, qs[1..]));
      var s := WriteQuestion(st, qs[0]);
      if s.Done? {
        WriteQuestionsBytes(s.st, qs[1..]);
      }
    }
  }

  /** The records of a section are written as their wire forms, one after the other. */
  lemma {:induction false} WriteRecordsBytes(st: W.St, rs: seq<Record>)
    requires RecordsFit(rs)
    ensures WriteRecords(st, rs) == W.WriteBytes(st, Joined(RecordBytes, rs))
    decreases |rs|
  {
    if rs != [] {
      RP.WriteRecordBytes(st, rs[0]);
      WP.WriteBytesAppend(st, rs[0].Bytes(), Joined(RecordBytes, rs[1..]));
      var s := WriteRecord(st, rs[0]);
      if s.Done? {
        WriteRecordsBytes(s.st, rs[1..]);
      }
    }
  }

  /** `DnsPacket::write` writes the message's wire form. */
  lemma WritePacketBytes(st: W.St, pk: Packet)
    requires pk.NamesFit()
    ensures WritePacket(st, pk) == W.WriteBytes(st, pk.Bytes())
  {
    var h, qs := pk.header.Bytes(), Joined(QuestionBytes, pk.questions);
    var an, ns := Joined(RecordBytes, pk.answers), Joined(RecordBytes, pk.authorities);
    var ar := Joined(RecordBytes, pk.additional);
    WriteHeaderBytes(st, pk.header);
    WP.WriteBytesAppend(st, h, qs + (an + (ns + ar)));
    var s1 := WriteHeader(st, pk.header);
    if s1.Done? {
      WriteQuestionsBytes(s1.st, pk.questions);
      WP.WriteBytesAppend(s1.st, qs, an + (ns + ar));
      var s2 := WriteQuestions(s1.st, pk.questions);
      if s2.Done? {
        WriteRecordsBytes(s2.st, pk.answers);
        WP.WriteBytesAppend(s2.st, an, ns + ar);
        var s3 := WriteRecords(s2.st, pk.answers);
        if s3.Done? {
          WriteRecordsBytes(s3.st, pk.authorities);
          WP.WriteBytesAppend(s3.st, ns, ar);
          var s4 := WriteRecords(s3.st, pk.authorities);
          if s4.Done? {
            WriteRecordsBytes(s4.st, pk.additional);
          }
        }
      }
    }
  }

  /** A message that fits is spliced into the buffer at the cursor; one that does not
      fails with `EndOfBuffer`, its bytes written up to the end. */
  lemma PacketWritten(b: seq<u8>, p: nat, pk: Packet)
    requires pk.NamesFit() && p <= |b|
    ensures var d := pk.Bytes();
      WritePacket(W.St(b, p), pk) ==
        if p + |d| <= |b| then W.Done((), W.St(W.Splice(b, p, d), p + |d|))
        else W.Failed(W.EndOfBuffer, W.St(W.Splice(b, p, d[..|b| - p]), |b|))
  {
    WritePacketBytes(W.St(b, p), pk);
    WP.WriteBytesEffect(b, p, pk.Bytes());
  }

  /** Names that can be read back can be written. */
  lemma RoundTripsFit(pk: Packet)
    requires pk.RoundTrips()
    ensures pk.NamesFit()
  {
    forall i | 0 <= i < |pk.questions|
      ensures W.LabelsFit(W.Split(pk.questions[i].name))
    {
      P.WellFormedLabelsFit(pk.questions[i].name);
    }
    RecordsFitFrom(pk.answers);
    RecordsFitFrom(pk.authorities);
    RecordsFitFrom(pk.additional);
  }

  lemma RecordsFitFrom(rs: seq<Record>)
    requires RecordsRoundTrip(rs)
    ensures RecordsFit(rs)
  {
    forall i | 0 <= i < |rs|
      ensures rs[i].NamesFit()
    {
      var r := rs[i];
      P.WellFormedLabelsFit(r.domain);
      if r.MX? {
        P.WellFormedLabelsFit(r.host);
      } else if r.SRV? {
        P.WellFormedLabelsFit(r.target);
      }
    }
  }

  // ---- reading: the sections come back in order ----

  /** One element read, then the rest of the section. */
  lemma ReadManyCons<T>(read: W.St -> W.Step<T>, st: W.St, n: nat, m: nat, x: T, st1: W.St, xs: seq<T>, st2: W.St)
    requires n > 0 && m == n - 1
    requires read(st) == W.Done(x, st1) && ReadMany(read, st1, m) == W.Done(xs, st2)
    ensures ReadMany(read, st, n) == W.Done([x] + xs, st2)
  {
  }

  /** A section whose elements each read back at their offsets reads back whole. */
  lemma {:induction false} ReadManyAt<T>(read: W.St -> W.Step<T>, enc: T -> seq<u8>, b: seq<u8>, p: nat, xs: seq<T>)
    requires forall i :: 0 <= i < |xs| ==>
      read(W.St(b, Offset(enc, p, xs, i))) == W.Done(xs[i], W.St(b, Offset(enc, p, xs, i + 1)))
    ensures ReadMany(read, W.St(b, p), |xs|) == W.Done(xs, W.St(b, p + |Joined(enc, xs)|))
    decreases |xs|
  {
    if xs != [] {
      var p1 := p + |enc(xs[0])|;
      forall i | 0 <= i <= |xs[1..]|
        ensures Offset(enc, p1, xs[1..], i) == Offset(enc, p, xs, i + 1)
      {
        assert xs[..i + 1] == [xs[0]] + xs[1..][..i];
        JoinedAppend(enc, [xs[0]], xs[1..][..i]);
        assert [xs[0]][1..] == [];
      }
      assert xs[..0] == [] && xs[1..][..0] == [];
      assert Offset(enc, p1, xs[1..], 0) == p1;
      ReadManyAt(read, enc, b, p1, xs[1..]);
      ReadManyCons(read, W.St(b, p), |xs|, |xs[1..]|, xs[0], W.St(b, p1), xs[1..], W.St(b, p + |Joined(enc, xs)|));
      assert [xs[0]] + xs[1..] == xs;
    }
  }

  /** A question that can come back reads back from its wire form, whatever follows it. */
  lemma QuestionBackAt(b: seq<u8>, p: nat, e: nat, q: Question, rest: seq<u8>)
    requires e == p + |q.Bytes()|
    requires q.RoundTrips() && W.At(b, p, q.Bytes() + rest)
    ensures ReadQuestion(W.St(b, p)) == W.Done(q, W.St(b, e))
  {
    WP.AtAppend(b, p, q.Bytes(), rest);
    ReadQuestionAt(b, p, q);
    Q.TypeRoundTrip(q.queryType);
    Q.ClassRoundTrip(q.queryClass);
  }

  /** A question section laid out at `p` reads back whole. */
  lemma ReadQuestionsAt(b: seq<u8>, p: nat, e: nat, qs: seq<Question>, rest: seq<u8>)
    requires e == p + |Joined(QuestionBytes, qs)|
    requires (forall i :: 0 <= i < |qs| ==> qs[i].RoundTrips()) && W.At(b, p, Joined(QuestionBytes, qs) + rest)
    ensures ReadMany(ReadQuestion, W.St(b, p), |qs|) == W.Done(qs, W.St(b, e))
  {
    forall i | 0 <= i < |qs|
      ensures ReadQuestion(W.St(b, Offset(QuestionBytes, p, qs, i)))
        == W.Done(qs[i], W.St(b, Offset(QuestionBytes, p, qs, i + 1)))
    {
      var o, o' := Offset(QuestionBytes, p, qs, i), Offset(QuestionBytes, p, qs, i + 1);
      ElementAt(QuestionBytes, b, p, qs, rest, i);
      QuestionBackAt(b, o, o', qs[i], Joined(QuestionBytes, qs[i + 1..]) + rest);
    }
    ReadManyAt(ReadQuestion, QuestionBytes, b, p, qs);
  }

  /** The last record of a section ends with a name. */
  predicate LastEndsWithName(rs: seq<Record>)
  {
    rs != [] && rs[|rs| - 1].EndsWithName()
  }

  /** A message's wire form ends with a name when its last record does. */
  predicate PacketEndsWithName(pk: Packet)
  {
    if pk.additional != [] then LastEndsWithName(pk.additional)
    else if pk.authorities != [] then LastEndsWithName(pk.authorities)
    else LastEndsWithName(pk.answers)
  }

  /** A record section laid out at `p` reads back whole, with a byte after it when its last record ends with a name. */
  lemma ReadRecordsAt(b: seq<u8>, p: nat, e: nat, rs: seq<Record>, rest: seq<u8>)
    requires e == p + |Joined(RecordBytes, rs)|
    requires RecordsRoundTrip(rs) && W.At(b, p, Joined(RecordBytes, rs) + rest)
    requires LastEndsWithName(rs) ==> rest != []
    ensures ReadMany(ReadRecord, W.St(b, p), |rs|) == W.Done(rs, W.St(b, e))
  {
    forall i | 0 <= i < |rs|
      ensures ReadRecord(W.St(b, Offset(RecordBytes, p, rs, i)))
        == W.Done(rs[i], W.St(b, Offset(RecordBytes, p, rs, i + 1)))
    {
      RecordInSectionAt(b, p, rs, rest, i);
    }
    ReadManyAt(ReadRecord, RecordBytes, b, p, rs);
  }

  /** Record `i` of a section laid out at `p` reads back at its offset. */
  lemma RecordInSectionAt(b: seq<u8>, p: nat, rs: seq<Record>, rest: seq<u8>, i: nat)
    requires i < |rs| && RecordsRoundTrip(rs) && W.At(b, p, Joined(RecordBytes, rs) + rest)
    requires LastEndsWithName(rs) ==> rest != []
    ensures ReadRecord(W.St(b, Offset(RecordBytes, p, rs, i)))
      == W.Done(rs[i], W.St(b, Offset(RecordBytes, p, rs, i + 1)))
  {
    var o, o' := Offset(RecordBytes, p, rs, i), Offset(RecordBytes, p, rs, i + 1);
    var after := rs[i + 1..];
    ElementAt(RecordBytes, b, p, rs, rest, i);
    SectionBytes(after);
    assert after == [] ==> i == |rs| - 1;
    RP.ReadRecordAt(b, o, o', rs[i], Joined(RecordBytes, after) + rest);
  }

  /** A section that is not empty has a wire form that is not empty. */
  lemma SectionBytes(rs: seq<Record>)
    ensures rs != [] ==> Joined(RecordBytes, rs) != []
  {
    if rs != [] {
      assert |rs[0].HeadBytes()| > 0;
    }
  }

  /** Where each of five consecutive parts laid out at `p` starts. */
  lemma FivePartsAt(b: seq<u8>, p: nat, p1: nat, p2: nat, p3: nat, p4: nat,
                    h: seq<u8>, qs: seq<u8>, an: seq<u8>, ns: seq<u8>, ar: seq<u8>, rest: seq<u8>)
    requires W.At(b, p, h + (qs + (an + (ns + ar))) + rest)
    requires p1 == p + |h| && p2 == p1 + |qs| && p3 == p2 + |an| && p4 == p3 + |ns|
    ensures W.At(b, p, h) && W.At(b, p1, qs + (an + (ns + (ar + rest))))
    ensures W.At(b, p2, an + (ns + (ar + rest))) && W.At(b, p3, ns + (ar + rest)) && W.At(b, p4, ar + rest)
  {
    assert h + (qs + (an + (ns + ar))) + rest == h + (qs + (an + (ns + (ar + rest))));
    WP.AtAppend(b, p, h, qs + (an + (ns + (ar + rest))));
    WP.AtAppend(b, p1, qs, an + (ns + (ar + rest)));
    WP.AtAppend(b, p2, an, ns + (ar + rest));
    WP.AtAppend(b, p3, ns, ar + rest);
  }

  /** A message that can come back, laid out at `p`, with a byte after it when it ends with a name, reads back. */
  lemma ReadPacketAt(b: seq<u8>, p: nat, e: nat, pk: Packet, rest: seq<u8>)
    requires e == p + |pk.Bytes()|
    requires pk.RoundTrips() && W.At(b, p, pk.Bytes() + rest) && (PacketEndsWithName(pk) ==> rest != [])
    ensures ReadPacket(W.St(b, p)) == W.Done(pk, W.St(b, e))
  {
    var p1 := p + HeaderSize;
    var p2 := p1 + |Joined(QuestionBytes, pk.questions)|;
    var p3 := p2 + |Joined(RecordBytes, pk.answers)|;
    var p4 := p3 + |Joined(RecordBytes, pk.authorities)|;
    var h, qs := pk.header.Bytes(), Joined(QuestionBytes, pk.questions);
    var an, ns := Joined(RecordBytes, pk.answers), Joined(RecordBytes, pk.authorities);
    var ar := Joined(RecordBytes, pk.additional);
    FivePartsAt(b, p, p1, p2, p3, p4, h, qs, an, ns, ar, rest);
    assert ReadHeader(W.St(b, p)) == W.Done(pk.header, W.St(b, p1)) by {
      ReadHeaderAt(b, p, pk.header);
    }
    assert ReadMany(ReadQuestion, W.St(b, p1), |pk.questions|) == W.Done(pk.questions, W.St(b, p2)) by {
      ReadQuestionsAt(b, p1, p2, pk.questions, an + (ns + (ar + rest)));
    }
    assert ReadMany(ReadRecord, W.St(b, p2), |pk.answers|) == W.Done(pk.answers, W.St(b, p3)) by {
      SectionBytes(pk.authorities);
      SectionBytes(pk.additional);
      ReadRecordsAt(b, p2, p3, pk.answers, ns + (ar + rest));
    }
    assert ReadMany(ReadRecord, W.St(b, p3), |pk.authorities|) == W.Done(pk.authorities, W.St(b, p4)) by {
      SectionBytes(pk.additional);
      ReadRecordsAt(b, p3, p4, pk.authorities, ar + rest);
    }
    assert ReadMany(ReadRecord, W.St(b, p4), |pk.additional|) == W.Done(pk.additional, W.St(b, e)) by {
      ReadRecordsAt(b, p4, e, pk.additional, rest);
    }
  }

  /** A message that can come back is written as its wire form and read back unchanged;
      when it ends with a name the buffer must hold a byte beyond it. */
  lemma PacketRoundTrip(b: seq<u8>, p: nat, pk: Packet)
    requires pk.RoundTrips() && p + |pk.Bytes()| + (if PacketEndsWithName(pk) then 1 else 0) <= |b|
    ensures var w := WritePacket(W.St(b, p), pk);
      && w == W.Done((), W.St(W.Splice(b, p, pk.Bytes()), p + |pk.Bytes()|))
      && ReadPacket(W.St(w.st.bytes, p)) == W.Done(pk, w.st)
  {
    var d := pk.Bytes();
    RoundTripsFit(pk);
    PacketWritten(b, p, pk);
    var b', e := W.Splice(b, p, d), p + |d|;
    WP.SpliceAt(b, p, d);
    WP.AtRest(b', p, d);
    ReadPacketAt(b', p, e, pk, b'[e..]);
  }

  /** A message whose counts disagree with its sections never comes back from a read. */
  lemma MiscountedNotRead(st: W.St, pk: Packet)
    requires !pk.CountsAgree()
    ensures ReadPacket(st) != W.Done(pk, ReadPacket(st).st)
  {
  }

  // ---- the query helpers ----

  /** `get_nameservers` keeps, in order, the delegations among the authorities. */
  lemma {:induction false} NameserversAppend(a: seq<Record>, c: seq<Record>, queryName: seq<u8>)
    ensures Nameservers(a + c, queryName) == Nameservers(a, queryName) + Nameservers(c, queryName)
    decreases |a|
  {
    if a == [] {
      assert a + c == c;
    } else {
      assert (a + c)[0] == a[0] && (a + c)[1..] == a[1..] + c;
      NameserversAppend(a[1..], c, queryName);
    }
  }

  /** A (domain, host) pair is listed exactly when some authority delegates it. */
  lemma {:induction false} NameserverListed(authorities: seq<Record>, queryName: seq<u8>, domain: seq<u8>, host: seq<u8>)
    ensures (domain, host) in Nameservers(authorities, queryName) <==>
      exists i :: 0 <= i < |authorities| && Delegates(authorities[i], queryName)
        && authorities[i].domain == domain && authorities[i].host == host
    decreases |authorities|
  {
    if authorities != [] {
      var rest := authorities[1..];
      NameserverListed(rest, queryName, domain, host);
      if (domain, host) in Nameservers(rest, queryName) {
        var i :| 0 <= i < |rest| && Delegates(rest[i], queryName) && rest[i].domain == domain && rest[i].host == host;
        assert authorities[i + 1] == rest[i];
      }
      if (exists i :: (0 <= i < |authorities| && Delegates(authorities[i], queryName)
                      && authorities[i].domain == domain && authorities[i].host == host))
      {
        var i :| 0 <= i < |authorities| && Delegates(authorities[i], queryName)
          && authorities[i].domain == domain && authorities[i].host == host;
        if i > 0 {
          assert rest[i - 1] == authorities[i];
        }
      }
    }
  }

  /** The first nameserver listed comes from the first delegating authority; none is listed
      exactly when no authority delegates. */
  lemma {:induction false} FirstNameserver(authorities: seq<Record>, queryName: seq<u8>)
    ensures Nameservers(authorities, queryName) == [] <==>
      forall i :: 0 <= i < |authorities| ==> !Delegates(authorities[i], queryName)
    ensures Nameservers(authorities, queryName) != [] ==>
      exists i :: 0 <= i < |authorities| && Delegates(authorities[i], queryName)
        && (forall j :: 0 <= j < i ==> !Delegates(authorities[j], queryName))
        && Nameservers(authorities, queryName)[0] == (authorities[i].domain, authorities[i].host)
    decreases |authorities|
  {
    if authorities != [] && !Delegates(authorities[0], queryName) {
      var rest := authorities[1..];
      FirstNameserver(rest, queryName);
      if Nameservers(rest, queryName) == [] {
        forall i | 0 <= i < |authorities|
          ensures !Delegates(authorities[i], queryName)
        {
          if i > 0 {
            assert authorities[i] == rest[i - 1];
          }
        }
      } else {
        var i :| 0 <= i < |rest| && Delegates(rest[i], queryName)
          && (forall j :: 0 <= j < i ==> !Delegates(rest[j], queryName))
          && Nameservers(rest, queryName)[0] == (rest[i].domain, rest[i].host);
        assert authorities[i + 1] == rest[i];
        forall j | 0 <= j < i + 1
          ensures !Delegates(authorities[j], queryName)
        {
          if j > 0 {
            assert authorities[j] == rest[j - 1];
          }
        }
      }
    }
  }

  /** `get_uresolved_nameserver` gives the host of the first delegation, and nothing when there is none. */
  lemma UnresolvedIsFirstDelegation(pk: Packet, queryName: seq<u8>)
    ensures pk.GetUnresolvedNameserver(queryName).None? <==>
      forall i :: 0 <= i < |pk.authorities| ==> !Delegates(pk.authorities[i], queryName)
    ensures pk.GetUnresolvedNameserver(queryName).Some? ==>
      exists i :: 0 <= i < |pk.authorities| && Delegates(pk.authorities[i], queryName)
        && (forall j :: 0 <= j < i ==> !Delegates(pk.authorities[j], queryName))
        && pk.GetUnresolvedNameserver(queryName).value == pk.authorities[i].host
  {
    FirstNameserver(pk.authorities, queryName);
  }

  /** The inner search finds the address of the first glue record of `host`, if there is one. */
  lemma {:induction false} FirstGlueFinds(additional: seq<Record>, host: seq<u8>, queryType: Q.QueryType)
    ensures FirstGlue(additional, host, queryType).Some? <==>
      exists i :: 0 <= i < |additional| && Glue(additional[i], host, queryType)
    ensures FirstGlue(additional, host, queryType).Some? ==>
      exists i :: 0 <= i < |additional| && Glue(additional[i], host, queryType)
        && (forall j :: 0 <= j < i ==> !Glue(additional[j], host, queryType))
        && FirstGlue(additional, host, queryType) == AddressOf(additional[i])
    decreases |additional|
  {
    if additional != [] && !Glue(additional[0], host, queryType) {
      var rest := additional[1..];
      FirstGlueFinds(rest, host, queryType);
      if exists i :: 0 <= i < |additional| && Glue(additional[i], host, queryType) {
        var i :| 0 <= i < |additional| && Glue(additional[i], host, queryType);
        assert rest[i - 1] == additional[i];
      }
      if FirstGlue(rest, host, queryType).Some? {
        var i :| 0 <= i < |rest| && Glue(rest[i], host, queryType)
          && (forall j :: 0 <= j < i ==> !Glue(rest[j], host, queryType))
          && FirstGlue(rest, host, queryType) == AddressOf(rest[i]);
        assert additional[i + 1] == rest[i];
        forall j | 0 <= j < i + 1
          ensures !Glue(additional[j], host, queryType)
        {
          if j > 0 {
            assert additional[j] == rest[j - 1];
          }
        }
      }
    }
  }

  /** The outer search finds an address exactly when some delegated host has glue. */
  lemma {:induction false} FirstResolvedSome(ns: seq<(seq<u8>, seq<u8>)>, additional: seq<Record>, queryType: Q.QueryType)
    ensures FirstResolved(ns, additional, queryType).Some? <==>
      exists k :: 0 <= k < |ns| && FirstGlue(additional, ns[k].1, queryType).Some?
    decreases |ns|
  {
    if ns != [] && FirstGlue(additional, ns[0].1, queryType).None? {
      var rest := ns[1..];
      FirstResolvedSome(rest, additional, queryType);
      if exists k :: 0 <= k < |ns| && FirstGlue(additional, ns[k].1, queryType).Some? {
        var k :| 0 <= k < |ns| && FirstGlue(additional, ns[k].1, queryType).Some?;
        assert rest[k - 1] == ns[k];
      }
    }
  }

  /** The outer search takes the first host, in delegation order, whose glue is found. */
  lemma {:induction false} FirstResolvedFinds(ns: seq<(seq<u8>, seq<u8>)>, additional: seq<Record>, queryType: Q.QueryType)
    ensures FirstResolved(ns, additional, queryType).Some? <==>
      exists k :: 0 <= k < |ns| && FirstGlue(additional, ns[k].1, queryType).Some?
    ensures FirstResolved(ns, additional, queryType).Some? ==>
      exists k :: 0 <= k < |ns| && FirstGlue(additional, ns[k].1, queryType).Some?
        && (forall j :: 0 <= j < k ==> FirstGlue(additional, ns[j].1, queryType).None?)
        && FirstResolved(ns, additional, queryType) == FirstGlue(additional, ns[k].1, queryType)
    decreases |ns|
  {
    FirstResolvedSome(ns, additional, queryType);
    if ns != [] && FirstGlue(additional, ns[0].1, queryType).None? {
      var rest := ns[1..];
      FirstResolvedFinds(rest, additional, queryType);
      if FirstResolved(rest, additional, queryType).Some? {
        var k :| 0 <= k < |rest| && FirstGlue(additional, rest[k].1, queryType).Some?
          && (forall j :: 0 <= j < k ==> FirstGlue(additional, rest[j].1, queryType).None?)
          && FirstResolved(rest, additional, queryType) == FirstGlue(additional, rest[k].1, queryType);
        assert ns[k + 1] == rest[k];
        forall j | 0 <= j < k + 1
          ensures FirstGlue(additional, ns[j].1, queryType).None?
        {
          if j > 0 {
            assert ns[j] == rest[j - 1];
          }
        }
      }
    }
  }

  /** `get_resolved_nameserver` finds an address exactly when some delegated host has glue of the type. */
  lemma ResolvedNeedsGlue(pk: Packet, queryName: seq<u8>, queryType: Q.QueryType)
    ensures var ns := pk.GetNameservers(queryName);
      pk.GetResolvedNameserver(queryName, queryType).Some? <==>
        exists k, i :: 0 <= k < |ns| && 0 <= i < |pk.additional| && Glue(pk.additional[i], ns[k].1, queryType)
  {
    var ns := pk.GetNameservers(queryName);
    FirstResolvedFinds(ns, pk.additional, queryType);
    forall k | 0 <= k < |ns|
      ensures FirstGlue(pk.additional, ns[k].1, queryType).Some? <==>
        exists i :: 0 <= i < |pk.additional| && Glue(pk.additional[i], ns[k].1, queryType)
    {
      FirstGlueFinds(pk.additional, ns[k].1, queryType);
    }
  }

  /** `find` gives the first record of the type, and nothing when there is none. */
  lemma {:induction false} FirstMatchFinds(rs: seq<Record>, queryType: Q.QueryType)
    ensures FirstMatch(rs, queryType).None? <==> forall i :: 0 <= i < |rs| ==> !rs[i].MatchesQueryType(queryType)
    ensures FirstMatch(rs, queryType).Some? ==>
      exists i :: 0 <= i < |rs| && rs[i].MatchesQueryType(queryType)
        && (forall j :: 0 <= j < i ==> !rs[j].MatchesQueryType(queryType))
        && FirstMatch(rs, queryType).value == rs[i]
    decreases |rs|
  {
    if rs != [] && !rs[0].MatchesQueryType(queryType) {
      var rest := rs[1..];
      FirstMatchFinds(rest, queryType);
      if FirstMatch(rest, queryType).None? {
        forall i | 0 <= i < |rs|
          ensures !rs[i].MatchesQueryType(queryType)
        {
          if i > 0 {
            assert rs[i] == rest[i - 1];
          }
        }
      } else {
        var i :| 0 <= i < |rest| && rest[i].MatchesQueryType(queryType)
          && (forall j :: 0 <= j < i ==> !rest[j].MatchesQueryType(queryType))
          && FirstMatch(rest, queryType).value == rest[i];
        assert rs[i + 1] == rest[i];
        forall j | 0 <= j < i + 1
          ensures !rs[j].MatchesQueryType(queryType)
        {
          if j > 0 {
            assert rs[j] == rest[j - 1];
          }
        }
      }
    }
  }

  /** `get_record` gives the address of the first answer of the type when that answer is
      an A or AAAA record, and nothing otherwise. */
  lemma RecordIsFirstAnswer(pk: Packet, queryType: Q.QueryType)
    ensures pk.GetRecord(queryType).Some? <==>
      exists i :: 0 <= i < |pk.answers| && pk.answers[i].MatchesQueryType(queryType)
        && (forall j :: 0 <= j < i ==> !pk.answers[j].MatchesQueryType(queryType))
        && (pk.answers[i].A? || pk.answers[i].AAAA?)
    ensures pk.GetRecord(queryType).Some? ==>
      exists i :: 0 <= i < |pk.answers| && pk.answers[i].MatchesQueryType(queryType)
        && (forall j :: 0 <= j < i ==> !pk.answers[j].MatchesQueryType(queryType))
        && pk.GetRecord(queryType) == AddressOf(pk.answers[i])
  {
    var rs := pk.answers;
    FirstMatchFinds(rs, queryType);
    if (exists i :: (0 <= i < |rs| && rs[i].MatchesQueryType(queryType)
                    && (forall j :: 0 <= j < i ==> !rs[j].MatchesQueryType(queryType))))
    {
      var i :| 0 <= i < |rs| && rs[i].MatchesQueryType(queryType)
        && (forall j :: 0 <= j < i ==> !rs[j].MatchesQueryType(queryType));
      var k :| 0 <= k < |rs| && rs[k].MatchesQueryType(queryType)
        && (forall j :: 0 <= j < k ==> !rs[j].MatchesQueryType(queryType))
        && FirstMatch(rs, queryType).value == rs[k];
      assert i == k;
    }
  }
}
