// A whole DNS message, src/dns/packet.rs (section 4.1 of RFC 1035): the
// header, then the question, answer, authority and additional sections,
// whose lengths the header's four counts give when the message is read.
// IP addresses are their 32- and 128-bit values.

module DnsPacket {
  import opened Bytes
  import W = DnsWire
  import opened DnsBuffer
  import opened DnsHeader
  import opened DnsQuestion
  import opened DnsRecord
  import Q = DnsQuery

  datatype Option<+T> = None | Some(value: T)

  /** `std::net::IpAddr` */
  datatype IpAddr = V4(addr: u32) | V6(addr6: u128)

  datatype Packet = Packet(header: Header, questions: seq<Question>, answers: seq<Record>,
                           authorities: seq<Record>, additional: seq<Record>)
  {
    /** `DnsPacket::new`: a new header and four empty sections. */
    static function New(): (p: Packet)
      ensures p.header == Header.New()
      ensures p.questions == [] && p.answers == [] && p.authorities == [] && p.additional == []
    {
      Packet(Header.New(), [], [], [], [])
    }

    /** The message's wire form: the header, then each section's elements in order. */
    function Bytes(): seq<u8>
    {
      header.Bytes() + (Joined(QuestionBytes, questions) + (Joined(RecordBytes, answers)
        + (Joined(RecordBytes, authorities) + Joined(RecordBytes, additional))))
    }

    /** Every count in the header is its section's length. */
    predicate CountsAgree()
    {
      && header.questionCount as nat == |questions| && header.answerCount as nat == |answers|
      && header.authorityCount as nat == |authorities| && header.additionalCount as nat == |additional|
    }

    /** Every name of the message has labels `write_query_name` accepts. */
    predicate NamesFit()
    {
      && (forall i :: 0 <= i < |questions| ==> W.LabelsFit(W.Split(questions[i].name)))
      && RecordsFit(answers) && RecordsFit(authorities) && RecordsFit(additional)
    }

    /** The messages that come back unchanged from their wire form. */
    predicate RoundTrips()
    {
      && header.FlagsInRange() && CountsAgree()
      && (forall i :: 0 <= i < |questions| ==> questions[i].RoundTrips())
      && RecordsRoundTrip(answers) && RecordsRoundTrip(authorities) && RecordsRoundTrip(additional)
    }

    /** `DnsPacket::read` */
    static method Read(buf: PacketBuffer) returns (r: W.Result<Packet>)
      requires buf.Valid()
      modifies buf
      ensures buf.Valid()
      ensures var s := ReadPacket(old(buf.State())); r == s.Res() && buf.State() == s.st
    {
      var header := Header.Read(buf);
      if header.Err? {
        return W.Err(header.error);
      }
      var h := header.value;
      var questions := ReadQuestionsOf(buf, h.questionCount as nat);
      if questions.Err? {
        return W.Err(questions.error);
      }
      var answers := ReadRecordsOf(buf, h.answerCount as nat);
      if answers.Err? {
        return W.Err(answers.error);
      }
      var authorities := ReadRecordsOf(buf, h.authorityCount as nat);
      if authorities.Err? {
        return W.Err(authorities.error);
      }
      var additional := ReadRecordsOf(buf, h.additionalCount as nat);
      if additional.Err? {
        return W.Err(additional.error);
      }
      r := W.Ok(Packet(h, questions.value, answers.value, authorities.value, additional.value));
    }

    /** `DnsPacket::write` */
    method Write(buf: PacketBuffer) returns (r: W.Result<()>)
      requires buf.Valid()
      modifies buf, buf.buffer
      ensures buf.Valid()
      ensures var s := WritePacket(old(buf.State()), this); r == s.Res() && buf.State() == s.st
    {
      r := header.Write(buf);
      if r.Err? {
        return;
      }
      r := WriteQuestionsOf(buf, questions);
      if r.Err? {
        return;
      }
      r := WriteRecordsOf(buf, answers);
      if r.Err? {
        return;
      }
      r := WriteRecordsOf(buf, authorities);
      if r.Err? {
        return;
      }
      r := WriteRecordsOf(buf, additional);
    }

    /** `get_nameservers`: the (domain, host) pairs of the authority section's delegations for `queryName`. */
    function GetNameservers(queryName: seq<u8>): seq<(seq<u8>, seq<u8>)>
    {
      Nameservers(authorities, queryName)
    }

    /** `get_resolved_nameserver` */
    function GetResolvedNameserver(queryName: seq<u8>, queryType: Q.QueryType): Option<IpAddr>
    {
      FirstResolved(GetNameservers(queryName), additional, queryType)
    }

    /** `get_uresolved_nameserver`: the host of the first delegation, if any. */
    function GetUnresolvedNameserver(queryName: seq<u8>): Option<seq<u8>>
    {
      var ns := GetNameservers(queryName);
      if ns == [] then None else Some(ns[0].1)
    }

    /** `get_record`: the address of the first answer of the type, when that answer is A or AAAA. */
    function GetRecord(queryType: Q.QueryType): Option<IpAddr>
    {
      match FirstMatch(answers, queryType)
      case None => None
      case Some(r) => AddressOf(r)
    }
  }

  predicate RecordsFit(rs: seq<Record>)
  {
    forall i :: 0 <= i < |rs| ==> rs[i].NamesFit()
  }

  predicate RecordsRoundTrip(rs: seq<Record>)
  {
    forall i :: 0 <= i < |rs| ==> rs[i].RoundTrips()
  }

  /** The wire forms of `xs`, one after the other. */
  function Joined<T>(enc: T -> seq<u8>, xs: seq<T>): seq<u8>
  {
    if xs == [] then [] else enc(xs[0]) + Joined(enc, xs[1..])
  }

  function QuestionBytes(q: Question): seq<u8>
  {
    q.Bytes()
  }

  function RecordBytes(r: Record): seq<u8>
  {
    r.Bytes()
  }

  // ---- the sections on the wire ----

  /** `done`, followed by what a read of further elements gives; its failure if it fails. */
  function Then<T>(done: seq<T>, s: W.Step<seq<T>>): W.Step<seq<T>>
  {
    if s.Done? then W.Done(done + s.value, s.st) else s
  }

  /** The loop of `read` over one section: `n` elements in order, stopping at the first failure. */
  function ReadMany<T>(read: W.St -> W.Step<T>, st: W.St, n: nat): (r: W.Step<seq<T>>)
    ensures r.Done? ==> |r.value| == n
    decreases n
  {
    if n == 0 then W.Done([], st)
    else
      var x :- read(st);
      Then([x.value], ReadMany(read, x.st, n - 1))
  }

  /** What `DnsPacket::read` does to the buffer: the header, then as many elements as its counts say. */
  function ReadPacket(st: W.St): (r: W.Step<Packet>)
    ensures r.Done? ==> r.value.CountsAgree()
  {
    var h :- ReadHeader(st);
    var qs :- ReadMany(ReadQuestion, h.st, h.value.questionCount as nat);
    var an :- ReadMany(ReadRecord, qs.st, h.value.answerCount as nat);
    var ns :- ReadMany(ReadRecord, an.st, h.value.authorityCount as nat);
    var ar :- ReadMany(ReadRecord, ns.st, h.value.additionalCount as nat);
    W.Done(Packet(h.value, qs.value, an.value, ns.value, ar.value), ar.st)
  }

  /** `try_for_each` over the questions: each written in order, stopping at the first failure. */
  function WriteQuestions(st: W.St, qs: seq<Question>): W.Step<()>
    decreases |qs|
  {
    if qs == [] then W.Done((), st)
    else
      var s :- WriteQuestion(st, qs[0]);
      WriteQuestions(s.st, qs[1..])
  }

  /** `try_for_each` over a record section. */
  function WriteRecords(st: W.St, rs: seq<Record>): W.Step<()>
    decreases |rs|
  {
    if rs == [] then W.Done((), st)
    else
      var s :- WriteRecord(st, rs[0]);
      WriteRecords(s.st, rs[1..])
  }

  /** What `DnsPacket::write` does to the buffer; the header's counts are written as they are. */
  function WritePacket(st: W.St, p: Packet): W.Step<()>
  {
    var s :- WriteHeader(st, p.header);
    var s :- WriteQuestions(s.st, p.questions);
    var s :- WriteRecords(s.st, p.answers);
    var s :- WriteRecords(s.st, p.authorities);
    WriteRecords(s.st, p.additional)
  }

  /** Nothing read yet. */
  lemma ThenNil<T>(s: W.Step<seq<T>>)
    ensures Then([], s) == s
  {
    if s.Done? {
      assert [] + s.value == s.value;
    }
  }

  /** One more element read: what is left of the section moves past it. */
  lemma ReadManyMore<T>(read: W.St -> W.Step<T>, full: W.Step<seq<T>>, done: seq<T>, done': seq<T>,
                        before: W.St, x: T, after: W.St, left: nat, left': nat)
    requires left > 0 && full == Then(done, ReadMany(read, before, left))
    requires read(before) == W.Done(x, after)
    requires done' == done + [x] && left' == left - 1
    ensures full == Then(done', ReadMany(read, after, left'))
  {
    ThenOne(done, x, ReadMany(read, after, left'));
  }

  /** An element that cannot be read ends the section with its failure. */
  lemma ReadManyStops<T>(read: W.St -> W.Step<T>, full: W.Step<seq<T>>, done: seq<T>, before: W.St, left: nat)
    requires left > 0 && full == Then(done, ReadMany(read, before, left))
    requires read(before).Failed?
    ensures full == read(before).PropagateFailure()
  {
  }

  lemma ThenOne<T>(done: seq<T>, x: T, s: W.Step<seq<T>>)
    ensures Then(done, Then([x], s)) == Then(done + [x], s)
  {
    if s.Done? {
      assert done + ([x] + s.value) == (done + [x]) + s.value;
    }
  }

  /** `for _ in 0..n { questions.push(DnsQuestion::read(buffer)?) }` */
  method ReadQuestionsOf(buf: PacketBuffer, n: nat) returns (r: W.Result<seq<Question>>)
    requires buf.Valid()
    modifies buf
    ensures buf.Valid()
    ensures var s := ReadMany(ReadQuestion, old(buf.State()), n); r == s.Res() && buf.State() == s.st
  {
    ghost var full := ReadMany(ReadQuestion, buf.State(), n);
    var questions: seq<Question> := [];
    var i := 0;
    ghost var left := n;
    ThenNil(full);
    while i < n
      invariant buf.Valid() && i <= n && left == n - i
      invariant full == Then(questions, ReadMany(ReadQuestion, buf.State(), left))
    {
      ghost var before, done, left0 := buf.State(), questions, left;
      var q := Question.Read(buf);
      if q.Err? {
        ReadManyStops(ReadQuestion, full, done, before, left0);
        return W.Err(q.error);
      }
      questions := questions + [q.value];
      i, left := i + 1, left - 1;
      ReadManyMore(ReadQuestion, full, done, questions, before, q.value, buf.State(), left0, left);
    }
    assert questions + [] == questions;
    r := W.Ok(questions);
  }

  /** `for _ in 0..n { records.push(DnsRecord::read(buffer)?) }` */
  method ReadRecordsOf(buf: PacketBuffer, n: nat) returns (r: W.Result<seq<Record>>)
    requires buf.Valid()
    modifies buf
    ensures buf.Valid()
    ensures var s := ReadMany(ReadRecord, old(buf.State()), n); r == s.Res() && buf.State() == s.st
  {
    ghost var full := ReadMany(ReadRecord, buf.State(), n);
    var records: seq<Record> := [];
    var i := 0;
    ghost var left := n;
    ThenNil(full);
    while i < n
      invariant buf.Valid() && i <= n && left == n - i
      invariant full == Then(records, ReadMany(ReadRecord, buf.State(), left))
    {
      ghost var before, done, left0 := buf.State(), records, left;
      var rec := Record.Read(buf);
      if rec.Err? {
        ReadManyStops(ReadRecord, full, done, before, left0);
        return W.Err(rec.error);
      }
      records := records + [rec.value];
      i, left := i + 1, left - 1;
      ReadManyMore(ReadRecord, full, done, records, before, rec.value, buf.State(), left0, left);
    }
    assert records + [] == records;
    r := W.Ok(records);
  }

  /** `questions.iter().try_for_each(|q| q.write(buffer))` */
  method WriteQuestionsOf(buf: PacketBuffer, qs: seq<Question>) returns (r: W.Result<()>)
    requires buf.Valid()
    modifies buf, buf.buffer
    ensures buf.Valid()
    ensures var s := WriteQuestions(old(buf.State()), qs); r == s.Res() && buf.State() == s.st
  {
    var i := 0;
    while i < |qs|
      invariant buf.Valid() && i <= |qs|
      invariant WriteQuestions(old(buf.State()), qs) == WriteQuestions(buf.State(), qs[i..])
    {
      assert qs[i..][1..] == qs[i + 1..];
      r := qs[i].Write(buf);
      if r.Err? {
        return;
      }
      i := i + 1;
    }
    r := W.Ok(());
  }

  /** `records.iter().try_for_each(|a| a.write(buffer))` */
  method WriteRecordsOf(buf: PacketBuffer, rs: seq<Record>) returns (r: W.Result<()>)
    requires buf.Valid()
    modifies buf, buf.buffer
    ensures buf.Valid()
    ensures var s := WriteRecords(old(buf.State()), rs); r == s.Res() && buf.State() == s.st
  {
    var i := 0;
    while i < |rs|
      invariant buf.Valid() && i <= |rs|
      invariant WriteRecords(old(buf.State()), rs) == WriteRecords(buf.State(), rs[i..])
    {
      assert rs[i..][1..] == rs[i + 1..];
      r := rs[i].Write(buf);
      if r.Err? {
        return;
      }
      i := i + 1;
    }
    r := W.Ok(());
  }

  // ---- the query helpers ----

  /** `query_name.ends_with(domain)`: a plain byte suffix, not a label boundary. */
  predicate EndsWith(s: seq<u8>, suffix: seq<u8>)
  {
    |suffix| <= |s| && s[|s| - |suffix|..] == suffix
  }

  /** An authority record `get_nameservers` keeps: NS, for a domain that ends the query name. */
  predicate Delegates(r: Record, queryName: seq<u8>)
  {
    r.NS? && EndsWith(queryName, r.domain)
  }

  function Nameservers(authorities: seq<Record>, queryName: seq<u8>): seq<(seq<u8>, seq<u8>)>
  {
    if authorities == [] then []
    else
      var rest := Nameservers(authorities[1..], queryName);
      var r := authorities[0];
      if Delegates(r, queryName) then [(r.domain, r.host)] + rest else rest
  }

  /** The address an A or AAAA record holds. */
  function AddressOf(r: Record): (a: Option<IpAddr>)
    ensures a.Some? <==> r.A? || r.AAAA?
  {
    match r
    case A(_, addr, _) => Some(V4(addr))
    case AAAA(_, addr, _) => Some(V6(addr))
    case _ => None
  }

  /** An additional record `get_resolved_nameserver` takes: an address of `host`, of the type asked. */
  predicate Glue(r: Record, host: seq<u8>, queryType: Q.QueryType)
  {
    (r.A? || r.AAAA?) && r.domain == host && r.MatchesQueryType(queryType)
  }

  /** The inner loop: the address of the first glue record of `host`. */
  function FirstGlue(additional: seq<Record>, host: seq<u8>, queryType: Q.QueryType): Option<IpAddr>
  {
    if additional == [] then None
    else if Glue(additional[0], host, queryType) then AddressOf(additional[0])
    else FirstGlue(additional[1..], host, queryType)
  }

  /** The outer loop: the first host, in delegation order, with glue. */
  function FirstResolved(ns: seq<(seq<u8>, seq<u8>)>, additional: seq<Record>, queryType: Q.QueryType): Option<IpAddr>
  {
    if ns == [] then None
    else
      var a := FirstGlue(additional, ns[0].1, queryType);
      if a.Some? then a else FirstResolved(ns[1..], additional, queryType)
  }

  /** `iter().find(|record| record.matches_query_type(t))` */
  function FirstMatch(rs: seq<Record>, queryType: Q.QueryType): Option<Record>
  {
    if rs == [] then None
    else if rs[0].MatchesQueryType(queryType) then Some(rs[0])
    else FirstMatch(rs[1..], queryType)
  }
}
