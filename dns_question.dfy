// One entry of the question section, src/dns/question.rs (section 4.1.2 of
// RFC 1035): a name, then the 16-bit type and class codes.

module DnsQuestion {
  import opened Bytes
  import W = DnsWire
  import WP = DnsWireProofs
  import P = DnsNameProofs
  import opened DnsQuery
  import opened DnsBuffer

  datatype Question = Question(name: seq<u8>, queryType: QueryType, queryClass: QueryClass)
  {
    /** `DnsQuestion::new`: the class is always IN. */
    static function New(name: seq<u8>, queryType: QueryType): (q: Question)
      ensures q.name == name && q.queryType == queryType && q.queryClass == IN
    {
      Question(name, queryType, IN)
    }

    /** The question's wire form: the encoded name, then the type and class codes. */
    function Bytes(): (d: seq<u8>)
      ensures |d| == |W.EncName(name)| + 4
    {
      Ranges();
      W.EncName(name) + (Be(1, queryType.ToU16()) + Be(1, queryClass.ToU16()))
    }

    /** The questions that come back unchanged from their wire form. */
    predicate RoundTrips()
    {
      W.WellFormedName(name) && !(queryType.UNKNOWN? && queryType.code in KnownTypes) && !queryClass.UNASSIGNED?
    }

    /** `DnsQuestion::read` */
    static method Read(buf: PacketBuffer) returns (r: W.Result<Question>)
      requires buf.Valid()
      modifies buf
      ensures buf.Valid()
      ensures var s := ReadQuestion(old(buf.State())); r == s.Res() && buf.State() == s.st
    {
      var question := New([], A);
      var name := buf.ReadQueryName();
      if name.Err? {
        return W.Err(name.error);
      }
      question := question.(name := name.value);
      var t := buf.ReadU16();
      if t.Err? {
        return W.Err(t.error);
      }
      question := question.(queryType := QueryType.FromU16(t.value));
      var c := buf.ReadU16();
      if c.Err? {
        return W.Err(c.error);
      }
      question := question.(queryClass := QueryClass.FromU16(c.value));
      r := W.Ok(question);
    }

    /** `DnsQuestion::write` */
    method Write(buf: PacketBuffer) returns (r: W.Result<()>)
      requires buf.Valid()
      modifies buf, buf.buffer
      ensures buf.Valid()
      ensures var s := WriteQuestion(old(buf.State()), this); r == s.Res() && buf.State() == s.st
    {
      r := buf.WriteQueryName(name);
      if r.Err? {
        return;
      }
      r := buf.WriteU16(queryType.ToU16());
      if r.Err? {
        return;
      }
      r := buf.WriteU16(queryClass.ToU16());
    }
  }

  /** What `DnsQuestion::read` does to the buffer. */
  function ReadQuestion(st: W.St): W.Step<Question>
  {
    Ranges();
    var name :- W.ReadQueryName(st);
    var t :- W.ReadWord(name.st, 1);
    var c :- W.ReadWord(t.st, 1);
    W.Done(Question(name.value, QueryType.FromU16(t.value), QueryClass.FromU16(c.value)), c.st)
  }

  /** What `DnsQuestion::write` does to the buffer. */
  function WriteQuestion(st: W.St, q: Question): W.Step<()>
  {
    Ranges();
    var s :- W.WriteQueryName(st, q.name);
    var s :- W.WriteWord(s.st, 1, q.queryType.ToU16());
    W.WriteWord(s.st, 1, q.queryClass.ToU16())
  }

  /**
   * A name that `write_query_name` rejects fails the whole write, with the
   * name's error and state: no type or class byte follows it.
   */
  lemma NameErrorFirst(st: W.St, q: Question)
    requires W.WriteQueryName(st, q.name).Failed?
    ensures WriteQuestion(st, q) == W.WriteQueryName(st, q.name)
    ensures WriteQuestion(st, q).error == W.EndOfBuffer
      || (WriteQuestion(st, q).error == W.InvalidLabelLength && WriteQuestion(st, q).st.pos == st.pos)
  {
    P.WriteQueryNameOutcome(st, q.name);
  }

  /** A question whose name's labels fit is written as its wire form, byte by byte. */
  lemma WriteQuestionBytes(st: W.St, q: Question)
    requires W.LabelsFit(W.Split(q.name))
    ensures WriteQuestion(st, q) == W.WriteBytes(st, q.Bytes())
  {
    Ranges();
    var t, c := q.queryType.ToU16(), q.queryClass.ToU16();
    P.WriteNameThen(st, q.name, Be(1, t) + Be(1, c));
    var s1 := W.WriteQueryName(st, q.name);
    if s1.Done? {
      WP.WriteWordThen(s1.st, 1, t, Be(1, c));
      var s2 := W.WriteWord(s1.st, 1, t);
      if s2.Done? {
        WP.WriteWordBytes(s2.st, 1, c);
      }
    }
  }

  /** The three fields of a question's wire form, each read from its place. */
  lemma QuestionFieldsAt(b: seq<u8>, p: nat, q: Question)
    requires W.WellFormedName(q.name) && W.At(b, p, q.Bytes())
    ensures var n := |W.EncName(q.name)|;
      && W.ReadQueryName(W.St(b, p)) == W.Done(q.name, W.St(b, p + n))
      && W.ReadWord(W.St(b, p + n), 1) == W.Done(q.queryType.ToU16(), W.St(b, p + n + 2))
      && W.ReadWord(W.St(b, p + n + 2), 1) == W.Done(q.queryClass.ToU16(), W.St(b, p + n + 4))
  {
    Ranges();
    var t, c := q.queryType.ToU16(), q.queryClass.ToU16();
    var n := |W.EncName(q.name)|;
    var pn, pn2, pn4 := p + n, p + n + 2, p + n + 4;
    P.ReadNameThen(b, p, pn, q.name, Be(1, t) + Be(1, c));
    assert Be(1, c) == Be(1, c) + [];
    WP.U16At(b, pn, pn2, t, Be(1, c));
    WP.U16At(b, pn2, pn4, c, []);
  }

  /** A question's wire form reads back as its name and the decoded type and class, 4 bytes past the name. */
  lemma ReadQuestionAt(b: seq<u8>, p: nat, q: Question)
    requires W.WellFormedName(q.name) && W.At(b, p, q.Bytes())
    ensures ReadQuestion(W.St(b, p)) == W.Done(
      Question(q.name, QueryType.FromU16(q.queryType.ToU16()), QueryClass.FromU16(q.queryClass.ToU16())),
      W.St(b, p + |q.Bytes()|))
  {
    QuestionFieldsAt(b, p, q);
  }

  /**
   * Question round trip: a question with a well-formed name, a type other
   * than `UNKNOWN` of a known code and a class other than `UNASSIGNED`,
   * written at p, reads back from p as the same question, with the cursor
   * where the write left it.
   */
  lemma QuestionRoundTrip(b: seq<u8>, p: nat, q: Question)
    requires q.RoundTrips() && p + |q.Bytes()| <= |b|
    ensures var w := WriteQuestion(W.St(b, p), q);
      && w == W.Done((), W.St(W.Splice(b, p, q.Bytes()), p + |q.Bytes()|))
      && ReadQuestion(W.St(w.st.bytes, p)) == W.Done(q, w.st)
  {
    P.WellFormedLabelsFit(q.name);
    WriteQuestionBytes(W.St(b, p), q);
    WP.WriteBytesEffect(b, p, q.Bytes());
    WP.SpliceAt(b, p, q.Bytes());
    ReadQuestionAt(W.Splice(b, p, q.Bytes()), p, q);
    TypeRoundTrip(q.queryType);
    ClassRoundTrip(q.queryClass);
  }

  /** A question that does not round-trip on its type: `UNKNOWN` of a known code reads back as the named type. */
  lemma UnknownKnownTypeReadsAsNamed(b: seq<u8>, p: nat, q: Question)
    requires W.WellFormedName(q.name) && q.queryType == UNKNOWN(1) && p + |q.Bytes()| <= |b|
    ensures var w := WriteQuestion(W.St(b, p), q);
      w.Done? && ReadQuestion(W.St(w.st.bytes, p)).Done?
      && ReadQuestion(W.St(w.st.bytes, p)).value.queryType == A
  {
    P.WellFormedLabelsFit(q.name);
    WriteQuestionBytes(W.St(b, p), q);
    WP.WriteBytesEffect(b, p, q.Bytes());
    WP.SpliceAt(b, p, q.Bytes());
    ReadQuestionAt(W.Splice(b, p, q.Bytes()), p, q);
  }
}
