// The DNS message buffer (src/dns/buffer.rs) as a function of its state:
// every buffer operation maps the bytes and the cursor before the call to
// its result and the bytes and the cursor after it, on the error paths too.
// The class DnsBuffer.PacketBuffer is proved to behave exactly like these
// functions, and the codecs of the other modules are written with them.

module DnsWire {
  import opened Bytes
  import Utf8

  /** Capacity of the buffer: the UDP message limit of section 2.3.4 of RFC 1035. */
  const Capacity: nat := 512
  /** `MAX_JUMPS` of `read_query_name`. */
  const MaxJumps: nat := 5
  /** Longest label `write_query_name` accepts (section 2.3.4 of RFC 1035). */
  const MaxLabel: nat := 63
  /** The label separator '.' */
  const Dot: u8 := 0x2E

  /** `PacketBufferError`; `Abort` stands for a Rust panic, which ends the process. */
  datatype Error =
    | PositionOutOfBounds(pos: nat)
    | EndOfBuffer
    | InvalidLabelLength
    | JumpLimitExceeded
    | Utf8ConversionError
    | Abort

  datatype Result<+T> = Ok(value: T) | Err(error: Error)

  /** The buffer's bytes and its cursor. */
  datatype St = St(bytes: seq<u8>, pos: nat)

  /** The outcome of an operation together with the state it leaves behind. */
  datatype Step<+T> = Done(value: T, st: St) | Failed(error: Error, st: St) {
    predicate IsFailure() { Failed? }
    function PropagateFailure<U>(): Step<U>
      requires Failed?
    {
      Failed(error, st)
    }
    function Extract(): Step<T>
      requires Done?
    {
      this
    }
    function Res(): Result<T>
    {
      if Done? then Ok(value) else Err(error)
    }
  }

  // ---- cursor and random access ----

  function Seek(st: St, p: nat): Step<()>
  {
    if p >= |st.bytes| then Failed(PositionOutOfBounds(p), st) else Done((), St(st.bytes, p))
  }

  function Get(st: St, p: nat): Result<u8>
  {
    if p >= |st.bytes| then Err(EndOfBuffer) else Ok(st.bytes[p])
  }

  function GetBytes(st: St, p: nat, len: nat): Result<seq<u8>>
  {
    if p + len > |st.bytes| then Err(EndOfBuffer) else Ok(st.bytes[p..p + len])
  }

  // ---- reads ----

  function Read(st: St): Step<u8>
  {
    if st.pos >= |st.bytes| then Failed(EndOfBuffer, st)
    else Done(st.bytes[st.pos], St(st.bytes, st.pos + 1))
  }

  /**
   * `read_u16`, `read_u32`, `read_u64` and `read_u128` are levels 1 to 4 of
   * this reader, and `read` is level 0: each reads the high half, then the
   * low half, with the reader of the next narrower width, and fails as soon
   * as one of them fails (the cursor keeps the bytes already consumed).
   */
  function ReadWord(st: St, k: nat): (r: Step<nat>)
    ensures r.Done? ==> r.value < Range(k)
    decreases k
  {
    if k == 0 then
      var b := Read(st);
      if b.Failed? then Failed(b.error, b.st) else Done(b.value, b.st)
    else
      var hi := ReadWord(st, k - 1);
      if hi.Failed? then hi
      else
        var lo := ReadWord(hi.st, k - 1);
        if lo.Failed? then lo
        else
          Combine(hi.value, lo.value, Range(k - 1));
          Done(hi.value * Range(k - 1) + lo.value, lo.st)
  }

  function ReadBytes(st: St, len: nat): Step<seq<u8>>
  {
    if st.pos + len > |st.bytes| then Failed(EndOfBuffer, st)
    else Done(st.bytes[st.pos..st.pos + len], St(st.bytes, st.pos + len))
  }

  // ---- writes ----

  function Write(st: St, v: u8): Step<()>
  {
    if st.pos >= |st.bytes| then Failed(EndOfBuffer, st)
    else Done((), St(st.bytes[st.pos := v], st.pos + 1))
  }

  /**
   * `write_u16`, `write_u32`, `write_u64` and `write_u128` are levels 1 to 4
   * of this writer, and `write` is level 0: each writes the high half, then
   * the low half, with the writer of the next narrower width.
   */
  function WriteWord(st: St, k: nat, v: nat): Step<()>
    requires v < Range(k)
    decreases k
  {
    if k == 0 then Write(st, v)
    else
      Halves(v, Range(k - 1));
      var hi := WriteWord(st, k - 1, v / Range(k - 1));
      if hi.Failed? then hi else WriteWord(hi.st, k - 1, v % Range(k - 1))
  }

  /** `write_bytes`: one `write` per byte, stopping at the first failure. */
  function WriteBytes(st: St, d: seq<u8>): Step<()>
    decreases |d|
  {
    if d == [] then Done((), st)
    else
      var s :- Write(st, d[0]);
      WriteBytes(s.st, d[1..])
  }

  // ---- domain names ----

  /** `str::split('.')`: a name of n dots has n + 1 labels, some possibly empty. */
  function Split(name: seq<u8>): (labels: seq<seq<u8>>)
    ensures |labels| >= 1
  {
    if name == [] then [[]]
    else
      var rest := Split(name[1..]);
      if name[0] == Dot then [[]] + rest
      else [[name[0]] + rest[0]] + rest[1..]
  }

  /** `labels.join(".")` */
  function Join(labels: seq<seq<u8>>): seq<u8>
  {
    if labels == [] then []
    else if |labels| == 1 then labels[0]
    else labels[0] + [Dot] + Join(labels[1..])
  }

  /** Where one iteration of the `read_query_name` loop leaves the decoder. */
  datatype NameLoop =
    | Fail(error: Error, cursor: nat)
    | Break(pos: nat)
    | Next(cursor: nat, pos: nat, jumped: bool, jumps: nat, labels: seq<seq<u8>>)

  /** The two measures the loop decreases: jumps still allowed, then bytes left after `pos`. */
  function JumpsLeft(jumps: nat): nat
  {
    if jumps <= MaxJumps then MaxJumps + 1 - jumps else 0
  }

  function BytesLeft(b: seq<u8>, pos: nat): nat
  {
    if pos <= |b| then |b| - pos else 0
  }

  /**
   * One iteration of the loop of `read_query_name`: `cursor` is the buffer's
   * real position, `pos` the position being decoded, `jumped` and `jumps`
   * record the compression pointers followed so far and `labels` the labels
   * collected so far.
   */
  function NameIteration(b: seq<u8>, cursor: nat, pos: nat, jumped: bool, jumps: nat, labels: seq<seq<u8>>): (r: NameLoop)
    ensures r.Next? ==> JumpsLeft(r.jumps) < JumpsLeft(jumps)
                        || (r.jumps == jumps && BytesLeft(b, r.pos) < BytesLeft(b, pos))
  {
    if jumps > MaxJumps then Fail(JumpLimitExceeded, cursor)
    else if pos >= |b| then Fail(EndOfBuffer, cursor)
    else
      var len: int := b[pos];
      if len >= 0xC0 then
        // a compression pointer: only the first one moves the real cursor
        if !jumped && pos + 2 >= |b| then Fail(PositionOutOfBounds(pos + 2), cursor)
        else
          var cursor' := if jumped then cursor else pos + 2;
          if pos + 1 >= |b| then Fail(EndOfBuffer, cursor')
          else Next(cursor', (len - 0xC0) * 0x100 + b[pos + 1], true, jumps + 1, labels)
      else if len == 0 then Break(pos + 1)
      else if pos + 1 + len > |b| then Fail(EndOfBuffer, cursor)
      else
        var text := b[pos + 1..pos + 1 + len];
        if !Utf8.IsValid(text) then Fail(Utf8ConversionError, cursor)
        else Next(cursor, pos + 1 + len, jumped, jumps, labels + [text])
  }

  /**
   * The loop of `read_query_name` from one of its iterations on, and what
   * follows the loop: unless a pointer was followed, the cursor moves past
   * the name's zero byte.
   */
  function NameFrom(b: seq<u8>, cursor: nat, pos: nat, jumped: bool, jumps: nat, labels: seq<seq<u8>>): Step<seq<u8>>
    decreases JumpsLeft(jumps), BytesLeft(b, pos)
  {
    match NameIteration(b, cursor, pos, jumped, jumps, labels)
    case Fail(e, cursor') => Failed(e, St(b, cursor'))
    case Break(end) =>
      if jumped then Done(Join(labels), St(b, cursor))
      else if end >= |b| then Failed(PositionOutOfBounds(end), St(b, cursor))
      else Done(Join(labels), St(b, end))
    case Next(cursor', pos', jumped', jumps', labels') => NameFrom(b, cursor', pos', jumped', jumps', labels')
  }

  function ReadQueryName(st: St): Step<seq<u8>>
  {
    NameFrom(st.bytes, st.pos, st.pos, false, 0, [])
  }

  /** The label loop of `write_query_name`; `start` is the cursor on entry. */
  function WriteLabels(st: St, labels: seq<seq<u8>>, start: nat): Step<()>
    decreases |labels|
  {
    if labels == [] then Done((), st)
    else if |labels[0]| > MaxLabel then Failed(InvalidLabelLength, St(st.bytes, start))
    else
      var s :- Write(st, |labels[0]|);
      var s' :- WriteBytes(s.st, labels[0]);
      WriteLabels(s'.st, labels[1..], start)
  }

  /** The rest of `write_query_name` once `labels` remain: the labels, then the zero byte. */
  function WriteNameRest(st: St, labels: seq<seq<u8>>, start: nat): Step<()>
  {
    var s :- WriteLabels(st, labels, start);
    Write(s.st, 0)
  }

  function WriteQueryName(st: St, name: seq<u8>): Step<()>
  {
    WriteNameRest(st, Split(name), st.pos)
  }

  // ---- byte layouts ----

  /** `d` is what the buffer holds from `p` on. */
  predicate At(b: seq<u8>, p: nat, d: seq<u8>)
  {
    p + |d| <= |b| && b[p..p + |d|] == d
  }

  /** `b` with the bytes from `p` on replaced by `d`. */
  function Splice(b: seq<u8>, p: nat, d: seq<u8>): seq<u8>
    requires p + |d| <= |b|
  {
    b[..p] + d + b[p + |d|..]
  }

  /** The label part of a name's wire form: a length byte before each label. */
  function EncLabels(labels: seq<seq<u8>>): seq<u8>
  {
    if labels == [] then []
    else [|labels[0]| % 0x100] + (labels[0] + EncLabels(labels[1..]))
  }

  /** The wire form of a name: its labels, then the zero length byte (section 3.1 of RFC 1035). */
  function EncName(name: seq<u8>): seq<u8>
  {
    EncLabels(Split(name)) + [0]
  }

  predicate LabelsFit(labels: seq<seq<u8>>)
  {
    forall i :: 0 <= i < |labels| ==> |labels[i]| <= MaxLabel
  }

  /** A name `read_query_name` gives back after `write_query_name`: labels of 1 to 63 well-formed bytes. */
  predicate WellFormedName(name: seq<u8>)
  {
    var labels := Split(name);
    forall i :: 0 <= i < |labels| ==> 0 < |labels[i]| <= MaxLabel && Utf8.IsValid(labels[i])
  }
}
