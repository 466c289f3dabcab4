// What the buffer operations of DnsWire do to the bytes and the cursor, and
// the round trips between its writers and its readers.

module DnsWireProofs {
  import opened Bytes
  import opened DnsWire

  // ---- fixed-width reads: they succeed exactly when the bytes are there ----

  /** One step of `ReadWord`: the two halves of a read of level k. */
  lemma ReadHalves(st: St, k: nat)
    requires k > 0
    ensures var hi := ReadWord(st, k - 1); var r := ReadWord(st, k);
      if hi.Failed? then r == hi
      else var lo := ReadWord(hi.st, k - 1);
        if lo.Failed? then r == lo else r == Done(hi.value * Range(k - 1) + lo.value, lo.st)
  {
  }

  /** Where Width(k) bytes remain, a read of level k decodes them. */
  lemma {:induction false} ReadWordSucceeds(b: seq<u8>, p: nat, k: nat)
    requires p + Width(k) <= |b|
    ensures ReadWord(St(b, p), k) == Done(Dec(k, b[p..p + Width(k)]), St(b, p + Width(k)))
    decreases k
  {
    if k > 0 {
      var n := Width(k - 1);
      ReadWordSucceeds(b, p, k - 1);
      ReadWordSucceeds(b, p + n, k - 1);
      ReadWordJoin(b, p, k);
    }
  }

  /** A read of level k > 0 decodes Width(k) bytes when its two halves decode theirs. */
  lemma ReadWordJoin(b: seq<u8>, p: nat, k: nat)
    requires k > 0 && p + Width(k) <= |b|
    requires var n := Width(k - 1);
      && ReadWord(St(b, p), k - 1) == Done(Dec(k - 1, b[p..p + n]), St(b, p + n))
      && ReadWord(St(b, p + n), k - 1) == Done(Dec(k - 1, b[p + n..p + n + n]), St(b, p + n + n))
    ensures ReadWord(St(b, p), k) == Done(Dec(k, b[p..p + Width(k)]), St(b, p + Width(k)))
  {
    var n := Width(k - 1);
    SliceHalves(b, p, k);
    DecSplit(k, b[p..p + n], b[p + n..p + n + n]);
    ReadJoin(St(b, p), St(b, p + n), St(b, p + n + n), k, Dec(k - 1, b[p..p + n]), Dec(k - 1, b[p + n..p + n + n]));
  }

  /** The bytes of a level-k value in a buffer are its two halves' bytes. */
  lemma SliceHalves(b: seq<u8>, p: nat, k: nat)
    requires k > 0 && p + Width(k) <= |b|
    ensures var n := Width(k - 1);
      Width(k) == n + n && b[p..p + Width(k)] == b[p..p + n] + b[p + n..p + n + n]
  {
  }

  /** A read of level k > 0 whose two halves succeed combines them, the first as the high half. */
  lemma ReadJoin(st: St, st1: St, st2: St, k: nat, hi: nat, lo: nat)
    requires k > 0 && ReadWord(st, k - 1) == Done(hi, st1) && ReadWord(st1, k - 1) == Done(lo, st2)
    ensures ReadWord(st, k) == Done(hi * Range(k - 1) + lo, st2)
  {
    ReadHalves(st, k);
  }

  /** Where fewer than Width(k) bytes remain, a read of level k fails at the end of the buffer. */
  lemma {:induction false} ReadWordFails(b: seq<u8>, p: nat, k: nat)
    requires p <= |b| < p + Width(k)
    ensures ReadWord(St(b, p), k) == Failed(EndOfBuffer, St(b, |b|))
    decreases k
  {
    if k > 0 {
      var n := Width(k - 1);
      ReadHalves(St(b, p), k);
      if p + n <= |b| {
        ReadWordSucceeds(b, p, k - 1);
        ReadWordFails(b, p + n, k - 1);
      } else {
        ReadWordFails(b, p, k - 1);
      }
    }
  }

  /** A read of level k decodes the next Width(k) bytes, or fails having consumed the rest. */
  lemma ReadWordEffect(b: seq<u8>, p: nat, k: nat)
    requires p <= |b|
    ensures ReadWord(St(b, p), k) ==
      if p + Width(k) <= |b| then Done(Dec(k, b[p..p + Width(k)]), St(b, p + Width(k)))
      else Failed(EndOfBuffer, St(b, |b|))
  {
    if p + Width(k) <= |b| {
      ReadWordSucceeds(b, p, k);
    } else {
      ReadWordFails(b, p, k);
    }
  }

  /** A read keeps the bytes and, when it succeeds, moves the cursor past the value. */
  lemma {:induction false} ReadWordMoves(st: St, k: nat)
    ensures var r := ReadWord(st, k); r.st.bytes == st.bytes && (r.Done? ==> r.st.pos == st.pos + Width(k))
    decreases k
  {
    if k > 0 {
      ReadWordMoves(st, k - 1);
      var hi := ReadWord(st, k - 1);
      if hi.Done? {
        ReadWordMoves(hi.st, k - 1);
      }
    }
  }

  // ---- writes: byte by byte, up to the end of the buffer ----

  /** Writing the first byte, then splicing the rest after it, splices the whole. */
  lemma SpliceStep(b: seq<u8>, p: nat, d: seq<u8>, m: nat)
    requires p < |b| && 0 < m <= |d| && p + m <= |b|
    ensures Splice(b[p := d[0]], p + 1, d[1..m]) == Splice(b, p, d[..m])
  {
    var l := b[p := d[0]];
    var x, y := Splice(l, p + 1, d[1..m]), Splice(b, p, d[..m]);
    assert |x| == |y|;
    forall i | 0 <= i < |x|
      ensures x[i] == y[i]
    {
    }
  }

  lemma {:induction false} WriteBytesEffect(b: seq<u8>, p: nat, d: seq<u8>)
    requires p <= |b|
    ensures WriteBytes(St(b, p), d) ==
      if p + |d| <= |b| then Done((), St(Splice(b, p, d), p + |d|))
      else Failed(EndOfBuffer, St(Splice(b, p, d[..|b| - p]), |b|))
    decreases |d|
  {
    if d == [] {
      assert Splice(b, p, d) == b;
    } else if p == |b| {
      assert Splice(b, p, d[..0]) == b;
    } else {
      WriteBytesEffect(b[p := d[0]], p + 1, d[1..]);
      if p + |d| <= |b| {
        SpliceStep(b, p, d, |d|);
        assert d[..|d|] == d && d[1..|d|] == d[1..];
      } else {
        SpliceStep(b, p, d, |b| - p);
        assert d[1..][..|b| - (p + 1)] == d[1..|b| - p];
      }
    }
  }

  /** Writing `a + c` is writing `a`, then, if that succeeded, writing `c`. */
  lemma {:induction false} WriteBytesAppend(st: St, a: seq<u8>, c: seq<u8>)
    ensures WriteBytes(st, a + c) ==
      match WriteBytes(st, a)
      case Failed(e, s) => Failed(e, s)
      case Done(_, s) => WriteBytes(s, c)
    decreases |a|
  {
    if a == [] {
      assert a + c == c;
    } else {
      assert (a + c)[0] == a[0] && (a + c)[1..] == a[1..] + c;
      var w := Write(st, a[0]);
      if w.Done? {
        WriteBytesAppend(w.st, a[1..], c);
      }
    }
  }

  /** A write of level k writes the big-endian layout of the value, byte by byte. */
  lemma {:induction false} WriteWordBytes(st: St, k: nat, v: nat)
    requires v < Range(k)
    ensures WriteWord(st, k, v) == WriteBytes(st, Be(k, v))
    decreases k
  {
    if k == 0 {
      assert WriteBytes(st, [v]) == Write(st, v) by {
        assert [v][1..] == [];
      }
    } else {
      var r := Range(k - 1);
      Halves(v, r);
      WriteBytesAppend(st, Be(k - 1, v / r), Be(k - 1, v % r));
      WriteWordBytes(st, k - 1, v / r);
      var hi := WriteWord(st, k - 1, v / r);
      if hi.Done? {
        WriteWordBytes(hi.st, k - 1, v % r);
      }
    }
  }

  /** Writing a value and then more bytes, as one write of their concatenation. */
  lemma WriteWordThen(st: St, k: nat, v: nat, rest: seq<u8>)
    requires v < Range(k)
    ensures var w := WriteWord(st, k, v);
      WriteBytes(st, Be(k, v) + rest) == if w.Failed? then w else WriteBytes(w.st, rest)
  {
    WriteBytesAppend(st, Be(k, v), rest);
    WriteWordBytes(st, k, v);
  }

  // ---- layouts ----

  lemma SpliceAt(b: seq<u8>, p: nat, d: seq<u8>)
    requires p + |d| <= |b|
    ensures At(Splice(b, p, d), p, d)
  {
    var r := Splice(b, p, d);
    assert r[p..p + |d|] == d;
  }

  /** A layout made of two parts holds each part at its place. */
  lemma AtAppend(b: seq<u8>, p: nat, d1: seq<u8>, d2: seq<u8>)
    requires At(b, p, d1 + d2)
    ensures At(b, p, d1) && At(b, p + |d1|, d2)
  {
    assert b[p..p + |d1|] == (d1 + d2)[..|d1|];
    assert b[p + |d1|..p + |d1| + |d2|] == (d1 + d2)[|d1|..];
  }

  /** The first byte of a layout. */
  lemma AtHead(b: seq<u8>, p: nat, d: seq<u8>)
    requires At(b, p, d) && d != []
    ensures p < |b| && b[p] == d[0]
  {
    assert b[p..p + |d|][0] == d[0];
  }

  /** A value laid out at p, followed by more bytes, is read back, leaving the cursor on the rest. */
  lemma ReadWordAt(b: seq<u8>, p: nat, q: nat, k: nat, v: nat, rest: seq<u8>)
    requires q == p + Width(k) && v < Range(k) && At(b, p, Be(k, v) + rest)
    ensures ReadWord(St(b, p), k) == Done(v, St(b, q)) && At(b, q, rest)
  {
    var d := Be(k, v);
    assert b[p..q] == d && At(b, q, rest) by {
      AtAppend(b, p, d, rest);
    }
    assert ReadWord(St(b, p), k) == Done(Dec(k, b[p..q]), St(b, q)) by {
      ReadWordSucceeds(b, p, k);
    }
    assert Dec(k, d) == v by {
      DecBe(k, v);
    }
  }

  /** A layout at p, followed by whatever the buffer holds after it. */
  lemma AtRest(b: seq<u8>, p: nat, d: seq<u8>)
    requires At(b, p, d)
    ensures At(b, p, d + b[p + |d|..])
  {
    assert b[p..] == b[p..p + |d|] + b[p + |d|..];
  }

  /** `read_u16` of a laid-out value. */
  lemma U16At(b: seq<u8>, p: nat, q: nat, v: nat, rest: seq<u8>)
    requires q == p + 2 && v < 0x1_0000 && At(b, p, Be(1, v) + rest)
    ensures ReadWord(St(b, p), 1) == Done(v, St(b, q)) && At(b, q, rest)
  {
    Ranges();
    ReadWordAt(b, p, q, 1, v, rest);
  }

  /** `read_u32` of a laid-out value. */
  lemma U32At(b: seq<u8>, p: nat, q: nat, v: nat, rest: seq<u8>)
    requires q == p + 4 && v < 0x1_0000_0000 && At(b, p, Be(2, v) + rest)
    ensures ReadWord(St(b, p), 2) == Done(v, St(b, q)) && At(b, q, rest)
  {
    Ranges();
    ReadWordAt(b, p, q, 2, v, rest);
  }

  /** `read_u128` of a laid-out value. */
  lemma U128At(b: seq<u8>, p: nat, q: nat, v: nat, rest: seq<u8>)
    requires q == p + 16 && v < 0x1_0000_0000_0000_0000_0000_0000_0000_0000 && At(b, p, Be(4, v) + rest)
    ensures ReadWord(St(b, p), 4) == Done(v, St(b, q)) && At(b, q, rest)
  {
    Ranges();
    ReadWordAt(b, p, q, 4, v, rest);
  }

  /** `read_bytes` of a layout's length returns the layout and moves past it. */
  lemma ReadBytesAt(b: seq<u8>, p: nat, q: nat, d: seq<u8>, rest: seq<u8>)
    requires q == p + |d| && At(b, p, d + rest)
    ensures ReadBytes(St(b, p), |d|) == Done(d, St(b, q)) && At(b, q, rest)
  {
    AtAppend(b, p, d, rest);
  }

  // ---- write-then-read round trip of the fixed-width values ----

  /** Where Width(k) bytes fit, a value written at p is read back from p, with the cursor after it. */
  lemma WordRoundTrip(b: seq<u8>, p: nat, k: nat, v: nat)
    requires p + Width(k) <= |b| && v < Range(k)
    ensures var w := WriteWord(St(b, p), k, v);
      w.Done? && w.st.pos == p + Width(k) && ReadWord(St(w.st.bytes, p), k) == Done(v, w.st)
  {
    WriteWordBytes(St(b, p), k, v);
    WriteBytesEffect(b, p, Be(k, v));
    SpliceAt(b, p, Be(k, v));
    ReadWordEffect(Splice(b, p, Be(k, v)), p, k);
    DecBe(k, v);
  }
}
