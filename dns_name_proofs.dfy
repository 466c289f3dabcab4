// Domain names on the wire: `write_query_name` emits the uncompressed form,
// `read_query_name` reads it back, follows compression pointers (section
// 4.1.4 of RFC 1035) and gives up after five of them.

module DnsNameProofs {
  import opened Bytes
  import Utf8
  import opened DnsWire
  import opened DnsWireProofs

  /** A leading dot adds an empty first label. */
  lemma JoinDot(rest: seq<seq<u8>>)
    requires rest != []
    ensures Join([[]] + rest) == [Dot] + Join(rest)
  {
    assert ([[]] + rest)[1..] == rest;
  }

  /** Any other leading byte goes to the front of the first label. */
  lemma JoinGlue(x: u8, rest: seq<seq<u8>>)
    requires rest != []
    ensures Join([[x] + rest[0]] + rest[1..]) == [x] + Join(rest)
  {
    var ls := [[x] + rest[0]] + rest[1..];
    if |rest| == 1 {
      assert ls == [[x] + rest[0]];
    } else {
      assert ls[1..] == rest[1..];
      assert Join(rest) == rest[0] + [Dot] + Join(rest[1..]);
    }
  }

  /** Joining the labels of a name with '.' gives the name back. */
  lemma {:induction false} JoinSplit(name: seq<u8>)
    ensures Join(Split(name)) == name
  {
    if name != [] {
      var rest := Split(name[1..]);
      JoinSplit(name[1..]);
      if name[0] == Dot {
        JoinDot(rest);
      } else {
        JoinGlue(name[0], rest);
      }
      assert name == [name[0]] + name[1..];
    }
  }

  // ---- writing ----

  /** With every label at most 63 bytes long, the label loop writes their wire form byte by byte. */
  lemma {:induction false} WriteLabelsBytes(st: St, labels: seq<seq<u8>>, start: nat)
    requires LabelsFit(labels)
    ensures WriteLabels(st, labels, start) == WriteBytes(st, EncLabels(labels))
    decreases |labels|
  {
    if labels != [] {
      var l := labels[0];
      var d := EncLabels(labels);
      assert d[0] == |l| && d[1..] == l + EncLabels(labels[1..]);
      var w := Write(st, |l|);
      if w.Done? {
        WriteBytesAppend(w.st, l, EncLabels(labels[1..]));
        var w' := WriteBytes(w.st, l);
        if w'.Done? {
          WriteLabelsBytes(w'.st, labels[1..], start);
        }
      }
    }
  }

  /** A name whose labels fit is written as its wire form, byte by byte, up to the end of the buffer. */
  lemma WriteQueryNameBytes(st: St, name: seq<u8>)
    requires LabelsFit(Split(name))
    ensures WriteQueryName(st, name) == WriteBytes(st, EncName(name))
  {
    var ls := Split(name);
    WriteLabelsBytes(st, ls, st.pos);
    WriteBytesAppend(st, EncLabels(ls), [0]);
    var w := WriteBytes(st, EncLabels(ls));
    if w.Done? {
      assert WriteBytes(w.st, [0]) == Write(w.st, 0);
    }
  }

  /** Labels that fit are written as their wire form before the loop goes on with the rest. */
  lemma {:induction false} WriteLabelsPrefix(st: St, pre: seq<seq<u8>>, rest: seq<seq<u8>>, start: nat)
    requires LabelsFit(pre)
    ensures WriteLabels(st, pre + rest, start) ==
      match WriteBytes(st, EncLabels(pre))
      case Failed(e, s) => Failed(e, s)
      case Done(_, s) => WriteLabels(s, rest, start)
    decreases |pre|
  {
    if pre == [] {
      assert pre + rest == rest;
    } else {
      var l := pre[0];
      var ls := pre + rest;
      assert ls[0] == l && ls[1..] == pre[1..] + rest;
      var d := EncLabels(pre);
      assert d[0] == |l| && d[1..] == l + EncLabels(pre[1..]);
      var w := Write(st, |l|);
      if w.Done? {
        WriteBytesAppend(w.st, l, EncLabels(pre[1..]));
        var w' := WriteBytes(w.st, l);
        if w'.Done? {
          WriteLabelsPrefix(w'.st, pre[1..], rest, start);
        }
      }
    }
  }

  /**
   * `write_query_name` on a name whose label k is longer than 63 bytes, when
   * the labels before it fit in the buffer: InvalidLabelLength, the cursor
   * back where it was, the bytes of the earlier labels left in the buffer.
   */
  lemma LabelTooLong(b: seq<u8>, p: nat, name: seq<u8>, k: nat)
    requires p <= |b|
    requires k < |Split(name)| && |Split(name)[k]| > MaxLabel
    requires LabelsFit(Split(name)[..k]) && p + |EncLabels(Split(name)[..k])| <= |b|
    ensures WriteQueryName(St(b, p), name) ==
      Failed(InvalidLabelLength, St(Splice(b, p, EncLabels(Split(name)[..k])), p))
  {
    var ls := Split(name);
    assert ls == ls[..k] + ls[k..];
    WriteLabelsPrefix(St(b, p), ls[..k], ls[k..], p);
    WriteLabelsBytes(St(b, p), ls[..k], p);
    WriteBytesEffect(b, p, EncLabels(ls[..k]));
    assert ls[k..][0] == ls[k];
  }

  lemma {:induction false} WriteLabelsOutcome(st: St, labels: seq<seq<u8>>, start: nat)
    ensures var w := WriteLabels(st, labels, start);
      (w.Done? ==> LabelsFit(labels)) &&
      (w.Failed? ==> w.error == EndOfBuffer || (w.error == InvalidLabelLength && w.st.pos == start && !LabelsFit(labels)))
    decreases |labels|
  {
    if labels != [] && |labels[0]| <= MaxLabel {
      var w := Write(st, |labels[0]|);
      if w.Done? {
        var w' := WriteBytes(w.st, labels[0]);
        if w'.Done? {
          WriteLabelsOutcome(w'.st, labels[1..], start);
          var r := WriteLabels(w'.st, labels[1..], start);
          if r.Done? {
            assert LabelsFit(labels) by {
              forall i | 0 <= i < |labels| ensures |labels[i]| <= MaxLabel {
                if i > 0 { assert labels[i] == labels[1..][i - 1]; }
              }
            }
          } else if r.error == InvalidLabelLength {
            assert !LabelsFit(labels) by {
              var i :| 0 <= i < |labels[1..]| && |labels[1..][i]| > MaxLabel;
              assert labels[i + 1] == labels[1..][i];
            }
          }
        } else {
          WriteBytesEffect(w.st.bytes, w.st.pos, labels[0]);
        }
      }
    }
  }

  /**
   * The only errors of `write_query_name` are EndOfBuffer and
   * InvalidLabelLength; the second comes only from a label over 63 bytes and
   * always leaves the cursor where it was on entry.
   */
  lemma WriteQueryNameOutcome(st: St, name: seq<u8>)
    ensures var w := WriteQueryName(st, name);
      (w.Done? ==> LabelsFit(Split(name))) &&
      (w.Failed? ==> w.error == EndOfBuffer || (w.error == InvalidLabelLength && w.st.pos == st.pos && !LabelsFit(Split(name))))
  {
    WriteLabelsOutcome(st, Split(name), st.pos);
  }

  // ---- reading ----

  predicate GoodLabels(labels: seq<seq<u8>>)
  {
    forall i :: 0 <= i < |labels| ==> 0 < |labels[i]| <= MaxLabel && Utf8.IsValid(labels[i])
  }

  /** One label step of the decoding loop: label `l` is at `pos`. */
  lemma NameFromLabelStep(b: seq<u8>, cursor: nat, pos: nat, jumped: bool, jumps: nat, acc: seq<seq<u8>>, l: seq<u8>)
    requires jumps <= MaxJumps && pos + 1 + |l| <= |b| && b[pos] == |l| && 0 < |l| < 0xC0
    requires b[pos + 1..pos + 1 + |l|] == l && Utf8.IsValid(l)
    ensures NameFrom(b, cursor, pos, jumped, jumps, acc) == NameFrom(b, cursor, pos + 1 + |l|, jumped, jumps, acc + [l])
  {
  }

  /** One pointer step of the decoding loop, when both pointer bytes are there. */
  lemma NameFromPointerStep(b: seq<u8>, cursor: nat, pos: nat, jumped: bool, jumps: nat, acc: seq<seq<u8>>, target: nat)
    requires jumps <= MaxJumps && IsPointer(b, pos, target) && (jumped || pos + 2 < |b|)
    ensures NameFrom(b, cursor, pos, jumped, jumps, acc) ==
      NameFrom(b, if jumped then cursor else pos + 2, target, true, jumps + 1, acc)
  {
  }

  /** The terminating zero byte of the decoding loop. */
  lemma NameFromEnd(b: seq<u8>, cursor: nat, pos: nat, jumped: bool, jumps: nat, acc: seq<seq<u8>>)
    requires jumps <= MaxJumps && pos < |b| && b[pos] == 0
    requires !jumped ==> pos + 1 < |b|
    ensures NameFrom(b, cursor, pos, jumped, jumps, acc) ==
      Done(Join(acc), St(b, if jumped then cursor else pos + 1))
  {
  }

  /** A length byte, a label and what follows, each at its place. */
  lemma AtLabel(b: seq<u8>, p: nat, x: u8, l: seq<u8>, r: seq<u8>)
    requires At(b, p, [x] + (l + r))
    ensures p + 1 + |l| <= |b| && b[p] == x && b[p + 1..p + 1 + |l|] == l && At(b, p + 1 + |l|, r)
  {
    AtAppend(b, p, [x], l + r);
    assert b[p] == b[p..p + 1][0];
    AtAppend(b, p + 1, l, r);
  }

  lemma AtByte(b: seq<u8>, p: nat, x: u8)
    requires At(b, p, [x])
    ensures p < |b| && b[p] == x
  {
    assert b[p] == b[p..p + 1][0];
  }

  lemma AppendNil<T>(s: seq<T>)
    ensures s + [] == s
  {
  }

  lemma AppendFirst<T>(s: seq<T>, t: seq<T>)
    requires t != []
    ensures s + [t[0]] + t[1..] == s + t
  {
  }

  lemma Regroup(x: u8, l: seq<u8>, e: seq<u8>)
    ensures ([x] + (l + e)) + [0] == [x] + (l + (e + [0]))
  {
  }

  /** What the wire form of a non-empty label list puts at its first bytes. */
  lemma FirstLabelAt(b: seq<u8>, pos: nat, labels: seq<seq<u8>>)
    requires labels != [] && |labels[0]| < 0x100
    requires At(b, pos, EncLabels(labels) + [0])
    ensures var l := labels[0];
      && pos + 1 + |l| <= |b| && b[pos] == |l| && b[pos + 1..pos + 1 + |l|] == l
      && At(b, pos + 1 + |l|, EncLabels(labels[1..]) + [0])
      && |EncLabels(labels)| == 1 + |l| + |EncLabels(labels[1..])|
  {
    var l := labels[0];
    var x: u8 := |l|;
    var e := EncLabels(labels[1..]);
    assert EncLabels(labels) + [0] == [x] + (l + (e + [0])) && |EncLabels(labels)| == 1 + |l| + |e| by {
      assert EncLabels(labels) == [x] + (l + e);
      Regroup(x, l, e);
    }
    AtLabel(b, pos, x, l, e + [0]);
  }

  lemma GoodLabelsTail(labels: seq<seq<u8>>)
    requires labels != [] && GoodLabels(labels)
    ensures GoodLabels(labels[1..])
  {
    forall i | 0 <= i < |labels[1..]| ensures 0 < |labels[1..][i]| <= MaxLabel && Utf8.IsValid(labels[1..][i]) {
      assert labels[1..][i] == labels[i + 1];
    }
  }

  /** The labels, each after its length byte, then the zero byte, from `pos` on. */
  predicate LabelsAt(b: seq<u8>, pos: nat, labels: seq<seq<u8>>)
    decreases |labels|
  {
    if labels == [] then pos < |b| && b[pos] == 0
    else
      var l := labels[0];
      && pos + 1 + |l| <= |b| && b[pos] == |l| && b[pos + 1..pos + 1 + |l|] == l
      && LabelsAt(b, pos + 1 + |l|, labels[1..])
  }

  /** The wire form of labels of fewer than 256 bytes each lays them out one by one. */
  lemma {:induction false} LabelsAtOfAt(b: seq<u8>, pos: nat, labels: seq<seq<u8>>)
    requires GoodLabels(labels) && At(b, pos, EncLabels(labels) + [0])
    ensures LabelsAt(b, pos, labels)
    decreases |labels|
  {
    if labels == [] {
      assert EncLabels(labels) + [0] == [0];
      AtByte(b, pos, 0);
    } else {
      FirstLabelAt(b, pos, labels);
      GoodLabelsTail(labels);
      LabelsAtOfAt(b, pos + 1 + |labels[0]|, labels[1..]);
    }
  }

  /** Well-formed labels laid out from `pos` are decoded one by one, up to the zero byte. */
  lemma {:induction false} NameFromLabels(b: seq<u8>, cursor: nat, pos: nat, jumped: bool, jumps: nat, acc: seq<seq<u8>>, labels: seq<seq<u8>>)
    requires jumps <= MaxJumps && GoodLabels(labels) && LabelsAt(b, pos, labels)
    requires !jumped ==> pos + |EncLabels(labels)| + 1 < |b|
    ensures NameFrom(b, cursor, pos, jumped, jumps, acc) ==
      Done(Join(acc + labels), St(b, if jumped then cursor else pos + |EncLabels(labels)| + 1))
    decreases |labels|
  {
    if labels == [] {
      AppendNil(acc);
      NameFromEnd(b, cursor, pos, jumped, jumps, acc);
    } else {
      var l := labels[0];
      assert |EncLabels(labels)| == 1 + |l| + |EncLabels(labels[1..])|;
      GoodLabelsTail(labels);
      NameFromLabelStep(b, cursor, pos, jumped, jumps, acc, l);
      NameFromLabels(b, cursor, pos + 1 + |l|, jumped, jumps, acc + [l], labels[1..]);
      AppendFirst(acc, labels);
    }
  }

  /** A well-formed name's wire form, followed by at least one more byte, reads back as the name. */
  lemma ReadNameAt(b: seq<u8>, p: nat, name: seq<u8>)
    requires WellFormedName(name)
    requires At(b, p, EncName(name)) && p + |EncName(name)| < |b|
    ensures ReadQueryName(St(b, p)) == Done(name, St(b, p + |EncName(name)|))
  {
    LabelsAtOfAt(b, p, Split(name));
    NameFromLabels(b, p, p, false, 0, [], Split(name));
    assert [] + Split(name) == Split(name);
    JoinSplit(name);
  }

  /** A well-formed name's wire form followed by more bytes reads back as the name, leaving the cursor on the rest. */
  lemma ReadNameThen(b: seq<u8>, p: nat, q: nat, name: seq<u8>, rest: seq<u8>)
    requires q == p + |EncName(name)|
    requires WellFormedName(name) && rest != [] && At(b, p, EncName(name) + rest)
    ensures ReadQueryName(St(b, p)) == Done(name, St(b, q)) && At(b, q, rest)
  {
    AtAppend(b, p, EncName(name), rest);
    ReadNameAt(b, p, name);
  }

  /** Writing a name whose labels fit and then more bytes, as one write of their concatenation. */
  lemma WriteNameThen(st: St, name: seq<u8>, rest: seq<u8>)
    requires LabelsFit(Split(name))
    ensures var w := WriteQueryName(st, name);
      WriteBytes(st, EncName(name) + rest) == if w.Failed? then w else WriteBytes(w.st, rest)
  {
    WriteBytesAppend(st, EncName(name), rest);
    WriteQueryNameBytes(st, name);
  }

  lemma WellFormedLabelsFit(name: seq<u8>)
    requires WellFormedName(name)
    ensures LabelsFit(Split(name))
  {
  }

  /**
   * Name round trip: a well-formed name written at p reads back from p, and
   * the read leaves the cursor where the write did.  The encoding must end
   * before the last byte of the buffer, for the final `seek` of
   * `read_query_name` to succeed.
   */
  lemma NameRoundTrip(b: seq<u8>, p: nat, name: seq<u8>)
    requires WellFormedName(name) && p + |EncName(name)| < |b|
    ensures var w := WriteQueryName(St(b, p), name);
      w.Done? && w.st.pos == p + |EncName(name)| && ReadQueryName(St(w.st.bytes, p)) == Done(name, w.st)
  {
    WriteQueryNameBytes(St(b, p), name);
    WriteBytesEffect(b, p, EncName(name));
    SpliceAt(b, p, EncName(name));
    ReadNameAt(Splice(b, p, EncName(name)), p, name);
  }

  // ---- compression pointers ----

  /** The two bytes at `at` are a pointer to offset `target`: 0b11 in the top bits, then the 14-bit offset. */
  predicate IsPointer(b: seq<u8>, at: nat, target: nat)
  {
    at + 1 < |b| && b[at] >= 0xC0 && (b[at] as int - 0xC0) * 0x100 + b[at + 1] as int == target
  }

  /** Once jumped, a chain of pointers costs one jump each and moves nothing but the decoding position. */
  lemma {:induction false} FollowChain(b: seq<u8>, cursor: nat, ps: seq<nat>, k: nat, jumps: nat, acc: seq<seq<u8>>)
    requires k < |ps| && jumps + |ps| - k <= MaxJumps + 2
    requires forall i :: k <= i < |ps| - 1 ==> IsPointer(b, ps[i], ps[i + 1])
    ensures NameFrom(b, cursor, ps[k], true, jumps, acc) == NameFrom(b, cursor, ps[|ps| - 1], true, jumps + |ps| - 1 - k, acc)
    decreases |ps| - k
  {
    if k < |ps| - 1 {
      var t := ps[k + 1];
      assert NameFrom(b, cursor, ps[k], true, jumps, acc) == NameFrom(b, cursor, t, true, jumps + 1, acc) by {
        assert IsPointer(b, ps[k], t);
        NameFromPointerStep(b, cursor, ps[k], true, jumps, acc, t);
      }
      assert NameFrom(b, cursor, t, true, jumps + 1, acc) ==
          NameFrom(b, cursor, ps[|ps| - 1], true, jumps + |ps| - 1 - k, acc) by {
        FollowChain(b, cursor, ps, k + 1, jumps + 1, acc);
      }
    }
  }

  /** Once a pointer was followed, a well-formed name's wire form decodes as the name; the cursor stays put. */
  lemma NameAfterJumps(b: seq<u8>, cursor: nat, target: nat, jumps: nat, name: seq<u8>)
    requires jumps <= MaxJumps && WellFormedName(name) && At(b, target, EncName(name))
    ensures NameFrom(b, cursor, target, true, jumps, []) == Done(name, St(b, cursor))
  {
    LabelsAtOfAt(b, target, Split(name));
    NameFromLabels(b, cursor, target, true, jumps, [], Split(name));
    assert [] + Split(name) == Split(name);
    JoinSplit(name);
  }

  /** A pointer to a name decodes as that name, and the cursor ends just past the pointer. */
  lemma PointerToName(b: seq<u8>, q: nat, target: nat, name: seq<u8>)
    requires IsPointer(b, q, target) && q + 2 < |b|
    requires WellFormedName(name) && At(b, target, EncName(name))
    ensures ReadQueryName(St(b, q)) == Done(name, St(b, q + 2))
  {
    NameFromPointerStep(b, q, q, false, 0, [], target);
    NameAfterJumps(b, q + 2, target, 1, name);
  }

  /** Five chained pointers are followed: the name at the end of the chain is read. */
  lemma FiveJumpsSucceed(b: seq<u8>, ps: seq<nat>, name: seq<u8>)
    requires |ps| == 6 && ps[0] + 2 < |b|
    requires forall i :: 0 <= i < 5 ==> IsPointer(b, ps[i], ps[i + 1])
    requires WellFormedName(name) && At(b, ps[5], EncName(name))
    ensures ReadQueryName(St(b, ps[0])) == Done(name, St(b, ps[0] + 2))
  {
    var c := ps[0] + 2;
    assert ReadQueryName(St(b, ps[0])) == NameFrom(b, c, ps[1], true, 1, []) by {
      NameFromPointerStep(b, ps[0], ps[0], false, 0, [], ps[1]);
    }
    assert NameFrom(b, c, ps[1], true, 1, []) == NameFrom(b, c, ps[5], true, 5, []) by {
      FollowChain(b, c, ps, 1, 1, []);
    }
    NameAfterJumps(b, c, ps[5], 5, name);
  }

  /** A sixth pointer in a row ends the decoding with JumpLimitExceeded. */
  lemma SixJumpsFail(b: seq<u8>, ps: seq<nat>)
    requires |ps| == 7 && ps[0] + 2 < |b|
    requires forall i :: 0 <= i < 6 ==> IsPointer(b, ps[i], ps[i + 1])
    ensures ReadQueryName(St(b, ps[0])) == Failed(JumpLimitExceeded, St(b, ps[0] + 2))
  {
    FollowChain(b, ps[0] + 2, ps, 1, 1, []);
    NameFromPointerStep(b, ps[0], ps[0], false, 0, [], ps[1]);
  }

  /** A pointer to itself does not loop: the decoder gives up. */
  lemma SelfPointerFails(b: seq<u8>, q: nat)
    requires IsPointer(b, q, q) && q + 2 < |b|
    ensures ReadQueryName(St(b, q)) == Failed(JumpLimitExceeded, St(b, q + 2))
  {
    SixJumpsFail(b, [q, q, q, q, q, q, q]);
  }
  // ---- what `read_query_name` makes of bytes that are not a name's wire form ----

  /** One more label never makes the joined name shorter. */
  lemma {:induction false} JoinLonger(labels: seq<seq<u8>>, l: seq<u8>)
    ensures |Join(labels + [l])| >= |Join(labels)|
    decreases |labels|
  {
    if |labels| == 1 {
      assert (labels + [l])[1..] == [l];
    } else if |labels| > 1 {
      assert (labels + [l])[1..] == labels[1..] + [l];
      JoinLonger(labels[1..], l);
    }
  }

  /** The name the decoding loop ends with is at least as long as the labels it has already joined. */
  lemma {:induction false} NameFromLonger(b: seq<u8>, cursor: nat, pos: nat, jumped: bool, jumps: nat, labels: seq<seq<u8>>)
    ensures var r := NameFrom(b, cursor, pos, jumped, jumps, labels);
      r.Done? ==> |r.value| >= |Join(labels)|
    decreases JumpsLeft(jumps), BytesLeft(b, pos)
  {
    match NameIteration(b, cursor, pos, jumped, jumps, labels)
    case Fail(_, _) =>
    case Break(_) =>
    case Next(cursor', pos', jumped', jumps', labels') =>
      NameFromLonger(b, cursor', pos', jumped', jumps', labels');
      if b[pos] < 0xC0 {
        JoinLonger(labels, b[pos + 1..pos + 1 + b[pos]]);
      }
  }

  /**
   * Bytes starting with a label length n below 0xC0 decode, if at all, as a
   * name of at least n bytes: the first label alone has n.
   */
  lemma FirstLabelLength(b: seq<u8>, p: nat)
    requires p < |b| && 0 < b[p] < 0xC0
    ensures var r := ReadQueryName(St(b, p)); r.Done? ==> |r.value| >= b[p] as nat
  {
    var n := b[p] as nat;
    if p + 1 + n <= |b| {
      var text := b[p + 1..p + 1 + n];
      assert [] + [text] == [text];
      NameFromLonger(b, p, p + 1 + n, false, 0, [text]);
    }
  }
}
