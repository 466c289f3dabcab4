// Fixed-width unsigned integers and their big-endian (network order) byte
// layouts, shared by the DNS and the ICMP buffers.
//
// Both buffers build every wide integer out of two halves of the next
// narrower width, high half first: `read_u32` is two `read_u16`s, `write_u64`
// two `write_u32`s, and so on down to single bytes. The layouts here follow
// that shape with a level `k`: a value of level k spans `Width(k)` = 2^k bytes
// (level 0 is a byte, 1 a u16, 2 a u32, 3 a u64, 4 a u128) and is below
// `Range(k)`.

module Bytes {

  type u8 = x: int | 0 <= x < 0x100
  type u16 = x: int | 0 <= x < 0x1_0000
  type u32 = x: int | 0 <= x < 0x1_0000_0000
  type u64 = x: int | 0 <= x < 0x1_0000_0000_0000_0000
  type u128 = x: int | 0 <= x < 0x1_0000_0000_0000_0000_0000_0000_0000_0000

  /** Number of bytes of a value of level k. */
  function Width(k: nat): (n: nat)
    ensures n >= 1
  {
    if k == 0 then 1 else 2 * Width(k - 1)
  }

  /** Number of values of level k: 2 to the power 8 * Width(k). */
  function Range(k: nat): (n: nat)
    ensures n >= 0x100
  {
    if k == 0 then 0x100 else Range(k - 1) * Range(k - 1)
  }

  /** The bounds of u16, u32, u64 and u128 are the ranges of levels 1 to 4. */
  lemma Ranges()
    ensures Range(1) == 0x1_0000 && Range(2) == 0x1_0000_0000
    ensures Range(3) == 0x1_0000_0000_0000_0000
    ensures Range(4) == 0x1_0000_0000_0000_0000_0000_0000_0000_0000
  {
  }

  /** A high half and a low half below `r` make a value below `r * r`. */
  lemma Combine(hi: nat, lo: nat, r: nat)
    requires hi < r && lo < r
    ensures 0 <= hi * r + lo < r * r
  {
    assert hi * r <= (r - 1) * r;
  }

  /** Splitting a value below `r * r` into its quotient and remainder by `r`. */
  lemma Halves(v: nat, r: nat)
    requires 0 < r && v < r * r
    ensures v / r < r && v == (v / r) * r + v % r
  {
  }

  /** A positive multiple of `r` is at least `r`. */
  lemma AtLeastOnce(a: int, r: nat)
    requires a >= 1
    ensures a * r >= r
  {
    assert a * r == (a - 1) * r + r;
  }

  /** A high half and a low half are recovered by division and remainder. */
  lemma Unhalves(hi: nat, lo: nat, r: nat)
    requires lo < r
    ensures (hi * r + lo) / r == hi && (hi * r + lo) % r == lo
  {
    var v := hi * r + lo;
    var q, m := v / r, v % r;
    assert v == q * r + m;
    assert (q - hi) * r == q * r - hi * r;
    if q > hi {
      AtLeastOnce(q - hi, r);
    } else if q < hi {
      AtLeastOnce(hi - q, r);
    }
  }

  /** The bytes written for a value of level k: its high half, then its low half. */
  function Be(k: nat, v: nat): (s: seq<u8>)
    requires v < Range(k)
    ensures |s| == Width(k)
    decreases k
  {
    if k == 0 then [v]
    else
      Halves(v, Range(k - 1));
      Be(k - 1, v / Range(k - 1)) + Be(k - 1, v % Range(k - 1))
  }

  /** The value read from Width(k) bytes: the first half is the high half. */
  function Dec(k: nat, s: seq<u8>): (v: nat)
    requires |s| == Width(k)
    ensures v < Range(k)
    decreases k
  {
    if k == 0 then s[0]
    else
      var hi := Dec(k - 1, s[..Width(k - 1)]);
      var lo := Dec(k - 1, s[Width(k - 1)..]);
      Combine(hi, lo, Range(k - 1));
      hi * Range(k - 1) + lo
  }

  /** Decoding two halves: the first is the high half. */
  lemma DecSplit(k: nat, s1: seq<u8>, s2: seq<u8>)
    requires k > 0 && |s1| == Width(k - 1) && |s2| == Width(k - 1)
    ensures Dec(k, s1 + s2) == Dec(k - 1, s1) * Range(k - 1) + Dec(k - 1, s2)
  {
    var s := s1 + s2;
    assert s[..Width(k - 1)] == s1 && s[Width(k - 1)..] == s2;
  }

  /** The halves of a value of level k > 0 and the layout they make. */
  lemma SplitHalves(k: nat, v: nat) returns (hi: nat, lo: nat)
    requires k > 0 && v < Range(k)
    ensures hi < Range(k - 1) && lo < Range(k - 1)
    ensures Be(k, v) == Be(k - 1, hi) + Be(k - 1, lo)
    ensures v == hi * Range(k - 1) + lo
  {
    Halves(v, Range(k - 1));
    hi, lo := v / Range(k - 1), v % Range(k - 1);
  }

  /** Decoding undoes encoding. */
  lemma {:induction false} DecBe(k: nat, v: nat)
    requires v < Range(k)
    ensures Dec(k, Be(k, v)) == v
    decreases k
  {
    if k > 0 {
      var hi, lo := SplitHalves(k, v);
      DecBe(k - 1, hi);
      DecBe(k - 1, lo);
      DecSplit(k, Be(k - 1, hi), Be(k - 1, lo));
    }
  }

  /** Encoding a value given by its halves lays out the two halves. */
  lemma BeJoin(k: nat, hi: nat, lo: nat)
    requires k > 0 && hi < Range(k - 1) && lo < Range(k - 1)
    ensures hi * Range(k - 1) + lo < Range(k)
    ensures Be(k, hi * Range(k - 1) + lo) == Be(k - 1, hi) + Be(k - 1, lo)
  {
    Combine(hi, lo, Range(k - 1));
    Unhalves(hi, lo, Range(k - 1));
  }

  /** Encoding undoes decoding: every byte pattern is the layout of one value. */
  lemma {:induction false} BeDec(k: nat, s: seq<u8>)
    requires |s| == Width(k)
    ensures Be(k, Dec(k, s)) == s
    decreases k
  {
    if k > 0 {
      var s1, s2 := s[..Width(k - 1)], s[Width(k - 1)..];
      assert s == s1 + s2;
      BeJoin(k, Dec(k - 1, s1), Dec(k - 1, s2));
      BeDec(k - 1, s1);
      BeDec(k - 1, s2);
    }
  }
}
