// UTF-8 well-formedness (Table 3-7 of the Unicode Standard) and the lossy
// conversion that replaces each maximal ill-formed subpart by U+FFFD.  The
// DNS name decoder rejects labels that are not well formed; the TXT decoder
// converts its bytes lossily.

module Utf8 {
  import opened Bytes

  /** The UTF-8 bytes of U+FFFD REPLACEMENT CHARACTER. */
  const Replacement: seq<u8> := [0xEF, 0xBF, 0xBD]

  /** Length of the sequence a lead byte announces, or 0 for a byte that cannot start one. */
  function Width(lead: u8): nat
  {
    if lead < 0x80 then 1
    else if 0xC2 <= lead <= 0xDF then 2
    else if 0xE0 <= lead <= 0xEF then 3
    else if 0xF0 <= lead <= 0xF4 then 4
    else 0
  }

  /** Bounds of the second byte after a lead byte (they exclude overlongs and surrogates). */
  function SecondLo(lead: u8): u8
  {
    if lead == 0xE0 then 0xA0 else if lead == 0xF0 then 0x90 else 0x80
  }

  function SecondHi(lead: u8): u8
  {
    if lead == 0xED then 0x9F else if lead == 0xF4 then 0x8F else 0xBF
  }

  predicate IsContinuation(b: u8)
  {
    0x80 <= b <= 0xBF
  }

  /** How many bytes from `i` on form a prefix of some well-formed sequence. */
  function Matched(s: seq<u8>, i: nat): (k: nat)
    requires i < |s|
    ensures k <= Width(s[i]) && i + k <= |s|
    ensures Width(s[i]) > 0 ==> k >= 1
  {
    var w := Width(s[i]);
    if w == 0 then 0
    else if w == 1 || i + 1 >= |s| || !(SecondLo(s[i]) <= s[i + 1] <= SecondHi(s[i])) then 1
    else if w == 2 || i + 2 >= |s| || !IsContinuation(s[i + 2]) then 2
    else if w == 3 || i + 3 >= |s| || !IsContinuation(s[i + 3]) then 3
    else 4
  }

  /** A complete well-formed sequence starts at `i`. */
  predicate CharAt(s: seq<u8>, i: nat)
    requires i < |s|
  {
    Width(s[i]) > 0 && Matched(s, i) == Width(s[i])
  }

  predicate ValidFrom(s: seq<u8>, i: nat)
    decreases |s| - i
  {
    i >= |s| || (CharAt(s, i) && ValidFrom(s, i + Width(s[i])))
  }

  /** What `String::from_utf8` accepts. */
  predicate IsValid(s: seq<u8>)
  {
    ValidFrom(s, 0)
  }

  function LossyFrom(s: seq<u8>, i: nat): seq<u8>
    decreases |s| - i
  {
    if i >= |s| then []
    else if CharAt(s, i) then s[i..i + Width(s[i])] + LossyFrom(s, i + Width(s[i]))
    else Replacement + LossyFrom(s, i + (if Matched(s, i) == 0 then 1 else Matched(s, i)))
  }

  /** What `String::from_utf8_lossy` yields, as bytes. */
  function Lossy(s: seq<u8>): seq<u8>
  {
    LossyFrom(s, 0)
  }

  lemma {:induction false} LossyFromValid(s: seq<u8>, i: nat)
    requires i <= |s| && ValidFrom(s, i)
    ensures LossyFrom(s, i) == s[i..]
    decreases |s| - i
  {
    if i < |s| {
      var w := Width(s[i]);
      LossyFromValid(s, i + w);
      assert s[i..] == s[i..i + w] + s[i + w..];
    }
  }

  /** The lossy conversion changes nothing in well-formed text. */
  lemma LossyOfValid(s: seq<u8>)
    requires IsValid(s)
    ensures Lossy(s) == s
  {
    LossyFromValid(s, 0);
  }

  predicate IsAscii(s: seq<u8>)
  {
    forall i :: 0 <= i < |s| ==> s[i] < 0x80
  }

  lemma {:induction false} AsciiValidFrom(s: seq<u8>, i: nat)
    requires IsAscii(s)
    ensures ValidFrom(s, i)
    decreases |s| - i
  {
    if i < |s| {
      AsciiValidFrom(s, i + 1);
    }
  }

  /** Every ASCII string is well-formed UTF-8. */
  lemma AsciiIsValid(s: seq<u8>)
    requires IsAscii(s)
    ensures IsValid(s)
  {
    AsciiValidFrom(s, 0);
  }
}
