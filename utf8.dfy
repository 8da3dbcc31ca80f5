/** Go strings are byte strings: text sent in a header or a token is its
    UTF-8 encoding, and slicing and `len` count bytes, not characters. */
module Utf8 {
  import opened Common

  /** The byte with value `x`. */
  function Byte(x: int): (b: bv8)
    requires 0 <= x < 0x100
    ensures b as int == x
  {
    x as bv8
  }

  /** A continuation byte `10xxxxxx` carrying the low six bits of `x`. */
  function Continuation(x: nat): (b: bv8)
    ensures 0x80 <= b as int < 0xC0
  {
    Byte(0x80 + x % 0x40)
  }

  /** The bits of a scalar value above its low `6 * k` bits. */
  function High(n: nat, k: nat): (h: nat)
    ensures k == 0 ==> h == n
    ensures k > 0 ==> h == High(n, k - 1) / 0x40
  {
    if k == 0 then n else High(n, k - 1) / 0x40
  }

  /** The UTF-8 bytes of one Unicode scalar value: one byte below 0x80,
      otherwise a lead byte and continuation bytes. */
  function EncodeChar(c: char): (b: Bytes)
    ensures 1 <= |b| <= 4
    ensures |b| == 1 <==> c as int < 0x80
    ensures |b| == 1 ==> b[0] as int == c as int
    ensures |b| > 1 ==> b[0] as int >= 0xC0
  {
    var n := c as int;
    if n < 0x80 then [Byte(n)]
    else if n < 0x800 then [Byte(0xC0 + High(n, 1)), Continuation(n)]
    else if n < 0x1_0000 then [Byte(0xE0 + High(n, 2)), Continuation(High(n, 1)), Continuation(n)]
    else [Byte(0xF0 + High(n, 3)), Continuation(High(n, 2)), Continuation(High(n, 1)), Continuation(n)]
  }

  predicate IsAscii(s: string) {
    forall i :: 0 <= i < |s| ==> s[i] as int < 0x80
  }

  /** A string as the bytes Go stores: at least one byte per character, and
      exactly one per character iff the text is ASCII. */
  function Encode(s: string): (b: Bytes)
    ensures |b| >= |s|
    ensures |b| == |s| <==> IsAscii(s)
    ensures IsAscii(s) ==> forall i :: 0 <= i < |s| ==> b[i] as int == s[i] as int
  {
    if s == [] then [] else EncodeChar(s[0]) + Encode(s[1..])
  }

  /** Encoding distributes over concatenation, so a prefix's bytes come
      first. */
  lemma {:induction false} EncodeAppend(s: string, t: string)
    ensures Encode(s + t) == Encode(s) + Encode(t)
  {
    if s == [] {
      assert s + t == t;
    } else {
      assert (s + t)[1..] == s[1..] + t;
      EncodeAppend(s[1..], t);
    }
  }
}
