/**
 * UTF-8, as RFC 3629 defines it, for one Unicode scalar value at a time.
 * A Dafny `char` is a Unicode scalar value (0 to 0xD7FF or 0xE000 to 0x10FFFF),
 * so every char has exactly one encoding.
 */
module Utf8 {
  import opened Wrappers

  type Byte = b: int | 0 <= b < 256

  predicate IsContinuation(b: Byte) {
    0x80 <= b < 0xC0
  }

  /** Number of bytes in the UTF-8 encoding of `c` (section 3 of RFC 3629). */
  function Width(c: char): (n: nat)
    ensures 1 <= n <= 4
  {
    var cp := c as int;
    if cp < 0x80 then 1 else if cp < 0x800 then 2 else if cp < 0x10000 then 3 else 4
  }

  /**
   * Length of the sequence that a lead byte announces, by its leading one bits;
   * 0 when the byte cannot start a sequence (a continuation byte, or 0xF8 and above).
   */
  function SequenceLength(lead: Byte): (n: nat)
    ensures n <= 4
    ensures n == 1 <==> lead < 0x80
    ensures n != 0 ==> !IsContinuation(lead)
  {
    if lead < 0x80 then 1
    else if 0xC0 <= lead < 0xE0 then 2
    else if 0xE0 <= lead < 0xF0 then 3
    else if 0xF0 <= lead < 0xF8 then 4
    else 0
  }

  /** The UTF-8 encoding of one scalar value. */
  function EncodeScalar(c: char): (bs: seq<Byte>)
    ensures |bs| == Width(c) == SequenceLength(bs[0])
    ensures forall i :: 1 <= i < |bs| ==> IsContinuation(bs[i])
    ensures |bs| == 1 ==> bs[0] == c as int
  {
    var cp := c as int;
    if cp < 0x80 then [cp]
    else if cp < 0x800 then [0xC0 + cp / 64, 0x80 + cp % 64]
    else if cp < 0x10000 then [0xE0 + cp / 4096, 0x80 + (cp / 64) % 64, 0x80 + cp % 64]
    else [0xF0 + cp / 262144, 0x80 + (cp / 4096) % 64, 0x80 + (cp / 64) % 64, 0x80 + cp % 64]
  }

  /** The code point the bits of a well-shaped sequence spell, before any range check. */
  function Combine(bs: seq<Byte>): int
    requires 1 <= |bs| <= 4
  {
    if |bs| == 1 then bs[0] as int
    else if |bs| == 2 then (bs[0] as int - 0xC0) * 64 + (bs[1] as int - 0x80)
    else if |bs| == 3 then (bs[0] as int - 0xE0) * 4096 + (bs[1] as int - 0x80) * 64 + (bs[2] as int - 0x80)
    else (bs[0] as int - 0xF0) * 262144 + (bs[1] as int - 0x80) * 4096 + (bs[2] as int - 0x80) * 64 + (bs[3] as int - 0x80)
  }

  /** The smallest code point that needs `n` bytes; below it an `n`-byte form is overlong. */
  function MinCodePoint(n: nat): int {
    if n <= 1 then 0 else if n == 2 then 0x80 else if n == 3 then 0x800 else 0x10000
  }

  /**
   * Decodes one complete sequence of octets into a scalar value: rejects a bad
   * lead byte, a wrong length, a byte that is not a continuation byte, an overlong
   * form, a surrogate and anything above 0x10FFFF. Only the canonical encoding of a
   * scalar value is accepted.
   */
  function DecodeScalar(bs: seq<Byte>): (r: Option<char>)
    ensures r.Some? ==> EncodeScalar(r.value) == bs
  {
    if |bs| == 0 || SequenceLength(bs[0]) != |bs| then None
    else if exists i :: 1 <= i < |bs| && !IsContinuation(bs[i]) then None
    else
      var cp := Combine(bs);
      if cp < MinCodePoint(|bs|) || 0xD800 <= cp < 0xE000 || 0x10FFFF < cp then None
      else
        CombineEncodes(bs);
        Some(cp as char)
  }

  lemma CombineEncodes(bs: seq<Byte>)
    requires 1 <= |bs| <= 4 && SequenceLength(bs[0]) == |bs|
    requires forall i :: 1 <= i < |bs| ==> IsContinuation(bs[i])
    requires MinCodePoint(|bs|) <= Combine(bs) <= 0x10FFFF
    requires !(0xD800 <= Combine(bs) < 0xE000)
    ensures EncodeScalar(Combine(bs) as char) == bs
  {
    var cp := Combine(bs);
    if |bs| == 2 {
      DivMod64(bs[0] as int - 0xC0, bs[1] - 0x80);
    } else if |bs| == 3 {
      var hi := (bs[0] as int - 0xE0) * 64 + (bs[1] as int - 0x80);
      DivMod64(hi, bs[2] - 0x80);
      DivMod64(bs[0] as int - 0xE0, bs[1] - 0x80);
      Div64Div64(cp);
    } else if |bs| == 4 {
      var hi := (bs[0] as int - 0xF0) * 64 + (bs[1] as int - 0x80);
      var mid := hi * 64 + (bs[2] as int - 0x80);
      DivMod64(mid, bs[3] - 0x80);
      DivMod64(hi, bs[2] - 0x80);
      DivMod64(bs[0] as int - 0xF0, bs[1] - 0x80);
      Div64Div64(cp);
      Div4096Div64(cp);
    }
  }

  /** Every scalar value decodes back from its encoding. */
  lemma DecodeEncode(c: char)
    ensures DecodeScalar(EncodeScalar(c)) == Some(c)
  {
    var bs := EncodeScalar(c);
    var cp := c as int;
    if |bs| == 2 {
      DivMod64(cp / 64, cp % 64);
    } else if |bs| == 3 {
      Div64Div64(cp);
      DivMod64(cp / 4096, (cp / 64) % 64);
    } else if |bs| == 4 {
      Div64Div64(cp);
      Div4096Div64(cp);
      DivMod64(cp / 262144, (cp / 4096) % 64);
      DivMod64(cp / 4096, (cp / 64) % 64);
    }
    assert Combine(bs) == cp;
  }

  lemma DivMod64(q: int, r: int)
    requires 0 <= r < 64
    ensures (q * 64 + r) / 64 == q && (q * 64 + r) % 64 == r
  {
  }

  lemma Div64Div64(x: int)
    requires 0 <= x
    ensures x / 64 / 64 == x / 4096
  {
  }

  lemma Div4096Div64(x: int)
    requires 0 <= x
    ensures x / 4096 / 64 == x / 262144
  {
  }
}
