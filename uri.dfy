/**
 * ECMAScript's `encodeURIComponent` and `decodeURIComponent` (the Encode and Decode
 * abstract operations of ECMA-262, section 19.2.6 in the 2022 edition) over strings
 * of Unicode scalar values. Each byte of a character's UTF-8 encoding is written as
 * `%XX` with upper-case hexadecimal digits, as in section 2.1 of RFC 3986.
 */
module Uri {
  import opened Wrappers
  import opened Utf8
  import opened Hex

  /** The characters `encodeURIComponent` leaves as they are. */
  predicate IsUnreserved(c: char) {
    || ('A' <= c <= 'Z') || ('a' <= c <= 'z') || ('0' <= c <= '9')
    || c == '-' || c == '_' || c == '.' || c == '!' || c == '~' || c == '*' || c == '\'' || c == '(' || c == ')'
  }

  predicate IsUpperHexDigit(c: char) {
    ('0' <= c <= '9') || ('A' <= c <= 'F')
  }

  /** Every `%` is followed by two upper-case hexadecimal digits. */
  predicate WellFormedEscapes(s: string) {
    forall i :: 0 <= i < |s| && s[i] == '%' ==> i + 2 < |s| && IsUpperHexDigit(s[i + 1]) && IsUpperHexDigit(s[i + 2])
  }

  /** The alphabet of a percent-encoded string. */
  predicate InEncodedAlphabet(c: char) {
    IsUnreserved(c) || c == '%'
  }

  function HexDigit(n: int): (c: char)
    requires 0 <= n < 16
    ensures IsUpperHexDigit(c) && HexValue(c) == Some(n)
  {
    "0123456789ABCDEF"[n]
  }

  /** `%` and the two upper-case hexadecimal digits that spell the byte, high nibble first. */
  function EscapeByte(b: Byte): (s: string)
    ensures |s| == 3 && s[0] == '%'
    ensures IsUpperHexDigit(s[1]) && IsUpperHexDigit(s[2])
    ensures HexValue(s[1]) == Some(b / 16) && HexValue(s[2]) == Some(b % 16)
  {
    ['%', HexDigit(b / 16), HexDigit(b % 16)]
  }

  function EscapeBytes(bs: seq<Byte>): (s: string)
    ensures |s| == 3 * |bs|
    ensures forall i :: 0 <= i < |s| ==> InEncodedAlphabet(s[i])
    ensures WellFormedEscapes(s)
  {
    if bs == [] then [] else EscapeByte(bs[0]) + EscapeBytes(bs[1..])
  }

  /** The escapes come in the bytes' order: the `k`-th three characters escape the `k`-th byte. */
  lemma {:induction false} EscapeBytesInOrder(bs: seq<Byte>)
    ensures forall k :: 0 <= k < |bs| ==> EscapeBytes(bs)[3 * k..3 * k + 3] == EscapeByte(bs[k])
  {
    if bs != [] {
      EscapeBytesInOrder(bs[1..]);
      EscapesInOrder(bs, EscapeByte(bs[0]), EscapeBytes(bs[1..]));
    }
  }

  lemma EscapesInOrder(bs: seq<Byte>, head: string, tail: string)
    requires bs != [] && head == EscapeByte(bs[0]) && |tail| == 3 * (|bs| - 1)
    requires forall k :: 0 <= k < |bs| - 1 ==> tail[3 * k..3 * k + 3] == EscapeByte(bs[1..][k])
    ensures forall k :: 0 <= k < |bs| ==> (head + tail)[3 * k..3 * k + 3] == EscapeByte(bs[k])
  {
    var s := head + tail;
    forall k | 0 <= k < |bs| ensures s[3 * k..3 * k + 3] == EscapeByte(bs[k]) {
      if k == 0 {
        assert s[..3] == head;
      } else {
        assert s[3 * k..3 * k + 3] == tail[3 * (k - 1)..3 * (k - 1) + 3];
        assert bs[1..][k - 1] == bs[k];
      }
    }
  }

  /** One character of `encodeURIComponent`'s output. */
  function EncodeChar(c: char): (s: string)
    ensures forall i :: 0 <= i < |s| ==> InEncodedAlphabet(s[i])
    ensures WellFormedEscapes(s)
    ensures IsUnreserved(c) ==> s == [c]
    ensures !IsUnreserved(c) ==> |s| == 3 * Width(c) && s[0] == '%'
  {
    if IsUnreserved(c) then [c] else EscapeBytes(EncodeScalar(c))
  }

  /**
   * `encodeURIComponent(s)`. The output uses only unreserved characters and `%`,
   * and every `%` begins an escape of two upper-case hexadecimal digits.
   */
  function PercentEncode(s: string): (r: string)
    ensures forall i :: 0 <= i < |r| ==> InEncodedAlphabet(r[i]) && !IsSignificant(r[i])
    ensures WellFormedEscapes(r)
    ensures |r| >= |s|
  {
    if s == [] then []
    else
      var head, tail := EncodeChar(s[0]), PercentEncode(s[1..]);
      WellFormedConcat(head, tail);
      head + tail
  }

  lemma WellFormedConcat(a: string, b: string)
    requires WellFormedEscapes(a) && WellFormedEscapes(b)
    ensures WellFormedEscapes(a + b)
  {
    var s := a + b;
    forall i | 0 <= i < |s| && s[i] == '%'
      ensures i + 2 < |s| && IsUpperHexDigit(s[i + 1]) && IsUpperHexDigit(s[i + 2])
    {
      if i < |a| {
        assert a[i] == '%';
      } else {
        assert b[i - |a|] == '%';
      }
    }
  }

  /** The byte of the escape `%XY` at the front of `s`, hexadecimal digits of either case. */
  function ReadEscape(s: string): (r: Option<Byte>)
    ensures r.Some? ==> |s| >= 3 && s[0] == '%'
  {
    if |s| < 3 || s[0] != '%' then None
    else match (HexValue(s[1]), HexValue(s[2]))
      case (Some(hi), Some(lo)) => Some(hi * 16 + lo)
      case _ => None
  }

  /** The bytes of `n` consecutive escapes at the front of `s`. */
  function ReadEscapes(s: string, n: nat): (r: Option<seq<Byte>>)
    ensures r.Some? ==> |r.value| == n && |s| >= 3 * n
  {
    if n == 0 then Some([])
    else match ReadEscape(s)
      case None => None
      case Some(b) =>
        match ReadEscapes(s[3..], n - 1)
        case None => None
        case Some(bs) => Some([b] + bs)
  }

  /**
   * Decodes the character whose escapes start `s`: the lead byte says how many
   * escapes make up the character, and the octets must be the UTF-8 encoding of
   * one scalar value. Yields the character and the number of characters consumed.
   */
  function DecodeEscapedChar(s: string): (r: Option<(char, nat)>)
    ensures r.Some? ==> 3 <= r.value.1 <= |s|
  {
    match ReadEscape(s)
    case None => None
    case Some(lead) =>
      var n := SequenceLength(lead);
      if n == 0 then None
      else match ReadEscapes(s, n)
        case None => None
        case Some(octets) =>
          match DecodeScalar(octets)
          case None => None
          case Some(c) => Some((c, 3 * n))
  }

  function Prepend(c: char, r: Option<string>): Option<string> {
    match r
    case None => None
    case Some(t) => Some([c] + t)
  }

  /**
   * `decodeURIComponent(s)`: `None` where JavaScript throws `URIError`. Every escape
   * is decoded, `%25` included, since this variant reserves no characters.
   */
  function PercentDecode(s: string): Option<string>
    decreases |s|
  {
    if s == [] then Some([])
    else if s[0] != '%' then Prepend(s[0], PercentDecode(s[1..]))
    else match DecodeEscapedChar(s)
      case None => None
      case Some((c, k)) => Prepend(c, PercentDecode(s[k..]))
  }

  lemma ReadEscapeByte(b: Byte, rest: string)
    ensures ReadEscape(EscapeByte(b) + rest) == Some(b)
  {
    var s := EscapeByte(b) + rest;
    assert s[0] == '%' && s[1] == HexDigit(b / 16) && s[2] == HexDigit(b % 16);
  }

  lemma {:induction false} ReadEscapesBytes(bs: seq<Byte>, rest: string)
    ensures ReadEscapes(EscapeBytes(bs) + rest, |bs|) == Some(bs)
  {
    if bs != [] {
      var s := EscapeBytes(bs) + rest;
      assert s == EscapeByte(bs[0]) + (EscapeBytes(bs[1..]) + rest);
      ReadEscapeByte(bs[0], EscapeBytes(bs[1..]) + rest);
      assert s[3..] == EscapeBytes(bs[1..]) + rest;
      ReadEscapesBytes(bs[1..], rest);
      assert [bs[0]] + bs[1..] == bs;
    }
  }

  /** Decoding what one character encodes to, in front of anything, gives that character back. */
  lemma DecodeEncodedChar(c: char, rest: string)
    ensures PercentDecode(EncodeChar(c) + rest) == Prepend(c, PercentDecode(rest))
  {
    var s := EncodeChar(c) + rest;
    if IsUnreserved(c) {
      assert s[0] == c && s[1..] == rest;
    } else {
      var bs := EncodeScalar(c);
      assert EncodeChar(c) == EscapeBytes(bs);
      assert EscapeBytes(bs) == EscapeByte(bs[0]) + EscapeBytes(bs[1..]);
      ReadEscapeByte(bs[0], EscapeBytes(bs[1..]) + rest);
      assert s == EscapeByte(bs[0]) + (EscapeBytes(bs[1..]) + rest);
      ReadEscapesBytes(bs, rest);
      DecodeEncode(c);
      assert DecodeEscapedChar(s) == Some((c, 3 * |bs|));
      assert s[3 * |bs|..] == rest;
    }
  }

  /** `decodeURIComponent(encodeURIComponent(s)) == s` for every string of scalar values. */
  lemma {:induction false} DecodeEncodeRoundTrip(s: string)
    ensures PercentDecode(PercentEncode(s)) == Some(s)
  {
    if s != [] {
      DecodeEncodedChar(s[0], PercentEncode(s[1..]));
      DecodeEncodeRoundTrip(s[1..]);
      assert [s[0]] + s[1..] == s;
    }
  }

  /**
   * A character that can open or close a tag, start an entity reference, or end or
   * escape a quoted string literal.
   */
  predicate IsSignificant(c: char) {
    c == '<' || c == '>' || c == '&' || c == '"' || c == '\\'
  }
}
