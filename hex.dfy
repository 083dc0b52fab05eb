/** Hex.encodeHex from commons-codec, as the digest code uses it: every byte
    becomes two lowercase hexadecimal digits, high nibble first. Decode is
    its inverse and is what makes the encoding's contract checkable. */
module Hex {
  import opened Common

  /** The lowercase hexadecimal digit for 0 <= k < 16. */
  function Digit(k: int): char
    requires 0 <= k < 16
  {
    if k < 10 then ('0' as int + k) as char else ('a' as int + k - 10) as char
  }

  predicate IsDigit(c: char)
  {
    '0' <= c <= '9' || 'a' <= c <= 'f'
  }

  function DigitValue(c: char): Option<int>
  {
    if '0' <= c <= '9' then Some(c as int - '0' as int)
    else if 'a' <= c <= 'f' then Some(c as int - 'a' as int + 10)
    else None
  }

  /** Hex.encodeHex(bytes), lowercase. */
  function Encode(b: Bytes): (s: string)
    ensures |s| == 2 * |b|
    ensures forall i :: 0 <= i < |s| ==> IsDigit(s[i])
  {
    if b == [] then []
    else [Digit(b[0] as int / 16), Digit(b[0] as int % 16)] + Encode(b[1..])
  }

  /** Reads back a text of lowercase hexadecimal digit pairs. */
  function Decode(s: string): Option<Bytes>
  {
    if |s| == 0 then Some([])
    else if |s| == 1 then None
    else
      match (DigitValue(s[0]), DigitValue(s[1]), Decode(s[2..]))
      case (Some(hi), Some(lo), Some(rest)) => Some([(hi * 16 + lo) as byte] + rest)
      case _ => None
  }

  lemma DigitRoundTrip(k: int)
    requires 0 <= k < 16
    ensures DigitValue(Digit(k)) == Some(k)
  {
  }

  /** The encoding loses nothing: decoding it gives back the digest bytes. */
  lemma {:induction false} DecodeEncode(b: Bytes)
    ensures Decode(Encode(b)) == Some(b)
  {
    if b != [] {
      var x := b[0] as int;
      DigitRoundTrip(x / 16);
      DigitRoundTrip(x % 16);
      DecodeEncode(b[1..]);
      var s := Encode(b);
      assert s[2..] == Encode(b[1..]);
      assert (x / 16 * 16 + x % 16) as byte == b[0];
      assert [b[0]] + b[1..] == b;
    }
  }

  /** Two different digests never share an encoding. */
  lemma EncodeInjective(a: Bytes, b: Bytes)
    requires Encode(a) == Encode(b)
    ensures a == b
  {
    DecodeEncode(a);
    DecodeEncode(b);
  }
}
