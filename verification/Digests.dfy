/** Hexadecimal digests, and the ways two inputs can collide. */
module Digests {
  import opened Wrappers
  import opened Bytes

  predicate IsHexDigit(c: char) {
    '0' <= c <= '9' || 'a' <= c <= 'f'
  }

  /** 64 lowercase hexadecimal digits. */
  predicate IsHexDigest(s: string) {
    |s| == 64 && forall i :: 0 <= i < |s| ==> IsHexDigit(s[i])
  }

  type HexDigest = s: string | IsHexDigest(s) witness seq(64, _ => '0')

  /** A digest function such as SHA3-256, in hexadecimal. */
  type Hasher = Bytes -> HexDigest

  /** Two different byte strings with the same digest. */
  predicate Collide(h: Hasher, a: Bytes, b: Bytes) {
    a != b && h(a) == h(b)
  }

  /** The bytes of an ASCII text. */
  function Ascii(s: string): (b: Bytes)
    requires forall i :: 0 <= i < |s| ==> s[i] < 128 as char
    ensures |b| == |s|
  {
    seq(|s|, i requires 0 <= i < |s| => s[i] as int)
  }

  /** `bytes.decode("ascii")`; None when a byte is not ASCII. */
  function FromAscii(b: Bytes): Option<string> {
    if forall i :: 0 <= i < |b| ==> b[i] < 128
    then Some(seq(|b|, i requires 0 <= i < |b| => b[i] as char))
    else None
  }

  lemma HexIsAscii(s: HexDigest)
    ensures forall i :: 0 <= i < |s| ==> s[i] < 128 as char
  {
  }

  function HexBytes(s: HexDigest): (b: Bytes)
    ensures |b| == 64
  {
    HexIsAscii(s);
    Ascii(s)
  }

  lemma HexBytesRoundTrip(s: HexDigest)
    ensures FromAscii(HexBytes(s)) == Some(s)
  {
    HexIsAscii(s);
    assert FromAscii(HexBytes(s)).Some?;
    assert FromAscii(HexBytes(s)).value == s;
  }
}
