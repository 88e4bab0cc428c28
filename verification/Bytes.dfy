/** Byte strings, and positional notation in an arbitrary base, most significant digit first. */
module Bytes {
  type byte = x: int | 0 <= x < 256

  type Bytes = seq<byte>

  function Min(a: nat, b: nat): nat {
    if a <= b then a else b
  }

  function Pow(b: nat, n: nat): nat {
    if n == 0 then 1 else b * Pow(b, n - 1)
  }

  lemma PowPositive(b: nat, n: nat)
    requires b > 0
    ensures Pow(b, n) > 0
  {
  }

  lemma {:induction false} PowAdd(b: nat, m: nat, n: nat)
    ensures Pow(b, m + n) == Pow(b, m) * Pow(b, n)
  {
    if m == 0 {
    } else {
      PowAdd(b, m - 1, n);
      assert b * (Pow(b, m - 1) * Pow(b, n)) == (b * Pow(b, m - 1)) * Pow(b, n);
    }
  }

  predicate DigitsBelow(b: nat, s: seq<nat>) {
    forall i :: 0 <= i < |s| ==> s[i] < b
  }

  /** The number whose most significant digit comes first. */
  function FromDigits(b: nat, s: seq<nat>): nat {
    if s == [] then 0 else FromDigits(b, s[..|s| - 1]) * b + s[|s| - 1]
  }

  function Quotient(v: nat, b: nat): (q: nat)
    requires b > 0
    ensures v == q * b + v % b
  {
    v / b
  }

  function Remainder(v: nat, b: nat): (d: nat)
    requires b > 0
    ensures d < b
    ensures v == Quotient(v, b) * b + d
  {
    v % b
  }

  /** The `n` low-order digits of `v`, most significant first. */
  function ToDigits(b: nat, v: nat, n: nat): (s: seq<nat>)
    requires b > 0
    ensures |s| == n
    ensures DigitsBelow(b, s)
    decreases n
  {
    if n == 0 then [] else ToDigits(b, Quotient(v, b), n - 1) + [Remainder(v, b)]
  }

  lemma MulMonotone(x: int, y: int, b: nat)
    requires x <= y
    ensures x * b <= y * b
  {
  }

  /** Division is determined by its defining equation. */
  lemma DivModUnique(b: nat, q: nat, d: nat)
    requires d < b
    ensures Quotient(q * b + d, b) == q && Remainder(q * b + d, b) == d
  {
    hide Quotient, Remainder;
    var v := q * b + d;
    var p, e := Quotient(v, b), Remainder(v, b);
    assert p * b + e == v;
    QuotientsAgree(b, q, d, p, e);
    QuotientsAgree(b, p, e, q, d);
  }

  lemma QuotientsAgree(b: nat, q: nat, d: nat, p: nat, e: nat)
    requires d < b && e < b
    requires q * b + d == p * b + e
    ensures q <= p
  {
    assert (p + 1) * b == p * b + b;
    if p < q {
      MulMonotone(p + 1, q, b);
    }
  }

  lemma FromDigitsSnoc(b: nat, s: seq<nat>, d: nat)
    ensures FromDigits(b, s + [d]) == FromDigits(b, s) * b + d
  {
    assert (s + [d])[..|s|] == s;
  }

  lemma QuotientBelow(b: nat, v: nat, n: nat)
    requires b > 0 && n > 0
    requires v < Pow(b, n)
    ensures Quotient(v, b) < Pow(b, n - 1)
  {
    hide Quotient, Remainder;
    var q, p := Quotient(v, b), Pow(b, n - 1);
    var d := Remainder(v, b);
    assert q * b + d == v;
    if p <= q {
      MulMonotone(p, q, b);
    }
  }

  /** Writing out enough digits and reading them back is the identity. */
  lemma {:induction false} FromToDigits(b: nat, v: nat, n: nat)
    requires b > 0
    requires v < Pow(b, n)
    ensures FromDigits(b, ToDigits(b, v, n)) == v
    decreases n
  {
    hide Quotient, Remainder;
    if n == 0 {
    } else {
      QuotientBelow(b, v, n);
      FromToDigits(b, Quotient(v, b), n - 1);
      FromToDigitsStep(b, v, n);
    }
  }

  lemma FromToDigitsStep(b: nat, v: nat, n: nat)
    requires b > 0 && n > 0
    requires FromDigits(b, ToDigits(b, Quotient(v, b), n - 1)) == Quotient(v, b)
    ensures FromDigits(b, ToDigits(b, v, n)) == v
  {
    hide Quotient, Remainder, FromDigits, Pow;
    var s, d := ToDigits(b, Quotient(v, b), n - 1), Remainder(v, b);
    FromDigitsSnoc(b, s, d);
  }

  lemma {:induction false} FromDigitsBound(b: nat, s: seq<nat>)
    requires DigitsBelow(b, s)
    ensures FromDigits(b, s) < Pow(b, |s|)
  {
    if s != [] {
      var t := s[..|s| - 1];
      FromDigitsBound(b, t);
      AppendBelow(b, FromDigits(b, t), s[|s| - 1], Pow(b, |t|));
    }
  }

  lemma AppendBelow(b: nat, q: nat, d: nat, p: nat)
    requires q < p && d < b
    ensures q * b + d < b * p
  {
    MulMonotone(q + 1, p, b);
    assert (q + 1) * b == q * b + b;
  }

  /** Reading digits and writing them back is the identity. */
  lemma {:induction false} ToFromDigits(b: nat, s: seq<nat>)
    requires b > 0
    requires DigitsBelow(b, s)
    ensures ToDigits(b, FromDigits(b, s), |s|) == s
  {
    hide Quotient, Remainder;
    if s != [] {
      var t := s[..|s| - 1];
      ToFromDigits(b, t);
      DivModUnique(b, FromDigits(b, t), s[|s| - 1]);
      assert s == t + [s[|s| - 1]];
    }
  }

  /** `int.from_bytes(s, "big")`, and the big-endian fields of `struct`. */
  function FromBytes(s: Bytes): nat {
    FromDigits(256, s)
  }

  /** The `n` low-order bytes of `v`. */
  function ToBytes(v: nat, n: nat): (s: Bytes)
    ensures |s| == n
  {
    ToDigits(256, v, n)
  }

  lemma FromToBytes(v: nat, n: nat)
    requires v < Pow(256, n)
    ensures FromBytes(ToBytes(v, n)) == v
  {
    FromToDigits(256, v, n);
  }

  lemma ToFromBytes(s: Bytes)
    ensures FromBytes(s) < Pow(256, |s|)
    ensures ToBytes(FromBytes(s), |s|) == s
  {
    FromDigitsBound(256, s);
    ToFromDigits(256, s);
  }

  /** The number two bytes stand for, the more significant one first. */
  function Word16(b: Bytes): nat
    requires |b| == 2
  {
    b[0] as nat * 256 + b[1]
  }

  /** The number four bytes stand for. */
  function Word32(b: Bytes): nat
    requires |b| == 4
  {
    Word16(b[..2]) * 0x1_0000 + Word16(b[2..])
  }

  lemma WordOfTwo(b: Bytes)
    requires |b| == 2
    ensures FromBytes(b) == Word16(b)
  {
    assert b[..1][..0] == [] && b[..1] == [b[0]];
    assert FromDigits(256, []) == 0;
    assert FromDigits(256, [b[0]]) == b[0];
  }

  lemma WordOfFour(b: Bytes)
    requires |b| == 4
    ensures FromBytes(b) == Word32(b)
  {
    WordOfTwo(b[..2]);
    assert b[..3][..2] == b[..2] && b[..3][2] == b[2];
    assert FromDigits(256, b[..3]) == FromDigits(256, b[..2]) * 256 + b[2];
  }

  function Concat(parts: seq<Bytes>): Bytes {
    if parts == [] then [] else parts[0] + Concat(parts[1..])
  }

  lemma {:induction false} ConcatSnoc(pieces: seq<Bytes>, piece: Bytes)
    ensures Concat(pieces + [piece]) == Concat(pieces) + piece
  {
    if pieces == [] {
      assert [] + [piece] == [piece];
    } else {
      ConcatSnoc(pieces[1..], piece);
      assert (pieces + [piece])[1..] == pieces[1..] + [piece];
    }
  }

  /** `n` zero bytes. */
  function Zeros(n: nat): (s: Bytes)
    ensures |s| == n
  {
    seq(n, _ => 0)
  }
}
