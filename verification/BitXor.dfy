/** Bitwise exclusive-or of unbounded naturals: Python's `^` on `int.from_bytes` payloads. */
module BitXor {
  import opened Bytes

  function Xor(a: nat, b: nat): nat
    decreases a + b
  {
    if a == 0 && b == 0 then 0 else 2 * Xor(a / 2, b / 2) + (a + b) % 2
  }

  function Bit(a: nat, j: nat): bool
    decreases j
  {
    if j == 0 then a % 2 == 1 else Bit(a / 2, j - 1)
  }

  lemma XorHalves(a: nat, b: nat)
    ensures Xor(a, b) / 2 == Xor(a / 2, b / 2)
    ensures Xor(a, b) % 2 == (a + b) % 2
  {
  }

  /** Each bit of the result is the exclusive-or of the operands' bits. */
  lemma {:induction false} XorBit(a: nat, b: nat, j: nat)
    ensures Bit(Xor(a, b), j) == (Bit(a, j) != Bit(b, j))
    decreases j
  {
    XorHalves(a, b);
    hide Xor;
    if j > 0 {
      XorBit(a / 2, b / 2, j - 1);
    }
  }

  lemma {:induction false} XorZero(a: nat)
    ensures Xor(a, 0) == a && Xor(0, a) == a
    decreases a
  {
    if a > 0 {
      XorZero(a / 2);
    }
  }

  lemma {:induction false} XorSelf(a: nat)
    ensures Xor(a, a) == 0
    decreases a
  {
    if a > 0 {
      XorSelf(a / 2);
    }
  }

  lemma {:induction false} XorComm(a: nat, b: nat)
    ensures Xor(a, b) == Xor(b, a)
    decreases a + b
  {
    if a + b > 0 {
      XorComm(a / 2, b / 2);
    }
  }

  lemma {:induction false} XorAssoc(a: nat, b: nat, c: nat)
    ensures Xor(Xor(a, b), c) == Xor(a, Xor(b, c))
    decreases a + b + c
  {
    if a + b + c > 0 {
      XorAssoc(a / 2, b / 2, c / 2);
      hide Xor;
      XorHalves(a, b);
      XorHalves(b, c);
      var ab, bc := Xor(a, b), Xor(b, c);
      XorHalves(ab, c);
      XorHalves(a, bc);
      SameParity(ab, a, b, bc, c);
      SameHalves(Xor(ab, c), Xor(a, bc));
    }
  }

  lemma SameParity(ab: nat, a: nat, b: nat, bc: nat, c: nat)
    requires ab % 2 == (a + b) % 2 && bc % 2 == (b + c) % 2
    ensures (ab + c) % 2 == (a + bc) % 2
  {
  }

  lemma SameHalves(x: nat, y: nat)
    requires x / 2 == y / 2 && x % 2 == y % 2
    ensures x == y
  {
  }

  /** x ^ y ^ y = x. */
  lemma XorCancel(a: nat, b: nat)
    ensures Xor(Xor(a, b), b) == a
  {
    XorAssoc(a, b, b);
    XorSelf(b);
    XorZero(a);
  }

  /** Equal exactly when the exclusive-or vanishes. */
  lemma XorEq(a: nat, b: nat)
    ensures Xor(a, b) == 0 <==> a == b
  {
    XorSelf(a);
    XorCancel(a, b);
    XorZero(b);
  }

  /** (a ^ b) ^ (c ^ d) = (a ^ c) ^ (b ^ d). */
  lemma XorSwap(a: nat, b: nat, c: nat, d: nat)
    ensures Xor(Xor(a, b), Xor(c, d)) == Xor(Xor(a, c), Xor(b, d))
  {
    XorAssoc(a, b, Xor(c, d));
    XorAssoc(b, c, d);
    XorComm(b, c);
    XorAssoc(c, b, d);
    XorAssoc(a, c, Xor(b, d));
  }

  lemma XorDiv16(a: nat, b: nat)
    ensures Xor(a, b) / 16 == Xor(a / 16, b / 16)
  {
    hide Xor;
    XorHalves(a, b);
    XorHalves(a / 2, b / 2);
    XorHalves(a / 4, b / 4);
    XorHalves(a / 8, b / 8);
    assert a / 2 / 2 == a / 4 && b / 2 / 2 == b / 4;
    assert a / 4 / 2 == a / 8 && b / 4 / 2 == b / 8;
    assert a / 8 / 2 == a / 16 && b / 8 / 2 == b / 16;
  }

  lemma XorDiv256(a: nat, b: nat)
    ensures Xor(a, b) / 256 == Xor(a / 256, b / 256)
  {
    hide Xor;
    XorDiv16(a, b);
    XorDiv16(a / 16, b / 16);
    assert a / 16 / 16 == a / 256 && b / 16 / 16 == b / 256;
  }

  /** Combining two n-byte symbols gives an n-byte symbol, so `to_bytes` never overflows. */
  lemma {:induction false} XorBound(a: nat, b: nat, n: nat)
    requires a < Pow(256, n) && b < Pow(256, n)
    ensures Xor(a, b) < Pow(256, n)
  {
    hide Xor;
    if n == 0 {
      XorSelf(0);
    } else {
      XorDiv256(a, b);
      XorBound(a / 256, b / 256, n - 1);
    }
  }
}
