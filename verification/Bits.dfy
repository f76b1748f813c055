/** Unsigned machine words as natural numbers: exclusive or, and what it does to
    the shifts and masks of the C sources (x >> k is x / 2^k, x & (2^k - 1) is
    x % 2^k). */
module Bits {

  function Pow2(k: nat): (p: nat)
    ensures p >= 1
  {
    if k == 0 then 1 else 2 * Pow2(k - 1)
  }

  /** x ^ y, bit by bit. */
  function Xor(x: nat, y: nat): nat
    decreases x + y
  {
    if x == 0 && y == 0 then 0
    else 2 * Xor(x / 2, y / 2) + (if x % 2 == y % 2 then 0 else 1)
  }

  lemma XorHalf(x: nat, y: nat)
    ensures Xor(x, y) / 2 == Xor(x / 2, y / 2)
    ensures Xor(x, y) % 2 == if x % 2 == y % 2 then 0 else 1
  {
  }

  lemma {:induction false} XorComm(x: nat, y: nat)
    ensures Xor(x, y) == Xor(y, x)
    decreases x + y
  {
    if x + y > 0 { XorComm(x / 2, y / 2); }
  }

  lemma {:induction false} XorZero(x: nat)
    ensures Xor(x, 0) == x
    ensures Xor(0, x) == x
  {
    if x > 0 { XorZero(x / 2); }
  }

  lemma {:induction false} XorSelf(x: nat)
    ensures Xor(x, x) == 0
  {
    if x > 0 { XorSelf(x / 2); }
  }

  lemma {:induction false} XorAssoc(x: nat, y: nat, z: nat)
    ensures Xor(Xor(x, y), z) == Xor(x, Xor(y, z))
    decreases x + y + z
  {
    if x + y + z > 0 {
      XorHalf(x, y);
      XorHalf(y, z);
      XorHalf(Xor(x, y), z);
      XorHalf(x, Xor(y, z));
      XorAssoc(x / 2, y / 2, z / 2);
    }
  }

  /** (a ^ b) ^ (c ^ d) == (a ^ c) ^ (b ^ d). */
  lemma XorExchange(a: nat, b: nat, c: nat, d: nat)
    ensures Xor(Xor(a, b), Xor(c, d)) == Xor(Xor(a, c), Xor(b, d))
  {
    XorAssoc(a, b, Xor(c, d));
    XorAssoc(b, c, d);
    XorComm(b, c);
    XorAssoc(c, b, d);
    XorAssoc(a, c, Xor(b, d));
  }

  lemma Pow2Byte(k: nat)
    ensures Pow2(k + 8) == 0x100 * Pow2(k)
  {
    assert Pow2(k + 4) == 0x10 * Pow2(k) by { assert Pow2(k + 2) == 4 * Pow2(k); }
    assert Pow2(k + 6) == 4 * Pow2(k + 4);
  }

  lemma XorBit(a: nat, b: nat)
    requires a < 2 && b < 2
    ensures Xor(a, b) == if a == b then 0 else 1
  {
    assert a / 2 == 0 && b / 2 == 0;
  }

  lemma XorQuarters(x: nat, y: nat)
    ensures Xor(x, y) / 4 == Xor(x / 4, y / 4)
    ensures Xor(x, y) % 4 == Xor(x % 4, y % 4)
  {
    var r, h := Xor(x, y), Xor(x / 2, y / 2);
    assert r / 2 == h && r % 2 == (if x % 2 == y % 2 then 0 else 1) by { XorHalf(x, y); }
    assert h / 2 == Xor(x / 4, y / 4) && h % 2 == (if x / 2 % 2 == y / 2 % 2 then 0 else 1) by {
      XorHalf(x / 2, y / 2);
      assert x / 2 / 2 == x / 4 && y / 2 / 2 == y / 4;
    }
    var a, b := x % 4, y % 4;
    assert a / 2 == x / 2 % 2 && b / 2 == y / 2 % 2 && a % 2 == x % 2 && b % 2 == y % 2;
    assert Xor(a, b) / 2 == h % 2 && Xor(a, b) % 2 == r % 2 by {
      XorHalf(a, b);
      XorBit(a / 2, b / 2);
    }
  }

  lemma XorNibbles(x: nat, y: nat)
    ensures Xor(x, y) / 0x10 == Xor(x / 0x10, y / 0x10)
    ensures Xor(x, y) % 0x10 == Xor(x % 0x10, y % 0x10)
  {
    XorQuarters(x, y);
    XorQuarters(x / 4, y / 4);
    XorQuarters(x % 0x10, y % 0x10);
    assert x / 4 / 4 == x / 0x10 && y / 4 / 4 == y / 0x10;
    assert x % 0x10 / 4 == x / 4 % 4 && y % 0x10 / 4 == y / 4 % 4;
    assert x % 0x10 % 4 == x % 4 && y % 0x10 % 4 == y % 4;
  }

  /** Cutting both operands at a byte boundary cuts the result there. */
  lemma XorBytes(x: nat, y: nat)
    ensures Xor(x, y) / 0x100 == Xor(x / 0x100, y / 0x100)
    ensures Xor(x, y) % 0x100 == Xor(x % 0x100, y % 0x100)
  {
    XorNibbles(x, y);
    XorNibbles(x / 0x10, y / 0x10);
    XorNibbles(x % 0x100, y % 0x100);
    assert x / 0x10 / 0x10 == x / 0x100 && y / 0x10 / 0x10 == y / 0x100;
    assert x % 0x100 / 0x10 == x / 0x10 % 0x10 && y % 0x100 / 0x10 == y / 0x10 % 0x10;
    assert x % 0x100 % 0x10 == x % 0x10 && y % 0x100 % 0x10 == y % 0x10;
  }

  lemma XorShorts(x: nat, y: nat)
    ensures Xor(x, y) / 0x1_0000 == Xor(x / 0x1_0000, y / 0x1_0000)
  {
    XorBytes(x, y);
    XorBytes(x / 0x100, y / 0x100);
    assert x / 0x100 / 0x100 == x / 0x1_0000 && y / 0x100 / 0x100 == y / 0x1_0000;
  }

  lemma XorWords(x: nat, y: nat)
    ensures Xor(x, y) / 0x1_0000_0000 == Xor(x / 0x1_0000_0000, y / 0x1_0000_0000)
  {
    XorShorts(x, y);
    XorShorts(x / 0x1_0000, y / 0x1_0000);
    assert x / 0x1_0000 / 0x1_0000 == x / 0x1_0000_0000 && y / 0x1_0000 / 0x1_0000 == y / 0x1_0000_0000;
  }

  lemma XorBound8(x: nat, y: nat)
    requires x < 0x100 && y < 0x100
    ensures Xor(x, y) < 0x100
  {
    XorBytes(x, y);
    XorZero(0);
  }

  lemma XorBound32(x: nat, y: nat)
    requires x < 0x1_0000_0000 && y < 0x1_0000_0000
    ensures Xor(x, y) < 0x1_0000_0000
  {
    XorWords(x, y);
    XorZero(0);
  }
}
