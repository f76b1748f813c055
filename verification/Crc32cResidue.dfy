/** What makes the register the one of CRC-32C (section 12.1 of RFC 3720): it is the remainder of the
    message, as a polynomial over GF(2), on division by the Castagnoli polynomial; and a message
    followed by its own CRC leaves the residue of that polynomial. */
module Crc32cResidue {
  import opened Basics
  import opened Bits
  import opened Crc32cSpec

  // -------------------------------------------------------------- polynomials as numbers

  /** The Castagnoli polynomial: bit k is the coefficient of x^k. */
  const G: nat := 0x1_1edc_6f41

  /** The bits of a number below 2^k in reversed order. */
  function Reversed(k: nat, x: nat): (r: nat)
    ensures r < Pow2(k)
  {
    if k == 0 then 0 else x % 2 * Pow2(k - 1) + Reversed(k - 1, x / 2)
  }

  /** The product of two polynomials. */
  function Times(q: nat, g: nat): nat {
    if q == 0 then 0 else Xor(2 * Times(q / 2, g), if q % 2 == 1 then g else 0)
  }

  /** a and b differ by a multiple of the polynomial. */
  ghost predicate Congruent(a: nat, b: nat) {
    exists q: nat :: Xor(a, b) == Times(q, G)
  }

  /** Bits as a polynomial, the first the coefficient of the highest power. */
  function Poly(bits: seq<bool>): nat {
    if bits == [] then 0 else 2 * Poly(bits[..|bits| - 1]) + (if bits[|bits| - 1] then 1 else 0)
  }

  // ------------------------------------------------------------------------------- its algebra

  lemma Pow2Values()
    ensures Pow2(8) == 0x100 && Pow2(16) == 0x1_0000 && Pow2(24) == 0x100_0000 && Pow2(32) == 0x1_0000_0000
  {
    Pow2Byte(0);
    Pow2Byte(8);
    Pow2Byte(16);
    Pow2Byte(24);
  }

  lemma XorDouble(a: nat, b: nat)
    ensures Xor(2 * a, 2 * b) == 2 * Xor(a, b)
  {
    XorHalf(2 * a, 2 * b);
  }

  lemma {:induction false} XorScale(k: nat, a: nat, b: nat)
    ensures Xor(Pow2(k) * a, Pow2(k) * b) == Pow2(k) * Xor(a, b)
  {
    if k > 0 {
      hide Xor;
      XorScale(k - 1, a, b);
      XorDouble(Pow2(k - 1) * a, Pow2(k - 1) * b);
      MulDouble(k, a);
      MulDouble(k, b);
      MulDouble(k, Xor(a, b));
    }
  }

  lemma MulDouble(k: nat, x: nat)
    requires k > 0
    ensures Pow2(k) * x == 2 * (Pow2(k - 1) * x)
  {
  }

  lemma TimesDouble(q: nat)
    ensures Times(2 * q, G) == 2 * Times(q, G)
  {
    XorZero(2 * Times(q, G));
  }

  lemma {:induction false} TimesXor(p: nat, q: nat)
    ensures Times(Xor(p, q), G) == Xor(Times(p, G), Times(q, G))
    decreases p + q
  {
    if p + q > 0 {
      TimesXor(p / 2, q / 2);
      XorHalf(p, q);
      TimesStep(p);
      TimesStep(q);
      TimesStep(Xor(p, q));
      var a, b := Times(p / 2, G), Times(q / 2, G);
      XorDouble(a, b);
      XorExchange(2 * a, Odd(p), 2 * b, Odd(q));
      XorZero(G);
      XorSelf(G);
    }
  }

  function Odd(q: nat): nat { if q % 2 == 1 then G else 0 }

  lemma TimesStep(q: nat)
    ensures Times(q, G) == Xor(2 * Times(q / 2, G), Odd(q))
  {
  }

  lemma CongruentTwice(a: nat, b: nat, c: nat)
    requires Congruent(a, b) && Congruent(b, c)
    ensures Congruent(a, c)
  {
    var p: nat :| Xor(a, b) == Times(p, G);
    var q: nat :| Xor(b, c) == Times(q, G);
    TimesXor(p, q);
    XorAssoc(a, b, Xor(b, c));
    XorAssoc(b, b, c);
    XorSelf(b);
    XorZero(c);
    assert Xor(a, c) == Times(Xor(p, q), G);
  }

  lemma CongruentDouble(a: nat, b: nat, c: nat)
    requires Congruent(a, b)
    ensures Congruent(Xor(2 * a, c), Xor(2 * b, c))
  {
    var q: nat :| Xor(a, b) == Times(q, G);
    XorExchange(2 * a, c, 2 * b, c);
    XorSelf(c);
    XorDouble(a, b);
    XorZero(2 * Xor(a, b));
    TimesDouble(q);
    assert Xor(Xor(2 * a, c), Xor(2 * b, c)) == Times(2 * q, G);
  }

  /** A nonzero multiple of the polynomial has degree 32 at least. */
  lemma {:induction false} MultipleIsLong(q: nat)
    ensures q > 0 ==> Times(q, G) >= 0x1_0000_0000
  {
    if q > 1 {
      MultipleIsLong(q / 2);
      TimesStep(q);
      XorHalf(2 * Times(q / 2, G), Odd(q));
      XorAbove(Times(q / 2, G), Odd(q));
    } else if q == 1 {
      assert Times(0, G) == 0;
      XorZero(G);
    }
  }

  /** Doubling moves a long number out of reach of the polynomial's top bit. */
  lemma XorAbove(t: nat, g: nat)
    requires t >= 0x1_0000_0000 && g <= G
    ensures Xor(2 * t, g) >= 0x1_0000_0000
  {
    XorWords(2 * t, g);
    assert 2 * t / 0x1_0000_0000 >= 2 && g / 0x1_0000_0000 <= 1;
    XorHalf(2 * t / 0x1_0000_0000, g / 0x1_0000_0000);
    XorZero(2 * t / 0x1_0000_0000 / 2);
  }

  lemma {:induction false} XorIsZero(a: nat, b: nat)
    requires Xor(a, b) == 0
    ensures a == b
    decreases a + b
  {
    if a + b > 0 {
      XorHalf(a, b);
      XorIsZero(a / 2, b / 2);
    }
  }

  /** So there is one remainder below 2^32. */
  lemma RemainderIsUnique(a: nat, b: nat)
    requires a < 0x1_0000_0000 && b < 0x1_0000_0000 && Congruent(a, b)
    ensures a == b
  {
    var q: nat :| Xor(a, b) == Times(q, G);
    XorBound32(a, b);
    MultipleIsLong(q);
    XorIsZero(a, b);
  }

  // -------------------------------------------------------------- numbers digit by digit

  datatype Nibble = Nibble(b3: bool, b2: bool, b1: bool, b0: bool)

  /** Eight hexadecimal digits. */
  datatype Octet = Octet(n7: Nibble, n6: Nibble, n5: Nibble, n4: Nibble, n3: Nibble, n2: Nibble, n1: Nibble, n0: Nibble)

  const X0 := Nibble(false, false, false, false)
  const X1 := Nibble(false, false, false, true)
  const X2 := Nibble(false, false, true, false)
  const X3 := Nibble(false, false, true, true)
  const X4 := Nibble(false, true, false, false)
  const X5 := Nibble(false, true, false, true)
  const X6 := Nibble(false, true, true, false)
  const X7 := Nibble(false, true, true, true)
  const X8 := Nibble(true, false, false, false)
  const X9 := Nibble(true, false, false, true)
  const XA := Nibble(true, false, true, false)
  const XB := Nibble(true, false, true, true)
  const XC := Nibble(true, true, false, false)
  const XD := Nibble(true, true, false, true)
  const XE := Nibble(true, true, true, false)
  const XF := Nibble(true, true, true, true)

  function One(b: bool): nat { if b then 1 else 0 }

  function Num(n: Nibble): nat {
    (if n.b3 then 8 else 0) + (if n.b2 then 4 else 0) + (if n.b1 then 2 else 0) + (if n.b0 then 1 else 0)
  }

  /** A digit behind a number. */
  function Up(n: Nibble, rest: nat): nat { 0x10 * rest + Num(n) }

  function Val(w: Octet): nat {
    Up(w.n0, Up(w.n1, Up(w.n2, Up(w.n3, Up(w.n4, Up(w.n5, Up(w.n6, Up(w.n7, 0))))))))
  }

  function XorNib(n: Nibble, m: Nibble): Nibble {
    Nibble(n.b3 != m.b3, n.b2 != m.b2, n.b1 != m.b1, n.b0 != m.b0)
  }

  function XorOct(v: Octet, w: Octet): Octet {
    Octet(XorNib(v.n7, w.n7), XorNib(v.n6, w.n6), XorNib(v.n5, w.n5), XorNib(v.n4, w.n4),
          XorNib(v.n3, w.n3), XorNib(v.n2, w.n2), XorNib(v.n1, w.n1), XorNib(v.n0, w.n0))
  }

  /** A digit without its low bit, behind a bit. */
  function Shr(top: bool, n: Nibble): Nibble { Nibble(top, n.b3, n.b2, n.b1) }

  function ShrOct(w: Octet): Octet {
    Octet(Shr(false, w.n7), Shr(w.n7.b0, w.n6), Shr(w.n6.b0, w.n5), Shr(w.n5.b0, w.n4),
          Shr(w.n4.b0, w.n3), Shr(w.n3.b0, w.n2), Shr(w.n2.b0, w.n1), Shr(w.n1.b0, w.n0))
  }

  lemma XorBehind(x: nat, y: nat, z: nat, a: bool, b: bool, n: nat, m: nat, r: nat)
    requires n == 2 * x + One(a) && m == 2 * y + One(b) && r == 2 * z + One(a != b) && Xor(x, y) == z
    ensures Xor(n, m) == r
  {
    hide Xor;
    XorHalf(n, m);
  }

  lemma XorPairs(a: bool, b: bool, c: bool, d: bool)
    ensures Xor(2 * One(a) + One(b), 2 * One(c) + One(d)) == 2 * One(a != c) + One(b != d)
  {
    hide Xor;
    XorBit(One(a), One(c));
    XorBehind(One(a), One(c), One(a != c), b, d, 2 * One(a) + One(b), 2 * One(c) + One(d),
              2 * One(a != c) + One(b != d));
  }

  lemma XorDigits(n: Nibble, m: Nibble)
    ensures Xor(Num(n), Num(m)) == Num(XorNib(n, m))
  {
    hide Xor;
    XorPairs(n.b3, n.b2, m.b3, m.b2);
    XorPairs(n.b1, n.b0, m.b1, m.b0);
    XorQuarters(Num(n), Num(m));
  }

  lemma XorUp(n: Nibble, x: nat, m: Nibble, y: nat)
    ensures Xor(Up(n, x), Up(m, y)) == Up(XorNib(n, m), Xor(x, y))
  {
    hide Xor;
    XorDigits(n, m);
    XorNibbles(Up(n, x), Up(m, y));
  }

  lemma XorVal(v: Octet, w: Octet)
    ensures Xor(Val(v), Val(w)) == Val(XorOct(v, w))
  {
    hide Xor, Up, XorNib;
    XorZero(0);
    XorUp(v.n7, 0, w.n7, 0);
    var x7, y7 := Up(v.n7, 0), Up(w.n7, 0);
    XorUp(v.n6, x7, w.n6, y7);
    var x6, y6 := Up(v.n6, x7), Up(w.n6, y7);
    XorUp(v.n5, x6, w.n5, y6);
    var x5, y5 := Up(v.n5, x6), Up(w.n5, y6);
    XorUp(v.n4, x5, w.n4, y5);
    var x4, y4 := Up(v.n4, x5), Up(w.n4, y5);
    XorUp(v.n3, x4, w.n3, y4);
    var x3, y3 := Up(v.n3, x4), Up(w.n3, y4);
    XorUp(v.n2, x3, w.n2, y3);
    var x2, y2 := Up(v.n2, x3), Up(w.n2, y3);
    XorUp(v.n1, x2, w.n1, y2);
    XorUp(v.n0, Up(v.n1, x2), w.n0, Up(w.n1, y2));
  }

  lemma HalfUp(n: Nibble, x: nat, odd: bool)
    requires odd == (x % 2 == 1)
    ensures Up(n, x) / 2 == Up(Shr(odd, n), x / 2) && (Up(n, x) % 2 == 1) == n.b0
  {
  }

  lemma HalfVal(w: Octet)
    ensures Val(w) / 2 == Val(ShrOct(w)) && (Val(w) % 2 == 1) == w.n0.b0
  {
    hide Up, Shr;
    HalfUp(w.n7, 0, false);
    var x7 := Up(w.n7, 0);
    HalfUp(w.n6, x7, w.n7.b0);
    var x6 := Up(w.n6, x7);
    HalfUp(w.n5, x6, w.n6.b0);
    var x5 := Up(w.n5, x6);
    HalfUp(w.n4, x5, w.n5.b0);
    var x4 := Up(w.n4, x5);
    HalfUp(w.n3, x4, w.n4.b0);
    var x3 := Up(w.n3, x4);
    HalfUp(w.n2, x3, w.n3.b0);
    var x2 := Up(w.n2, x3);
    HalfUp(w.n1, x2, w.n2.b0);
    HalfUp(w.n0, Up(w.n1, x2), w.n1.b0);
  }

  const POLY_BITS := Octet(X8, X2, XF, X6, X3, XB, X7, X8)

  // -------------------------------------------------------------------------- the reversed bits

  /** The constant of the code has the coefficients below x^32 in reversed order. */
  lemma PolyIsCastagnoli()
    ensures G == Pow2(32) + Pow2(28) + Pow2(27) + Pow2(26) + Pow2(25) + Pow2(23) + Pow2(22) + Pow2(20) + Pow2(19) +
                 Pow2(18) + Pow2(14) + Pow2(13) + Pow2(11) + Pow2(10) + Pow2(9) + Pow2(8) + Pow2(6) + Pow2(0)
    ensures G == Pow2(32) + Reversed(32, POLY) && POLY == Reversed(32, G - Pow2(32))
  {
    hide Reversed;
    PolyReversed();
    Pow2Values();
    ReversedTwice(32, POLY);
    assert Pow2(28) == 0x1000_0000 && Pow2(25) == 0x200_0000 && Pow2(22) == 0x40_0000 && Pow2(18) == 0x4_0000;
    assert Pow2(13) == 0x2000 && Pow2(10) == 0x400 && Pow2(6) == 0x40;
  }

  /** A digit at a time. */
  lemma ReversedUp(k: nat, n: Nibble, y: nat)
    ensures Reversed(k + 4, Up(n, y)) == Num(Mirrored(n)) * Pow2(k) + Reversed(k, y)
  {
    var x := 4 * y + 2 * One(n.b3) + One(n.b2);
    assert Up(n, y) == 4 * x + 2 * One(n.b1) + One(n.b0);
    var a, b := 2 * One(n.b0) + One(n.b1), 2 * One(n.b2) + One(n.b3);
    assert Num(Mirrored(n)) == 4 * a + b && Pow2(k + 2) == 4 * Pow2(k);
    hide Reversed, Pow2, One, Up, Num;
    ReversedPair(k, y, n.b3, n.b2);
    ReversedPair(k + 2, x, n.b1, n.b0);
    Factored(a, b, Pow2(k));
  }

  function Mirrored(n: Nibble): Nibble { Nibble(n.b0, n.b1, n.b2, n.b3) }

  lemma ReversedPair(k: nat, y: nat, b1: bool, b0: bool)
    ensures Reversed(k + 2, 4 * y + 2 * One(b1) + One(b0)) == (2 * One(b0) + One(b1)) * Pow2(k) + Reversed(k, y)
  {
    assert Pow2(k + 1) == 2 * Pow2(k);
    hide Reversed, Pow2;
    ReversedBehind(k, y, b1);
    ReversedBehind(k + 1, 2 * y + One(b1), b0);
  }

  lemma Factored(a: nat, b: nat, p: nat)
    ensures a * (4 * p) + b * p == (4 * a + b) * p
  {
  }

  lemma ReversedBehind(k: nat, x: nat, b: bool)
    ensures Reversed(k + 1, 2 * x + One(b)) == One(b) * Pow2(k) + Reversed(k, x)
  {
    assert (2 * x + One(b)) % 2 == One(b) && (2 * x + One(b)) / 2 == x;
  }

  lemma Pow2Nibbles()
    ensures Pow2(28) == 0x1000_0000 && Pow2(20) == 0x10_0000 && Pow2(12) == 0x1000 && Pow2(4) == 0x10 && Pow2(0) == 1
  {
    Pow2Byte(4);
    Pow2Byte(12);
    Pow2Byte(20);
  }

  /** The digits, and the bits of each, in reversed order. */
  function MirroredOct(w: Octet): Octet {
    Octet(Mirrored(w.n0), Mirrored(w.n1), Mirrored(w.n2), Mirrored(w.n3),
          Mirrored(w.n4), Mirrored(w.n5), Mirrored(w.n6), Mirrored(w.n7))
  }

  lemma ReversedVal(w: Octet)
    ensures Reversed(32, Val(w)) == Val(MirroredOct(w))
  {
    hide Reversed, Pow2, Num, Mirrored;
    Pow2Values();
    Pow2Nibbles();
    NothingReversed();
    var x7 := Up(w.n7, 0);
    var x6 := Up(w.n6, x7);
    var x5 := Up(w.n5, x6);
    var x4 := Up(w.n4, x5);
    var x3 := Up(w.n3, x4);
    var x2 := Up(w.n2, x3);
    var x1 := Up(w.n1, x2);
    ReversedUp(28, w.n0, x1);
    ReversedUp(24, w.n1, x2);
    ReversedUp(20, w.n2, x3);
    ReversedUp(16, w.n3, x4);
    ReversedUp(12, w.n4, x5);
    ReversedUp(8, w.n5, x6);
    ReversedUp(4, w.n6, x7);
    ReversedUp(0, w.n7, 0);
  }

  lemma PolyReversed()
    ensures Reversed(32, POLY) == 0x1edc_6f41
  {
    ReversedVal(POLY_BITS);
    PolyValue();
    assert MirroredOct(POLY_BITS) == Octet(X1, XE, XD, XC, X6, XF, X4, X1);
  }

  lemma PolyValue()
    ensures Val(POLY_BITS) == POLY && Val(Octet(X1, XE, XD, XC, X6, XF, X4, X1)) == 0x1edc_6f41
  {
  }

  lemma NothingReversed()
    ensures Reversed(0, 0) == 0
  {
  }

  lemma ReversedStep(k: nat, x: nat)
    requires k > 0
    ensures Reversed(k, x) == x % 2 * Pow2(k - 1) + Reversed(k - 1, x / 2)
  {
  }

  lemma ReversedFits(k: nat, x: nat)
    ensures Reversed(k, x) < Pow2(k)
  {
  }

  lemma {:induction false} ReversedXor(k: nat, x: nat, y: nat)
    ensures Reversed(k, Xor(x, y)) == Xor(Reversed(k, x), Reversed(k, y))
  {
    hide Xor, Pow2;
    if k == 0 {
      XorZero(0);
    } else {
      XorHalf(x, y);
      ReversedXor(k - 1, x / 2, y / 2);
      ReversedStep(k, x);
      ReversedStep(k, y);
      ReversedStep(k, Xor(x, y));
      hide Reversed;
      ReversedFits(k - 1, x / 2);
      ReversedFits(k - 1, y / 2);
      TopXor(k - 1, x % 2, Reversed(k - 1, x / 2), y % 2, Reversed(k - 1, y / 2));
      XorBit(x % 2, y % 2);
    }
  }

  lemma TopDouble(k: nat, a: nat)
    requires k > 0
    ensures a * Pow2(k) == 2 * (a * Pow2(k - 1))
  {
  }

  /** A bit above a number. */
  lemma {:induction false} TopXor(k: nat, a: nat, x: nat, b: nat, y: nat)
    requires a < 2 && b < 2 && x < Pow2(k) && y < Pow2(k)
    ensures Xor(a * Pow2(k) + x, b * Pow2(k) + y) == Xor(a, b) * Pow2(k) + Xor(x, y)
  {
    hide Xor;
    if k == 0 {
      XorZero(0);
      assert x == 0 && y == 0 && Pow2(k) == 1;
    } else {
      TopDouble(k, a);
      TopDouble(k, b);
      TopDouble(k, Xor(a, b));
      TopXor(k - 1, a, x / 2, b, y / 2);
      TopStep(a * Pow2(k), a * Pow2(k - 1), x, b * Pow2(k), b * Pow2(k - 1), y,
              Xor(a, b) * Pow2(k), Xor(a, b) * Pow2(k - 1));
    }
  }

  lemma TopStep(u': nat, u: nat, x: nat, v': nat, v: nat, y: nat, w': nat, w: nat)
    requires u' == 2 * u && v' == 2 * v && w' == 2 * w && Xor(u + x / 2, v + y / 2) == w + Xor(x / 2, y / 2)
    ensures Xor(u' + x, v' + y) == w' + Xor(x, y)
  {
    hide Xor;
    XorHalf(u' + x, v' + y);
    XorHalf(x, y);
    assert (u' + x) / 2 == u + x / 2 && (v' + y) / 2 == v + y / 2;
  }

  lemma {:induction false} ReversedShort(k: nat, x: nat)
    requires x < Pow2(k)
    ensures Reversed(k + 1, x) == 2 * Reversed(k, x)
  {
    if k > 0 {
      ReversedShort(k - 1, x / 2);
      assert 2 * (x % 2 * Pow2(k - 1)) == x % 2 * Pow2(k);
    }
  }

  /** The register without its low bit, reversed, is the reversed register moved up. */
  lemma HalfReversed(c: Word)
    ensures Reversed(32, c / 2) == 2 * Reversed(31, c / 2) < Pow2(32)
    ensures 2 * Reversed(32, c) == c % 2 * Pow2(32) + 2 * Reversed(31, c / 2)
  {
    Pow2Values();
    assert Pow2(31) == 0x8000_0000;
    ReversedShort(31, c / 2);
    assert Reversed(32, c) == c % 2 * Pow2(31) + Reversed(31, c / 2);
    TopDouble(32, c % 2);
  }

  /** One clock of the register is multiplication by x, plus the input bit at x^32, reduced. */
  lemma ClockIsTimesX(c: Word, bit: bool)
    ensures Congruent(Reversed(32, ClockBit(c, bit)), Xor(2 * Reversed(32, c), if bit then Pow2(32) else 0))
  {
    hide Reversed, Congruent, Xor, Pow2;
    var in1 := if bit then 1 else 0;
    XorHalf(c, 1);
    XorZero(c / 2);
    HalfReversed(c);
    var y := 2 * Reversed(31, c / 2);
    var top := if (c % 2 == 1) != bit then 1 else 0;
    XorBit(c % 2, in1);
    TopXor(32, c % 2, y, in1, 0);
    XorZero(y);
    assert Xor(2 * Reversed(32, c), if bit then Pow2(32) else 0) == top * Pow2(32) + y;
    PolyReversed();
    ReversedXor(32, c / 2, POLY);
    ReducedOnce(y, top);
  }

  /** Taking the top bit away is taking the polynomial away. */
  lemma ReducedOnce(x: nat, top: nat)
    requires top < 2 && x < Pow2(32)
    ensures Congruent(Xor(x, if top == 1 then 0x1edc_6f41 else 0), top * Pow2(32) + x)
  {
    hide Xor, Times, Pow2;
    Pow2Values();
    var low := if top == 1 then 0x1edc_6f41 else 0;
    XorBound32(x, low);
    TopXor(32, 0, Xor(x, low), top, x);
    XorZero(top);
    XorComm(x, low);
    XorAssoc(low, x, x);
    XorSelf(x);
    XorZero(low);
    TimesBit(top);
    assert Xor(Xor(x, low), top * Pow2(32) + x) == Times(top, G);
  }

  lemma TimesBit(q: nat)
    requires q < 2
    ensures Times(q, G) == q * G
  {
    XorZero(G);
    assert Times(0, G) == 0;
  }

  // ---------------------------------------------------------------------------- the remainder

  lemma ClockBitsLast(c: nat, bits: seq<bool>, bit: bool)
    ensures ClockBits(c, bits + [bit]) == ClockBit(ClockBits(c, bits), bit)
  {
    ClockBitsAppend(c, bits, [bit]);
    assert [bit][1..] == [];
    assert ClockBits(ClockBits(c, bits), [bit]) == ClockBits(ClockBit(ClockBits(c, bits), bit), []);
  }

  /** What the register stands for after some bits: what it held times x^n, and the bits times x^32. */
  function Dividend(c: nat, bits: seq<bool>): nat {
    Xor(Pow2(|bits|) * Reversed(32, c), Pow2(32) * Poly(bits))
  }

  lemma DividendStep(c: nat, bits: seq<bool>, bit: bool)
    ensures Dividend(c, bits + [bit]) == Xor(2 * Dividend(c, bits), if bit then Pow2(32) else 0)
  {
    hide Reversed, Xor, Pow2;
    var all, n, p, r := bits + [bit], |bits|, Poly(bits), Reversed(32, c);
    var low := if bit then 1 else 0;
    assert all[..n] == bits;
    assert Poly(all) == 2 * p + low;
    hide Poly;
    TopDouble(n + 1, r);
    MulComm(Pow2(n), r);
    MulComm(Pow2(n + 1), r);
    LastBit(p, low);
    DividedStep(Pow2(n + 1) * r, Pow2(n) * r, Pow2(32) * Poly(all), Pow2(32) * p, Pow2(32) * low);
  }

  lemma DividedStep(a': nat, a: nat, b': nat, b: nat, low: nat)
    requires a' == 2 * a && b' == Xor(2 * b, low)
    ensures Xor(a', b') == Xor(2 * Xor(a, b), low)
  {
    hide Xor;
    XorAssoc(2 * a, 2 * b, low);
    XorDouble(a, b);
  }

  lemma MulComm(a: nat, b: nat)
    ensures a * b == b * a
  {
  }

  lemma MulTwice(a: nat, b: nat)
    ensures a * (2 * b) == 2 * (a * b)
  {
  }

  lemma LastBit(p: nat, low: nat)
    requires low < 2
    ensures Pow2(32) * (2 * p + low) == Xor(2 * (Pow2(32) * p), Pow2(32) * low)
  {
    hide Xor, Pow2;
    XorHalf(2 * p, low);
    XorZero(p);
    assert low / 2 == 0;
    XorScale(32, 2 * p, low);
    MulTwice(Pow2(32), p);
  }

  lemma {:induction false} RegisterIsRemainder(c: Word, bits: seq<bool>)
    ensures Congruent(Reversed(32, ClockBits(c, bits)), Dividend(c, bits))
    decreases |bits|
  {
    hide Reversed, ClockBit;
    if bits == [] {
      assert Pow2(0) * Reversed(32, c) == Reversed(32, c) && Pow2(32) * Poly(bits) == 0;
      XorZero(Reversed(32, c));
      XorSelf(Reversed(32, c));
      assert Times(0, G) == 0;
    } else {
      var n := |bits| - 1;
      var front, bit := bits[..n], bits[n];
      assert bits == front + [bit];
      RegisterIsRemainder(c, front);
      ClockBitsLast(c, front, bit);
      ClockBitsBound(c, front);
      var d, x := ClockBits(c, front), if bit then Pow2(32) else 0;
      ClockIsTimesX(d, bit);
      CongruentDouble(Reversed(32, d), Dividend(c, front), x);
      DividendStep(c, front, bit);
      CongruentTwice(Reversed(32, ClockBit(d, bit)), Xor(2 * Reversed(32, d), x), Dividend(c, bits));
    }
  }

  lemma {:induction false} ReversedTwice(k: nat, x: nat)
    requires x < Pow2(k)
    ensures Reversed(k, Reversed(k, x)) == x
  {
    if k > 0 {
      var y := Reversed(k - 1, x / 2);
      ReversedTwice(k - 1, x / 2);
      ReversedTop(k - 1, x % 2, y);
    }
  }

  lemma {:induction false} ReversedTop(k: nat, a: nat, y: nat)
    requires a < 2 && y < Pow2(k)
    ensures Reversed(k + 1, a * Pow2(k) + y) == 2 * Reversed(k, y) + a
  {
    if k > 0 {
      TopDouble(k, a);
      TopDouble(k, y % 2);
      ReversedTop(k - 1, a, y / 2);
      var u := a * Pow2(k - 1);
      assert (2 * u + y) / 2 == u + y / 2 && (2 * u + y) % 2 == y % 2;
    } else {
      assert Reversed(1, a) == a;
    }
  }

  /** The CRC of a message, continued from another: the one word whose complement, read as a
      polynomial, is congruent to the message times x^32 and the complement of the earlier CRC in
      front of it. The earliest bit is the coefficient of the highest power. */
  lemma CrcIsRemainder(crc: Word, data: seq<Byte>, r: Word)
    ensures r == Crc32c(crc, data) <==>
            Congruent(Reversed(32, Not(r)), Dividend(Not(crc), BitsOf(data)))
  {
    hide Reversed, Dividend, ClockBits, BitsOf, Congruent;
    var c, d := ClockBits(Not(crc), BitsOf(data)), Dividend(Not(crc), BitsOf(data));
    ClockBitsBound(Not(crc), BitsOf(data));
    RegisterIsRemainder(Not(crc), BitsOf(data));
    if Congruent(Reversed(32, Not(r)), d) {
      CongruentBack(Reversed(32, c), d);
      CongruentTwice(Reversed(32, Not(r)), d, Reversed(32, c));
      Pow2Values();
      ReversedBound(Not(r));
      ReversedBound(c);
      RemainderIsUnique(Reversed(32, Not(r)), Reversed(32, c));
      ReversedTwice(32, Not(r));
      ReversedTwice(32, c);
    }
  }

  lemma ReversedBound(x: nat)
    ensures Reversed(32, x) < Pow2(32)
  {
  }

  lemma CongruentBack(a: nat, b: nat)
    requires Congruent(a, b)
    ensures Congruent(b, a)
  {
    XorComm(a, b);
  }

  // ------------------------------------------------------------------------------ the residue

  /** The four bytes of a word, low-order byte first. */
  function WordBytes(w: Word): seq<Byte> {
    [w % 0x100, w / 0x100 % 0x100, w / 0x1_0000 % 0x100, w / 0x100_0000]
  }

  /** Feeding a word's bytes is adding the word to the register. */
  lemma WordFed(c: nat, w: Word)
    ensures Register(c, WordBytes(w)) == Zeros(32, Xor(c, w))
  {
    var b := WordBytes(w);
    RegisterIsBits(c, b);
    WordBits(w);
    Pow2Values();
    ZerosInput(32, c, w);
  }

  /** w shifted down j bits. */
  function Halved(j: nat, w: nat): nat { if j == 0 then w else Halved(j - 1, w / 2) }

  lemma {:induction false} LowBitsSplit(j: nat, k: nat, w: nat)
    ensures LowBits(j + k, w) == LowBits(j, w) + LowBits(k, Halved(j, w))
  {
    if j > 0 { LowBitsSplit(j - 1, k, w / 2); }
  }

  lemma HalvedTwo(j: nat, w: nat)
    ensures Halved(j + 2, w) == Halved(j, w / 4)
  {
    assert Halved(j + 2, w) == Halved(j + 1, w / 2) && w / 2 / 2 == w / 4;
  }

  lemma HalvedByte(w: nat)
    ensures Halved(8, w) == w / 0x100
  {
    HalvedTwo(6, w);
    HalvedTwo(4, w / 4);
    HalvedTwo(2, w / 4 / 4);
    HalvedTwo(0, w / 4 / 4 / 4);
    assert Halved(0, w / 4 / 4 / 4 / 4) == w / 4 / 4 / 4 / 4;
    hide Halved;
    assert w / 4 / 4 == w / 0x10 && w / 0x10 / 4 == w / 0x40 && w / 0x40 / 4 == w / 0x100;
  }

  /** Bits further up do not matter. */
  lemma {:induction false} LowBitsBelow(k: nat, x: nat, q: nat)
    ensures LowBits(k, x + Pow2(k) * q) == LowBits(k, x)
  {
    if k > 0 {
      MulDouble(k, q);
      var u := Pow2(k - 1) * q;
      assert (x + 2 * u) % 2 == x % 2 && (x + 2 * u) / 2 == x / 2 + u;
      LowBitsBelow(k - 1, x / 2, q);
    }
  }

  lemma LowBitsCut(w: nat)
    ensures LowBits(8, w % 0x100) == LowBits(8, w)
  {
    hide LowBits;
    Pow2Values();
    LowBitsBelow(8, w % 0x100, w / 0x100);
  }

  lemma WordBits(w: Word)
    ensures BitsOf(WordBytes(w)) == LowBits(32, w)
  {
    hide LowBits;
    var b := WordBytes(w);
    Pow2Values();
    HalvedByte(w);
    HalvedByte(w / 0x100);
    HalvedByte(w / 0x1_0000);
    LowBitsSplit(8, 24, w);
    LowBitsSplit(8, 16, w / 0x100);
    LowBitsSplit(8, 8, w / 0x1_0000);
    assert w / 0x100 / 0x100 == w / 0x1_0000 && w / 0x1_0000 / 0x100 == w / 0x100_0000;
    LowBitsCut(w);
    LowBitsCut(w / 0x100);
    LowBitsCut(w / 0x1_0000);
    assert b[1..] == [b[1], b[2], b[3]] && [b[1], b[2], b[3]][1..] == [b[2], b[3]] && [b[2], b[3]][1..] == [b[3]];
    assert [b[3]][1..] == [];
    assert BitsOf([b[3]]) == LowBits(8, b[3]) + [];
    assert BitsOf([b[2], b[3]]) == LowBits(8, b[2]) + LowBits(8, b[3]);
    assert BitsOf([b[1], b[2], b[3]]) == LowBits(8, b[1]) + (LowBits(8, b[2]) + LowBits(8, b[3]));
  }

  lemma {:induction false} XorComplement(k: nat, x: nat)
    requires x < Pow2(k)
    ensures Xor(x, Pow2(k) - 1 - x) == Pow2(k) - 1
  {
    if k == 0 {
      XorZero(0);
    } else {
      XorComplement(k - 1, x / 2);
      XorHalf(x, Pow2(k) - 1 - x);
    }
  }

  // ----- the register, digit by digit

  /** One clock. */
  function TickBits(w: Octet): Octet {
    if w.n0.b0 then XorOct(ShrOct(w), POLY_BITS) else ShrOct(w)
  }

  lemma ClockIsTick(w: Octet)
    ensures Clock(Val(w)) == Val(TickBits(w))
  {
    hide Xor, Val;
    PolyValue();
    HalfVal(w);
    XorVal(ShrOct(w), POLY_BITS);
  }

  function TickByte(w: Octet): Octet {
    TickBits(TickBits(TickBits(TickBits(TickBits(TickBits(TickBits(TickBits(w))))))))
  }

  lemma TwoTicks(n: nat, w: Octet)
    ensures Zeros(n + 2, Val(w)) == Zeros(n, Val(TickBits(TickBits(w))))
  {
    hide Val, Clock, TickBits;
    ClockIsTick(w);
    ClockIsTick(TickBits(w));
    assert Zeros(n + 2, Val(w)) == Zeros(n + 1, Clock(Val(w)));
  }

  lemma ZerosIsTicks(w: Octet)
    ensures Zeros(8, Val(w)) == Val(TickByte(w))
  {
    hide Val, Clock, TickBits;
    var c2 := TickBits(TickBits(w));
    var c4 := TickBits(TickBits(c2));
    var c6 := TickBits(TickBits(c4));
    TwoTicks(6, w);
    TwoTicks(4, c2);
    TwoTicks(2, c4);
    TwoTicks(0, c6);
  }

  const R0 := Octet(XF, XF, XF, XF, XF, XF, XF, XF)
  const R1 := Octet(XA, XD, X8, X2, XA, XC, XA, XE)
  const R2 := Octet(X0, XE, X9, XE, X8, X8, X2, XD)
  const R3 := Octet(X9, XF, X9, XB, X5, XC, X8, X5)
  const R4 := Octet(XB, X7, X9, X8, XB, X4, X3, X8)

  lemma TicksFromOnes()
    ensures TickByte(R0) == R1 && TickByte(R1) == R2 && TickByte(R2) == R3 && TickByte(R3) == R4
  {
  }

  lemma EndsOfResidue()
    ensures Val(R0) == 0xffff_ffff && Val(R4) == 0xb798_b438
  {
  }

  lemma ResidueRegister()
    ensures Zeros(32, 0xffff_ffff) == 0xb798_b438
  {
    hide Zeros, Val, TickByte;
    EndsOfResidue();
    TicksFromOnes();
    ZerosIsTicks(R0);
    ZerosIsTicks(R1);
    ZerosIsTicks(R2);
    ZerosIsTicks(R3);
    ZerosCompose(8, 24, Val(R0));
    ZerosCompose(8, 16, Val(R1));
    ZerosCompose(8, 8, Val(R2));
  }

  /** A message followed by its CRC, low-order byte first, always leaves the same CRC: the residue of
      CRC-32C. */
  lemma ResidueIsConstant(crc: Word, m: seq<Byte>)
    ensures Crc32c(crc, m + WordBytes(Crc32c(crc, m))) == 0x4867_4bc7
  {
    hide Register, Zeros, Crc32c, WordBytes;
    var r := Crc32c(crc, m);
    Crc32cIsRegister(crc, m);
    Crc32cIsRegister(crc, m + WordBytes(r));
    RegisterBound(Not(crc), m);
    var c := Register(Not(crc), m);
    RegisterAppend(Not(crc), m, WordBytes(r));
    WordFed(c, r);
    Pow2Values();
    XorComplement(32, c);
    ResidueRegister();
  }
}
