/** CRC-32C (memcached/crc32c.c): the bit-at-a-time definition of section 12.1
    of RFC 3720, and the algebra every fast form of the file rests on.  The
    register is linear over GF(2), so a message can be cut, its pieces shifted
    over zero bytes, and the results recombined with exclusive or. */
module Crc32cSpec {
  import opened Basics
  import opened Bits

  type Word = x: int | 0 <= x < 0x1_0000_0000

  /** The polynomial in reversed bit order (POLY in crc32c.c). */
  const POLY: Word := 0x82f63b78

  /** ~x on 32 bits. */
  function Not(x: Word): Word { 0xffff_ffff - x }

  // ---------------------------------------------------------------- definition

  /** One clock of the shift register with a zero input bit. */
  function Clock(c: nat): nat {
    if c % 2 == 1 then Xor(c / 2, POLY) else c / 2
  }

  /** One clock with an input bit, which enters at the low end of the register. */
  function ClockBit(c: nat, bit: bool): nat {
    Clock(if bit then Xor(c, 1) else c)
  }

  function ClockBits(c: nat, bits: seq<bool>): nat
    decreases |bits|
  {
    if bits == [] then c else ClockBits(ClockBit(c, bits[0]), bits[1..])
  }

  lemma {:induction false} ClockBitsBound(c: Word, bits: seq<bool>)
    ensures ClockBits(c, bits) < 0x1_0000_0000
    decreases |bits|
  {
    if bits != [] {
      XorBound32(c, 1);
      XorBound32(c / 2, POLY);
      XorBound32(Xor(c, 1) / 2, POLY);
      ClockBitsBound(ClockBit(c, bits[0]), bits[1..]);
    }
  }

  /** The low k bits of a number, least significant first. */
  function LowBits(k: nat, b: nat): (bits: seq<bool>)
    ensures |bits| == k
  {
    if k == 0 then [] else [b % 2 == 1] + LowBits(k - 1, b / 2)
  }

  /** The message as a bit string: bytes in order, each least significant bit first. */
  function BitsOf(data: seq<Byte>): seq<bool>
    decreases |data|
  {
    if data == [] then [] else LowBits(8, data[0]) + BitsOf(data[1..])
  }

  /** CRC-32C of `data`, continuing from `crc`: complement, clock every bit in,
      complement.  This is the whole specification. */
  function Crc32c(crc: Word, data: seq<Byte>): Word {
    ClockBitsBound(Not(crc), BitsOf(data));
    Not(ClockBits(Not(crc), BitsOf(data)))
  }

  // ------------------------------------------------------ zero bits and linearity

  /** The register after n zero bits. */
  function Zeros(n: nat, c: nat): nat {
    if n == 0 then c else Zeros(n - 1, Clock(c))
  }

  lemma ClockLinear(a: nat, b: nat)
    ensures Clock(Xor(a, b)) == Xor(Clock(a), Clock(b))
  {
    XorHalf(a, b);
    var x, y := a / 2, b / 2;
    if a % 2 == 1 && b % 2 == 1 {
      XorExchange(x, POLY, y, POLY);
      XorSelf(POLY);
      XorZero(Xor(x, y));
    } else if a % 2 == 1 {
      XorAssoc(x, POLY, y);
      XorComm(POLY, y);
      XorAssoc(x, y, POLY);
    } else if b % 2 == 1 {
      XorAssoc(x, y, POLY);
    }
  }

  lemma {:induction false} ZerosLinear(n: nat, a: nat, b: nat)
    ensures Zeros(n, Xor(a, b)) == Xor(Zeros(n, a), Zeros(n, b))
  {
    if n > 0 {
      ClockLinear(a, b);
      ZerosLinear(n - 1, Clock(a), Clock(b));
    }
  }

  lemma {:induction false} ZerosCompose(m: nat, n: nat, c: nat)
    ensures Zeros(m + n, c) == Zeros(n, Zeros(m, c))
  {
    if m > 0 { ZerosCompose(m - 1, n, Clock(c)); }
  }

  // ------------------------------------------------------------- byte-wise register

  /** The register after one byte: what the crc32b instruction computes. */
  function ByteStep(c: nat, b: Byte): nat {
    Zeros(8, Xor(c, b))
  }

  /** The register after a byte string, without the outer complements. */
  function Register(c: nat, data: seq<Byte>): nat
    decreases |data|
  {
    if data == [] then c else Register(ByteStep(c, data[0]), data[1..])
  }

  lemma {:induction false} ClockBitsAppend(c: nat, a: seq<bool>, b: seq<bool>)
    ensures ClockBits(c, a + b) == ClockBits(ClockBits(c, a), b)
    decreases |a|
  {
    if a == [] {
      assert a + b == b;
    } else {
      assert (a + b)[1..] == a[1..] + b;
      ClockBitsAppend(ClockBit(c, a[0]), a[1..], b);
    }
  }

  /** A register bit and an input bit meet only in the low position. */
  lemma ClockInput(c: nat, w: nat)
    ensures Clock(Xor(c, w)) == Xor(ClockBit(c, w % 2 == 1), w / 2)
  {
    ClockLinear(c, w);
    if w % 2 == 1 {
      ClockLinear(c, 1);
      XorZero(POLY);
      assert Clock(1) == POLY;
      XorComm(w / 2, POLY);
      XorAssoc(Clock(c), POLY, w / 2);
    }
  }

  /** So XOR-ing k input bits in at once is the same as feeding them one by one. */
  lemma {:induction false} ZerosInput(k: nat, c: nat, w: nat)
    requires w < Pow2(k)
    ensures Zeros(k, Xor(c, w)) == ClockBits(c, LowBits(k, w))
  {
    if k == 0 {
      XorZero(c);
    } else {
      ClockInput(c, w);
      ZerosInput(k - 1, ClockBit(c, w % 2 == 1), w / 2);
      assert LowBits(k, w)[1..] == LowBits(k - 1, w / 2);
    }
  }

  /** The byte-wise register is the bit-serial one. */
  lemma {:induction false} RegisterIsBits(c: nat, data: seq<Byte>)
    ensures Register(c, data) == ClockBits(c, BitsOf(data))
    decreases |data|
  {
    if data != [] {
      Pow2Byte(0);
      ZerosInput(8, c, data[0]);
      RegisterIsBits(ByteStep(c, data[0]), data[1..]);
      ClockBitsAppend(c, LowBits(8, data[0]), BitsOf(data[1..]));
    }
  }

  lemma RegisterBound(c: Word, data: seq<Byte>)
    ensures Register(c, data) < 0x1_0000_0000
  {
    RegisterIsBits(c, data);
    ClockBitsBound(c, BitsOf(data));
  }

  lemma Crc32cIsRegister(crc: Word, data: seq<Byte>)
    ensures Crc32c(crc, data) == 0xffff_ffff - Register(Not(crc), data)
  {
    RegisterIsBits(Not(crc), data);
  }

  // -------------------------------------------------------------- cutting a message

  lemma {:induction false} RegisterAppend(c: nat, a: seq<Byte>, b: seq<Byte>)
    ensures Register(c, a + b) == Register(Register(c, a), b)
    decreases |a|
  {
    if a == [] {
      assert a + b == b;
    } else {
      assert (a + b)[1..] == a[1..] + b;
      RegisterAppend(ByteStep(c, a[0]), a[1..], b);
    }
  }

  /** Feeding a message in two pieces, passing the returned value on, gives the
      CRC of the whole. */
  lemma TwoChunks(crc: Word, a: seq<Byte>, b: seq<Byte>)
    ensures Crc32c(Crc32c(crc, a), b) == Crc32c(crc, a + b)
  {
    RegisterIsBits(Not(crc), a);
    RegisterIsBits(Not(crc), a + b);
    RegisterAppend(Not(crc), a, b);
    RegisterIsBits(Register(Not(crc), a), b);
  }

  function Concat(chunks: seq<seq<Byte>>): seq<Byte> {
    if chunks == [] then [] else chunks[0] + Concat(chunks[1..])
  }

  /** The calls of a caller that computes a CRC a chunk at a time. */
  function FeedChunks(crc: Word, chunks: seq<seq<Byte>>): Word
    decreases |chunks|
  {
    if chunks == [] then crc else FeedChunks(Crc32c(crc, chunks[0]), chunks[1..])
  }

  /** Every way of cutting a message gives the same CRC. */
  lemma {:induction false} ChunkingIndependence(crc: Word, chunks: seq<seq<Byte>>)
    ensures FeedChunks(crc, chunks) == Crc32c(crc, Concat(chunks))
    decreases |chunks|
  {
    if chunks != [] {
      ChunkingIndependence(Crc32c(crc, chunks[0]), chunks[1..]);
      TwoChunks(crc, chunks[0], Concat(chunks[1..]));
    }
  }

  // ---------------------------------------------------------- splitting the register

  lemma ByteStepSplit(c: nat, b: Byte)
    ensures ByteStep(c, b) == Xor(Zeros(8, c), ByteStep(0, b))
  {
    ZerosLinear(8, c, b);
    XorZero(b);
  }

  /** Starting from c is starting from 0 and adding c shifted over the message. */
  lemma {:induction false} RegisterSplit(c: nat, data: seq<Byte>)
    ensures Register(c, data) == Xor(Zeros(8 * |data|, c), Register(0, data))
    decreases |data|
  {
    if data == [] {
      XorZero(c);
    } else {
      var rest := data[1..];
      var n := 8 * |rest|;
      var c', d := Zeros(8, c), ByteStep(0, data[0]);
      ByteStepSplit(c, data[0]);
      assert Register(c, data) == Register(Xor(c', d), rest);
      RegisterSplit(Xor(c', d), rest);
      RegisterSplit(d, rest);
      ZerosLinear(n, c', d);
      XorAssoc(Zeros(n, c'), Zeros(n, d), Register(0, rest));
      assert Zeros(8 * |data|, c) == Zeros(n, c') by { ZerosCompose(8, n, c); }
    }
  }

  /** Two adjacent blocks can be computed independently and combined by shifting
      the first over as many zero bytes as the second is long. */
  lemma RegisterCombine(c: nat, a: seq<Byte>, b: seq<Byte>)
    ensures Register(c, a + b) == Xor(Zeros(8 * |b|, Register(c, a)), Register(0, b))
  {
    RegisterAppend(c, a, b);
    RegisterSplit(Register(c, a), b);
  }

  // ----------------------------------------------------------------- table identities

  /** Zero bits below a number only move it down. */
  lemma {:induction false} ZerosShift(k: nat, c: nat)
    ensures Zeros(k, Pow2(k) * c) == c
  {
    if k > 0 {
      assert Pow2(k) * c == 2 * (Pow2(k - 1) * c);
      assert Clock(Pow2(k) * c) == Pow2(k - 1) * c;
      ZerosShift(k - 1, c);
    }
  }

  lemma SplitLowByte(c: nat)
    ensures Xor(c % 0x100, 0x100 * (c / 0x100)) == c
  {
    var lo, hi := c % 0x100, 0x100 * (c / 0x100);
    assert lo / 0x100 == 0 && hi % 0x100 == 0 && hi / 0x100 == c / 0x100;
    XorZero(lo);
    XorZero(c / 0x100);
    assert Xor(lo, hi) % 0x100 == lo && Xor(lo, hi) / 0x100 == c / 0x100 by { XorBytes(lo, hi); }
  }

  /** One byte table drives the register: the low byte goes through the table,
      the rest only moves down. */
  lemma ZerosByTable(c: nat)
    ensures Zeros(8, c) == Xor(Zeros(8, c % 0x100), c / 0x100)
  {
    SplitLowByte(c);
    ZerosLinear(8, c % 0x100, 0x100 * (c / 0x100));
    Pow2Byte(0);
    ZerosShift(8, c / 0x100);
  }
}
