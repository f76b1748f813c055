/** The x86 form of crc32c.c: three crc32q streams in parallel, recombined with
    lookup tables for "shift over LONG (or SHORT) zero bytes".  The tables come
    from a 32 by 32 matrix over GF(2) built by repeated squaring.  Proved equal
    to the bit-at-a-time definition for every starting value, buffer and
    alignment. */
module Crc32cHardware {
  import opened Basics
  import opened Bits
  import opened Crc32cSpec

  // -------------------------------------------------------------- matrices over GF(2)

  /** Matrix times vector: the rows selected by the set bits of v, added. */
  function Times(m: seq<nat>, v: nat): nat {
    if m == [] then 0 else Xor(if v % 2 == 1 then m[0] else 0, Times(m[1..], v / 2))
  }

  function ShiftLeft(v: nat, i: nat): nat {
    if i == 0 then v else 2 * ShiftLeft(v, i - 1)
  }

  /** m applies n zero bits: row i is what n zero bits make of bit i. */
  ghost predicate IsOperator(m: seq<nat>, n: nat) {
    |m| == 32 && forall i :: 0 <= i < 32 ==> m[i] == Zeros(n, ShiftLeft(1, i))
  }

  lemma {:induction false} ShiftLeftXor(a: nat, b: nat, i: nat)
    ensures ShiftLeft(Xor(a, b), i) == Xor(ShiftLeft(a, i), ShiftLeft(b, i))
  {
    if i > 0 {
      ShiftLeftXor(a, b, i - 1);
      var x, y := ShiftLeft(a, i - 1), ShiftLeft(b, i - 1);
      XorHalf(2 * x, 2 * y);
      assert 2 * x / 2 == x && 2 * y / 2 == y;
    }
  }

  lemma {:induction false} ShiftLeftTwice(v: nat, i: nat)
    ensures ShiftLeft(2 * v, i) == ShiftLeft(v, i + 1)
  {
    if i > 0 { ShiftLeftTwice(v, i - 1); }
  }

  /** Peeling the lowest bit off a shifted number. */
  lemma ShiftLeftPeel(v: nat, i: nat)
    ensures ShiftLeft(v, i) == Xor(ShiftLeft(v % 2, i), ShiftLeft(v / 2, i + 1))
  {
    var h := v / 2;
    XorHalf(v % 2, 2 * h);
    XorZero(h);
    assert Xor(v % 2, 2 * h) == v;
    ShiftLeftXor(v % 2, 2 * h, i);
    ShiftLeftTwice(h, i);
  }

  lemma {:induction false} ShiftLeftZero(i: nat)
    ensures ShiftLeft(0, i) == 0
  {
    if i > 0 { ShiftLeftZero(i - 1); }
  }

  lemma {:induction false} ZerosOfZero(n: nat)
    ensures Zeros(n, 0) == 0
  {
    if n > 0 { ZerosOfZero(n - 1); }
  }

  lemma {:induction false} TimesRows(m: seq<nat>, i: nat, n: nat, v: nat)
    requires v < Pow2(|m|)
    requires forall j :: 0 <= j < |m| ==> m[j] == Zeros(n, ShiftLeft(1, i + j))
    ensures Times(m, v) == Zeros(n, ShiftLeft(v, i))
  {
    if m == [] {
      ShiftLeftZero(i);
      ZerosOfZero(n);
    } else {
      assert forall j :: 0 <= j < |m[1..]| ==> m[1..][j] == m[j + 1] == Zeros(n, ShiftLeft(1, (i + 1) + j));
      TimesRows(m[1..], i + 1, n, v / 2);
      ShiftLeftPeel(v, i);
      ZerosLinear(n, ShiftLeft(v % 2, i), ShiftLeft(v / 2, i + 1));
      ShiftLeftZero(i);
      ZerosOfZero(n);
      assert m[0] == Zeros(n, ShiftLeft(1, i + 0));
    }
  }

  const WORD_BITS: nat := 32

  lemma WordBits()
    ensures Pow2(WORD_BITS) == 0x1_0000_0000
  {
    var k: nat := WORD_BITS - 32;
    Pow2Byte(k); Pow2Byte(k + 8); Pow2Byte(k + 16); Pow2Byte(k + 24);
  }

  /** An operator matrix applied to a word is the zero bits applied to the word. */
  lemma TimesOperator(m: seq<nat>, n: nat, v: Word)
    requires IsOperator(m, n)
    ensures Times(m, v) == Zeros(n, v)
  {
    WordBits();
    TimesRows(m, 0, n, v);
  }

  /** gf2_matrix_times. */
  method MatrixTimes(mat: array<nat>, v: Word) returns (sum: nat)
    requires mat.Length == 32
    ensures sum == Times(mat[..], v)
  {
    hide Xor;
    sum := 0;
    var vec: nat, i := v, 0;
    WordBits();
    XorZero(Times(mat[..], v));
    assert mat[0..] == mat[..];
    while vec != 0
      invariant i <= 32 && vec < Pow2(32 - i)
      invariant Xor(sum, Times(mat[i..], vec)) == Times(mat[..], v)
    {
      var row := if vec % 2 == 1 then mat[i] else 0;
      assert mat[i..][1..] == mat[i + 1..];
      XorAssoc(sum, row, Times(mat[i + 1..], vec / 2));
      XorZero(sum);
      if vec % 2 == 1 {
        sum := Xor(sum, mat[i]);
      }
      vec := vec / 2;
      i := i + 1;
    }
    TimesZero(mat[i..]);
    XorZero(sum);
  }

  lemma {:induction false} TimesZero(m: seq<nat>)
    ensures Times(m, 0) == 0
  {
    if m != [] {
      TimesZero(m[1..]);
      XorZero(0);
    }
  }

  /** gf2_matrix_square: the operator for n zero bits becomes the one for 2n. */
  method MatrixSquare(square: array<nat>, mat: array<nat>, ghost n: nat)
    requires square.Length == 32 && mat.Length == 32 && square != mat
    requires IsOperator(mat[..], n)
    modifies square
    ensures IsOperator(square[..], 2 * n)
  {
    for i := 0 to 32
      invariant IsOperator(mat[..], n)
      invariant forall j :: 0 <= j < i ==> square[j] == Zeros(2 * n, ShiftLeft(1, j))
    {
      SquareRow(mat[..], n, i);
      square[i] := MatrixTimes(mat, mat[i]);
    }
  }

  lemma SquareRow(m: seq<nat>, n: nat, i: nat)
    requires IsOperator(m, n) && i < 32
    ensures m[i] < 0x1_0000_0000 && Times(m, m[i]) == Zeros(2 * n, ShiftLeft(1, i))
  {
    RowBound(i, n);
    TimesOperator(m, n, m[i]);
    ZerosCompose(n, n, ShiftLeft(1, i));
  }

  lemma RowBound(i: nat, n: nat)
    requires i < 32
    ensures Zeros(n, ShiftLeft(1, i)) < 0x1_0000_0000
  {
    ShiftLeftBound(i);
    WordBits();
    ZerosBound(n, ShiftLeft(1, i));
  }

  lemma {:induction false} ShiftLeftBound(i: nat)
    requires i < WORD_BITS
    ensures ShiftLeft(1, i) < Pow2(WORD_BITS)
  {
    assert ShiftLeft(1, i) == Pow2(i) by { ShiftLeftIsPow2(i); }
    Pow2Monotone(i, WORD_BITS);
  }

  lemma {:induction false} ShiftLeftIsPow2(i: nat)
    ensures ShiftLeft(1, i) == Pow2(i)
  {
    if i > 0 { ShiftLeftIsPow2(i - 1); }
  }

  lemma {:induction false} Pow2Monotone(i: nat, k: nat)
    requires i < k
    ensures Pow2(i) < Pow2(k)
  {
    if i + 1 < k { Pow2Monotone(i, k - 1); }
  }

  lemma {:induction false} ZerosBound(n: nat, c: Word)
    ensures Zeros(n, c) < 0x1_0000_0000
  {
    if n > 0 {
      XorBound32(c / 2, POLY);
      ZerosBound(n - 1, Clock(c));
    }
  }

  /** The largest power of two not above n; 1 for n == 0. */
  function FloorPow2(n: nat): nat {
    if n <= 1 then 1 else 2 * FloorPow2(n / 2)
  }

  lemma {:induction false} FloorPow2OfPower(k: nat)
    ensures FloorPow2(Pow2(k)) == Pow2(k)
  {
    if k > 0 { FloorPow2OfPower(k - 1); }
  }

  lemma {:induction false} FloorPow2Meaning(n: nat)
    requires n > 0
    ensures FloorPow2(n) <= n < 2 * FloorPow2(n)
    ensures exists k: nat :: FloorPow2(n) == Pow2(k)
  {
    if n == 1 {
      assert FloorPow2(n) == Pow2(0);
    } else {
      FloorPow2Meaning(n / 2);
      var k: nat :| FloorPow2(n / 2) == Pow2(k);
      assert FloorPow2(n) == Pow2(k + 1);
    }
  }

  /** b doubled as often as n can be halved before it reaches 0 or 1. */
  function Doubled(b: nat, n: nat): nat
    decreases n
  {
    if n <= 1 then b else Doubled(2 * b, n / 2)
  }

  lemma {:induction false} DoubledTwice(b: nat, n: nat)
    ensures Doubled(2 * b, n) == 2 * Doubled(b, n)
    decreases n
  {
    if n > 1 { DoubledTwice(2 * b, n / 2); }
  }

  lemma {:induction false} DoubledOne(n: nat)
    ensures Doubled(1, n) == FloorPow2(n)
  {
    if n > 1 {
      DoubledTwice(1, n / 2);
      DoubledOne(n / 2);
    }
  }

  lemma DoubledEight(n: nat)
    ensures Doubled(8, n) == 8 * FloorPow2(n)
  {
    DoubledTwice(4, n);
    DoubledTwice(2, n);
    DoubledTwice(1, n);
    DoubledOne(n);
  }

  /** Row i of the operator for one zero bit. */
  lemma OneBitRow(i: nat)
    ensures Zeros(1, ShiftLeft(1, i)) == if i == 0 then POLY else ShiftLeft(1, i - 1)
  {
    hide Xor;
    var bit := ShiftLeft(1, i);
    assert Zeros(1, bit) == Clock(bit) by { assert Zeros(0, Clock(bit)) == Clock(bit); }
    if i == 0 {
      XorZero(POLY);
    } else {
      assert bit == 2 * ShiftLeft(1, i - 1);
    }
  }

  /** The operator for one zero bit. */
  method OneBitOperator() returns (odd: array<nat>)
    ensures fresh(odd) && odd.Length == 32 && IsOperator(odd[..], 1)
  {
    odd := new nat[32];
    odd[0] := POLY;
    var row := 1;
    for n := 1 to 32
      invariant row == ShiftLeft(1, n - 1)
      invariant odd[0] == POLY
      invariant forall j :: 1 <= j < n ==> odd[j] == ShiftLeft(1, j - 1)
    {
      odd[n] := row;
      row := 2 * row;
    }
    forall j | 0 <= j < 32 ensures odd[j] == Zeros(1, ShiftLeft(1, j)) { OneBitRow(j); }
  }

  /** crc32c_zeros_op: the operator for as many zero bytes as the largest power of
      two not above `len0` (for one byte if `len0` is 0). */
  method ZerosOperator(even: array<nat>, len0: nat)
    requires even.Length == 32
    modifies even
    ensures IsOperator(even[..], 8 * FloorPow2(len0))
  {
    hide Zeros, ShiftLeft;
    var odd := OneBitOperator();
    MatrixSquare(even, odd, 1);
    MatrixSquare(odd, even, 2);
    var len := len0;
    ghost var bits: nat := 4;
    DoubledEight(len0);
    while true
      invariant IsOperator(odd[..], bits)
      invariant Doubled(2 * bits, len) == 8 * FloorPow2(len0)
      decreases len
    {
      MatrixSquare(even, odd, bits);
      len := len / 2;
      if len == 0 { return; }
      MatrixSquare(odd, even, 2 * bits);
      bits := 4 * bits;
      len := len / 2;
      if len == 0 { break; }
    }
    for n := 0 to 32
      invariant IsOperator(odd[..], bits)
      invariant forall j :: 0 <= j < n ==> even[j] == odd[j]
    {
      even[n] := odd[n];
    }
    assert even[..] == odd[..];
  }

  // ----------------------------------------------------------------- shift tables

  /** zeros[k][n] is byte value n in position k, shifted over `bytes` zero bytes. */
  ghost predicate IsShiftTable(zeros: array2<nat>, bytes: nat)
    reads zeros
  {
    zeros.Length0 == 4 && zeros.Length1 == 256 &&
    forall n :: 0 <= n < 256 ==>
      zeros[0, n] == Zeros(8 * bytes, n) &&
      zeros[1, n] == Zeros(8 * bytes, n * 0x100) &&
      zeros[2, n] == Zeros(8 * bytes, n * 0x1_0000) &&
      zeros[3, n] == Zeros(8 * bytes, n * 0x100_0000)
  }

  /** crc32c_zeros. */
  method ZerosTables(zeros: array2<nat>, len: nat)
    requires zeros.Length0 == 4 && zeros.Length1 == 256
    modifies zeros
    ensures IsShiftTable(zeros, FloorPow2(len))
  {
    hide Zeros, Times;
    var op := new nat[32];
    ZerosOperator(op, len);
    ghost var m, bits := op[..], 8 * FloorPow2(len);
    for n := 0 to 256
      invariant op[..] == m
      invariant forall j :: 0 <= j < n ==>
        zeros[0, j] == Zeros(bits, j) && zeros[1, j] == Zeros(bits, j * 0x100) &&
        zeros[2, j] == Zeros(bits, j * 0x1_0000) && zeros[3, j] == Zeros(bits, j * 0x100_0000)
    {
      TimesOperator(m, bits, n);
      TimesOperator(m, bits, n * 0x100);
      TimesOperator(m, bits, n * 0x1_0000);
      TimesOperator(m, bits, n * 0x100_0000);
      zeros[0, n] := MatrixTimes(op, n);
      zeros[1, n] := MatrixTimes(op, n * 0x100);
      zeros[2, n] := MatrixTimes(op, n * 0x1_0000);
      zeros[3, n] := MatrixTimes(op, n * 0x100_0000);
    }
  }

  lemma XorByte(x: nat, y: nat)
    ensures Xor(0x100 * x, 0x100 * y) == 0x100 * Xor(x, y)
  {
    XorBytes(0x100 * x, 0x100 * y);
    XorZero(0);
  }

  /** A word is the sum of its four bytes in place. */
  lemma FourBytes(c: Word)
    ensures Xor(c % 0x100, Xor(c / 0x100 % 0x100 * 0x100,
            Xor(c / 0x1_0000 % 0x100 * 0x1_0000, c / 0x100_0000 * 0x100_0000))) == c
  {
    hide Xor;
    var c1, c2, c3 := c / 0x100, c / 0x1_0000, c / 0x100_0000;
    assert c1 / 0x100 == c2 && c2 / 0x100 == c3;
    SplitLowByte(c);
    SplitLowByte(c1);
    SplitLowByte(c2);
    assert c2 == Xor(c2 % 0x100, 0x100 * c3);
    assert 0x100 * c2 == Xor(0x100 * (c2 % 0x100), 0x100 * (0x100 * c3)) by { XorByte(c2 % 0x100, 0x100 * c3); }
    assert 0x100 * c1 == Xor(0x100 * (c1 % 0x100), 0x100 * (0x100 * c2)) by { XorByte(c1 % 0x100, 0x100 * c2); }
    assert 0x100 * (0x100 * c2) == Xor(0x100 * (0x100 * (c2 % 0x100)), 0x100 * (0x100 * (0x100 * c3))) by {
      XorByte(0x100 * (c2 % 0x100), 0x100 * (0x100 * c3));
    }
  }

  /** crc32c_shift: four lookups shift a register value over the table's zero bytes. */
  method Shift(zeros: array2<nat>, crc: Word, ghost bytes: nat) returns (r: nat)
    requires IsShiftTable(zeros, bytes)
    ensures r == Zeros(8 * bytes, crc)
  {
    hide Zeros, Xor;
    var z0, z1 := zeros[0, crc % 0x100], zeros[1, crc / 0x100 % 0x100];
    var z2, z3 := zeros[2, crc / 0x1_0000 % 0x100], zeros[3, crc / 0x100_0000];
    r := Xor(Xor(Xor(z0, z1), z2), z3);
    ghost var n := 8 * bytes;
    ghost var a, b := crc % 0x100, crc / 0x100 % 0x100 * 0x100;
    ghost var c, d := crc / 0x1_0000 % 0x100 * 0x1_0000, crc / 0x100_0000 * 0x100_0000;
    FourBytes(crc);
    ZerosLinear(n, a, Xor(b, Xor(c, d)));
    ZerosLinear(n, b, Xor(c, d));
    ZerosLinear(n, c, d);
    XorAssoc(Xor(z0, z1), z2, z3);
    XorAssoc(z0, z1, Xor(z2, z3));
  }

  // ------------------------------------------------------------- three-way parallel

  const LONG: nat := 8192
  const SHORT: nat := 256

  lemma BlockPowers()
    ensures FloorPow2(LONG) == LONG && FloorPow2(SHORT) == SHORT
  {
    assert FloorPow2(16) == 16;
    assert FloorPow2(256) == 16 * FloorPow2(16);
    assert FloorPow2(4096) == 16 * FloorPow2(256);
  }

  /** The crc32q instruction: the register over eight bytes. */
  function Crc32q(c: nat, buf: seq<Byte>, i: nat): nat
    requires i + 8 <= |buf|
  {
    Register(c, buf[i..i + 8])
  }

  lemma EightMore(c: nat, buf: seq<Byte>, from: nat, i: nat)
    requires from <= i && i + 8 <= |buf|
    ensures Register(c, buf[from..i + 8]) == Crc32q(Register(c, buf[from..i]), buf, i)
  {
    RegisterAppend(c, buf[from..i], buf[i..i + 8]);
    assert buf[from..i + 8] == buf[from..i] + buf[i..i + 8];
  }

  lemma OneMore(c: nat, buf: seq<Byte>, i: nat)
    requires i < |buf|
    ensures Register(c, buf[..i + 1]) == ByteStep(Register(c, buf[..i]), buf[i])
  {
    RegisterAppend(c, buf[..i], [buf[i]]);
    assert buf[..i + 1] == buf[..i] + [buf[i]];
    assert [buf[i]][1..] == [];
  }

  /** The tables crc32c_long and crc32c_short, and the routine that uses them. */
  class Hardware {
    const long: array2<nat>
    const short: array2<nat>

    ghost predicate Valid()
      reads this, long, short
    {
      IsShiftTable(long, LONG) && IsShiftTable(short, SHORT)
    }

    /** crc32c_init_hw. */
    constructor ()
      ensures Valid() && fresh(long) && fresh(short)
    {
      long := new nat[4, 256];
      short := new nat[4, 256];
      new;
      BlockPowers();
      ZerosTables(long, LONG);
      ZerosTables(short, SHORT);
    }

    /** Three blocks at once: three independent streams, then two shifts. */
    method ThreeBlocks(c: Word, buf: seq<Byte>, crc: nat, start: nat, block: nat, zeros: array2<nat>) returns (r: nat)
      requires IsShiftTable(zeros, block)
      requires block > 0 && block % 8 == 0 && start + 3 * block <= |buf|
      requires crc == Register(c, buf[..start])
      ensures r == Register(c, buf[..start + 3 * block])
    {
      hide Register;
      var crc0, crc1, crc2 := crc, 0, 0;
      var next, end := start, start + block;
      StreamsStart(c, buf, start, block);
      while next < end
        invariant start <= next <= end && (end - next) % 8 == 0
        invariant crc0 == Register(c, buf[..next])
        invariant crc1 == Register(0, buf[start + block..next + block])
        invariant crc2 == Register(0, buf[start + 2 * block..next + 2 * block])
      {
        EightMore(c, buf, 0, next);
        assert buf[0..next] == buf[..next] && buf[0..next + 8] == buf[..next + 8];
        EightMore(0, buf, start + block, next + block);
        EightMore(0, buf, start + 2 * block, next + 2 * block);
        crc0 := Crc32q(crc0, buf, next);
        crc1 := Crc32q(crc1, buf, next + block);
        crc2 := Crc32q(crc2, buf, next + 2 * block);
        next := next + 8;
      }
      Combine(c, buf, start + block, block);
      crc0 := Shift(zeros, crc0, block);
      crc0 := Xor(crc0, crc1);
      Combine(c, buf, start + 2 * block, block);
      crc0 := Shift(zeros, crc0, block);
      r := Xor(crc0, crc2);
    }

    lemma StreamsStart(c: nat, buf: seq<Byte>, start: nat, block: nat)
      requires start + 3 * block <= |buf|
      ensures Register(0, buf[start + block..start + block]) == 0
      ensures Register(0, buf[start + 2 * block..start + 2 * block]) == 0
    {
    }

    lemma Combine(c: Word, buf: seq<Byte>, i: nat, block: nat)
      requires i + block <= |buf|
      ensures Register(c, buf[..i]) < 0x1_0000_0000
      ensures Register(c, buf[..i + block]) ==
              Xor(Zeros(8 * block, Register(c, buf[..i])), Register(0, buf[i..i + block]))
    {
      RegisterBound(c, buf[..i]);
      RegisterCombine(c, buf[..i], buf[i..i + block]);
      assert buf[..i + block] == buf[..i] + buf[i..i + block];
    }

    /** crc32c_hw: `address` is the address of the first byte of `buf`. */
    method Crc(crc: Word, buf: seq<Byte>, address: nat) returns (r: Word)
      requires Valid()
      ensures r == Crc32c(crc, buf)
    {
      hide Register;
      var c := Not(crc);
      var crc0, next := BytesToBoundary(c, buf, address);
      while |buf| - next >= LONG * 3
        invariant next <= |buf| && crc0 == Register(c, buf[..next])
      {
        crc0 := ThreeBlocks(c, buf, crc0, next, LONG, long);
        next := next + 3 * LONG;
      }
      while |buf| - next >= SHORT * 3
        invariant next <= |buf| && crc0 == Register(c, buf[..next])
      {
        crc0 := ThreeBlocks(c, buf, crc0, next, SHORT, short);
        next := next + 3 * SHORT;
      }
      crc0 := Remaining(c, buf, crc0, next);
      RegisterBound(c, buf);
      Crc32cIsRegister(crc, buf);
      r := Not(crc0);
    }

    method BytesToBoundary(c: Word, buf: seq<Byte>, address: nat) returns (crc0: nat, next: nat)
      ensures next <= |buf| && crc0 == Register(c, buf[..next])
    {
      crc0, next := c, 0;
      var len: nat := |buf|;
      while len > 0 && (address + next) % 8 != 0
        invariant next + len == |buf|
        invariant crc0 == Register(c, buf[..next])
      {
        OneMore(c, buf, next);
        crc0 := ByteStep(crc0, buf[next]);
        next, len := next + 1, len - 1;
      }
    }

    method Remaining(c: Word, buf: seq<Byte>, start: nat, from: nat) returns (crc0: nat)
      requires from <= |buf| && start == Register(c, buf[..from])
      ensures crc0 == Register(c, buf)
    {
      hide Register, ByteStep;
      crc0 := start;
      var next, len: nat := from, |buf| - from;
      var end := next + (len - len % 8);
      while next < end
        invariant from <= next <= end && (end - next) % 8 == 0
        invariant crc0 == Register(c, buf[..next])
      {
        EightMore(c, buf, 0, next);
        assert buf[0..next] == buf[..next] && buf[0..next + 8] == buf[..next + 8];
        crc0 := Crc32q(crc0, buf, next);
        next := next + 8;
      }
      len := len % 8;
      while len > 0
        invariant next + len == |buf|
        invariant crc0 == Register(c, buf[..next])
      {
        OneMore(c, buf, next);
        crc0 := ByteStep(crc0, buf[next]);
        next, len := next + 1, len - 1;
      }
      assert buf[..next] == buf;
    }
  }
}
