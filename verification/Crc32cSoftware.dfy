/** The two software forms of crc32c.c, slicing-by-8 for little-endian and for
    big-endian machines, proved equal to the bit-at-a-time definition for every
    starting value, buffer and alignment. */
module Crc32cSoftware {
  import opened Basics
  import opened Bits
  import opened Crc32cSpec

  // --------------------------------------------------------------- bytes of a word

  /** (x >> 8k) & 0xff.  (The code leaves the mask out for the top byte.) */
  function ByteAt(k: nat, x: nat): Byte {
    if k == 0 then x % 0x100 else ByteAt(k - 1, x / 0x100)
  }

  /** The value of a byte string, first byte lowest: a little-endian load. */
  function Little(s: seq<Byte>): nat {
    if s == [] then 0 else s[0] + 0x100 * Little(s[1..])
  }

  /** The value of a byte string, first byte highest: a big-endian load. */
  function Big(s: seq<Byte>): nat {
    if s == [] then 0 else s[|s| - 1] + 0x100 * Big(s[..|s| - 1])
  }

  /** The low n bytes of x, lowest first. */
  function BytesOf(n: nat, x: nat): (s: seq<Byte>)
    ensures |s| == n
  {
    if n == 0 then [] else [x % 0x100] + BytesOf(n - 1, x / 0x100)
  }

  /** sizeof(uint64_t). */
  const SIZE64: nat := 8

  /** __builtin_bswap64. */
  function Swap(x: nat): nat { Big(BytesOf(SIZE64, x)) }

  function XorSeq(s: seq<Byte>, t: seq<Byte>): (r: seq<Byte>)
    requires |s| == |t|
    ensures |r| == |s|
  {
    if s == [] then [] else XorBound8(s[0], t[0]); [Xor(s[0], t[0])] + XorSeq(s[1..], t[1..])
  }

  lemma XorByteStep(x: nat, y: nat, a: Byte, b: Byte)
    ensures Xor(a + 0x100 * x, b + 0x100 * y) == Xor(a, b) + 0x100 * Xor(x, y)
  {
    XorBytes(a + 0x100 * x, b + 0x100 * y);
    assert (a + 0x100 * x) / 0x100 == x && (b + 0x100 * y) / 0x100 == y;
    assert (a + 0x100 * x) % 0x100 == a && (b + 0x100 * y) % 0x100 == b;
  }

  lemma {:induction false} ByteAtBytesOf(n: nat, x: nat, k: nat)
    requires k < n
    ensures BytesOf(n, x)[k] == ByteAt(k, x)
  {
    if k > 0 { ByteAtBytesOf(n - 1, x / 0x100, k - 1); }
  }

  lemma {:induction false} XorOfBytesOf(n: nat, x: nat, y: nat)
    ensures BytesOf(n, Xor(x, y)) == XorSeq(BytesOf(n, x), BytesOf(n, y))
  {
    if n > 0 {
      XorBytes(x, y);
      XorOfBytesOf(n - 1, x / 0x100, y / 0x100);
      assert BytesOf(n, x)[1..] == BytesOf(n - 1, x / 0x100);
      assert BytesOf(n, y)[1..] == BytesOf(n - 1, y / 0x100);
    }
  }

  lemma {:induction false} BytesOfLittle(s: seq<Byte>)
    ensures BytesOf(|s|, Little(s)) == s
  {
    if s != [] {
      BytesOfLittle(s[1..]);
      assert Little(s) % 0x100 == s[0] && Little(s) / 0x100 == Little(s[1..]);
    }
  }

  lemma {:induction false} XorSeqLast(s: seq<Byte>, t: seq<Byte>)
    requires |s| == |t| > 0
    ensures XorSeq(s, t)[|s| - 1] == Xor(s[|s| - 1], t[|t| - 1])
    ensures XorSeq(s, t)[..|s| - 1] == XorSeq(s[..|s| - 1], t[..|t| - 1])
  {
    if |s| > 1 {
      XorSeqLast(s[1..], t[1..]);
      assert s[1..][..|s| - 2] == s[..|s| - 1][1..] && t[1..][..|t| - 2] == t[..|t| - 1][1..];
    }
  }

  lemma {:induction false} XorOfBig(s: seq<Byte>, t: seq<Byte>)
    requires |s| == |t|
    ensures Xor(Big(s), Big(t)) == Big(XorSeq(s, t))
  {
    if s == [] {
      XorZero(0);
    } else {
      var n := |s| - 1;
      XorSeqLast(s, t);
      XorByteStep(Big(s[..n]), Big(t[..n]), s[n], t[n]);
      XorOfBig(s[..n], t[..n]);
    }
  }

  /** Swapping the bytes commutes with exclusive or. */
  lemma SwapXor(x: nat, y: nat)
    ensures Xor(Swap(x), Swap(y)) == Swap(Xor(x, y))
  {
    XorOfBytesOf(8, x, y);
    XorOfBig(BytesOf(8, x), BytesOf(8, y));
  }

  lemma {:induction false} ByteAtBig(s: seq<Byte>, k: nat)
    requires k < |s|
    ensures ByteAt(k, Big(s)) == s[|s| - 1 - k]
  {
    var n := |s| - 1;
    assert Big(s) % 0x100 == s[n] && Big(s) / 0x100 == Big(s[..n]);
    if k > 0 { ByteAtBig(s[..n], k - 1); }
  }

  lemma ByteAtSwap(k: nat, x: nat)
    requires k < 8
    ensures ByteAt(k, Swap(x)) == ByteAt(7 - k, x)
  {
    ByteAtBig(BytesOf(8, x), k);
    ByteAtBytesOf(8, x, 7 - k);
  }

  /** A big-endian load is the swapped little-endian load of the same bytes. */
  lemma BigIsSwappedLittle(s: seq<Byte>)
    requires |s| == 8
    ensures Big(s) == Swap(Little(s))
  {
    BytesOfLittle(s);
  }

  /** x has at most n bytes. */
  predicate Fits(x: nat, n: nat) {
    if n == 0 then x == 0 else Fits(x / 0x100, n - 1)
  }

  lemma WordFits(x: Word)
    ensures Fits(x, 8)
  {
    var x1, x2, x3 := x / 0x100, x / 0x1_0000, x / 0x100_0000;
    assert x1 / 0x100 == x2 && x2 / 0x100 == x3 && x3 / 0x100 == 0;
    assert Fits(0, 0) && Fits(0, 1) && Fits(0, 2) && Fits(0, 3) && Fits(0, 4);
    assert Fits(x3, 5) && Fits(x2, 6) && Fits(x1, 7);
  }

  lemma {:induction false} BytesAgree(n: nat, x: nat, y: nat)
    requires Fits(x, n) && Fits(y, n) && BytesOf(n, x) == BytesOf(n, y)
    ensures x == y
  {
    if n > 0 {
      assert BytesOf(n, x)[1..] == BytesOf(n - 1, x / 0x100);
      assert BytesOf(n, y)[1..] == BytesOf(n - 1, y / 0x100);
      assert BytesOf(n, x)[0] == x % 0x100 && BytesOf(n, y)[0] == y % 0x100;
      BytesAgree(n - 1, x / 0x100, y / 0x100);
    }
  }

  lemma {:induction false} BigFits(s: seq<Byte>)
    ensures Fits(Big(s), |s|)
  {
    if s != [] {
      BigFits(s[..|s| - 1]);
      assert Big(s) / 0x100 == Big(s[..|s| - 1]);
    }
  }

  lemma SwapTwice(x: Word)
    ensures Swap(Swap(x)) == x
  {
    var y := Swap(Swap(x));
    WordFits(x);
    BigFits(BytesOf(8, Swap(x)));
    forall k | 0 <= k < 8 ensures BytesOf(8, y)[k] == BytesOf(8, x)[k] {
      ByteAtSwap(k, Swap(x));
      ByteAtSwap(7 - k, x);
      ByteAtBytesOf(8, y, k);
      ByteAtBytesOf(8, x, k);
    }
    BytesAgree(8, x, y);
  }

  // ------------------------------------------------------------------ slicing

  /** Each byte of a block pushed through as many zero bytes as follow it, and
      the results added: what the slicing tables compute. */
  function Slices(d: seq<Byte>): nat {
    if d == [] then 0 else Xor(Zeros(8 * |d|, d[0]), Slices(d[1..]))
  }

  lemma {:induction false} RegisterIsSlices(d: seq<Byte>)
    ensures Register(0, d) == Slices(d)
  {
    if d != [] {
      var rest, z := d[1..], Zeros(8, d[0]);
      assert ByteStep(0, d[0]) == z by { XorZero(d[0]); }
      RegisterSplit(z, rest);
      assert Zeros(8 * |d|, d[0]) == Zeros(8 * |rest|, z) by { ZerosCompose(8, 8 * |rest|, d[0]); }
      RegisterIsSlices(rest);
    }
  }

  /** Zero bytes over c: the low byte is pushed all the way, the others one byte less. */
  lemma ZerosPeel(n: nat, c: nat)
    requires n > 0
    ensures Zeros(8 * n, c) == Xor(Zeros(8 * n, c % 0x100), Zeros(8 * (n - 1), c / 0x100))
  {
    var m := 8 * (n - 1);
    ZerosCompose(8, m, c);
    ZerosCompose(8, m, c % 0x100);
    ZerosByTable(c);
    ZerosLinear(m, Zeros(8, c % 0x100), c / 0x100);
  }

  /** A register value that fits the block can be added to the block's bytes. */
  lemma {:induction false} RegisterAbsorb(c: nat, d: seq<Byte>)
    requires Fits(c, |d|)
    ensures Register(c, d) == Slices(XorSeq(BytesOf(|d|, c), d))
  {
    RegisterSplit(c, d);
    RegisterIsSlices(d);
    if d == [] {
      XorZero(0);
    } else {
      var n, rest, c0, c1 := |d|, d[1..], c % 0x100, c / 0x100;
      var e := XorSeq(BytesOf(n, c), d);
      assert BytesOf(n, c)[1..] == BytesOf(n - 1, c1);
      assert e[0] == Xor(c0, d[0]) && e[1..] == XorSeq(BytesOf(n - 1, c1), rest);
      ZerosPeel(n, c);
      XorExchange(Zeros(8 * n, c0), Zeros(8 * (n - 1), c1), Zeros(8 * n, d[0]), Slices(rest));
      ZerosLinear(8 * n, c0, d[0]);
      RegisterSplit(c1, rest);
      RegisterIsSlices(rest);
      RegisterAbsorb(c1, rest);
    }
  }

  /** The value of an eight-byte block in terms of the word the code builds. */
  lemma SlicesOfEight(e: seq<Byte>)
    requires |e| == 8
    ensures Slices(e) ==
      Xor(Zeros(64, e[0]), Xor(Zeros(56, e[1]), Xor(Zeros(48, e[2]), Xor(Zeros(40, e[3]),
      Xor(Zeros(32, e[4]), Xor(Zeros(24, e[5]), Xor(Zeros(16, e[6]), Zeros(8, e[7]))))))))
  {
    SlicesUnfold(e);
    SlicesUnfold(e[1..]);
    SlicesUnfold(e[2..]);
    SlicesUnfold(e[3..]);
    SlicesUnfold(e[4..]);
    SlicesUnfold(e[5..]);
    SlicesUnfold(e[6..]);
    SlicesUnfold(e[7..]);
    XorZero(Zeros(8, e[7]));
    assert e[7..][1..] == [];
  }

  lemma SlicesUnfold(e: seq<Byte>)
    requires e != []
    ensures Slices(e) == Xor(Zeros(8 * |e|, e[0]), Slices(e[1..]))
  {
  }

  /** The sum of the eight lookups for a 64-bit word, lowest byte first. */
  function Sliced(w: nat): nat {
    Xor(Zeros(64, ByteAt(0, w)), Xor(Zeros(56, ByteAt(1, w)), Xor(Zeros(48, ByteAt(2, w)), Xor(Zeros(40, ByteAt(3, w)),
    Xor(Zeros(32, ByteAt(4, w)), Xor(Zeros(24, ByteAt(5, w)), Xor(Zeros(16, ByteAt(6, w)), Zeros(8, ByteAt(7, w)))))))))
  }

  /** One round of slicing-by-8: crc XOR-ed into an eight-byte block. */
  lemma SlicingRound(c: Word, d: seq<Byte>, w: nat)
    requires |d| == 8 && w == Xor(c, Little(d))
    ensures Register(c, d) == Sliced(w)
  {
    var e := BytesOf(8, w);
    WordFits(c);
    RegisterAbsorb(c, d);
    XorOfBytesOf(8, c, Little(d));
    BytesOfLittle(d);
    SlicesOfEight(e);
    forall k | 0 <= k < 8 ensures e[k] == ByteAt(k, w) { ByteAtBytesOf(8, w, k); }
  }

  /** One table lookup moves the register over one byte. */
  lemma TableStep(c0: nat, buf: seq<Byte>, i: nat, c: nat)
    requires i < |buf| && c == Register(c0, buf[..i])
    ensures Register(c0, buf[..i + 1]) == Xor(Zeros(8, Xor(c, buf[i]) % 0x100), c / 0x100)
  {
    var b := buf[i];
    RegisterAppend(c0, buf[..i], [b]);
    assert buf[..i + 1] == buf[..i] + [b];
    assert Register(c, [b]) == ByteStep(c, b) by { assert [b][1..] == []; }
    assert Xor(c, b) / 0x100 == c / 0x100 by { XorBytes(c, b); XorZero(c / 0x100); }
    ZerosByTable(Xor(c, b));
  }

  /** One round of lookups moves the register over eight bytes. */
  lemma SlicingStep(c0: Word, buf: seq<Byte>, i: nat, c: nat)
    requires i + 8 <= |buf| && c == Register(c0, buf[..i])
    ensures c < 0x1_0000_0000
    ensures Register(c0, buf[..i + 8]) == Sliced(Xor(c, Little(buf[i..i + 8])))
  {
    var d := buf[i..i + 8];
    RegisterBound(c0, buf[..i]);
    RegisterAppend(c0, buf[..i], d);
    assert buf[..i + 8] == buf[..i] + d;
    SlicingRound(c, d, Xor(c, Little(d)));
  }

  lemma OneMoreZero(k: nat, n: nat)
    ensures Zeros(k + 1, n) == Clock(Zeros(k, n))
  {
    ZerosCompose(k, 1, n);
  }

  /** The table entry of a byte: eight clocks, as both initialisers write them out. */
  method ByteEntry(n: nat) returns (crc: nat)
    ensures crc == Zeros(8, n)
  {
    crc := n;
    crc := Clock(crc); OneMoreZero(0, n);
    crc := Clock(crc); OneMoreZero(1, n);
    crc := Clock(crc); OneMoreZero(2, n);
    crc := Clock(crc); OneMoreZero(3, n);
    crc := Clock(crc); OneMoreZero(4, n);
    crc := Clock(crc); OneMoreZero(5, n);
    crc := Clock(crc); OneMoreZero(6, n);
    crc := Clock(crc); OneMoreZero(7, n);
  }

  /** crc32c_table_little and the routine that uses it. */
  class LittleEndian {
    const table: array2<nat>

    ghost predicate Valid()
      reads this, table
    {
      table.Length0 == 8 && table.Length1 == 256 &&
      forall k, n :: 0 <= k < 8 && 0 <= n < 256 ==> table[k, n] == Zeros(8 * (k + 1), n)
    }

    /** crc32c_init_sw_little. */
    constructor ()
      ensures Valid() && fresh(table)
    {
      table := new nat[8, 256];
      new;
      for n := 0 to 256
        invariant forall j :: 0 <= j < n ==> table[0, j] == Zeros(8, j)
      {
        var crc := ByteEntry(n);
        table[0, n] := crc;
      }
      for n := 0 to 256
        invariant forall j :: 0 <= j < 256 ==> table[0, j] == Zeros(8, j)
        invariant forall k, j :: 0 <= k < 8 && 0 <= j < n ==> table[k, j] == Zeros(8 * (k + 1), j)
      {
        FillColumn(n);
      }
    }

    method FillColumn(n: nat)
      requires table.Length0 == 8 && table.Length1 == 256 && n < 256
      requires forall j :: 0 <= j < 256 ==> table[0, j] == Zeros(8, j)
      modifies table
      ensures forall k :: 0 <= k < 8 ==> table[k, n] == Zeros(8 * (k + 1), n)
      ensures forall k, j :: 0 <= k < 8 && 0 <= j < 256 && (k == 0 || j != n) ==> table[k, j] == old(table[k, j])
    {
      var crc := table[0, n];
      for k := 1 to 8
        invariant crc == Zeros(8 * k, n)
        invariant forall i :: 0 <= i < k ==> table[i, n] == Zeros(8 * (i + 1), n)
        invariant forall i, j :: 0 <= i < 8 && 0 <= j < 256 && (i == 0 || j != n) ==> table[i, j] == old(table[i, j])
      {
        ZerosByTable(crc);
        ZerosCompose(8 * k, 8, n);
        crc := Xor(table[0, crc % 0x100], crc / 0x100);
        table[k, n] := crc;
      }
    }

    /** crc32c_sw_little: `address` is the address of the first byte of `buf`. */
    method Crc(crc0: Word, buf: seq<Byte>, address: nat) returns (r: Word)
      requires Valid()
      ensures r == Crc32c(crc0, buf)
    {
      var crc, next := BytesToBoundary(Not(crc0), buf, address);
      if |buf| - next >= 8 {
        crc, next := Blocks(Not(crc0), buf, crc, next);
      }
      crc := TrailingBytes(Not(crc0), buf, crc, next);
      RegisterBound(Not(crc0), buf);
      Crc32cIsRegister(crc0, buf);
      r := Not(crc);
    }

    method BytesToBoundary(c: Word, buf: seq<Byte>, address: nat) returns (crc: nat, next: nat)
      requires Valid()
      ensures next <= |buf| && crc == Register(c, buf[..next])
    {
      crc, next := c, 0;
      var len: nat := |buf|;
      while len > 0 && (address + next) % 8 != 0
        invariant next + len == |buf|
        invariant crc == Register(c, buf[..next])
      {
        TableStep(c, buf, next, crc);
        crc := Xor(table[0, Xor(crc, buf[next]) % 0x100], crc / 0x100);
        next, len := next + 1, len - 1;
      }
    }

    method Blocks(c: Word, buf: seq<Byte>, crc: nat, start: nat) returns (crcw: nat, next: nat)
      requires Valid()
      requires start <= |buf| && crc == Register(c, buf[..start])
      ensures start <= next <= |buf| && |buf| - next < 8
      ensures crcw == Register(c, buf[..next])
    {
      crcw, next := crc, start;
      var len: nat := |buf| - start;
      while len >= 8
        invariant start <= next && next + len == |buf|
        invariant crcw == Register(c, buf[..next])
      {
        SlicingStep(c, buf, next, crcw);
        crcw := Xor(crcw, Little(buf[next..next + 8]));
        crcw := LookUp(crcw);
        next, len := next + 8, len - 8;
      }
    }

    method TrailingBytes(c: Word, buf: seq<Byte>, start: nat, from: nat) returns (crc: nat)
      requires Valid()
      requires from <= |buf| && start == Register(c, buf[..from])
      ensures crc == Register(c, buf)
    {
      crc := start;
      var next, len: nat := from, |buf| - from;
      while len > 0
        invariant next + len == |buf|
        invariant crc == Register(c, buf[..next])
      {
        TableStep(c, buf, next, crc);
        crc := Xor(table[0, Xor(crc, buf[next]) % 0x100], crc / 0x100);
        next, len := next + 1, len - 1;
      }
      assert buf[..next] == buf;
    }

    /** The eight table lookups of one round. */
    method LookUp(crcw: nat) returns (r: nat)
      requires Valid()
      ensures r == Sliced(crcw)
    {
      var t7, t6 := table[7, ByteAt(0, crcw)], table[6, ByteAt(1, crcw)];
      var t5, t4 := table[5, ByteAt(2, crcw)], table[4, ByteAt(3, crcw)];
      var t3, t2 := table[3, ByteAt(4, crcw)], table[2, ByteAt(5, crcw)];
      var t1, t0 := table[1, ByteAt(6, crcw)], table[0, ByteAt(7, crcw)];
      LeftToRight(t7, t6, t5, t4, t3, t2, t1, t0);
      r := Xor(Xor(Xor(Xor(Xor(Xor(Xor(t7, t6), t5), t4), t3), t2), t1), t0);
    }
  }

  /** crc32c_table_big_byte and crc32c_table_big, and the routine that uses them. */
  class BigEndian {
    const tableByte: array<nat>
    const table: array2<nat>

    ghost predicate Valid()
      reads this, tableByte, table
    {
      tableByte.Length == 256 && table.Length0 == 8 && table.Length1 == 256 &&
      (forall n :: 0 <= n < 256 ==> tableByte[n] == Zeros(8, n)) &&
      forall k, n :: 0 <= k < 8 && 0 <= n < 256 ==> table[k, n] == Swap(Zeros(8 * (k + 1), n))
    }

    /** crc32c_init_sw_big. */
    constructor ()
      ensures Valid() && fresh(tableByte) && fresh(table)
    {
      tableByte := new nat[256];
      table := new nat[8, 256];
      new;
      for n := 0 to 256
        invariant forall j :: 0 <= j < n ==> tableByte[j] == Zeros(8, j)
      {
        var crc := ByteEntry(n);
        tableByte[n] := crc;
      }
      for n := 0 to 256
        invariant forall j :: 0 <= j < 256 ==> tableByte[j] == Zeros(8, j)
        invariant forall k, j :: 0 <= k < 8 && 0 <= j < n ==> table[k, j] == Swap(Zeros(8 * (k + 1), j))
      {
        FillColumn(n);
      }
    }

    method FillColumn(n: nat)
      requires tableByte.Length == 256 && table.Length0 == 8 && table.Length1 == 256 && n < 256
      requires forall j :: 0 <= j < 256 ==> tableByte[j] == Zeros(8, j)
      modifies table
      ensures forall k :: 0 <= k < 8 ==> table[k, n] == Swap(Zeros(8 * (k + 1), n))
      ensures forall k, j :: 0 <= k < 8 && 0 <= j < 256 && j != n ==> table[k, j] == old(table[k, j])
    {
      var crc := tableByte[n];
      table[0, n] := Swap(crc);
      for k := 1 to 8
        invariant crc == Zeros(8 * k, n)
        invariant forall i :: 0 <= i < k ==> table[i, n] == Swap(Zeros(8 * (i + 1), n))
        invariant forall i, j :: 0 <= i < 8 && 0 <= j < 256 && j != n ==> table[i, j] == old(table[i, j])
      {
        ZerosByTable(crc);
        ZerosCompose(8 * k, 8, n);
        crc := Xor(tableByte[crc % 0x100], crc / 0x100);
        table[k, n] := Swap(crc);
      }
    }

    /** crc32c_sw_big: `address` is the address of the first byte of `buf`. */
    method Crc(crc0: Word, buf: seq<Byte>, address: nat) returns (r: Word)
      requires Valid()
      ensures r == Crc32c(crc0, buf)
    {
      var crc, next := BytesToBoundary(Not(crc0), buf, address);
      if |buf| - next >= 8 {
        crc, next := Blocks(Not(crc0), buf, crc, next);
      }
      crc := TrailingBytes(Not(crc0), buf, crc, next);
      RegisterBound(Not(crc0), buf);
      Crc32cIsRegister(crc0, buf);
      r := Not(crc);
    }

    method BytesToBoundary(c: Word, buf: seq<Byte>, address: nat) returns (crc: nat, next: nat)
      requires Valid()
      ensures next <= |buf| && crc == Register(c, buf[..next])
    {
      crc, next := c, 0;
      var len: nat := |buf|;
      while len > 0 && (address + next) % 8 != 0
        invariant next + len == |buf|
        invariant crc == Register(c, buf[..next])
      {
        TableStep(c, buf, next, crc);
        crc := Xor(tableByte[Xor(crc, buf[next]) % 0x100], crc / 0x100);
        next, len := next + 1, len - 1;
      }
    }

    /** The register is kept byte-swapped from block to block. */
    method Blocks(c: Word, buf: seq<Byte>, start: nat, from: nat) returns (crc: nat, next: nat)
      requires Valid()
      requires from <= |buf| && start == Register(c, buf[..from])
      ensures from <= next <= |buf| && |buf| - next < 8
      ensures crc == Register(c, buf[..next])
    {
      var crcw := Swap(start);
      next := from;
      var len: nat := |buf| - from;
      while len >= 8
        invariant from <= next && next + len == |buf|
        invariant crcw == Swap(Register(c, buf[..next]))
      {
        ghost var reg, d := Register(c, buf[..next]), buf[next..next + 8];
        SlicingStep(c, buf, next, reg);
        BigIsSwappedLittle(d);
        SwapXor(reg, Little(d));
        crcw := Xor(crcw, Big(buf[next..next + 8]));
        crcw := LookUp(crcw, Xor(reg, Little(d)));
        next, len := next + 8, len - 8;
      }
      RegisterBound(c, buf[..next]);
      SwapTwice(Register(c, buf[..next]));
      crc := Swap(crcw);
    }

    method TrailingBytes(c: Word, buf: seq<Byte>, start: nat, from: nat) returns (crc: nat)
      requires Valid()
      requires from <= |buf| && start == Register(c, buf[..from])
      ensures crc == Register(c, buf)
    {
      crc := start;
      var next, len: nat := from, |buf| - from;
      while len > 0
        invariant next + len == |buf|
        invariant crc == Register(c, buf[..next])
      {
        TableStep(c, buf, next, crc);
        crc := Xor(tableByte[Xor(crc, buf[next]) % 0x100], crc / 0x100);
        next, len := next + 1, len - 1;
      }
      assert buf[..next] == buf;
    }

    /** The eight table lookups of one round, on the swapped word. */
    method LookUp(crcw: nat, ghost w: nat) returns (r: nat)
      requires Valid() && crcw == Swap(w)
      ensures r == Swap(Sliced(w))
    {
      forall k | 0 <= k < 8 ensures ByteAt(k, crcw) == ByteAt(7 - k, w) { ByteAtSwap(k, w); }
      var t0, t1 := table[0, ByteAt(0, crcw)], table[1, ByteAt(1, crcw)];
      var t2, t3 := table[2, ByteAt(2, crcw)], table[3, ByteAt(3, crcw)];
      var t4, t5 := table[4, ByteAt(4, crcw)], table[5, ByteAt(5, crcw)];
      var t6, t7 := table[6, ByteAt(6, crcw)], table[7, ByteAt(7, crcw)];
      SwappedSum(Zeros(64, ByteAt(0, w)), Zeros(56, ByteAt(1, w)), Zeros(48, ByteAt(2, w)), Zeros(40, ByteAt(3, w)),
                 Zeros(32, ByteAt(4, w)), Zeros(24, ByteAt(5, w)), Zeros(16, ByteAt(6, w)), Zeros(8, ByteAt(7, w)));
      r := Xor(Xor(Xor(Xor(Xor(Xor(Xor(t0, t1), t2), t3), t4), t5), t6), t7);
    }
  }

  lemma SwappedSum(a: nat, b: nat, c: nat, d: nat, e: nat, f: nat, g: nat, h: nat)
    ensures Xor(Xor(Xor(Xor(Xor(Xor(Xor(Swap(h), Swap(g)), Swap(f)), Swap(e)), Swap(d)), Swap(c)), Swap(b)), Swap(a)) ==
            Swap(Xor(a, Xor(b, Xor(c, Xor(d, Xor(e, Xor(f, Xor(g, h))))))))
  {
    var s1 := Xor(g, h);
    var s2 := Xor(f, s1);
    var s3 := Xor(e, s2);
    var s4 := Xor(d, s3);
    var s5 := Xor(c, s4);
    var s6 := Xor(b, s5);
    SwappedAdd(h, g); SwappedAdd(s1, f); SwappedAdd(s2, e); SwappedAdd(s3, d);
    SwappedAdd(s4, c); SwappedAdd(s5, b); SwappedAdd(s6, a);
  }

  lemma SwappedAdd(x: nat, y: nat)
    ensures Xor(Swap(x), Swap(y)) == Swap(Xor(y, x))
  {
    XorComm(Swap(x), Swap(y));
    SwapXor(y, x);
  }

  lemma LeftToRight(a: nat, b: nat, c: nat, d: nat, e: nat, f: nat, g: nat, h: nat)
    ensures Xor(Xor(Xor(Xor(Xor(Xor(Xor(a, b), c), d), e), f), g), h) ==
            Xor(a, Xor(b, Xor(c, Xor(d, Xor(e, Xor(f, Xor(g, h)))))))
  {
    var ab := Xor(a, b);
    var abc := Xor(ab, c);
    var abcd := Xor(abc, d);
    var abcde := Xor(abcd, e);
    var abcdef := Xor(abcde, f);
    XorAssoc(abcdef, g, h);
    XorAssoc(abcde, f, Xor(g, h));
    XorAssoc(abcd, e, Xor(f, Xor(g, h)));
    XorAssoc(abc, d, Xor(e, Xor(f, Xor(g, h))));
    XorAssoc(ab, c, Xor(d, Xor(e, Xor(f, Xor(g, h)))));
    XorAssoc(a, b, Xor(c, Xor(d, Xor(e, Xor(f, Xor(g, h))))));
  }
}
