/** The streaming front of MD5 (memcached/md5.c): whatever the pieces a message comes in, the
    blocks that are processed are those of the padded message of sections 3.1 and 3.2 of
    RFC 1321. The compression of one block is a parameter. */
module Md5 {
  import opened Basics

  const BLOCK := 64
  const WORD := 0x1_0000_0000

  /** The compression function run over whole blocks. */
  function Fold<S>(process: (S, seq<Byte>) -> S, s: S, m: seq<Byte>): S
    requires |m| % BLOCK == 0
    decreases |m|
  {
    if m == [] then s else Fold(process, process(s, m[..BLOCK]), m[BLOCK..])
  }

  function Full(m: seq<Byte>): (f: seq<Byte>)
    ensures |f| % BLOCK == 0 && f <= m
  {
    m[..|m| - |m| % BLOCK]
  }

  function Rest(m: seq<Byte>): (r: seq<Byte>)
    ensures |r| == |m| % BLOCK && Full(m) + r == m
  {
    m[|m| - |m| % BLOCK..]
  }

  lemma {:induction false} FoldSum<S>(process: (S, seq<Byte>) -> S, s: S, a: seq<Byte>, b: seq<Byte>)
    requires |a| % BLOCK == 0 && |b| % BLOCK == 0
    ensures |a + b| % BLOCK == 0 && Fold(process, s, a + b) == Fold(process, Fold(process, s, a), b)
    decreases |a|
  {
    if a == [] {
      assert a + b == b;
    } else {
      assert (a + b)[..BLOCK] == a[..BLOCK] && (a + b)[BLOCK..] == a[BLOCK..] + b;
      FoldSum(process, process(s, a[..BLOCK]), a[BLOCK..], b);
    }
  }

  lemma FoldOne<S>(process: (S, seq<Byte>) -> S, s: S, a: seq<Byte>, block: seq<Byte>)
    requires |a| % BLOCK == 0 && |block| == BLOCK
    ensures |a + block| % BLOCK == 0 && Fold(process, s, a + block) == process(Fold(process, s, a), block)
  {
    FoldSum(process, s, a, block);
    assert block[..BLOCK] == block && block[BLOCK..] == [];
    assert Fold(process, process(Fold(process, s, a), block), []) == process(Fold(process, s, a), block);
  }

  // ------------------------------------------------------------------------- the bit count

  /** The length in bits, in two words, after n more bytes. */
  function AddBits(low: nat, high: nat, n: nat): (nat, nat) {
    var nbits := n * 8 % WORD;
    var low' := (low + nbits) % WORD;
    var high' := (high + n / 0x2000_0000) % WORD;
    (low', if low' < nbits then (high' + 1) % WORD else high')
  }

  /** The carry is exactly the one of the 64-bit sum. */
  lemma AddBitsIsAddition(low: nat, high: nat, n: nat)
    requires low < WORD && high < WORD
    ensures var (l, h) := AddBits(low, high, n);
            l < WORD && h < WORD && h * WORD + l == (high * WORD + low + n * 8) % (WORD * WORD)
  {
    var nbits := n * 8 % WORD;
    assert n * 8 == n / 0x2000_0000 * WORD + nbits;
    var sum := high * WORD + low + n * 8;
    var carry := if low + nbits >= WORD then 1 else 0;
    var q := high + n / 0x2000_0000 + carry;
    assert sum == q * WORD + (low + nbits - carry * WORD);
    HighPart(q, low + nbits - carry * WORD);
    assert (low + nbits) % WORD == low + nbits - carry * WORD;
  }

  lemma HighPart(q: nat, l: nat)
    requires l < WORD
    ensures (q * WORD + l) % (WORD * WORD) == q % WORD * WORD + l
  {
    var k := q / WORD;
    assert q == k * WORD + q % WORD;
    assert q * WORD + l == k * (WORD * WORD) + (q % WORD * WORD + l);
  }

  /** How much of the block buffer is in use, read off the count. */
  lemma OffsetFromCount(low: nat, high: nat, length: nat)
    requires low < WORD && high * WORD + low == 8 * length % (WORD * WORD)
    ensures low / 8 % BLOCK == length % BLOCK
  {
    var k := 8 * length / (WORD * WORD);
    assert 8 * length == k * (WORD * WORD) + high * WORD + low;
    assert low == 8 * (length - k * 0x2000_0000 * WORD - high * 0x2000_0000);
    assert length == low / 8 + 64 * (k * 0x80_0000 * WORD + high * 0x80_0000);
  }

  lemma CountOfSum(n: nat, d: nat)
    ensures (8 * n % (WORD * WORD) + d * 8) % (WORD * WORD) == 8 * (n + d) % (WORD * WORD)
  {
    var k := 8 * n / (WORD * WORD);
    assert 8 * (n + d) == k * (WORD * WORD) + (8 * n % (WORD * WORD) + d * 8);
  }

  lemma CountWords(low: nat, high: nat, length: nat)
    requires low < WORD && high < WORD && high * WORD + low == 8 * length % (WORD * WORD)
    ensures var bits := 8 * length % (WORD * WORD); low == bits % WORD && high == bits / WORD
    ensures (55 - low / 8) % BLOCK == (55 - length) % BLOCK
  {
    OffsetFromCount(low, high, length);
    SameComplement(low / 8, length);
    WordSplit(low, high);
  }

  lemma SameComplement(a: nat, b: nat)
    requires a % BLOCK == b % BLOCK
    ensures (55 - a) % BLOCK == (55 - b) % BLOCK
  {
    assert 55 - a == 55 - b + BLOCK * (b / BLOCK - a / BLOCK);
  }

  lemma WordSplit(low: nat, high: nat)
    requires low < WORD
    ensures (high * WORD + low) % WORD == low && (high * WORD + low) / WORD == high
  {
  }

  lemma FoldNone<S>(process: (S, seq<Byte>) -> S, s: S)
    ensures Fold(process, s, []) == s
  {
  }

  lemma ShortStream(x: seq<Byte>)
    requires |x| < BLOCK
    ensures Full(x) == [] && Rest(x) == x
  {
  }

  lemma StreamEnds(x: seq<Byte>, n: nat)
    requires n <= |x| < n + BLOCK && n % BLOCK == 0
    ensures Full(x) == x[..n] && Rest(x) == x[n..]
  {
    assert |x| % BLOCK == |x| - n;
  }

  lemma FirstBlock<S>(process: (S, seq<Byte>) -> S, s: S, block: seq<Byte>)
    requires |block| == BLOCK
    ensures Fold(process, s, block) == process(s, block)
  {
    FoldOne(process, s, [], block);
    assert [] + block == block;
  }

  lemma TwoStages<S>(process: (S, seq<Byte>) -> S, s: S, x: seq<Byte>, k: nat, q: nat)
    requires k <= q <= |x| < q + BLOCK && k % BLOCK == 0 && (q - k) % BLOCK == 0
    ensures Fold(process, Fold(process, s, x[..k]), x[k..q]) == Fold(process, s, Full(x)) && Rest(x) == x[q..]
  {
    hide Fold;
    FoldSum(process, s, x[..k], x[k..q]);
    assert x[..k] + x[k..q] == x[..q];
    StreamEnds(x, q);
  }

  /** The blocks of a message and more data: those of the message, then those of its rest
      with the data. */
  lemma SplitStream(m: seq<Byte>, d: seq<Byte>)
    ensures Full(m + d) == Full(m) + Full(Rest(m) + d) && Rest(m + d) == Rest(Rest(m) + d)
    ensures |Rest(m + d)| == |m + d| % BLOCK
  {
    var f := Full(m);
    var x := Rest(m) + d;
    assert m + d == f + x;
    StreamEnds(m + d, |f| + |Full(x)|);
    assert (f + x)[..|f| + |Full(x)|] == f + Full(x);
    assert (f + x)[|f| + |Full(x)|..] == Rest(x);
  }

  lemma WholeBlocks(m: seq<Byte>)
    requires |m| % BLOCK == 0
    ensures Full(m) == m
  {
  }

  // ----------------------------------------------------------------------------- the padding

  /** Byte i % 4 of a word, least significant first. */
  function WordByte(word: nat, i: nat): Byte {
    word / (if i % 4 == 0 then 1 else if i % 4 == 1 then 0x100 else if i % 4 == 2 then 0x1_0000 else 0x100_0000) % 256
  }

  /** Byte i of a 64-bit number, least significant first. */
  function LengthByte(low: nat, high: nat, i: nat): Byte
    requires i < 8
  {
    WordByte(if i < 4 then low else high, i)
  }

  function LengthBytes(low: nat, high: nat): seq<Byte> {
    seq(8, i requires 0 <= i < 8 => LengthByte(low, high, i))
  }

  /** A sequence of bytes as a number, least significant first. */
  function LittleEndian(b: seq<Byte>): nat {
    if b == [] then 0 else b[0] + 256 * LittleEndian(b[1..])
  }

  /** The eight bytes are the 64-bit count, low-order word first and low-order byte first. */
  lemma LengthBytesValue(low: nat, high: nat)
    requires low < WORD && high < WORD
    ensures LittleEndian(LengthBytes(low, high)) == high * WORD + low
  {
    var b := LengthBytes(low, high);
    WordBytes(low);
    WordBytes(high);
    assert b[7..][1..] == [] && b[6..][1..] == b[7..] && b[5..][1..] == b[6..] && b[4..][1..] == b[5..];
    assert b[3..][1..] == b[4..] && b[2..][1..] == b[3..] && b[1..][1..] == b[2..] && b[0..] == b;
    assert LittleEndian(b[7..]) == b[7];
    assert LittleEndian(b[6..]) == b[6] + 256 * LittleEndian(b[7..]);
    assert LittleEndian(b[5..]) == b[5] + 256 * LittleEndian(b[6..]);
    assert LittleEndian(b[4..]) == b[4] + 256 * LittleEndian(b[5..]) == high;
    assert LittleEndian(b[3..]) == b[3] + 256 * LittleEndian(b[4..]);
    assert LittleEndian(b[2..]) == b[2] + 256 * LittleEndian(b[3..]);
    assert LittleEndian(b[1..]) == b[1] + 256 * LittleEndian(b[2..]);
  }

  lemma WordBytes(w: nat)
    requires w < WORD
    ensures w == w % 256 + 256 * (w / 0x100 % 256 + 256 * (w / 0x1_0000 % 256 + 256 * (w / 0x100_0000 % 256)))
  {
    assert w / 0x1_0000 == w / 0x100 / 256 && w / 0x100_0000 == w / 0x1_0000 / 256;
  }

  /** Four bytes of a word, in order, read as the word. */
  lemma FourBytes(b: seq<Byte>, w: nat)
    requires w < WORD && |b| == 4 && forall i :: 0 <= i < 4 ==> b[i] == WordByte(w, i)
    ensures LittleEndian(b) == w
  {
    WordBytes(w);
    assert b[3..][1..] == [] && b[2..][1..] == b[3..] && b[1..][1..] == b[2..];
    assert LittleEndian(b[3..]) == b[3];
    assert LittleEndian(b[2..]) == b[2] + 256 * LittleEndian(b[3..]);
    assert LittleEndian(b[1..]) == b[1] + 256 * LittleEndian(b[2..]);
  }

  /** One byte 128 and zeros up to 56 modulo 64: section 3.1. */
  function Padding(length: nat): (p: seq<Byte>)
    ensures 0 < |p| <= BLOCK && (length + |p|) % BLOCK == 56
  {
    var zeros := (55 - length) % BLOCK;
    [128] + seq(zeros, _ => 0)
  }

  /** The padded message: sections 3.1 and 3.2. */
  function Padded(m: seq<Byte>): (p: seq<Byte>)
    ensures |p| % BLOCK == 0 && m <= p
  {
    var bits := 8 * |m| % (WORD * WORD);
    m + Padding(|m|) + LengthBytes(bits % WORD, bits / WORD)
  }

  /** What the padded message is: the message, a byte 128, as few zeros as fill up to eight bytes
      short of a block, and the length in bits modulo 2^64, low-order byte first. */
  lemma PaddedIs(m: seq<Byte>)
    ensures var p, n := Padded(m), |m|;
            && n + 9 <= |p| < n + 9 + BLOCK && |p| % BLOCK == 0 && p[..n] == m && p[n] == 128
            && (forall i :: n < i < |p| - 8 ==> p[i] == 0)
            && LittleEndian(p[|p| - 8..]) == 8 * n % (WORD * WORD)
  {
    var bits := 8 * |m| % (WORD * WORD);
    var pad, len := Padding(|m|), LengthBytes(bits % WORD, bits / WORD);
    var p := Padded(m);
    assert p == m + pad + len && |len| == 8;
    assert p[|p| - 8..] == len;
    assert forall i :: |m| <= i < |p| - 8 ==> p[i] == pad[i - |m|];
    WordsOf(bits);
    LengthBytesValue(bits % WORD, bits / WORD);
  }

  lemma WordsOf(bits: nat)
    requires bits < WORD * WORD
    ensures bits % WORD < WORD && bits / WORD < WORD && bits / WORD * WORD + bits % WORD == bits
  {
  }

  // ------------------------------------------------------------------------------- the state

  /** The four words A, B, C and D. */
  type Registers = r: seq<nat> | |r| == 4 && forall i :: 0 <= i < 4 ==> r[i] < WORD witness [0, 0, 0, 0]

  /** Section 3.3. */
  const INIT: Registers := [0x6745_2301, 0xEFCD_AB89, 0x98BA_DCFE, 0x1032_5476]

  /** The words as section 3.3 gives them, low-order byte first. */
  lemma InitialWords()
    ensures LittleEndian([0x01, 0x23, 0x45, 0x67]) == INIT[0] && LittleEndian([0x89, 0xab, 0xcd, 0xef]) == INIT[1]
    ensures LittleEndian([0xfe, 0xdc, 0xba, 0x98]) == INIT[2] && LittleEndian([0x76, 0x54, 0x32, 0x10]) == INIT[3]
  {
    FourAre(0x01, 0x23, 0x45, 0x67);
    FourAre(0x89, 0xab, 0xcd, 0xef);
    FourAre(0xfe, 0xdc, 0xba, 0x98);
    FourAre(0x76, 0x54, 0x32, 0x10);
  }

  lemma FourAre(a: Byte, b: Byte, c: Byte, d: Byte)
    ensures LittleEndian([a, b, c, d]) == a + 0x100 * b + 0x1_0000 * c + 0x100_0000 * d
  {
    assert [a, b, c, d][1..] == [b, c, d] && [b, c, d][1..] == [c, d] && [c, d][1..] == [d] && [d][1..] == [];
    assert LittleEndian([d]) == d && LittleEndian([c, d]) == c + 0x100 * d;
  }

  lemma SliceBehind(front: seq<Byte>, data: seq<Byte>, p: nat, q: nat)
    requires p <= q <= |data|
    ensures (front + data)[|front| + p..|front| + q] == data[p..q]
    ensures q == |data| ==> (front + data)[|front| + p..] == data[p..q]
  {
  }

  class Hash {
    const process: (Registers, seq<Byte>) -> Registers
    const buf: array<Byte>
    var low: nat
    var high: nat
    var abcd: Registers
    ghost var msg: seq<Byte>

    ghost predicate CountOk()
      reads this
    {
      low < WORD && high < WORD && high * WORD + low == 8 * |msg| % (WORD * WORD)
    }

    /** The full blocks of the message so far are processed, the rest is in the buffer. */
    ghost predicate Ok()
      reads this, buf
    {
      && buf.Length == BLOCK && CountOk()
      && abcd == Fold(process, INIT, Full(msg))
      && buf[..|msg| % BLOCK] == Rest(msg)
    }

    /** md5_init. */
    constructor (process: (Registers, seq<Byte>) -> Registers)
      ensures Ok() && msg == [] && this.process == process && fresh(buf)
    {
      this.process := process;
      buf := new Byte[BLOCK](_ => 0);
      low, high, abcd, msg := 0, 0, INIT, [];
    }

    /** The initial partial block of md5_append: fill the buffer up, and process it if full. */
    method TopUp(data: seq<Byte>, offset: nat) returns (p: nat)
      requires buf.Length == BLOCK && 0 < offset < BLOCK
      modifies this`abcd, buf
      ensures offset + |data| < BLOCK ==>
                p == |data| && abcd == old(abcd) && buf[..offset + |data|] == old(buf[..offset]) + data
      ensures offset + |data| >= BLOCK ==>
                p == BLOCK - offset && abcd == process(old(abcd), old(buf[..offset]) + data[..p])
    {
      var copy := if offset + |data| > BLOCK then BLOCK - offset else |data|;
      forall i | 0 <= i < copy { buf[offset + i] := data[i]; }
      assert buf[..offset + copy] == old(buf[..offset]) + data[..copy];
      p := copy;
      assert data[..|data|] == data;
      if offset + copy < BLOCK { return; }
      assert buf[..] == buf[..offset + copy];
      abcd := process(abcd, buf[..]);
    }

    /** The full blocks of md5_append. */
    method Blocks(data: seq<Byte>, from: nat) returns (p: nat)
      requires from <= |data|
      modifies this`abcd
      ensures from <= p <= |data| < p + BLOCK && (p - from) % BLOCK == 0
      ensures abcd == Fold(process, old(abcd), data[from..p])
    {
      hide Fold;
      FoldNone(process, abcd);
      p := from;
      assert data[from..p] == [];
      while |data| - p >= BLOCK
        invariant from <= p <= |data| && (p - from) % BLOCK == 0
        invariant abcd == Fold(process, old(abcd), data[from..p])
      {
        FoldOne(process, old(abcd), data[from..p], data[p..p + BLOCK]);
        assert data[from..p] + data[p..p + BLOCK] == data[from..p + BLOCK];
        abcd := process(abcd, data[p..p + BLOCK]);
        p := p + BLOCK;
      }
    }

    /** The blocks of md5_append: what is in the buffer and the data, taken together, are
        processed as far as they go, and the rest stays in the buffer. */
    method Absorb(data: seq<Byte>, offset: nat)
      requires buf.Length == BLOCK && offset < BLOCK
      modifies this`abcd, buf
      ensures var x := old(buf[..offset]) + data;
              abcd == Fold(process, old(abcd), Full(x)) && buf[..|Rest(x)|] == Rest(x)
    {
      hide Fold, Full, Rest;
      ghost var x := buf[..offset] + data;
      var p := 0;
      FoldNone(process, abcd);
      if offset > 0 {
        p := TopUp(data, offset);
        if offset + p < BLOCK {
          ShortStream(x);
          return;
        }
        assert x[..offset + p] == old(buf[..offset]) + data[..p];
        FirstBlock(process, old(abcd), x[..offset + p]);
      } else {
        assert x[..0] == [];
      }
      assert abcd == Fold(process, old(abcd), x[..offset + p]);
      var q := Blocks(data, p);
      SliceBehind(old(buf[..offset]), data, p, q);
      SliceBehind(old(buf[..offset]), data, q, |data|);
      TwoStages(process, old(abcd), x, offset + p, offset + q);
      forall i | 0 <= i < |data| - q { buf[i] := data[q + i]; }
      assert buf[..|data| - q] == data[q..|data|];
    }

    /** md5_append. */
    method Append(data: seq<Byte>)
      requires Ok()
      modifies this`low, this`high, this`abcd, this`msg, buf
      ensures Ok() && msg == old(msg) + data
    {
      hide Fold, AddBits, Full, Rest;
      OffsetFromCount(low, high, |msg|);
      var offset := low / 8 % BLOCK;
      if |data| == 0 {
        assert msg + data == msg;
        return;
      }
      AddBitsIsAddition(low, high, |data|);
      CountOfSum(|msg|, |data|);
      low, high := AddBits(low, high, |data|).0, AddBits(low, high, |data|).1;
      SplitStream(msg, data);
      FoldSum(process, INIT, Full(msg), Full(Rest(msg) + data));
      Absorb(data, offset);
      msg := msg + data;
    }

    /** The last loop of md5_finish: the registers, low-order byte first. */
    method WriteOut(digest: array<Byte>)
      requires digest.Length == 16
      modifies digest
      ensures forall k :: 0 <= k < 4 ==> LittleEndian(digest[4 * k..4 * k + 4]) == abcd[k]
    {
      for i := 0 to 16
        invariant forall j :: 0 <= j < i ==> digest[j] == WordByte(abcd[j / 4], j)
      {
        digest[i] := WordByte(abcd[i / 4], i);
      }
      forall k | 0 <= k < 4 ensures LittleEndian(digest[4 * k..4 * k + 4]) == abcd[k] {
        FourBytes(digest[4 * k..4 * k + 4], abcd[k]);
      }
    }

    /** md5_finish: the digest is what the blocks of the padded message leave in the registers. */
    method Finish(digest: array<Byte>)
      requires Ok() && digest.Length == 16 && digest != buf
      modifies this`low, this`high, this`abcd, this`msg, buf, digest
      ensures var abcd := Fold(process, INIT, Padded(old(msg)));
              forall k :: 0 <= k < 4 ==> LittleEndian(digest[4 * k..4 * k + 4]) == abcd[k]
    {
      hide Fold, LittleEndian, Full, Rest;
      OffsetFromCount(low, high, |msg|);
      ghost var m := msg;
      var data := LengthBytes(low, high);
      CountWords(low, high, |m|);
      Append(Pad(low));
      Append(data);
      assert msg == Padded(m);
      WholeBlocks(msg);
      WriteOut(digest);
    }

    /** The pad string of md5_finish, as far as it is used. */
    function Pad(low: nat): seq<Byte> {
      [128] + seq((55 - low / 8) % BLOCK, _ => 0)
    }
  }
}
