/** Copying a value into an item made of chunks (memcached/memcached.c, used by append and
    prepend): chunks are filled to capacity and new ones chained on as needed. */
module ChunkCopy {
  import opened Basics

  /** A chunk: its capacity and the bytes it uses. */
  datatype Chunk = Chunk(size: nat, data: seq<Byte>)

  /** An item to copy from: one piece, or chunks. */
  datatype Source = Whole(data: seq<Byte>) | Chunks(chunks: seq<seq<Byte>>)

  function Flat(chunks: seq<seq<Byte>>): seq<Byte> {
    if chunks == [] then [] else chunks[0] + Flat(chunks[1..])
  }

  function SourceBytes(s: Source): seq<Byte> {
    match s
    case Whole(data) => data
    case Chunks(chunks) => Flat(chunks)
  }

  /** The value stored in a chain of chunks. */
  function Value(chain: seq<Chunk>): seq<Byte> {
    if chain == [] then [] else Value(chain[..|chain| - 1]) + chain[|chain| - 1].data
  }

  /** Only the last chunk may have room. */
  predicate ChainOk(chain: seq<Chunk>) {
    && |chain| > 0
    && (forall i :: 0 <= i < |chain| ==> |chain[i].data| <= chain[i].size)
    && (forall i :: 0 <= i < |chain| - 1 ==> |chain[i].data| == chain[i].size)
  }

  function Last(chain: seq<Chunk>): Chunk
    requires |chain| > 0
  {
    chain[|chain| - 1]
  }

  function Room(chain: seq<Chunk>): int
    requires |chain| > 0
  {
    Last(chain).size - |Last(chain).data|
  }

  /** The last chunk with some bytes added. */
  function Filled(chain: seq<Chunk>, bytes: seq<Byte>): seq<Chunk>
    requires |chain| > 0
  {
    chain[|chain| - 1 := Last(chain).(data := Last(chain).data + bytes)]
  }

  lemma FilledValue(chain: seq<Chunk>, bytes: seq<Byte>)
    requires ChainOk(chain) && |bytes| <= Room(chain)
    ensures ChainOk(Filled(chain, bytes)) && Value(Filled(chain, bytes)) == Value(chain) + bytes
    ensures Room(Filled(chain, bytes)) == Room(chain) - |bytes|
  {
    var f, n := Filled(chain, bytes), |chain| - 1;
    assert f[..n] == chain[..n];
    assert Value(chain[..n]) + (chain[n].data + bytes) == (Value(chain[..n]) + chain[n].data) + bytes;
  }

  /** do_item_alloc_chunk: capacity for what remains, up to the largest chunk. */
  function NewChunk(remain: nat, largest: nat): Chunk {
    Chunk(if remain > largest then largest else remain, [])
  }

  lemma ChainedValue(chain: seq<Chunk>, remain: nat, largest: nat)
    requires ChainOk(chain) && Room(chain) == 0
    ensures ChainOk(chain + [NewChunk(remain, largest)]) && Value(chain + [NewChunk(remain, largest)]) == Value(chain)
  {
    var c := chain + [NewChunk(remain, largest)];
    assert c[..|c| - 1] == chain;
  }

  lemma FlatStep(chunks: seq<seq<Byte>>, k: nat)
    requires k < |chunks|
    ensures Flat(chunks[k..]) == chunks[k] + Flat(chunks[k + 1..])
  {
    assert chunks[k..][1..] == chunks[k + 1..];
  }

  /** What is left of the chunks after got: chunk k from byte copied on, and the chunks behind. */
  predicate Got(chunks: seq<seq<Byte>>, k: nat, copied: nat, got: seq<Byte>) {
    && k <= |chunks| && copied <= (if k < |chunks| then |chunks[k]| else 0)
    && copied <= |Flat(chunks[k..])| && Flat(chunks) == got + Flat(chunks[k..])[copied..]
  }

  lemma NextPiece(chunks: seq<seq<Byte>>, k: nat, copied: nat, todo: nat, got: seq<Byte>)
    requires Got(chunks, k, copied, got) && k < |chunks| && copied + todo <= |chunks[k]|
    ensures Got(chunks, k, copied + todo, got + chunks[k][copied..copied + todo])
    ensures copied + todo == |chunks[k]| ==> Got(chunks, k + 1, 0, got + chunks[k][copied..copied + todo])
  {
    hide Flat;
    FlatStep(chunks, k);
    var rest, piece := Flat(chunks[k..]), chunks[k][copied..copied + todo];
    assert got + rest[copied..] == (got + piece) + rest[copied + todo..];
  }

  lemma GotIsPrefix(chunks: seq<seq<Byte>>, k: nat, copied: nat, got: seq<Byte>)
    requires Got(chunks, k, copied, got)
    ensures |got| <= |Flat(chunks)| && got == Flat(chunks)[..|got|]
    ensures k == |chunks| ==> |got| == |Flat(chunks)|
  {
  }

  function Min(a: int, b: int): int { if a < b then a else b }

  // ------------------------------------------------------- what a copy needs, before it starts

  /** a / b rounded up. */
  function CeilDiv(a: nat, b: nat): nat
    requires b > 0
  {
    (a + b - 1) / b
  }

  /** How many chunks are asked for when len bytes are copied behind a last chunk with the given
      room: none if they leave room, otherwise one more than the bytes fill. */
  function Needs(room: nat, len: nat, largest: nat): nat
    requires largest > 0
  {
    if len == 0 || len < room then 0 else 1 + CeilDiv(len - room, largest)
  }

  /** The room left when they are all granted. */
  function RoomAfter(room: nat, len: nat): nat {
    if len == 0 || len < room then room - len else 0
  }

  /** How many of len bytes are in place when allocation m (from 0) is asked for. */
  function Reached(room: nat, len: nat, largest: nat, m: nat): nat {
    Min(len, room + m * largest)
  }

  lemma CeilStep(a: nat, b: nat)
    requires b > 0
    ensures CeilDiv(0, b) == 0
    ensures 0 < a <= b ==> CeilDiv(a, b) == 1
    ensures a >= b ==> CeilDiv(a, b) == 1 + CeilDiv(a - b, b)
  {
    DivIs(b - 1, b, 0, b - 1);
    if 0 < a <= b { DivIs(a + b - 1, b, 1, a - 1); }
    if a >= b {
      var q, r := (a - 1) / b, (a - 1) % b;
      assert (q + 1) * b == q * b + b;
      DivIs(a + b - 1, b, q + 1, r);
    }
  }

  lemma DivIs(x: nat, b: nat, q: nat, r: nat)
    requires x == q * b + r && r < b
    ensures x / b == q
  {
    var p := x / b;
    assert x == p * b + x % b;
    if p < q { MulAtLeast(q - p, b); }
    if q < p { MulAtLeast(p - q, b); }
    assert (q - p) * b == q * b - p * b && (p - q) * b == p * b - q * b;
  }

  lemma MulAtLeast(d: nat, b: nat)
    requires d > 0
    ensures d * b >= b
  {
    assert d * b == (d - 1) * b + b;
  }

  /** A piece goes into the last chunk; if it is full then, a chunk for the rest is asked for. */
  lemma NeedsStep(room: nat, rem: nat, todo: nat, largest: nat)
    requires largest > 0 && todo <= room && todo <= rem && rem > 0
    ensures todo < room ==> Needs(room, rem, largest) == Needs(room - todo, rem - todo, largest)
    ensures todo == room ==> Needs(room, rem, largest) == 1 + Needs(Min(rem - todo, largest), rem - todo, largest)
    ensures todo == room ==> RoomAfter(room, rem) == RoomAfter(Min(rem - todo, largest), rem - todo)
    ensures todo < room ==> RoomAfter(room, rem) == RoomAfter(room - todo, rem - todo)
  {
    CeilStep(rem - todo, largest);
  }

  lemma ReachedStep(room: nat, len: nat, largest: nat, m: nat)
    ensures Reached(room, len, largest, m + 1) == Min(len, Reached(room, len, largest, m) + largest)
    ensures Reached(room, len, largest, 0) == Min(len, room)
  {
    assert (m + 1) * largest == m * largest + largest;
  }

  // ----------------------------------------------------------------------------- the copies

  /** The chunks of an item that is being filled. Allocation number k succeeds if grants(k);
      largest is the capacity of the largest chunk. */
  class Target {
    var chain: seq<Chunk>
    var asked: nat
    const grants: nat -> bool
    const largest: nat

    constructor (chain: seq<Chunk>, grants: nat -> bool, largest: nat)
      ensures this.chain == chain && this.asked == 0 && this.grants == grants && this.largest == largest
    {
      this.chain, this.asked, this.grants, this.largest := chain, 0, grants, largest;
    }

    /** The n allocations from number k on are all granted. */
    ghost predicate Granted(k: nat, n: nat) {
      forall j :: k <= j < k + n ==> grants(j)
    }

    /** A full last chunk is followed by a new one; false if the allocation fails. */
    method Extend(remain: nat) returns (ok: bool)
      requires ChainOk(chain)
      modifies this
      ensures ChainOk(chain) && Value(chain) == old(Value(chain))
      ensures old(Room(chain)) != 0 ==> ok && chain == old(chain) && asked == old(asked)
      ensures old(Room(chain)) == 0 ==> asked == old(asked) + 1 && ok == grants(old(asked))
      ensures old(Room(chain)) == 0 && ok ==> Room(chain) == Min(remain, largest)
    {
      hide Value;
      if |Last(chain).data| != Last(chain).size { return true; }
      asked := asked + 1;
      if !grants(asked - 1) { return false; }
      ChainedValue(chain, remain, largest);
      var size := remain;
      if size > largest { size := largest; }
      chain := chain + [Chunk(size, [])];
      ok := true;
    }

    /** A piece that fits goes into the last chunk, which is extended when full. */
    method Place(piece: seq<Byte>, ghost len: nat, remain: nat, ghost room: nat, ghost start: nat) returns (ok: bool)
      requires ChainOk(chain) && largest > 0 && remain > 0 && |piece| <= remain <= len
      requires start <= asked && 0 <= Room(chain) && |piece| <= Room(chain)
      requires Progress(room, len, remain, start)
      modifies this
      ensures ChainOk(chain) && start <= asked && Value(chain) == old(Value(chain)) + piece
      ensures ok ==> Progress(room, len, remain - |piece|, start)
      ensures ok && Room(chain) == 0 ==> remain == |piece|
      ensures !ok ==>
                && Refused(room, len, start)
                && len - (remain - |piece|) == Reached(room, len, largest, asked - start - 1)
    {
      hide Value, ChainOk, Needs, RoomAfter, Reached;
      FilledValue(chain, piece);
      RoomFacts(chain);
      NeedsStep(Room(chain), remain, |piece|, largest);
      ReachedStep(room, len, largest, asked - start);
      ReachedStep(room, len, largest, 0);
      chain := Filled(chain, piece);
      ok := Extend(remain - |piece|);
      RoomFacts(chain);
    }

    /** Where a copy of len bytes that began with asked == start and the given room stands when
        remain of them are left: what is still needed, the room at the end, the reach. */
    ghost predicate Progress(room: nat, len: nat, remain: nat, start: nat)
      reads this
      requires largest > 0
    {
      && |chain| > 0 && start <= asked && remain <= len && Room(chain) >= 0
      && Granted(start, asked - start)
      && asked - start + Needs(Room(chain), remain, largest) == Needs(room, len, largest)
      && RoomAfter(Room(chain), remain) == RoomAfter(room, len)
      && len - remain + Room(chain) == (if asked == start then room else Reached(room, len, largest, asked - start))
    }

    /** The last allocation asked for, one of those the copy needs, was refused, the earlier granted. */
    ghost predicate Refused(room: nat, len: nat, start: nat)
      reads this
      requires largest > 0
    {
      start < asked <= start + Needs(room, len, largest) && Granted(start, asked - 1 - start) && !grants(asked - 1)
    }

    /** The loop for a source in one piece. It succeeds exactly if the allocations it needs are
        granted, and otherwise stops at the first refused. */
    method CopyWhole(data: seq<Byte>, len: nat) returns (ok: bool)
      requires ChainOk(chain) && len <= |data| && largest > 0
      modifies this
      ensures ChainOk(chain) && old(Room(chain)) >= 0
      ensures ok <==> Granted(old(asked), Needs(old(Room(chain)), len, largest))
      ensures ok ==> Value(chain) == old(Value(chain)) + data[..len] && Room(chain) == RoomAfter(old(Room(chain)), len)
      ensures ok ==> asked == old(asked) + Needs(old(Room(chain)), len, largest)
      ensures !ok ==> Refused(old(Room(chain)), len, old(asked))
      ensures !ok ==>
                Value(chain) ==
                old(Value(chain)) + data[..Reached(old(Room(chain)), len, largest, asked - old(asked) - 1)]
    {
      hide Value, ChainOk;
      RoomFacts(chain);
      var done: nat := 0;
      ghost var room: nat := Room(chain);
      while done < len
        invariant ChainOk(chain) && done <= len && old(asked) <= asked && Progress(room, len, len - done, old(asked))
        invariant Value(chain) == old(Value(chain)) + data[..done]
        decreases len - done, if NoRoom(chain) then 1 else 0
      {
        hide Needs, RoomAfter, Reached;
        RoomFacts(chain);
        var todo := Min(Room(chain), len - done);
        assert data[..done] + data[done..done + todo] == data[..done + todo];
        assert old(Value(chain)) + (data[..done] + data[done..done + todo])
               == (old(Value(chain)) + data[..done]) + data[done..done + todo];
        ok := Place(data[done..done + todo], len, len - done, room, old(asked));
        done := done + todo;
        if !ok { return false; }
      }
      ok := true;
    }

    /** The loop for a source in chunks: it asks for the same chunks and stops at the same byte. */
    method CopyChunked(chunks: seq<seq<Byte>>, len: nat) returns (ok: bool)
      requires ChainOk(chain) && len <= |Flat(chunks)| && largest > 0
      modifies this
      ensures ChainOk(chain) && old(Room(chain)) >= 0
      ensures ok <==> Granted(old(asked), Needs(old(Room(chain)), len, largest))
      ensures ok ==>
                && Value(chain) == old(Value(chain)) + Flat(chunks)[..len]
                && Room(chain) == RoomAfter(old(Room(chain)), len)
      ensures ok ==> asked == old(asked) + Needs(old(Room(chain)), len, largest)
      ensures !ok ==> Refused(old(Room(chain)), len, old(asked))
      ensures !ok ==>
                Value(chain) ==
                old(Value(chain)) + Flat(chunks)[..Reached(old(Room(chain)), len, largest, asked - old(asked) - 1)]
    {
      hide Value, ChainOk, Flat, Got;
      RoomFacts(chain);
      var remain: nat, k: nat, copied: nat := len, 0, 0;
      ghost var got: seq<Byte> := [];
      ghost var room: nat := Room(chain);
      GotNone(chunks);
      while k < |chunks| && remain > 0
        invariant ChainOk(chain) && old(asked) <= asked && Progress(room, len, remain, old(asked))
        invariant k <= |chunks| && (k < |chunks| ==> copied < |chunks[k]| || copied == 0)
        invariant Value(chain) == old(Value(chain)) + got && |got| + remain == len && Got(chunks, k, copied, got)
        decreases remain, |chunks| - k, if NoRoom(chain) then 1 else 0
      {
        hide Needs, RoomAfter, Reached;
        RoomFacts(chain);
        var todo := Min(Min(Room(chain), |chunks[k]| - copied), remain);
        var piece := chunks[k][copied..copied + todo];
        NextPiece(chunks, k, copied, todo, got);
        assert old(Value(chain)) + (got + piece) == (old(Value(chain)) + got) + piece;
        ok := Place(piece, len, remain, room, old(asked));
        copied := copied + todo;
        remain := remain - todo;
        got := got + piece;
        if !ok {
          GotIsPrefix(chunks, k, copied, got);
          return false;
        }
        if copied == |chunks[k]| { copied, k := 0, k + 1; }
      }
      GotIsPrefix(chunks, k, copied, got);
      ok := true;
    }
  }

  /** Where copying starts: the first chunk with room, or the last one. */
  method FindRoom(chain: seq<Chunk>) returns (i: nat)
    requires ChainOk(chain)
    ensures i == |chain| - 1
  {
    i := 0;
    while chain[i].size == |chain[i].data|
      invariant i < |chain|
      decreases |chain| - i
    {
      if i + 1 < |chain| { i := i + 1; } else { break; }
    }
  }

  /** _store_item_copy_chunks. When only the last allocation is refused the copy fails although
      every byte is in place. */
  method CopyInto(target: Target, source: Source, len: nat) returns (ok: bool)
    requires ChainOk(target.chain) && len <= |SourceBytes(source)| && target.largest > 0
    modifies target
    ensures ChainOk(target.chain) && old(Room(target.chain)) >= 0
    ensures var n := Needs(old(Room(target.chain)), len, target.largest);
            && (ok <==> target.Granted(old(target.asked), n))
            && (ok ==> target.asked == old(target.asked) + n)
            && (n > 0 && target.Granted(old(target.asked), n - 1) ==>
                  Value(target.chain) == old(Value(target.chain)) + SourceBytes(source)[..len])
    ensures ok ==> Value(target.chain) == old(Value(target.chain)) + SourceBytes(source)[..len]
    ensures ok ==> Room(target.chain) == RoomAfter(old(Room(target.chain)), len)
    ensures !ok ==> target.Refused(old(Room(target.chain)), len, old(target.asked))
    ensures !ok ==> Value(target.chain) == old(Value(target.chain)) +
                    SourceBytes(source)[..Reached(old(Room(target.chain)), len, target.largest,
                                                  target.asked - old(target.asked) - 1)]
  {
    hide Value, ChainOk, Flat;
    RoomFacts(target.chain);
    var dch := FindRoom(target.chain);
    match source
    case Chunks(chunks) => ok := target.CopyChunked(chunks, len);
    case Whole(data) => ok := target.CopyWhole(data, len);
    LastReach(old(Room(target.chain)), len, target.largest);
  }

  /** Before the last allocation everything is in place. */
  lemma LastReach(room: nat, len: nat, largest: nat)
    requires largest > 0
    ensures var n := Needs(room, len, largest); n > 0 ==> Reached(room, len, largest, n - 1) == len
  {
    if len >= room { CeilCovers(len - room, largest); }
  }

  lemma {:induction false} CeilCovers(a: nat, b: nat)
    requires b > 0
    ensures a <= CeilDiv(a, b) * b
  {
    hide CeilDiv;
    CeilStep(a, b);
    if a > b {
      CeilCovers(a - b, b);
      assert (1 + CeilDiv(a - b, b)) * b == b + CeilDiv(a - b, b) * b;
    }
  }

  /** Whatever the data: into an item that has exactly room for it, the copy fails if no chunk can
      be had, with the whole value in place. */
  method RefusedThoughComplete(data: seq<Byte>, largest: nat) returns (target: Target, ok: bool)
    requires |data| > 0 && largest > 0
    ensures !ok && Value(target.chain) == data
  {
    var chain := [Chunk(|data|, [])];
    target := new Target(chain, _ => false, largest);
    assert chain[..0] == [];
    assert Value(chain) == [] && !target.grants(0);
    ok := CopyInto(target, Whole(data), |data|);
    assert data[..|data|] == data;
  }

  // ------------------------------------------------------------------- append and prepend

  const CRLF: seq<Byte> := [13, 10]

  /** A stored item: a value and the line end. */
  predicate Ends(item: seq<Byte>) {
    |item| >= 2 && item[|item| - 2..] == CRLF
  }

  function Body(item: seq<Byte>): seq<Byte>
    requires Ends(item)
  {
    item[..|item| - 2]
  }

  /** _store_item_copy_data into an item of chunks; first is the item whose value comes first:
      the old one for append, the new one for prepend. */
  method JoinChunked(target: Target, first: Source, second: Source) returns (ok: bool)
    requires ChainOk(target.chain) && Value(target.chain) == [] && target.largest > 0
    requires Ends(SourceBytes(first)) && Ends(SourceBytes(second))
    modifies target
    ensures ok ==> Value(target.chain) == Body(SourceBytes(first)) + Body(SourceBytes(second)) + CRLF
    ensures old(Room(target.chain)) >= 0
    ensures var room, len := old(Room(target.chain)), |SourceBytes(first)| - 2;
            ok <==> target.Granted(old(target.asked), Needs(room, len, target.largest) +
                                   Needs(RoomAfter(room, len), |SourceBytes(second)|, target.largest))
  {
    hide Needs, RoomAfter, Reached, Value, ChainOk, SourceBytes;
    RoomFacts(target.chain);
    ok := CopyInto(target, first, |SourceBytes(first)| - 2);
    if !ok { return; }
    ok := CopyInto(target, second, |SourceBytes(second)|);
    ghost var b := SourceBytes(second);
    assert b[..|b|] == b == b[..|b| - 2] + b[|b| - 2..];
  }

  /** The same into an item in one piece: the second copy overwrites the first line end. */
  method JoinWhole(target: array<Byte>, first: seq<Byte>, second: seq<Byte>)
    requires Ends(first) && Ends(second) && target.Length == |first| + |second| - 2
    modifies target
    ensures target[..] == Body(first) + Body(second) + CRLF
  {
    forall i | 0 <= i < |first| { target[i] := first[i]; }
    forall i | 0 <= i < |second| { target[|first| - 2 + i] := second[i]; }
    assert target[..|first| - 2] == Body(first);
    assert target[|first| - 2..] == second == second[..|second| - 2] + second[|second| - 2..];
    assert target[..] == target[..|first| - 2] + target[|first| - 2..];
  }

  lemma GotNone(chunks: seq<seq<Byte>>)
    ensures Got(chunks, 0, 0, [])
  {
    assert chunks[0..] == chunks;
  }

  predicate NoRoom(chain: seq<Chunk>) { |chain| > 0 && Room(chain) == 0 }

  lemma RoomFacts(chain: seq<Chunk>)
    requires ChainOk(chain)
    ensures |chain| > 0 && Room(chain) >= 0
  {
  }
}
