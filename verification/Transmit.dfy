/** Sending the queued responses of a connection (memcached/memcached.c): the gather lists
    handed to the socket, partial writes, and values that lie in item chunks. */
module Transmit {
  import opened Basics

  const IOV_COUNT := 4
  const IOV_MAX := 1024

  /** What an iovec points at: plain memory, or an item whose value lies in chunks. Each
      chunk is given by the bytes it uses. */
  datatype Base = Plain(bytes: seq<Byte>) | Chunked(chunks: seq<seq<Byte>>)

  datatype Iov = Iov(base: Base, off: nat, len: nat)

  /** A response. chunkedIov is the index of the iovec that stands for chunks, 0 for none;
      chunkedTotal is its length when it was added. */
  datatype Resp = Resp(iov: seq<Iov>, chunkedIov: nat, chunkedTotal: nat, tosend: int, skip: bool)

  // --------------------------------------------------------------------- what is to be sent

  function Flat(chunks: seq<seq<Byte>>): seq<Byte> {
    if chunks == [] then [] else chunks[0] + Flat(chunks[1..])
  }

  predicate IovOk(iov: Iov, chunked: bool, total: nat) {
    if chunked then iov.base.Chunked? && iov.off == 0 && iov.len <= total <= |Flat(iov.base.chunks)|
    else iov.base.Plain? && iov.off + iov.len <= |iov.base.bytes|
  }

  /** The bytes of an iovec still to be sent: of a chunked one, the last len of its total. */
  function IovBytes(iov: Iov, chunked: bool, total: nat): seq<Byte>
    requires IovOk(iov, chunked, total)
  {
    if chunked then Flat(iov.base.chunks)[total - iov.len..total]
    else iov.base.bytes[iov.off..iov.off + iov.len]
  }

  predicate IsChunked(r: Resp, x: nat) { r.chunkedIov != 0 && x == r.chunkedIov }

  predicate IovsOk(r: Resp) {
    && |r.iov| <= IOV_COUNT && (r.chunkedIov != 0 ==> r.chunkedIov < |r.iov|)
    && forall x :: 0 <= x < |r.iov| ==> IovOk(r.iov[x], IsChunked(r, x), r.chunkedTotal)
  }

  /** The bytes of the iovecs from x on. */
  function BytesFrom(r: Resp, x: nat): (bytes: seq<Byte>)
    requires IovsOk(r) && x <= |r.iov|
    ensures |bytes| == LenFrom(r.iov, x)
    decreases |r.iov| - x
  {
    if x == |r.iov| then [] else IovBytes(r.iov[x], IsChunked(r, x), r.chunkedTotal) + BytesFrom(r, x + 1)
  }

  function LenFrom(iov: seq<Iov>, x: nat): nat
    requires x <= |iov|
    decreases |iov| - x
  {
    if x == |iov| then 0 else iov[x].len + LenFrom(iov, x + 1)
  }

  predicate RespOk(r: Resp) {
    IovsOk(r) && r.tosend == LenFrom(r.iov, 0)
  }

  function RespBytes(r: Resp): seq<Byte>
    requires RespOk(r)
  {
    if r.skip then [] else BytesFrom(r, 0)
  }

  predicate AllOk(resps: seq<Resp>) {
    forall i :: 0 <= i < |resps| ==> RespOk(resps[i])
  }

  /** Everything the connection still has to send. */
  function Stream(resps: seq<Resp>): seq<Byte>
    requires AllOk(resps)
  {
    if resps == [] then [] else RespBytes(resps[0]) + Stream(resps[1..])
  }

  // ------------------------------------------------------------------- building a response

  /** resp_add_iov. */
  function AddIov(r: Resp, bytes: seq<Byte>): Resp
    requires |r.iov| < IOV_COUNT
  {
    r.(iov := r.iov + [Iov(Plain(bytes), 0, |bytes|)], tosend := r.tosend + |bytes|)
  }

  /** resp_add_chunked_iov of the first len bytes of a chunked item. */
  function AddChunkedIov(r: Resp, chunks: seq<seq<Byte>>, len: nat): Resp
    requires |r.iov| < IOV_COUNT
  {
    r.(chunkedIov := |r.iov|, chunkedTotal := len, iov := r.iov + [Iov(Chunked(chunks), 0, len)],
       tosend := r.tosend + len)
  }

  lemma SameIovBytes(iov: Iov, chunked: bool, total: nat, total': nat)
    requires IovOk(iov, chunked, total) && IovOk(iov, chunked, total') && (chunked ==> total' == total)
    ensures IovBytes(iov, chunked, total) == IovBytes(iov, chunked, total')
  {
  }

  lemma {:induction false} AddedAtEnd(r: Resp, r': Resp, x: nat)
    requires RespOk(r) && IovsOk(r') && x <= |r.iov| && |r'.iov| == |r.iov| + 1 && r'.iov[..|r.iov|] == r.iov
    requires forall y :: 0 <= y < |r.iov| ==>
             IsChunked(r', y) == IsChunked(r, y) && (IsChunked(r, y) ==> r'.chunkedTotal == r.chunkedTotal)
    ensures BytesFrom(r', x) == BytesFrom(r, x) + BytesFrom(r', |r.iov|)
    ensures LenFrom(r'.iov, x) == LenFrom(r.iov, x) + LenFrom(r'.iov, |r.iov|)
    decreases |r.iov| - x
  {
    hide BytesFrom, IovOk, IovBytes, IsChunked;
    if x == |r.iov| {
      NothingLeft(r);
    } else {
      assert r'.iov[x] == r'.iov[..|r.iov|][x] == r.iov[x];
      AddedAtEnd(r, r', x + 1);
      UnfoldBytes(r, x);
      UnfoldBytes(r', x);
      SameIovBytes(r.iov[x], IsChunked(r, x), r.chunkedTotal, r'.chunkedTotal);
      var own := IovBytes(r.iov[x], IsChunked(r, x), r.chunkedTotal);
      assert (own + BytesFrom(r, x + 1)) + BytesFrom(r', |r.iov|)
             == own + (BytesFrom(r, x + 1) + BytesFrom(r', |r.iov|));
    }
  }

  /** A response built piece by piece is to send its pieces in order. The one chunked iovec is
      not the first: index 0 means there is none. */
  lemma AddIovAppends(r: Resp, bytes: seq<Byte>)
    requires RespOk(r) && |r.iov| < IOV_COUNT && !r.skip
    ensures RespOk(AddIov(r, bytes)) && RespBytes(AddIov(r, bytes)) == RespBytes(r) + bytes
  {
    var r' := AddIov(r, bytes);
    forall y | 0 <= y < |r'.iov| ensures IovOk(r'.iov[y], IsChunked(r', y), r'.chunkedTotal) {
      if y < |r.iov| { assert r'.iov[y] == r.iov[y]; }
    }
    AddedAtEnd(r, r', 0);
  }

  lemma AddChunkedIovAppends(r: Resp, chunks: seq<seq<Byte>>, len: nat)
    requires RespOk(r) && |r.iov| < IOV_COUNT && !r.skip && r.chunkedIov == 0 && len <= |Flat(chunks)|
    ensures RespOk(AddChunkedIov(r, chunks, len)) <==> 0 < |r.iov|
    ensures 0 < |r.iov| ==> RespBytes(AddChunkedIov(r, chunks, len)) == RespBytes(r) + Flat(chunks)[..len]
  {
    var r' := AddChunkedIov(r, chunks, len);
    if |r.iov| == 0 {
      assert !IovOk(r'.iov[0], IsChunked(r', 0), r'.chunkedTotal);
    } else {
      forall y | 0 <= y < |r'.iov| ensures IovOk(r'.iov[y], IsChunked(r', y), r'.chunkedTotal) {
        if y < |r.iov| { assert r'.iov[y] == r.iov[y] && IovOk(r.iov[y], IsChunked(r, y), r.chunkedTotal); }
      }
      AddedAtEnd(r, r', 0);
    }
  }

  // ------------------------------------------------------------------ after bytes were sent

  /** An iovec after its first n bytes went out; a chunked one keeps its base. */
  function Advanced(iov: Iov, chunked: bool, n: nat): Iov
    requires n <= iov.len
  {
    if chunked then iov.(len := iov.len - n) else iov.(off := iov.off + n, len := iov.len - n)
  }

  /** The inner loop of _transmit_post, from iovec x. */
  function Consumed(r: Resp, x: nat, n: nat): Resp
    requires x <= |r.iov|
    decreases |r.iov| - x
  {
    if x == |r.iov| then r
    else if n >= r.iov[x].len then
      Consumed(r.(iov := r.iov[x := r.iov[x].(len := 0)], tosend := r.tosend - r.iov[x].len), x + 1, n - r.iov[x].len)
    else r.(iov := r.iov[x := Advanced(r.iov[x], IsChunked(r, x), n)], tosend := r.tosend - n)
  }

  lemma AdvancedBytes(iov: Iov, chunked: bool, total: nat, n: nat)
    requires IovOk(iov, chunked, total) && n <= iov.len
    ensures IovOk(Advanced(iov, chunked, n), chunked, total)
    ensures IovBytes(Advanced(iov, chunked, n), chunked, total) == IovBytes(iov, chunked, total)[n..]
    ensures IovOk(iov.(len := 0), chunked, total) && IovBytes(iov.(len := 0), chunked, total) == []
    ensures |IovBytes(iov, chunked, total)| == iov.len
  {
  }

  /** Changing an earlier iovec leaves the bytes of the later ones. */
  lemma {:induction false} LaterBytes(r: Resp, r': Resp, x: nat, y: nat)
    requires IovsOk(r) && IovsOk(r') && x < y <= |r.iov| == |r'.iov|
    requires r'.chunkedIov == r.chunkedIov && r'.chunkedTotal == r.chunkedTotal && r'.iov == r.iov[x := r'.iov[x]]
    ensures BytesFrom(r', y) == BytesFrom(r, y) && LenFrom(r'.iov, y) == LenFrom(r.iov, y)
    decreases |r.iov| - y
  {
    hide IovOk, IovBytes;
    if y < |r.iov| { LaterBytes(r, r', x, y + 1); }
  }

  lemma SetIov(r: Resp, x: nat, iov: Iov, tosend: int)
    requires IovsOk(r) && x < |r.iov| && IovOk(iov, IsChunked(r, x), r.chunkedTotal)
    ensures var r' := r.(iov := r.iov[x := iov], tosend := tosend);
            && IovsOk(r') && BytesFrom(r', x) == IovBytes(iov, IsChunked(r, x), r.chunkedTotal) + BytesFrom(r, x + 1)
            && BytesFrom(r', x + 1) == BytesFrom(r, x + 1)
  {
    var r' := r.(iov := r.iov[x := iov], tosend := tosend);
    hide IovOk, IovBytes, BytesFrom;
    assert IovsOk(r') by {
      forall y | 0 <= y < |r'.iov| ensures IovOk(r'.iov[y], IsChunked(r', y), r'.chunkedTotal) {
        assert IsChunked(r', y) == IsChunked(r, y);
      }
    }
    LaterBytes(r, r', x, x + 1);
    UnfoldBytes(r', x);
  }

  lemma UnfoldBytes(r: Resp, x: nat)
    requires IovsOk(r) && x < |r.iov|
    ensures BytesFrom(r, x) == IovBytes(r.iov[x], IsChunked(r, x), r.chunkedTotal) + BytesFrom(r, x + 1)
  {
  }

  predicate SameFrame(r: Resp, r': Resp, x: nat)
    requires x <= |r.iov|
  {
    && |r'.iov| == |r.iov| && r'.skip == r.skip && r'.chunkedIov == r.chunkedIov && r'.chunkedTotal == r.chunkedTotal
    && r'.iov[..x] == r.iov[..x]
  }

  lemma {:induction false} ConsumedFrame(r: Resp, x: nat, n: nat)
    requires x <= |r.iov| && n <= LenFrom(r.iov, x)
    ensures SameFrame(r, Consumed(r, x, n), x) && Consumed(r, x, n).tosend == r.tosend - n
    decreases |r.iov| - x
  {
    if x < |r.iov| && n >= r.iov[x].len {
      var r1 := r.(iov := r.iov[x := r.iov[x].(len := 0)], tosend := r.tosend - r.iov[x].len);
      LaterLength(r.iov, r1.iov, x, x + 1);
      ConsumedFrame(r1, x + 1, n - r.iov[x].len);
      var r' := Consumed(r1, x + 1, n - r.iov[x].len);
      assert r'.iov[..x] == r'.iov[..x + 1][..x] && r1.iov[..x] == r1.iov[..x + 1][..x];
    }
  }

  /** Sending n bytes takes exactly the first n off what the response has to send. */
  lemma {:induction false} ConsumedBytes(r: Resp, x: nat, n: nat)
    requires IovsOk(r) && x <= |r.iov| && n <= LenFrom(r.iov, x)
    ensures IovsOk(Consumed(r, x, n)) && |Consumed(r, x, n).iov| == |r.iov|
    ensures BytesFrom(Consumed(r, x, n), x) == BytesFrom(r, x)[n..]
    decreases |r.iov| - x
  {
    hide IovOk, IovBytes, BytesFrom, IovsOk, Advanced;
    if x == |r.iov| {
      NothingLeft(r);
    } else {
      OwnBytes(r, x);
      var len := r.iov[x].len;
      UnfoldBytes(r, x);
      if n >= len {
        var r1 := r.(iov := r.iov[x := r.iov[x].(len := 0)], tosend := r.tosend - len);
        SetIov(r, x, r.iov[x].(len := 0), r.tosend - len);
        LaterLength(r.iov, r1.iov, x, x + 1);
        ConsumedFrame(r1, x + 1, n - len);
        ConsumedBytes(r1, x + 1, n - len);
        var r' := Consumed(r1, x + 1, n - len);
        assert r'.iov[x] == r'.iov[..x + 1][x] == r1.iov[..x + 1][x] == r1.iov[x];
        UnfoldBytes(r', x);
      } else {
        AdvancedBytes(r.iov[x], IsChunked(r, x), r.chunkedTotal, n);
        SetIov(r, x, Advanced(r.iov[x], IsChunked(r, x), n), r.tosend - n);
      }
    }
  }

  lemma NothingLeft(r: Resp)
    requires IovsOk(r)
    ensures BytesFrom(r, |r.iov|) == []
  {
  }

  lemma OwnBytes(r: Resp, x: nat)
    requires IovsOk(r) && x < |r.iov|
    ensures IovOk(r.iov[x], IsChunked(r, x), r.chunkedTotal)
            && IovOk(r.iov[x].(len := 0), IsChunked(r, x), r.chunkedTotal)
    ensures |IovBytes(r.iov[x], IsChunked(r, x), r.chunkedTotal)| == r.iov[x].len
    ensures IovBytes(r.iov[x].(len := 0), IsChunked(r, x), r.chunkedTotal) == []
  {
  }

  lemma {:induction false} LaterLength(iov: seq<Iov>, iov': seq<Iov>, x: nat, y: nat)
    requires x < y <= |iov| == |iov'| && iov' == iov[x := iov'[x]]
    ensures LenFrom(iov', y) == LenFrom(iov, y)
    decreases |iov| - y
  {
    if y < |iov| { LaterLength(iov, iov', x, y + 1); }
  }

  /** _transmit_post: the responses left after n bytes went out. */
  function Dropped(resps: seq<Resp>, n: nat): seq<Resp>
    requires AllOk(resps)
  {
    if resps == [] then []
    else if resps[0].skip then Dropped(resps[1..], n)
    else if n >= resps[0].tosend then Dropped(resps[1..], n - resps[0].tosend)
    else [Consumed(resps[0], 0, n)] + resps[1..]
  }

  lemma ConsumedResp(r: Resp, n: nat)
    requires RespOk(r) && !r.skip && n < r.tosend
    ensures var r' := Consumed(r, 0, n);
            RespOk(r') && !r'.skip && r'.tosend > 0 && RespBytes(r') == RespBytes(r)[n..]
  {
    hide IovsOk, BytesFrom, Consumed;
    ConsumedFrame(r, 0, n);
    ConsumedBytes(r, 0, n);
    BytesLength(r);
    BytesLength(Consumed(r, 0, n));
  }

  lemma BytesLength(r: Resp)
    requires IovsOk(r)
    ensures |BytesFrom(r, 0)| == LenFrom(r.iov, 0)
  {
  }

  /** Exactly the first n bytes of the stream are gone, and no response is left that has
      nothing more to send in front of one that has. */
  lemma {:induction false} DroppedStream(resps: seq<Resp>, n: nat)
    requires AllOk(resps) && n <= |Stream(resps)|
    ensures AllOk(Dropped(resps, n)) && Stream(Dropped(resps, n)) == Stream(resps)[n..]
    ensures |Dropped(resps, n)| <= |resps|
    ensures Dropped(resps, n) != [] ==> !Dropped(resps, n)[0].skip && Dropped(resps, n)[0].tosend > 0
  {
    hide RespOk, RespBytes, Consumed;
    if resps != [] {
      var r, rest := resps[0], resps[1..];
      RespLength(r);
      if r.skip {
        DroppedStream(rest, n);
      } else if n >= r.tosend {
        DroppedStream(rest, n - r.tosend);
      } else {
        ConsumedResp(r, n);
        assert ([Consumed(r, 0, n)] + rest)[1..] == rest;
      }
    }
  }

  lemma RespLength(r: Resp)
    requires RespOk(r)
    ensures r.tosend >= 0 && |RespBytes(r)| == if r.skip then 0 else r.tosend
  {
    BytesLength(r);
  }

  // ---------------------------------------------------------------------- the gather list

  function Concat(iovs: seq<seq<Byte>>): seq<Byte> {
    if iovs == [] then [] else iovs[0] + Concat(iovs[1..])
  }

  lemma {:induction false} ConcatSum(a: seq<seq<Byte>>, b: seq<seq<Byte>>)
    ensures Concat(a + b) == Concat(a) + Concat(b)
  {
    if a == [] {
      assert a + b == b;
    } else {
      ConcatSum(a[1..], b);
      assert (a + b)[1..] == a[1..] + b;
      assert a[0] + (Concat(a[1..]) + Concat(b)) == (a[0] + Concat(a[1..])) + Concat(b);
    }
  }

  lemma ConcatPush(a: seq<seq<Byte>>, x: seq<Byte>)
    ensures Concat(a + [x]) == Concat(a) + x
  {
    ConcatSum(a, [x]);
    assert [x][1..] == [];
  }

  lemma {:induction false} FlatFrom(chunks: seq<seq<Byte>>, k: nat)
    requires k < |chunks|
    ensures Flat(chunks[k..]) == chunks[k] + Flat(chunks[k + 1..])
  {
    assert chunks[k..][1..] == chunks[k + 1..];
  }

  /** The bytes a chunk walk still owes: todo of them, after skipping done. */
  function Owed(flat: seq<Byte>, done: int, todo: int): seq<Byte>
    requires 0 <= done && (todo > 0 ==> done + todo <= |flat|)
  {
    if todo > 0 then flat[done..done + todo] else []
  }

  /** A chunk that was sent before is skipped; of the next one comes what is left of it. */
  lemma OwedStep(chunk: seq<Byte>, rest: seq<Byte>, done: int, todo: int)
    requires 0 <= done && 0 < todo && done + todo <= |chunk + rest|
    ensures done >= |chunk| ==> Owed(chunk + rest, done, todo) == Owed(rest, done - |chunk|, todo)
    ensures done < |chunk| ==>
              (&& var take := if |chunk| - done > todo then todo else |chunk| - done;
                  Owed(chunk + rest, done, todo) == chunk[done..done + take] + Owed(rest, 0, todo - (|chunk| - done)))
  {
  }

  /** The loop of _transmit_pre over the chunks of an item: the last len bytes of its first
      total, a piece per chunk, as long as there is room for iovecs. */
  method ChunkPieces(iov: Iov, total: nat, used: nat) returns (pieces: seq<seq<Byte>>)
    requires IovOk(iov, true, total) && used <= IOV_MAX - 1
    ensures used + |pieces| <= IOV_MAX - 1
    ensures Concat(pieces) <= IovBytes(iov, true, total)
    ensures used + |pieces| < IOV_MAX - 1 ==> Concat(pieces) == IovBytes(iov, true, total)
    ensures iov.len > 0 && used < IOV_MAX - 1 ==> Concat(pieces) != []
    ensures iov.len == 0 ==> pieces == []
  {
    hide Flat, Owed, Concat, IovBytes, IovOk;
    ChunkStart(iov, total);
    ConcatNone();
    var chunks := iov.base.chunks;
    var ch, done, todo: int := 0, total - iov.len, iov.len;
    pieces := [];
    ghost var want := IovBytes(iov, true, total);
    while ch < |chunks| && todo > 0 && used + |pieces| < IOV_MAX - 1
      invariant 0 <= ch <= |chunks| && 0 <= done && used + |pieces| <= IOV_MAX - 1
      invariant todo > 0 ==> done + todo <= |Flat(chunks[ch..])|
      invariant want == Concat(pieces) + Owed(Flat(chunks[ch..]), done, todo)
      invariant if pieces == [] then todo == iov.len else done == 0 && iov.len > 0 && Concat(pieces) != []
      decreases |chunks| - ch
    {
      FlatFrom(chunks, ch);
      OwedStep(chunks[ch], Flat(chunks[ch + 1..]), done, todo);
      var chunkLen := |chunks[ch]|;
      if chunkLen == 0 { ch := ch + 1; continue; }
      var skip := 0;
      if done >= chunkLen {
        done, ch := done - chunkLen, ch + 1;
        continue;
      } else if done > 0 {
        skip, done := done, 0;
      }
      var piece := chunks[ch][skip..skip + if chunkLen - skip > todo then todo else chunkLen - skip];
      ConcatPush(pieces, piece);
      assert Concat(pieces) + (piece + Owed(Flat(chunks[ch + 1..]), 0, todo - (chunkLen - skip)))
          == (Concat(pieces) + piece) + Owed(Flat(chunks[ch + 1..]), 0, todo - (chunkLen - skip));
      pieces := pieces + [piece];
      todo := todo - (chunkLen - skip);
      ch := ch + 1;
    }
    if ch == |chunks| { NoFlat(chunks); }
    if todo <= 0 { OwedNothing(Flat(chunks[ch..]), done, todo); }
  }

  lemma ChunkStart(iov: Iov, total: nat)
    requires IovOk(iov, true, total)
    ensures iov.base.Chunked? && 0 <= total - iov.len && total <= |Flat(iov.base.chunks)|
            && iov.base.chunks[0..] == iov.base.chunks
    ensures IovBytes(iov, true, total) == Owed(Flat(iov.base.chunks), total - iov.len, iov.len)
  {
  }

  lemma ConcatNone()
    ensures Concat([]) == []
  {
  }

  lemma NoFlat(chunks: seq<seq<Byte>>)
    ensures Flat(chunks[|chunks|..]) == []
  {
  }

  lemma OwedNothing(flat: seq<Byte>, done: int, todo: int)
    requires 0 <= done && todo <= 0
    ensures Owed(flat, done, todo) == []
  {
  }

  /** A response with a chunked iovec, in _transmit_pre. */
  method ChunkedPieces(r: Resp, used: nat) returns (pieces: seq<seq<Byte>>)
    requires RespOk(r) && r.chunkedIov != 0 && used + |r.iov| < IOV_MAX - 1
    ensures used + |pieces| <= IOV_MAX - 1
    ensures Concat(pieces) <= BytesFrom(r, 0)
    ensures used + |pieces| < IOV_MAX - 1 ==> Concat(pieces) == BytesFrom(r, 0)
    ensures r.tosend > 0 ==> Concat(pieces) != []
  {
    hide Concat, BytesFrom, IovBytes, IovOk, LenFrom;
    ConcatNone();
    BytesLength(r);
    pieces := [];
    ghost var all := BytesFrom(r, 0);
    for x := 0 to |r.iov|
      invariant used + |pieces| < IOV_MAX - 1
      invariant all == Concat(pieces) + BytesFrom(r, x)
      invariant x <= r.chunkedIov ==> |pieces| == x
      invariant x > r.chunkedIov ==> if r.iov[r.chunkedIov].len > 0 then Concat(pieces) != [] else |pieces| < x
    {
      UnfoldBytes(r, x);
      OwnBytes(r, x);
      ghost var own := IovBytes(r.iov[x], IsChunked(r, x), r.chunkedTotal);
      assert (Concat(pieces) + own) + BytesFrom(r, x + 1) == Concat(pieces) + (own + BytesFrom(r, x + 1));
      if x == r.chunkedIov {
        var more := ChunkPieces(r.iov[x], r.chunkedTotal, used + |pieces|);
        ConcatSum(pieces, more);
        pieces := pieces + more;
      } else {
        var piece := IovBytes(r.iov[x], false, r.chunkedTotal);
        ConcatPush(pieces, piece);
        pieces := pieces + [piece];
      }
      if used + |pieces| >= IOV_MAX - 1 {
        return;
      }
    }
    NothingLeft(r);
  }

  /** A response without one: its iovecs are copied. */
  method PlainPieces(r: Resp) returns (pieces: seq<seq<Byte>>)
    requires RespOk(r) && r.chunkedIov == 0
    ensures |pieces| == |r.iov| && Concat(pieces) == BytesFrom(r, 0)
  {
    hide Concat, BytesFrom, IovBytes, IovOk, LenFrom;
    ConcatNone();
    pieces := [];
    for x := 0 to |r.iov|
      invariant |pieces| == x && BytesFrom(r, 0) == Concat(pieces) + BytesFrom(r, x)
    {
      UnfoldBytes(r, x);
      OwnBytes(r, x);
      var piece := IovBytes(r.iov[x], false, r.chunkedTotal);
      assert (Concat(pieces) + piece) + BytesFrom(r, x + 1) == Concat(pieces) + (piece + BytesFrom(r, x + 1));
      ConcatPush(pieces, piece);
      pieces := pieces + [piece];
    }
    NothingLeft(r);
  }

  /** The bytes that may be offered to the socket in one call: of all responses, or, for UDP,
      of the first that is not skipped. */
  function Offerable(resps: seq<Resp>, oneResp: bool): seq<Byte>
    requires AllOk(resps)
  {
    if resps == [] then []
    else if resps[0].skip then Offerable(resps[1..], oneResp)
    else if oneResp then RespBytes(resps[0])
    else RespBytes(resps[0]) + Offerable(resps[1..], oneResp)
  }

  lemma {:induction false} OfferableIsStream(resps: seq<Resp>)
    requires AllOk(resps)
    ensures Offerable(resps, false) == Stream(resps)
  {
    hide RespOk, RespBytes;
    if resps != [] {
      OfferableIsStream(resps[1..]);
      if resps[0].skip { SkippedIsEmpty(resps[0]); }
    }
  }

  /** Something is still to be sent in a gather list that must not be empty. */
  predicate Pending(resps: seq<Resp>) {
    resps != [] && !resps[0].skip && resps[0].tosend > 0
  }

  /** _transmit_pre: a gather list whose bytes are a prefix of what is to be sent, all of it
      unless the list is nearly full. */
  method TransmitPre(resps: seq<Resp>, oneResp: bool) returns (iovs: seq<seq<Byte>>)
    requires AllOk(resps)
    ensures |iovs| <= IOV_MAX - 1
    ensures Concat(iovs) <= Offerable(resps, oneResp)
    ensures |iovs| < IOV_MAX - 1 - IOV_COUNT ==> Concat(iovs) == Offerable(resps, oneResp)
    ensures Pending(resps) ==> Concat(iovs) != []
  {
    hide Concat, RespBytes, RespOk, Offerable;
    ConcatNone();
    iovs := [];
    var k := 0;
    ghost var all := Offerable(resps, oneResp);
    assert resps[0..] == resps;
    while k < |resps| && |iovs| + |resps[k].iov| < IOV_MAX - 1
      invariant k <= |resps| && |iovs| <= IOV_MAX - 1 && AllOk(resps[k..])
      invariant all == Concat(iovs) + Offerable(resps[k..], oneResp)
      invariant k > 0 && Pending(resps) ==> Concat(iovs) != []
      invariant k == 0 ==> iovs == []
      decreases |resps| - k
    {
      var r := resps[k];
      OfferableStep(resps, k, oneResp);
      if r.skip { k := k + 1; continue; }
      var pieces := RespPieces(r, |iovs|);
      ConcatSum(iovs, pieces);
      if |iovs| + |pieces| >= IOV_MAX - 1 || oneResp {
        iovs := iovs + pieces;
        return;
      }
      assert Concat(iovs) + (Concat(pieces) + Offerable(resps[k + 1..], oneResp))
             == (Concat(iovs) + Concat(pieces)) + Offerable(resps[k + 1..], oneResp);
      iovs := iovs + pieces;
      k := k + 1;
    }
    if k < |resps| { ShortResp(resps[k]); } else { NothingOfferable(resps[k..], oneResp); }
  }

  /** The gather list of one response. */
  method RespPieces(r: Resp, used: nat) returns (pieces: seq<seq<Byte>>)
    requires RespOk(r) && !r.skip && used + |r.iov| < IOV_MAX - 1
    ensures used + |pieces| <= IOV_MAX - 1 && Concat(pieces) <= RespBytes(r)
    ensures used + |pieces| < IOV_MAX - 1 ==> Concat(pieces) == RespBytes(r)
    ensures r.tosend > 0 ==> Concat(pieces) != []
  {
    hide Concat, RespBytes, BytesFrom, RespOk;
    WholeResp(r);
    if r.chunkedIov != 0 {
      pieces := ChunkedPieces(r, used);
    } else {
      pieces := PlainPieces(r);
    }
  }

  lemma OfferableStep(resps: seq<Resp>, k: nat, oneResp: bool)
    requires AllOk(resps) && k < |resps|
    ensures AllOk(resps[k..]) && AllOk(resps[k + 1..]) && RespOk(resps[k])
    ensures Offerable(resps[k..], oneResp) ==
            if resps[k].skip then Offerable(resps[k + 1..], oneResp)
            else if oneResp then RespBytes(resps[k])
            else RespBytes(resps[k]) + Offerable(resps[k + 1..], oneResp)
  {
    hide RespBytes, RespOk;
    assert resps[k..][1..] == resps[k + 1..];
  }

  lemma NothingOfferable(resps: seq<Resp>, oneResp: bool)
    requires resps == []
    ensures Offerable(resps, oneResp) == []
  {
  }

  lemma SkippedIsEmpty(r: Resp)
    requires RespOk(r) && r.skip
    ensures RespBytes(r) == []
  {
  }

  lemma ShortResp(r: Resp)
    requires RespOk(r)
    ensures |r.iov| <= IOV_COUNT
  {
  }

  lemma WholeResp(r: Resp)
    requires RespOk(r) && !r.skip
    ensures RespBytes(r) == BytesFrom(r, 0) && |BytesFrom(r, 0)| == r.tosend
  {
    BytesLength(r);
  }

  // ------------------------------------------------------------------------- the connection

  /** The loop of _transmit_post over the iovecs of one response. */
  method ConsumeResp(r: Resp, n: nat) returns (r': Resp)
    ensures r' == Consumed(r, 0, n)
  {
    r' := r;
    var res: nat, x: nat := n, 0;
    while x < |r'.iov|
      invariant x <= |r'.iov| && Consumed(r', x, res) == Consumed(r, 0, n)
      decreases |r'.iov| - x
    {
      var iov := r'.iov[x];
      if res >= iov.len {
        r' := r'.(tosend := r'.tosend - iov.len);
        res := res - iov.len;
        r' := r'.(iov := r'.iov[x := iov.(len := 0)]);
        x := x + 1;
      } else {
        r' := r'.(iov := r'.iov[x := Advanced(iov, IsChunked(r', x), res)], tosend := r'.tosend - res);
        return;
      }
    }
  }

  /** What sendmsg does: take what the socket has room for, or fail. */
  datatype Send = Takes(room: nat) | WouldBlock | Broken

  datatype Outcome = Complete | Incomplete | SoftError | HardError

  class Conn {
    var resps: seq<Resp>

    constructor (resps: seq<Resp>)
      ensures this.resps == resps
    {
      this.resps := resps;
    }

    /** _transmit_post. */
    method TransmitPost(res: nat)
      requires AllOk(resps)
      modifies this
      ensures resps == Dropped(old(resps), res)
    {
      hide RespOk, Consumed;
      var left: nat := res;
      while resps != []
        invariant AllOk(resps) && Dropped(resps, left) == Dropped(old(resps), res)
        decreases |resps|
      {
        var r := resps[0];
        RespLength(r);
        if r.skip {
          resps := resps[1..];
          continue;
        }
        if left >= r.tosend {
          left := left - r.tosend;
          resps := resps[1..];
          continue;
        }
        ConsumedResp(r, left);
        var r' := ConsumeResp(r, left);
        if r'.tosend == 0 {
          assert false;
        } else {
          resps := [r'] + resps[1..];
        }
        return;
      }
    }

    /** transmit: what goes out is the front of the stream, and only that leaves the queue. */
    method Transmit(send: Send) returns (outcome: Outcome, wire: seq<Byte>)
      requires AllOk(resps)
      modifies this
      ensures AllOk(resps) && wire + Stream(resps) == Stream(old(resps))
      ensures outcome.Complete? ==> resps == [] && wire == Stream(old(resps))
      ensures outcome.Incomplete? ==> resps != [] && send.Takes?
      ensures outcome.SoftError? || outcome.HardError? ==> wire == [] && resps == old(resps) && !send.Takes?
      ensures send.Takes? ==> |wire| <= send.room
      ensures send.Takes? && send.room > 0 && old(resps) != [] ==>
              |resps| < |old(resps)| || |Stream(resps)| < |Stream(old(resps))|
    {
      hide Dropped, Stream, Concat, RespOk, Offerable;
      OfferableIsStream(resps);
      wire := [];
      var iovs := TransmitPre(resps, false);
      if iovs == [] {
        ConcatNone();
        NothingPending(resps);
        TransmitPost(0);
        return Complete, [];
      }
      match send
      case WouldBlock => outcome := SoftError;
      case Broken => outcome := HardError;
      case Takes(room) =>
        var bytes := Concat(iovs);
        wire := if room < |bytes| then bytes[..room] else bytes;
        DroppedStream(resps, |wire|);
        if resps != [] && !Pending(resps) { DroppedHead(resps, |wire|); }
        TransmitPost(|wire|);
        outcome := if resps != [] then Incomplete else Complete;
        if resps == [] { StreamOfNone(); }
    }
  }

  lemma StreamOfNone()
    ensures Stream([]) == []
  {
  }

  lemma {:induction false} NothingPending(resps: seq<Resp>)
    requires AllOk(resps) && Stream(resps) == []
    ensures Dropped(resps, 0) == [] && AllOk(Dropped(resps, 0)) && Stream(Dropped(resps, 0)) == []
  {
    hide RespOk;
    if resps != [] {
      RespLength(resps[0]);
      assert RespBytes(resps[0]) + Stream(resps[1..]) == [];
      NothingPending(resps[1..]);
    }
  }

  /** A head that has nothing to send goes, whatever was sent. */
  lemma DroppedHead(resps: seq<Resp>, n: nat)
    requires AllOk(resps) && n <= |Stream(resps)| && resps != [] && !Pending(resps)
    ensures |Dropped(resps, n)| < |resps|
  {
    hide RespOk;
    RespLength(resps[0]);
    DroppedStream(resps[1..], if resps[0].skip then n else n - resps[0].tosend);
  }

  // ------------------------------------------------------------------------- a whole session

  /** Calls of transmit in a row: call k puts n[k] bytes on the wire. */
  ghost predicate IsSession(queues: seq<seq<Resp>>, n: seq<nat>) {
    && |queues| == |n| + 1
    && forall k :: 0 <= k < |n| ==> Sends(queues[k], n[k], queues[k + 1])
  }

  ghost predicate Sends(resps: seq<Resp>, n: nat, resps': seq<Resp>) {
    AllOk(resps) ==> n <= |Stream(resps)| && resps' == Dropped(resps, n)
  }

  /** What the first k calls put on the wire. */
  ghost function Wire(queues: seq<seq<Resp>>, n: seq<nat>, k: nat): seq<Byte>
    requires IsSession(queues, n) && k <= |n| && AllOk(queues[0])
    ensures AllOk(queues[k])
  {
    if k == 0 then []
    else
      var before := Wire(queues, n, k - 1);
      assert Sends(queues[k - 1], n[k - 1], queues[k]);
      DroppedStream(queues[k - 1], n[k - 1]);
      before + Stream(queues[k - 1])[..n[k - 1]]
  }

  /** However the writes are cut, the peer receives the responses byte for byte in order. */
  lemma {:induction false} SessionDelivers(queues: seq<seq<Resp>>, n: seq<nat>, k: nat)
    requires IsSession(queues, n) && k <= |n| && AllOk(queues[0])
    ensures AllOk(queues[k]) && Wire(queues, n, k) + Stream(queues[k]) == Stream(queues[0])
  {
    hide RespOk, Dropped, Stream;
    if k > 0 {
      SessionDelivers(queues, n, k - 1);
      assert Sends(queues[k - 1], n[k - 1], queues[k]);
      var last := Stream(queues[k - 1]);
      DroppedStream(queues[k - 1], n[k - 1]);
      assert last == last[..n[k - 1]] + last[n[k - 1]..];
      assert (Wire(queues, n, k - 1) + last[..n[k - 1]]) + last[n[k - 1]..] == Wire(queues, n, k - 1) + last;
    }
  }
}
