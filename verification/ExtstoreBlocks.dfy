/** extstore.c: what whole buffers hold.  Objects are laid one after the other, and the end of a
    buffer is zeroed before it is written out, so that a buffer can be read back blindly. */
module ExtstoreBlocks {
  import opened Basics
  import opened ExtstoreModel

  lemma {:induction false} TiledMore(written: map<Addr, seq<Byte>>, more: map<Addr, seq<Byte>>, p: nat, v: nat,
                                     from: nat, to: nat)
    requires Tiled(written, p, v, from, to) && forall a :: a in written ==> a in more
    ensures Tiled(more, p, v, from, to)
    decreases if to > from then to - from else 0
  {
    if from != to {
      var len: nat :| 0 < len <= to - from && Addr(p, v, from, len) in written && Tiled(written, p, v, from + len, to);
      TiledMore(written, more, p, v, from + len, to);
    }
  }

  lemma {:induction false} TiledAppend(written: map<Addr, seq<Byte>>, p: nat, v: nat, from: nat, to: nat, more: nat)
    requires Tiled(written, p, v, from, to) && from <= to && more > 0 && Addr(p, v, to, more) in written
    ensures Tiled(written, p, v, from, to + more)
    decreases if to > from then to - from else 0
  {
    if from == to {
      assert Tiled(written, p, v, from + more, to + more);
    } else {
      var len: nat :| 0 < len <= to - from && Addr(p, v, from, len) in written && Tiled(written, p, v, from + len, to);
      TiledAppend(written, p, v, from + len, to, more);
    }
  }

  lemma BlockMore(c: Config, d: seq<Byte>, p: nat, v: nat, k: nat, written: map<Addr, seq<Byte>>, d': seq<Byte>,
                  more: map<Addr, seq<Byte>>)
    requires BlockTiled(c, d, p, v, k, written) && (forall a :: a in written ==> a in more)
    requires |d'| == |d| && forall j :: k <= j < k + c.wbufSize && j < |d| ==> d'[j] == d[j]
    ensures BlockTiled(c, d', p, v, k, more)
  {
    var end: nat :| k <= end <= k + c.wbufSize && Tiled(written, p, v, k, end) && ZeroBetween(d, end, k + c.wbufSize);
    TiledMore(written, more, p, v, k, end);
  }

  /** A page whose blocks are where they were, on a disk that differs beyond them only. */
  lemma PageMore(c: Config, pg: Page, pg': Page, p: nat, d: seq<Byte>, d': seq<Byte>, wbufs: seq<Wbuf>,
                 wbufs': seq<Wbuf>, written: map<Addr, seq<Byte>>, more: map<Addr, seq<Byte>>)
    requires PageTiled(c, pg, p, d, wbufs, written) && (forall a :: a in written ==> a in more)
    requires pg'.free == pg.free && pg'.version == pg.version && pg'.written == pg.written
    requires BufferTiled(pg', p, wbufs', more) && Multiple(pg.written, c.wbufSize)
    requires |d'| == |d| && forall j :: 0 <= j < pg.written && j < |d| ==> d'[j] == d[j]
    ensures PageTiled(c, pg', p, d', wbufs', more)
  {
    if !pg.free {
      forall k: nat | Multiple(k, c.wbufSize) && k < pg.written ensures BlockTiled(c, d', p, pg.version, k, more) {
        RoomForOne(k, pg.written, c.wbufSize);
        BlockMore(c, d, p, pg.version, k, written, d', more);
      }
    }
  }

  /** A page that is not full has room for a whole buffer. */
  lemma {:induction false} RoomForOne(x: nat, total: nat, unit: nat)
    requires Multiple(x, unit) && Multiple(total, unit) && x < total
    ensures x + unit <= total
  {
    if x > 0 { RoomForOne(x - unit, total - unit, unit); }
  }

  lemma BufferMore(pg: Page, pg': Page, p: nat, wbufs: seq<Wbuf>, wbufs': seq<Wbuf>, written: map<Addr, seq<Byte>>,
                   more: map<Addr, seq<Byte>>)
    requires BufferTiled(pg, p, wbufs, written) && (forall a :: a in written ==> a in more)
    requires pg'.wbuf == pg.wbuf && pg'.version == pg.version && |wbufs'| == |wbufs|
    requires pg.wbuf.Some? && pg.wbuf.value < |wbufs| ==> wbufs'[pg.wbuf.value] == wbufs[pg.wbuf.value]
    ensures BufferTiled(pg', p, wbufs', more)
  {
    if pg.wbuf.Some? && pg.wbuf.value < |wbufs| {
      var w := wbufs[pg.wbuf.value];
      TiledMore(written, more, p, pg.version, w.offset, w.offset + |w.buf| - w.free);
    }
  }

  /** One page changes in fields that do not matter here. */
  lemma BlocksKept(c: Config, pages: seq<Page>, disk: seq<seq<Byte>>, wbufs: seq<Wbuf>, written: map<Addr, seq<Byte>>,
                   p: nat, pg: Page)
    requires BlocksOk(c, pages, disk, wbufs, written) && p < |pages|
    requires pg.free || (pg.wbuf == pages[p].wbuf && pg.version == pages[p].version && pg.written == pages[p].written
                         && !pages[p].free)
             || (pg.wbuf.None? && pg.written == 0)
    ensures BlocksOk(c, pages[p := pg], disk, wbufs, written)
  {
    hide BlockTiled, Tiled;
    forall q | 0 <= q < |pages| ensures PageTiled(c, pages[p := pg][q], q, disk[q], wbufs, written) {
      assert PageTiled(c, pages[q], q, disk[q], wbufs, written);
    }
  }
}
