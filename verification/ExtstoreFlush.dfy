/** extstore.c: flushing a buffer, giving a page out and taking it back. */
module ExtstoreFlush {
  import opened Basics
  import opened Counting
  import opened ExtstoreModel
  import opened ExtstoreLists
  import opened ExtstoreBlocks
  import opened ExtstoreSteps
  import opened ExtstoreWrites

  // ---------------------------------------------------------------------- the pwrite

  /** The IO a thread is about to write out, or has written out, is one of the pending ones. */
  lemma CurrentWrite(s: State, t: nat)
    requires Valid(s) && t < |s.threads| && s.threads[t].batch != [] && s.threads[t].batch[0].WriteIo?
    ensures WriteAt(s.threads, t, 0) && IoAt(s.threads, t, 0) == s.threads[t].batch[0].io
    ensures CarriesBuffer(s.pages, s.wbufs, s.ios, s.ioStack, s.threads[t].batch[0].io)
    ensures var io := s.ios[s.threads[t].batch[0].io];
      && |s.wbufs[io.wbuf].buf| == s.cfg.wbufSize && s.wbufs[io.wbuf].offset == s.pages[io.page].written
      && io.page < |s.disk| && s.wbufs[io.wbuf].offset + s.cfg.wbufSize <= s.cfg.pageSize == |s.disk[io.page]|
      && io.wbuf !in s.wbufStack && s.pages[io.page].active
         && s.pages[io.page].allotted == s.pages[io.page].written + s.cfg.wbufSize
      && Multiple(s.pages[io.page].written + s.cfg.wbufSize, s.cfg.wbufSize)
  {
    hide ListsOk, WritesDistinct, IoCounts, WritersOk, MaintOk, BlocksOk, ReadersOk, FlushesOk, ThreadsOk, Attached,
         CountTrue, AddrOk;
    assert Pending(s.threads[t])[0] == s.threads[t].batch[0];
    assert WriteAt(s.threads, t, 0);
    var io := s.ios[s.threads[t].batch[0].io];
    assert PageOk(s.cfg, s.pages[io.page]);
  }

  /** Two threads never have the same page in hand for writing. */
  lemma OtherThreadOtherPage(s: State, t: nat, u: nat)
    requires Valid(s) && t < |s.threads| && s.threads[t].batch != [] && s.threads[t].batch[0].WriteIo?
    requires u < |s.threads| && u != t && s.threads[u].phase == Flushing
    ensures s.threads[u].batch != [] && s.threads[u].batch[0].WriteIo? && s.threads[u].batch[0].io < |s.ios|
    ensures s.threads[t].batch[0].io < |s.ios|
    ensures s.ios[s.threads[u].batch[0].io].page != s.ios[s.threads[t].batch[0].io].page
    ensures s.ios[s.threads[u].batch[0].io].wbuf != s.ios[s.threads[t].batch[0].io].wbuf
  {
    hide PagesOk, ListsOk, IoCounts, WritersOk, MaintOk, BlocksOk, ReadersOk, FlushesOk, ThreadsOk, DataOk, Attached,
         CountTrue;
    CurrentWrite(s, t);
    FlushingInFlight(s, u);
    CurrentWrite(s, u);
  }

  lemma PwriteDisk(s: State, t: nat)
    requires Valid(s) && AtWrite(s, t, Ready)
    ensures var s1 := Pwrite(s, t);
      && DataOk(s1.cfg, s1.pages, s1.disk, s1.wbufs, s1.version, s1.written)
      && FlushesOk(s1.disk, s1.wbufs, s1.ios, s1.threads)
  {
    hide PagesOk, ListsOk, IosOk, WritesDistinct, IoCounts, WritersOk, MaintOk, BlocksOk, ReadersOk, ThreadsOk, WbufsOk;
    var s1 := Pwrite(s, t);
    var io := s.ios[s.threads[t].batch[0].io];
    var w := s.wbufs[io.wbuf];
    CurrentWrite(s, t);
    assert s1.disk[io.page][..w.offset] == s.disk[io.page][..w.offset];
    assert s1.disk[io.page][w.offset..w.offset + |w.buf|] == w.buf;
    forall a | a in s.written ensures AddrOk(s1.pages, s1.disk, s1.wbufs, s1.version, a, s.written[a]) {
      assert AddrOk(s.pages, s.disk, s.wbufs, s.version, a, s.written[a]);
      if a.page == io.page && a.offset < s.pages[a.page].written {
        DiskPrefix(s.disk[io.page], s1.disk[io.page], w.offset, a.offset, a.len);
      }
    }
    forall u | 0 <= u < |s.threads| ensures FlushedOk(s1.disk, s1.wbufs, s1.ios, s1.threads[u]) {
      assert FlushedOk(s.disk, s.wbufs, s.ios, s.threads[u]);
      if u != t && s.threads[u].phase == Flushing {
        OtherThreadOtherPage(s, t, u);
      }
    }
  }

  lemma DiskPrefix(a: seq<Byte>, b: seq<Byte>, n: nat, from: nat, len: nat)
    requires n <= |a| && n <= |b| && a[..n] == b[..n]
    ensures from + len <= n ==> a[from..from + len] == b[from..from + len]
  {
    if from + len <= n {
      assert a[from..from + len] == a[..n][from..from + len];
      assert b[from..from + len] == b[..n][from..from + len];
    }
  }

  /** The write goes behind all blocks that count as written. */
  lemma PwriteBlocks(s: State, t: nat)
    requires Valid(s) && AtWrite(s, t, Ready)
    ensures var s1 := Pwrite(s, t); BlocksOk(s1.cfg, s1.pages, s1.disk, s1.wbufs, s1.written)
  {
    hide ListsOk, IosOk, WbufsOk, WritesDistinct, IoCounts, WritersOk, MaintOk, ReadersOk, FlushesOk, ThreadsOk, DataOk;
    hide Tiled, BlockTiled;
    var s1, io := Pwrite(s, t), s.ios[s.threads[t].batch[0].io];
    CurrentWrite(s, t);
    forall q | 0 <= q < |s.pages| ensures PageTiled(s.cfg, s.pages[q], q, s1.disk[q], s.wbufs, s.written) {
      assert PageTiled(s.cfg, s.pages[q], q, s.disk[q], s.wbufs, s.written);
      assert PageOk(s.cfg, s.pages[q]);
      if !s.pages[q].free {
        PageMore(s.cfg, s.pages[q], s.pages[q], q, s.disk[q], s1.disk[q], s.wbufs, s.wbufs, s.written, s.written);
      }
    }
  }

  lemma PwriteKeeps(s: State, t: nat)
    requires Valid(s) && AtWrite(s, t, Ready)
    ensures Valid(Pwrite(s, t))
  {
    hide PagesOk, ListsOk, IosOk, WritesDistinct, IoCounts, WritersOk, MaintOk, BlocksOk, WbufsOk, DataOk, FlushesOk,
         ReadersOk;
    var s1, th0 := Pwrite(s, t), s.threads[t];
    var th := s1.threads[t];
    PwriteDisk(s, t);
    PwriteBlocks(s, t);
    assert Pending(th) == Pending(th0);
    ThreadKeepsIos(s.cfg, s.pages, s.wbufs, s.ios, s.ioStack, s.threads, t, th, 0);
    assert ThreadOk(s.cfg, |s.pages|, th0);
    ThreadKeepsReaders(s.pages, s.threads, t, th);
  }

  // -------------------------------------------------------------------- the callback

  lemma FlushDonePages(s: State, t: nat)
    requires Valid(s) && AtWrite(s, t, Flushing)
    ensures var s1 := FlushDone(s, t);
      && PagesOk(s1.cfg, s1.pages, s1.version) && WritersOk(s1.cfg, s1.pages, s1.buckets, s1.writers)
      && ListsOk(s1.cfg, s1.pages, s1.freelist, s1.freeBuckets, s1.buckets, s1.pageFree)
      && MaintOk(s1.pages, s1.maint)
  {
    hide IosOk, WritesDistinct, IoCounts, DataOk, FlushesOk, ThreadsOk, ListsOk, ReadersOk, WbufsOk;
    var s1, p := FlushDone(s, t), s.ios[s.threads[t].batch[0].io].page;
    CurrentWrite(s, t);
    PageChangeKeepsLists(s.cfg, s.pages, s.freelist, s.freeBuckets, s.buckets, s.pageFree, p, s1.pages[p]);
    assert PageOk(s.cfg, s.pages[p]);
    forall b | 0 <= b < |s.buckets| ensures BelowHeadFull(s.cfg, s1.pages, s.buckets[b]) {
      assert BelowHeadFull(s.cfg, s.pages, s.buckets[b]);
    }
  }

  lemma FlushDoneBuffers(s: State, t: nat)
    requires Valid(s) && AtWrite(s, t, Flushing)
    ensures var s1 := FlushDone(s, t); WbufsOk(s1.cfg, s1.pages, s1.wbufs, s1.wbufStack)
  {
    hide PagesOk, IosOk, WritesDistinct, IoCounts, DataOk, FlushesOk, ThreadsOk, ListsOk, ReadersOk, WritersOk, MaintOk,
         BlocksOk, Attached, CountTrue;
    var s1, io := FlushDone(s, t), s.ios[s.threads[t].batch[0].io];
    CurrentWrite(s, t);
    PushMembers(io.wbuf, s.wbufStack);
    AttachedUpdate(s.pages, io.page, s1.pages[io.page]);
  }

  lemma FlushDoneIos(s: State, t: nat)
    requires Valid(s) && AtWrite(s, t, Flushing)
    ensures var s1 := FlushDone(s, t);
      IosOk(s1.cfg, s1.pages, s1.wbufs, s1.ios, s1.ioStack, s1.threads) && WritesDistinct(s1.ios, s1.threads)
  {
    hide PagesOk, WbufsOk, IoCounts, DataOk, FlushesOk, ThreadsOk, ListsOk, ReadersOk, WritersOk, MaintOk, BlocksOk;
    var s1, i := FlushDone(s, t), s.threads[t].batch[0].io;
    var p := s.ios[i].page;
    CurrentWrite(s, t);
    PushMembers(i, s.ioStack);
    assert Pending(s1.threads[t]) == Pending(s.threads[t])[1..];
    forall u, k | WriteAt(s1.threads, u, k)
      ensures WriteAt(s.threads, u, if u == t then k + 1 else k)
      ensures IoAt(s1.threads, u, k) == IoAt(s.threads, u, if u == t then k + 1 else k)
      ensures CarriesBuffer(s1.pages, s1.wbufs, s1.ios, s1.ioStack, IoAt(s1.threads, u, k))
    {
      var k0 := if u == t then k + 1 else k;
      assert WriteAt(s.threads, u, k0);
      assert CarriesBuffer(s.pages, s.wbufs, s.ios, s.ioStack, IoAt(s.threads, u, k0));
      assert s.ios[IoAt(s.threads, u, k0)].page != p;
    }
  }

  lemma FlushDoneCounts(s: State, t: nat)
    requires Valid(s) && AtWrite(s, t, Flushing)
    ensures var s1 := FlushDone(s, t); IoCounts(s1.cfg, s1.pages, s1.wbufs, s1.ioStack, s1.threads)
  {
    hide PagesOk, IosOk, WbufsOk, WritesDistinct, DataOk, FlushesOk, ThreadsOk, ListsOk, ReadersOk, WritersOk, MaintOk,
         BlocksOk;
    hide Sum, CountTrue, WriteCounts, InFlights;
    var s1, p := FlushDone(s, t), s.ios[s.threads[t].batch[0].io].page;
    CurrentWrite(s, t);
    assert Pending(s1.threads[t]) == Pending(s.threads[t])[1..];
    CountsUpdate(s.threads, t, s1.threads[t]);
    InFlightUpdate(s.pages, s.wbufs, s1.pages, s1.wbufs, p);
  }

  /** What was in the buffer is now read from disk: the same bytes. */
  lemma FlushDoneData(s: State, t: nat)
    requires Valid(s) && AtWrite(s, t, Flushing)
    ensures var s1 := FlushDone(s, t); DataOk(s1.cfg, s1.pages, s1.disk, s1.wbufs, s1.version, s1.written)
  {
    hide PagesOk, IosOk, WbufsOk, WritesDistinct, IoCounts, ThreadsOk, ListsOk, ReadersOk, WritersOk, MaintOk, BlocksOk;
    var s1, io := FlushDone(s, t), s.ios[s.threads[t].batch[0].io];
    var w, d := s.wbufs[io.wbuf], s.disk[io.page];
    CurrentWrite(s, t);
    assert FlushedOk(s.disk, s.wbufs, s.ios, s.threads[t]);
    forall a | a in s.written ensures AddrOk(s1.pages, s1.disk, s1.wbufs, s1.version, a, s.written[a]) {
      assert AddrOk(s.pages, s.disk, s.wbufs, s.version, a, s.written[a]);
      if a.page == io.page && s.pages[a.page].version == a.version && a.offset >= s.pages[a.page].written {
        var from := a.offset - w.offset;
        SliceOfSlice(d, w.offset, w.offset + |w.buf|, from, from + a.len);
      }
    }
  }

  /** The buffer, objects and zeros, becomes the next block. */
  lemma FlushDoneBlocks(s: State, t: nat)
    requires Valid(s) && AtWrite(s, t, Flushing)
    ensures var s1 := FlushDone(s, t); BlocksOk(s1.cfg, s1.pages, s1.disk, s1.wbufs, s1.written)
  {
    hide ListsOk, IosOk, WbufsOk, WritesDistinct, IoCounts, WritersOk, MaintOk, ReadersOk, ThreadsOk, DataOk, Tiled;
    var s1, io := FlushDone(s, t), s.ios[s.threads[t].batch[0].io];
    var p, w := io.page, s.wbufs[io.wbuf];
    CurrentWrite(s, t);
    assert PageOk(s.cfg, s.pages[p]);
    assert FlushedOk(s.disk, s.wbufs, s.ios, s.threads[t]);
    assert PageTiled(s.cfg, s.pages[p], p, s.disk[p], s.wbufs, s.written);
    FlushedBlock(s.cfg, s.disk[p], p, s.pages[p].version, w, s.written);
    hide BlockTiled;
    forall k: nat | Multiple(k, s.cfg.wbufSize) && k < s1.pages[p].written
      ensures BlockTiled(s.cfg, s.disk[p], p, s.pages[p].version, k, s.written)
    {
      if k > s.pages[p].written { RoomForOne(s.pages[p].written, k, s.cfg.wbufSize); }
    }
    forall q | 0 <= q < |s.pages| ensures PageTiled(s.cfg, s1.pages[q], q, s.disk[q], s.wbufs, s.written) {
      if q != p { assert PageTiled(s.cfg, s.pages[q], q, s.disk[q], s.wbufs, s.written); }
    }
  }

  lemma FlushedBlock(c: Config, d: seq<Byte>, p: nat, v: nat, w: Wbuf, written: map<Addr, seq<Byte>>)
    requires w.free <= |w.buf| == c.wbufSize && Tiled(written, p, v, w.offset, w.offset + |w.buf| - w.free)
    requires ZeroBetween(w.buf, |w.buf| - w.free, |w.buf|)
    requires w.offset + |w.buf| <= |d| && d[w.offset..w.offset + |w.buf|] == w.buf
    ensures BlockTiled(c, d, p, v, w.offset, written)
  {
    var end := w.offset + |w.buf| - w.free;
    forall j | end <= j < w.offset + c.wbufSize && j < |d| ensures d[j] == 0 {
      assert d[j] == d[w.offset..w.offset + |w.buf|][j - w.offset];
    }
  }

  lemma FlushDoneThreads(s: State, t: nat)
    requires Valid(s) && AtWrite(s, t, Flushing)
    ensures var s1 := FlushDone(s, t);
      ThreadsOk(s1.cfg, |s1.pages|, s1.threads) && ReadersOk(s1.pages, s1.threads)
        && FlushesOk(s1.disk, s1.wbufs, s1.ios, s1.threads)
  {
    hide PagesOk, IosOk, WbufsOk, WritesDistinct, IoCounts, ListsOk, WritersOk, MaintOk, BlocksOk, DataOk;
    var s1, p := FlushDone(s, t), s.ios[s.threads[t].batch[0].io].page;
    var th0, th := s.threads[t], s1.threads[t];
    assert ThreadOk(s.cfg, |s.pages|, th0);
    assert Pending(th) == Pending(th0)[1..];
    forall u | 0 <= u < |s.threads| ensures HoldOk(s1.pages, s.threads[u]) {
      assert HoldOk(s.pages, s.threads[u]);
    }
    PinKeepsReaders(s.pages, s.threads, p, s1.pages[p], t, th);
  }

  lemma FlushDoneKeeps(s: State, t: nat)
    requires Valid(s) && AtWrite(s, t, Flushing)
    ensures Valid(FlushDone(s, t))
  {
    hide PagesOk, ListsOk, IosOk, WritesDistinct, IoCounts, WritersOk, MaintOk, BlocksOk, ReadersOk, ThreadsOk, WbufsOk,
         DataOk, FlushesOk;
    FlushDonePages(s, t);
    FlushDoneBuffers(s, t);
    FlushDoneIos(s, t);
    FlushDoneCounts(s, t);
    FlushDoneData(s, t);
    FlushDoneBlocks(s, t);
    FlushDoneThreads(s, t);
  }
}
