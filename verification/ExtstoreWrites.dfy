/** extstore.c: the steps that move data or pages keep the invariant. */
module ExtstoreWrites {
  import opened Basics
  import opened Counting
  import opened ExtstoreModel
  import opened ExtstoreLists
  import opened ExtstoreBlocks
  import opened ExtstoreSteps

  // ------------------------------------------------------------- the buffer of a page

  lemma AttachedUpdate(pages: seq<Page>, p: nat, pg: Page)
    requires p < |pages|
    ensures CountTrue(Attached(pages[p := pg])) ==
            CountTrue(Attached(pages)) - (if pages[p].wbuf.Some? then 1 else 0) + (if pg.wbuf.Some? then 1 else 0)
  {
    CountUpdate(Attached(pages), p, pg.wbuf.Some?);
    assert Attached(pages[p := pg]) == Attached(pages)[p := pg.wbuf.Some?];
  }

  /** Changes confined to page p and its buffer change the count at p only. */
  lemma InFlightUpdate(pages: seq<Page>, wbufs: seq<Wbuf>, pages': seq<Page>, wbufs': seq<Wbuf>, p: nat)
    requires p < |pages| == |pages'|
    requires forall q :: 0 <= q < |pages| && q != p ==> InFlight(pages[q], wbufs) == InFlight(pages'[q], wbufs')
    ensures CountTrue(InFlights(pages', wbufs')) ==
            CountTrue(InFlights(pages, wbufs)) - (if InFlight(pages[p], wbufs) then 1 else 0)
                                               + (if InFlight(pages'[p], wbufs') then 1 else 0)
  {
    CountUpdate(InFlights(pages, wbufs), p, InFlight(pages'[p], wbufs'));
    assert InFlights(pages', wbufs') == InFlights(pages, wbufs)[p := InFlight(pages'[p], wbufs')];
  }

  /** A thread that has done its pwrite works on a buffer that is in flight. */
  lemma FlushingInFlight(s: State, t: nat)
    requires Valid(s) && t < |s.threads| && s.threads[t].phase == Flushing
    ensures AtWrite(s, t, Flushing) && WriteAt(s.threads, t, 0) && IoAt(s.threads, t, 0) == s.threads[t].batch[0].io
    ensures CarriesBuffer(s.pages, s.wbufs, s.ios, s.ioStack, s.threads[t].batch[0].io)
  {
    hide PagesOk, ListsOk, WbufsOk, WritesDistinct, IoCounts, DataOk, WritersOk, MaintOk, BlocksOk, ReadersOk,
         FlushesOk;
    assert ThreadOk(s.cfg, |s.pages|, s.threads[t]);
    assert Pending(s.threads[t])[0] == s.threads[t].batch[0];
    assert WriteAt(s.threads, t, 0);
  }

  ghost predicate Submittable(s: State, p: nat, t: nat) {
    Valid(s) && p < |s.pages| && t < |s.threads| && s.pages[p].wbuf.Some? && s.pages[p].wbuf.value < |s.wbufs| &&
    !s.wbufs[s.pages[p].wbuf.value].full && s.ioStack != [] && s.ioStack[0] < |s.ios| &&
    s.wbufs[s.pages[p].wbuf.value].free <= |s.wbufs[s.pages[p].wbuf.value].buf|
  }

  lemma SubmitKeepsBuffers(s: State, p: nat, t: nat)
    requires Submittable(s, p, t)
    ensures var s1 := SubmitWbuf(s, p, t); WbufsOk(s1.cfg, s1.pages, s1.wbufs, s1.wbufStack)
  {
    hide PagesOk, ListsOk, IosOk, WritesDistinct, IoCounts, DataOk, WritersOk, MaintOk, BlocksOk, ReadersOk, FlushesOk,
         ThreadsOk, Attached;
  }

  lemma SubmitPending(s: State, p: nat, t: nat)
    requires Submittable(s, p, t)
    ensures var s1 := SubmitWbuf(s, p, t);
      && Pending(s1.threads[t]) == Pending(s.threads[t]) + [WriteIo(s.ioStack[0])]
      && Writes(Pending(s1.threads[t])) == Writes(Pending(s.threads[t])) + 1
      && forall u, k :: WriteAt(s1.threads, u, k) ==>
           (if u == t && k == |Pending(s.threads[t])| then IoAt(s1.threads, u, k) == s.ioStack[0]
            else WriteAt(s.threads, u, k) && IoAt(s1.threads, u, k) == IoAt(s.threads, u, k))
  {
    hide PagesOk, ListsOk, IosOk, WbufsOk, WritesDistinct, IoCounts, DataOk, WritersOk, MaintOk, BlocksOk, ReadersOk,
         FlushesOk, ThreadsOk;
    var s1, l := SubmitWbuf(s, p, t), Pending(s.threads[t]);
    var w := WriteIo(s.ioStack[0]);
    assert Pending(s1.threads[t]) == l + [w];
    WritesAppend(l, [w]);
    assert [w][1..] == [];
  }

  lemma SubmitKeepsIos(s: State, p: nat, t: nat)
    requires Submittable(s, p, t)
    ensures var s1 := SubmitWbuf(s, p, t); IosOk(s1.cfg, s1.pages, s1.wbufs, s1.ios, s1.ioStack, s1.threads)
  {
    hide PagesOk, ListsOk, WbufsOk, WritesDistinct, IoCounts, DataOk, WritersOk, MaintOk, BlocksOk, ReadersOk,
         FlushesOk, ThreadsOk;
    hide Pending, WriteAt, IoAt;
    var s1 := SubmitWbuf(s, p, t);
    SubmitPending(s, p, t);
    TailMembers(s.ioStack);
    assert s.ioStack[0] in s.ioStack;
    forall u, k | WriteAt(s1.threads, u, k)
      ensures CarriesBuffer(s1.pages, s1.wbufs, s1.ios, s1.ioStack, IoAt(s1.threads, u, k))
    {
      if IoAt(s1.threads, u, k) != s.ioStack[0] {
        assert CarriesBuffer(s.pages, s.wbufs, s.ios, s.ioStack, IoAt(s.threads, u, k));
      }
    }
  }

  lemma SubmitKeepsDistinct(s: State, p: nat, t: nat)
    requires Submittable(s, p, t)
    ensures WritesDistinct(SubmitWbuf(s, p, t).ios, SubmitWbuf(s, p, t).threads)
  {
    hide PagesOk, ListsOk, WbufsOk, IoCounts, DataOk, WritersOk, MaintOk, BlocksOk, ReadersOk, FlushesOk, ThreadsOk;
    hide Pending, WriteAt, IoAt;
    var s1 := SubmitWbuf(s, p, t);
    SubmitPending(s, p, t);
    assert s.ioStack[0] in s.ioStack;
    forall u, k | WriteAt(s1.threads, u, k) && WriteAt(s.threads, u, k)
        && IoAt(s1.threads, u, k) == IoAt(s.threads, u, k)
      ensures IoAt(s.threads, u, k) != s.ioStack[0] && IoAt(s.threads, u, k) < |s.ios|
      ensures s1.ios[IoAt(s.threads, u, k)] == s.ios[IoAt(s.threads, u, k)]
      ensures s.ios[IoAt(s.threads, u, k)].page != p
    {
      assert CarriesBuffer(s.pages, s.wbufs, s.ios, s.ioStack, IoAt(s.threads, u, k));
    }
  }

  lemma SubmitKeepsCounts(s: State, p: nat, t: nat)
    requires Submittable(s, p, t)
    ensures var s1 := SubmitWbuf(s, p, t); IoCounts(s1.cfg, s1.pages, s1.wbufs, s1.ioStack, s1.threads)
  {
    hide PagesOk, ListsOk, IosOk, WritesDistinct, DataOk, WritersOk, MaintOk, BlocksOk, ReadersOk, FlushesOk, ThreadsOk;
    hide Pending, Writes, Sum, CountTrue, WriteCounts, InFlights;
    var s1 := SubmitWbuf(s, p, t);
    SubmitPending(s, p, t);
    CountsUpdate(s.threads, t, s1.threads[t]);
    forall q | 0 <= q < |s.pages| && q != p ensures InFlight(s.pages[q], s.wbufs) == InFlight(s1.pages[q], s1.wbufs) {
    }
    InFlightUpdate(s.pages, s.wbufs, s1.pages, s1.wbufs, p);
  }

  lemma SubmitKeepsData(s: State, p: nat, t: nat)
    requires Submittable(s, p, t)
    ensures var s1 := SubmitWbuf(s, p, t); DataOk(s1.cfg, s1.pages, s1.disk, s1.wbufs, s1.version, s1.written)
  {
    hide PagesOk, ListsOk, IosOk, WritesDistinct, IoCounts, WritersOk, MaintOk, BlocksOk, ReadersOk, FlushesOk,
         ThreadsOk, WbufsOk;
    var s1 := SubmitWbuf(s, p, t);
    var w := s.pages[p].wbuf.value;
    var keep := |s.wbufs[w].buf| - s.wbufs[w].free;
    assert s1.wbufs[w].buf[..keep] == s.wbufs[w].buf[..keep];
    forall a | a in s.written ensures AddrOk(s1.pages, s1.disk, s1.wbufs, s1.version, a, s.written[a]) {
      assert AddrOk(s.pages, s.disk, s.wbufs, s.version, a, s.written[a]);
      if s.pages[a.page].version == a.version {
        BufferPrefix(s.wbufs, s1.wbufs, w, keep, s.pages[a.page], s.disk[a.page], a, s.written[a]);
      }
    }
  }

  /** A read from a buffer only looks at its used part. */
  lemma BufferPrefix(wbufs: seq<Wbuf>, wbufs': seq<Wbuf>, w: nat, keep: nat, pg: Page, diskPage: seq<Byte>, a: Addr,
                     data: seq<Byte>)
    requires w < |wbufs| == |wbufs'| && keep <= |wbufs[w].buf| == |wbufs'[w].buf|
    requires wbufs[w].free == |wbufs[w].buf| - keep && wbufs'[w].free <= wbufs[w].free
    requires wbufs'[w].offset == wbufs[w].offset && wbufs'[w].buf[..keep] == wbufs[w].buf[..keep]
    requires forall x :: 0 <= x < |wbufs| && x != w ==> wbufs[x] == wbufs'[x]
    requires InPlace(pg, diskPage, wbufs, a, data)
    ensures InPlace(pg, diskPage, wbufs', a, data)
  {
    if a.offset >= pg.written && pg.wbuf.value == w {
      var from := a.offset - wbufs[w].offset;
      assert wbufs[w].buf[from..from + a.len] == wbufs[w].buf[..keep][from..from + a.len];
      assert wbufs'[w].buf[from..from + a.len] == wbufs'[w].buf[..keep][from..from + a.len];
    }
  }

  /** Buffers that have been written out are in flight, so they are not the one that changes. */
  lemma OtherFlushesKeep(s: State, w: nat, wbufs: seq<Wbuf>, ios: seq<ObjIo>)
    requires Valid(s) && w < |s.wbufs| == |wbufs| && !s.wbufs[w].full && |ios| == |s.ios|
    requires forall x :: 0 <= x < |wbufs| && x != w ==> wbufs[x] == s.wbufs[x]
    requires forall i :: 0 <= i < |ios| && i !in s.ioStack ==> ios[i] == s.ios[i]
    ensures FlushesOk(s.disk, wbufs, ios, s.threads)
  {
    hide PagesOk, ListsOk, IosOk, WritesDistinct, IoCounts, WritersOk, MaintOk, BlocksOk, ReadersOk, ThreadsOk, WbufsOk,
         DataOk;
    forall t | 0 <= t < |s.threads| ensures FlushedOk(s.disk, wbufs, ios, s.threads[t]) {
      assert FlushedOk(s.disk, s.wbufs, s.ios, s.threads[t]);
      if s.threads[t].phase == Flushing {
        FlushingInFlight(s, t);
      }
    }
  }

  lemma SubmitKeepsThreads(s: State, p: nat, t: nat)
    requires Submittable(s, p, t)
    ensures var s1 := SubmitWbuf(s, p, t);
      ThreadsOk(s1.cfg, |s1.pages|, s1.threads) && ReadersOk(s1.pages, s1.threads)
        && FlushesOk(s1.disk, s1.wbufs, s1.ios, s1.threads)
  {
    hide PagesOk, ListsOk, IosOk, WritesDistinct, IoCounts, WritersOk, MaintOk, BlocksOk, WbufsOk, DataOk;
    var s1 := SubmitWbuf(s, p, t);
    var th0, th := s.threads[t], s1.threads[t];
    SubmitPending(s, p, t);
    assert s.ioStack[0] in s.ioStack;
    OtherFlushesKeep(s, s.pages[p].wbuf.value, s1.wbufs, s1.ios);
    assert ThreadOk(s.cfg, |s.pages|, th0) && HoldOk(s.pages, th0) && FlushedOk(s.disk, s1.wbufs, s1.ios, th0);
    assert ThreadOk(s.cfg, |s.pages|, th) && FlushedOk(s.disk, s1.wbufs, s1.ios, th) && HoldOk(s.pages, th);
    assert forall q: nat :: Holds(th, q) == Holds(th0, q);
    ThreadKeepsReaders(s.pages, s.threads, t, th);
  }

  lemma SubmitKeepsBlocks(s: State, p: nat, t: nat)
    requires Submittable(s, p, t)
    ensures var s1 := SubmitWbuf(s, p, t); BlocksOk(s1.cfg, s1.pages, s1.disk, s1.wbufs, s1.written)
  {
    hide ListsOk, IosOk, WritesDistinct, IoCounts, WritersOk, MaintOk, ReadersOk, FlushesOk, ThreadsOk, DataOk,
         Attached;
    hide Tiled, BlockTiled;
    var s1 := SubmitWbuf(s, p, t);
    forall q | 0 <= q < |s.pages| ensures PageTiled(s.cfg, s.pages[q], q, s.disk[q], s1.wbufs, s.written) {
      assert PageTiled(s.cfg, s.pages[q], q, s.disk[q], s.wbufs, s.written);
      assert PageOk(s.cfg, s.pages[q]);
    }
  }

  lemma SubmitKeeps(s: State, p: nat, t: nat)
    requires Submittable(s, p, t)
    ensures Valid(SubmitWbuf(s, p, t))
  {
    hide PagesOk, ListsOk, IosOk, WritesDistinct, IoCounts, WritersOk, MaintOk, BlocksOk, ReadersOk, ThreadsOk, WbufsOk,
         DataOk, FlushesOk;
    SubmitKeepsBuffers(s, p, t);
    SubmitKeepsIos(s, p, t);
    SubmitKeepsDistinct(s, p, t);
    SubmitKeepsCounts(s, p, t);
    SubmitKeepsData(s, p, t);
    SubmitKeepsBlocks(s, p, t);
    SubmitKeepsThreads(s, p, t);
  }

  // ---------------------------------------------------------------- getting a buffer

  ghost predicate WantsBuffer(s: State, p: nat) {
    Valid(s) && p < |s.pages| && s.pages[p].active && s.pages[p].wbuf.None? && s.pages[p].allotted < s.cfg.pageSize &&
    s.wbufStack != [] && s.wbufStack[0] < |s.wbufs|
  }

  lemma AllocateWbufPages(s: State, p: nat)
    requires WantsBuffer(s, p)
    ensures var s1 := AllocateWbuf(s, p);
      && PagesOk(s1.cfg, s1.pages, s1.version) && WritersOk(s1.cfg, s1.pages, s1.buckets, s1.writers)
      && ListsOk(s1.cfg, s1.pages, s1.freelist, s1.freeBuckets, s1.buckets, s1.pageFree)
      && MaintOk(s1.pages, s1.maint) && ReadersOk(s1.pages, s1.threads)
  {
    hide IosOk, WritesDistinct, IoCounts, DataOk, FlushesOk, ThreadsOk, ListsOk, CountTrue, Holders;
    var s1 := AllocateWbuf(s, p);
    var pg := s1.pages[p];
    assert PageOk(s.cfg, s.pages[p]);
    RoomForOne(s.pages[p].written, s.cfg.pageSize, s.cfg.wbufSize);
    PageChangeKeepsLists(s.cfg, s.pages, s.freelist, s.freeBuckets, s.buckets, s.pageFree, p, pg);
    forall b | 0 <= b < |s.buckets| ensures BelowHeadFull(s.cfg, s1.pages, s.buckets[b]) {
      assert BelowHeadFull(s.cfg, s.pages, s.buckets[b]);
    }
    forall t | 0 <= t < |s.threads| ensures HoldOk(s1.pages, s.threads[t]) {
      assert HoldOk(s.pages, s.threads[t]);
    }
  }

  lemma AllocateWbufBuffers(s: State, p: nat)
    requires WantsBuffer(s, p)
    ensures var s1 := AllocateWbuf(s, p); WbufsOk(s1.cfg, s1.pages, s1.wbufs, s1.wbufStack)
  {
    hide IosOk, WritesDistinct, IoCounts, DataOk, FlushesOk, ThreadsOk, ListsOk, CountTrue, Attached, WritersOk,
         ReadersOk, MaintOk, BlocksOk;
    var s1 := AllocateWbuf(s, p);
    assert PageOk(s.cfg, s.pages[p]);
    assert s.wbufStack[0] in s.wbufStack;
    TailMembers(s.wbufStack);
    AttachedUpdate(s.pages, p, s1.pages[p]);
  }

  lemma AllocateWbufIos(s: State, p: nat)
    requires WantsBuffer(s, p)
    ensures var s1 := AllocateWbuf(s, p);
      && IosOk(s1.cfg, s1.pages, s1.wbufs, s1.ios, s1.ioStack, s1.threads)
      && IoCounts(s1.cfg, s1.pages, s1.wbufs, s1.ioStack, s1.threads)
  {
    hide PagesOk, WritesDistinct, DataOk, FlushesOk, ThreadsOk, ListsOk, CountTrue, InFlights, Sum, WriteCounts,
         WritersOk, ReadersOk, MaintOk, BlocksOk;
    hide WriteAt, IoAt;
    var s1, w := AllocateWbuf(s, p), s.wbufStack[0];
    assert w in s.wbufStack;
    forall q | 0 <= q < |s.pages| && q != p ensures InFlight(s.pages[q], s.wbufs) == InFlight(s1.pages[q], s1.wbufs) {
    }
    InFlightUpdate(s.pages, s.wbufs, s1.pages, s1.wbufs, p);
    forall t, k | WriteAt(s.threads, t, k)
      ensures CarriesBuffer(s1.pages, s1.wbufs, s1.ios, s1.ioStack, IoAt(s.threads, t, k))
    {
      assert CarriesBuffer(s.pages, s.wbufs, s.ios, s.ioStack, IoAt(s.threads, t, k));
    }
  }

  lemma AllocateWbufData(s: State, p: nat)
    requires WantsBuffer(s, p)
    ensures var s1 := AllocateWbuf(s, p);
      && DataOk(s1.cfg, s1.pages, s1.disk, s1.wbufs, s1.version, s1.written)
      && FlushesOk(s1.disk, s1.wbufs, s1.ios, s1.threads)
  {
    hide PagesOk, WritesDistinct, ThreadsOk, ListsOk, WritersOk, ReadersOk, MaintOk, BlocksOk, IosOk, IoCounts;
    var s1, w := AllocateWbuf(s, p), s.wbufStack[0];
    assert w in s.wbufStack;
    forall a | a in s.written ensures AddrOk(s1.pages, s1.disk, s1.wbufs, s1.version, a, s.written[a]) {
      assert AddrOk(s.pages, s.disk, s.wbufs, s.version, a, s.written[a]);
    }
    forall t | 0 <= t < |s.threads| ensures FlushedOk(s.disk, s1.wbufs, s.ios, s.threads[t]) {
      assert FlushedOk(s.disk, s.wbufs, s.ios, s.threads[t]);
      if s.threads[t].phase == Flushing {
        FlushingInFlight(s, t);
      }
    }
  }

  lemma AllocateWbufBlocks(s: State, p: nat)
    requires WantsBuffer(s, p)
    ensures var s1 := AllocateWbuf(s, p); BlocksOk(s1.cfg, s1.pages, s1.disk, s1.wbufs, s1.written)
  {
    hide ListsOk, IosOk, WritesDistinct, IoCounts, WritersOk, MaintOk, ReadersOk, FlushesOk, ThreadsOk, DataOk,
         Attached;
    hide BlockTiled;
    var s1 := AllocateWbuf(s, p);
    assert s.wbufStack[0] in s.wbufStack;
    forall q | 0 <= q < |s.pages| ensures PageTiled(s.cfg, s1.pages[q], q, s.disk[q], s1.wbufs, s.written) {
      assert PageTiled(s.cfg, s.pages[q], q, s.disk[q], s.wbufs, s.written);
      assert PageOk(s.cfg, s.pages[q]);
    }
  }

  lemma AllocateWbufKeeps(s: State, p: nat)
    requires WantsBuffer(s, p)
    ensures Valid(AllocateWbuf(s, p))
  {
    hide PagesOk, ListsOk, IosOk, WritesDistinct, IoCounts, WritersOk, MaintOk, BlocksOk, ReadersOk, ThreadsOk, WbufsOk,
         DataOk, FlushesOk;
    AllocateWbufPages(s, p);
    AllocateWbufBuffers(s, p);
    AllocateWbufIos(s, p);
    AllocateWbufData(s, p);
    AllocateWbufBlocks(s, p);
  }

  // ------------------------------------------------------------------ storing an object

  ghost predicate Storable(s: State, p: nat, data: seq<Byte>) {
    Valid(s) && HasRoom(s, p, |data|) && s.pages[p].active && |data| > 0
  }

  lemma StoreKeepsBuffers(s: State, p: nat, data: seq<Byte>)
    requires Storable(s, p, data)
    ensures var s1 := StoreObject(s, p, data);
      && WbufsOk(s1.cfg, s1.pages, s1.wbufs, s1.wbufStack)
      && IosOk(s1.cfg, s1.pages, s1.wbufs, s1.ios, s1.ioStack, s1.threads)
      && IoCounts(s1.cfg, s1.pages, s1.wbufs, s1.ioStack, s1.threads)
  {
    hide PagesOk, WritesDistinct, DataOk, FlushesOk, ThreadsOk, ListsOk, WritersOk, ReadersOk, MaintOk, BlocksOk,
         WriteAt, IoAt;
    var s1 := StoreObject(s, p, data);
    assert Attached(s1.pages) == Attached(s.pages);
    assert InFlights(s1.pages, s1.wbufs) == InFlights(s.pages, s.wbufs);
    forall t, k | WriteAt(s.threads, t, k)
      ensures CarriesBuffer(s1.pages, s1.wbufs, s1.ios, s1.ioStack, IoAt(s.threads, t, k))
    {
      assert CarriesBuffer(s.pages, s.wbufs, s.ios, s.ioStack, IoAt(s.threads, t, k));
    }
  }

  lemma StoreKeepsData(s: State, p: nat, data: seq<Byte>)
    requires Storable(s, p, data)
    ensures var s1 := StoreObject(s, p, data); DataOk(s1.cfg, s1.pages, s1.disk, s1.wbufs, s1.version, s1.written)
  {
    hide WritesDistinct, ThreadsOk, ListsOk, WritersOk, ReadersOk, MaintOk, BlocksOk, IosOk, IoCounts, FlushesOk,
         Attached, CountTrue;
    var s1, w := StoreObject(s, p, data), s.pages[p].wbuf.value;
    var wb, here := s.wbufs[w], NextAddr(s, p, |data|);
    var keep := |wb.buf| - wb.free;
    assert PageOk(s.cfg, s.pages[p]);
    assert s1.wbufs[w].buf[..keep] == wb.buf[..keep];
    assert s1.wbufs[w].buf[keep..keep + |data|] == data;
    forall a | a in s1.written ensures AddrOk(s1.pages, s1.disk, s1.wbufs, s1.version, a, s1.written[a]) {
      if a != here {
        assert AddrOk(s.pages, s.disk, s.wbufs, s.version, a, s.written[a]);
        if s.pages[a.page].version == a.version {
          BufferPrefix(s.wbufs, s1.wbufs, w, keep, s.pages[a.page], s.disk[a.page], a, s.written[a]);
        }
      }
    }
  }

  /** The new object lies right behind the others of its buffer. */
  lemma StoreKeepsBlocks(s: State, p: nat, data: seq<Byte>)
    requires Storable(s, p, data)
    ensures var s1 := StoreObject(s, p, data); BlocksOk(s1.cfg, s1.pages, s1.disk, s1.wbufs, s1.written)
  {
    hide ListsOk, IosOk, WritesDistinct, IoCounts, WritersOk, MaintOk, ReadersOk, FlushesOk, ThreadsOk, DataOk,
         Attached;
    hide Tiled, BlockTiled;
    var s1, w := StoreObject(s, p, data), s.pages[p].wbuf.value;
    var wb, v := s.wbufs[w], s.pages[p].version;
    var end := wb.offset + |wb.buf| - wb.free;
    assert PageOk(s.cfg, s.pages[p]);
    assert PageTiled(s.cfg, s.pages[p], p, s.disk[p], s.wbufs, s.written);
    TiledMore(s.written, s1.written, p, v, wb.offset, end);
    TiledAppend(s1.written, p, v, wb.offset, end, |data|);
    forall q | 0 <= q < |s.pages| ensures PageTiled(s.cfg, s1.pages[q], q, s.disk[q], s1.wbufs, s1.written) {
      assert PageTiled(s.cfg, s.pages[q], q, s.disk[q], s.wbufs, s.written);
      assert PageOk(s.cfg, s.pages[q]);
      if !s.pages[q].free {
        if q != p { BufferMore(s.pages[q], s1.pages[q], q, s.wbufs, s1.wbufs, s.written, s1.written); }
        PageMore(s.cfg, s.pages[q], s1.pages[q], q, s.disk[q], s.disk[q], s.wbufs, s1.wbufs, s.written, s1.written);
      }
    }
  }

  lemma StoreKeeps(s: State, p: nat, data: seq<Byte>)
    requires Storable(s, p, data)
    ensures Valid(StoreObject(s, p, data))
  {
    hide PagesOk, ListsOk, IosOk, WritesDistinct, IoCounts, WritersOk, MaintOk, BlocksOk, WbufsOk, DataOk;
    var s1, w := StoreObject(s, p, data), s.pages[p].wbuf.value;
    FreePagesUnpinned(s, p);
    TouchKeepsPages(s, p, s1.pages[p]);
    TouchKeepsWriters(s, p, s1.pages[p]);
    StoreKeepsBuffers(s, p, data);
    StoreKeepsData(s, p, data);
    StoreKeepsBlocks(s, p, data);
    OtherFlushesKeep(s, w, s1.wbufs, s1.ios);
  }
}
