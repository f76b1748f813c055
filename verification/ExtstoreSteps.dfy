/** extstore.c: every step of every thread keeps the invariant. */
module ExtstoreSteps {
  import opened Basics
  import opened Counting
  import opened ExtstoreModel
  import opened ExtstoreLists
  import opened ExtstoreBlocks

  // ---------------------------------------------------------- changes of one IO thread

  lemma {:induction false} WritesAppend(a: seq<Io>, b: seq<Io>)
    ensures Writes(a + b) == Writes(a) + Writes(b)
  {
    if a == [] {
      assert a + b == b;
    } else {
      assert (a + b)[1..] == a[1..] + b;
      WritesAppend(a[1..], b);
    }
  }

  lemma {:induction false} NoWrites(l: seq<Io>)
    requires forall k :: 0 <= k < |l| ==> l[k].ReadIo?
    ensures Writes(l) == 0
  {
    if l != [] { NoWrites(l[1..]); }
  }

  lemma CountsUpdate(threads: seq<IoThread>, t: nat, th: IoThread)
    requires t < |threads|
    ensures Sum(WriteCounts(threads[t := th])) ==
            Sum(WriteCounts(threads)) - Writes(Pending(threads[t])) + Writes(Pending(th))
  {
    SumUpdate(WriteCounts(threads), t, Writes(Pending(th)));
    assert WriteCounts(threads[t := th]) == WriteCounts(threads)[t := Writes(Pending(th))];
  }

  lemma HoldersUpdate(threads: seq<IoThread>, t: nat, th: IoThread, p: nat)
    requires t < |threads|
    ensures CountTrue(Holders(threads[t := th], p)) ==
            CountTrue(Holders(threads, p)) - (if Holds(threads[t], p) then 1 else 0) + (if Holds(th, p) then 1 else 0)
  {
    CountUpdate(Holders(threads, p), t, Holds(th, p));
    assert Holders(threads[t := th], p) == Holders(threads, p)[t := Holds(th, p)];
  }

  /** The pending IOs of th are those of th0 from position d on, possibly with reads added. */
  ghost predicate Continues(th0: IoThread, th: IoThread, d: nat) {
    && (forall k :: 0 <= k < |Pending(th)| && Pending(th)[k].WriteIo? ==>
          k + d < |Pending(th0)| && Pending(th0)[k + d] == Pending(th)[k])
    && Writes(Pending(th)) == Writes(Pending(th0))
  }

  lemma ThreadKeepsIos(c: Config, pages: seq<Page>, wbufs: seq<Wbuf>, ios: seq<ObjIo>, ioStack: seq<nat>,
                       threads: seq<IoThread>, t: nat, th: IoThread, d: nat)
    requires IosOk(c, pages, wbufs, ios, ioStack, threads) && WritesDistinct(ios, threads)
    requires IoCounts(c, pages, wbufs, ioStack, threads)
    requires t < |threads| && Continues(threads[t], th, d)
    ensures IosOk(c, pages, wbufs, ios, ioStack, threads[t := th]) && WritesDistinct(ios, threads[t := th])
    ensures IoCounts(c, pages, wbufs, ioStack, threads[t := th])
  {
    var threads' := threads[t := th];
    forall u, k | WriteAt(threads', u, k)
      ensures WriteAt(threads, u, if u == t then k + d else k)
      ensures IoAt(threads', u, k) == IoAt(threads, u, if u == t then k + d else k)
    {
    }
    CountsUpdate(threads, t, th);
  }

  lemma ThreadKeepsReaders(pages: seq<Page>, threads: seq<IoThread>, t: nat, th: IoThread)
    requires ReadersOk(pages, threads) && t < |threads| && HoldOk(pages, th)
    requires forall p: nat :: Holds(th, p) == Holds(threads[t], p)
    ensures ReadersOk(pages, threads[t := th])
  {
    hide CountTrue, Holders, HoldOk;
    forall p | 0 <= p < |pages| ensures pages[p].refcount == CountTrue(Holders(threads[t := th], p)) {
      HoldersUpdate(threads, t, th, p);
    }
  }

  /** A step that changes one thread, keeps what it holds, and only drops reads
      from the front of its pending IOs or adds reads at the end. */
  lemma ThreadStepKeeps(s: State, t: nat, th: IoThread, d: nat)
    requires Valid(s) && t < |s.threads| && Continues(s.threads[t], th, d)
    requires ThreadOk(s.cfg, |s.pages|, th) && HoldOk(s.pages, th) && FlushedOk(s.disk, s.wbufs, s.ios, th)
    requires forall p: nat :: Holds(th, p) == Holds(s.threads[t], p)
    ensures Valid(s.(threads := s.threads[t := th]))
  {
    hide PagesOk, ListsOk, WbufsOk, IosOk, WritesDistinct, IoCounts, DataOk, ReadersOk, WritersOk, MaintOk, BlocksOk;
    hide ThreadOk, HoldOk, FlushedOk, Continues, Holds;
    ThreadKeepsIos(s.cfg, s.pages, s.wbufs, s.ios, s.ioStack, s.threads, t, th, d);
    ThreadKeepsReaders(s.pages, s.threads, t, th);
  }

  lemma SubmitReadsKeeps(s: State, t: nat, addrs: seq<Addr>)
    requires Valid(s) && t < |s.threads| && forall i :: 0 <= i < |addrs| ==> RangeOk(s.cfg, |s.pages|, addrs[i])
    ensures Valid(SubmitReads(s, t, addrs))
  {
    hide PagesOk, ListsOk, WbufsOk, IosOk, WritesDistinct, IoCounts, DataOk, WritersOk, MaintOk, BlocksOk;
    var th0, th := s.threads[t], SubmitReads(s, t, addrs).threads[t];
    var asked := seq(|addrs|, i requires 0 <= i < |addrs| => ReadIo(addrs[i]));
    assert Pending(th) == Pending(th0) + asked;
    WritesAppend(Pending(th0), asked);
    NoWrites(asked);
    assert ThreadOk(s.cfg, |s.pages|, th0) && HoldOk(s.pages, th0) && FlushedOk(s.disk, s.wbufs, s.ios, th0);
    ThreadStepKeeps(s, t, th, 0);
  }

  lemma TakeBatchKeeps(s: State, t: nat)
    requires Valid(s) && t < |s.threads| && s.threads[t].phase == Ready && s.threads[t].batch == []
    ensures Valid(TakeBatch(s, t))
  {
    hide PagesOk, ListsOk, WbufsOk, IosOk, WritesDistinct, IoCounts, DataOk, WritersOk, MaintOk, BlocksOk;
    var th0, th := s.threads[t], TakeBatch(s, t).threads[t];
    assert Pending(th) == Pending(th0);
    assert ThreadOk(s.cfg, |s.pages|, th0);
    ThreadStepKeeps(s, t, th, 0);
  }

  /** A thread that finishes a read drops it from the front of its pending IOs. */
  lemma FinishedContinues(c: Config, n: nat, th: IoThread)
    requires ThreadOk(c, n, th) && th.batch != [] && th.batch[0].ReadIo?
    ensures Continues(th, Finished(th), 1) && ThreadOk(c, n, Finished(th))
  {
    var th1 := Finished(th);
    assert Pending(th1) == Pending(th)[1..];
  }

  // ----------------------------------------------- changes of a page that move no data

  /** Only reference count, counters and the closed mark differ. */
  predicate Touched(pg0: Page, pg: Page) {
    pg == pg0.(refcount := pg.refcount, objCount := pg.objCount, bytesUsed := pg.bytesUsed, closed := pg.closed)
  }

  lemma TouchKeepsPages(s: State, p: nat, pg: Page)
    requires Valid(s) && p < |s.pages| && Touched(s.pages[p], pg) && (pg.free ==> pg.refcount == 0)
    ensures PagesOk(s.cfg, s.pages[p := pg], s.version)
    ensures ListsOk(s.cfg, s.pages[p := pg], s.freelist, s.freeBuckets, s.buckets, s.pageFree)
    ensures MaintOk(s.pages[p := pg], s.maint)
  {
    PageChangeKeepsLists(s.cfg, s.pages, s.freelist, s.freeBuckets, s.buckets, s.pageFree, p, pg);
  }

  lemma PageKeepsBuffers(s: State, p: nat, pg: Page)
    requires Valid(s) && p < |s.pages| && pg.wbuf == s.pages[p].wbuf
    requires pg.wbuf.Some? ==> pg.written == s.pages[p].written
    ensures WbufsOk(s.cfg, s.pages[p := pg], s.wbufs, s.wbufStack)
    ensures IosOk(s.cfg, s.pages[p := pg], s.wbufs, s.ios, s.ioStack, s.threads)
    ensures IoCounts(s.cfg, s.pages[p := pg], s.wbufs, s.ioStack, s.threads)
  {
    hide PagesOk, ListsOk, DataOk, WritersOk, MaintOk, BlocksOk, ReadersOk, ThreadsOk, FlushesOk, WritesDistinct;
    var pages := s.pages[p := pg];
    assert Attached(pages) == Attached(s.pages);
    assert InFlights(pages, s.wbufs) == InFlights(s.pages, s.wbufs);
    forall t, k | WriteAt(s.threads, t, k)
      ensures CarriesBuffer(pages, s.wbufs, s.ios, s.ioStack, IoAt(s.threads, t, k))
    {
      assert CarriesBuffer(s.pages, s.wbufs, s.ios, s.ioStack, IoAt(s.threads, t, k));
    }
  }

  lemma TouchKeepsBlocks(s: State, p: nat, pg: Page)
    requires Valid(s) && p < |s.pages| && Touched(s.pages[p], pg)
    ensures BlocksOk(s.cfg, s.pages[p := pg], s.disk, s.wbufs, s.written)
  {
    BlocksKept(s.cfg, s.pages, s.disk, s.wbufs, s.written, p, pg);
  }

  lemma TouchKeepsData(s: State, p: nat, pg: Page)
    requires Valid(s) && p < |s.pages| && Touched(s.pages[p], pg)
    ensures DataOk(s.cfg, s.pages[p := pg], s.disk, s.wbufs, s.version, s.written)
  {
    hide PagesOk, ListsOk, WbufsOk, IosOk, WritesDistinct, IoCounts, WritersOk, MaintOk, BlocksOk, ReadersOk, ThreadsOk,
         FlushesOk;
    var pages := s.pages[p := pg];
    forall a | a in s.written ensures AddrOk(pages, s.disk, s.wbufs, s.version, a, s.written[a]) {
      assert AddrOk(s.pages, s.disk, s.wbufs, s.version, a, s.written[a]);
    }
  }

  lemma TouchKeepsWriters(s: State, p: nat, pg: Page)
    requires Valid(s) && p < |s.pages| && Touched(s.pages[p], pg)
    ensures WritersOk(s.cfg, s.pages[p := pg], s.buckets, s.writers)
    ensures forall t :: 0 <= t < |s.threads| ==> HoldOk(s.pages[p := pg], s.threads[t])
  {
    hide PagesOk, ListsOk, WbufsOk, IosOk, WritesDistinct, IoCounts, DataOk, MaintOk, BlocksOk, ThreadsOk, FlushesOk;
    var pages := s.pages[p := pg];
    forall b | 0 <= b < |s.buckets| ensures BelowHeadFull(s.cfg, pages, s.buckets[b]) {
      assert BelowHeadFull(s.cfg, s.pages, s.buckets[b]);
    }
    forall t | 0 <= t < |s.threads| ensures HoldOk(pages, s.threads[t]) {
      assert HoldOk(s.pages, s.threads[t]);
    }
  }

  lemma TouchKeeps(s: State, p: nat, pg: Page)
    requires Valid(s) && p < |s.pages| && Touched(s.pages[p], pg) && pg.refcount == s.pages[p].refcount
    ensures Valid(s.(pages := s.pages[p := pg]))
  {
    hide PagesOk, ListsOk, WbufsOk, IosOk, WritesDistinct, IoCounts, DataOk, WritersOk, MaintOk, BlocksOk, ThreadsOk,
         FlushesOk, HoldOk;
    FreePagesUnpinned(s, p);
    TouchKeepsPages(s, p, pg);
    PageKeepsBuffers(s, p, pg);
    TouchKeepsData(s, p, pg);
    TouchKeepsBlocks(s, p, pg);
    TouchKeepsWriters(s, p, pg);
  }

  lemma DeleteKeeps(s: State, p: nat, version: nat, count: nat, bytes: nat)
    requires Valid(s) && p < |s.pages|
    ensures Valid(Delete(s, p, version, count, bytes))
  {
    var pg := s.pages[p];
    TouchKeeps(s, p, pg.(bytesUsed := Less(pg.bytesUsed, bytes), objCount := Less(pg.objCount, count)));
  }

  lemma CloseKeeps(s: State, p: nat, version: nat)
    requires Valid(s) && p < |s.pages|
    ensures Valid(Close(s, p, version))
  {
    TouchKeeps(s, p, s.pages[p].(closed := true));
  }

  // -------------------------------------------------------------------------- reads

  lemma PinKeepsReaders(pages: seq<Page>, threads: seq<IoThread>, p: nat, pg: Page, t: nat, th: IoThread)
    requires ReadersOk(pages, threads) && t < |threads| && p < |pages|
    requires pg.refcount == pages[p].refcount - (if Holds(threads[t], p) then 1 else 0)
             + (if Holds(th, p) then 1 else 0)
    requires forall q: nat :: q != p ==> Holds(th, q) == Holds(threads[t], q)
    requires HoldOk(pages[p := pg], th)
    requires forall u :: 0 <= u < |threads| ==> HoldOk(pages[p := pg], threads[u])
    ensures ReadersOk(pages[p := pg], threads[t := th])
  {
    hide CountTrue, Holders, HoldOk;
    var pages', threads' := pages[p := pg], threads[t := th];
    forall q | 0 <= q < |pages'| ensures pages'[q].refcount == CountTrue(Holders(threads', q)) {
      HoldersUpdate(threads, t, th, q);
    }
  }

  /** A thread takes or releases its reference to a page. */
  lemma PinKeeps(s: State, p: nat, pg: Page, t: nat, th: IoThread, d: nat)
    requires Valid(s) && t < |s.threads| && p < |s.pages| && Continues(s.threads[t], th, d)
    requires Touched(s.pages[p], pg) && (pg.free ==> pg.refcount == 0)
    requires pg.refcount == s.pages[p].refcount - (if Holds(s.threads[t], p) then 1 else 0)
             + (if Holds(th, p) then 1 else 0)
    requires forall q: nat :: q != p ==> Holds(th, q) == Holds(s.threads[t], q)
    requires ThreadOk(s.cfg, |s.pages|, th) && HoldOk(s.pages[p := pg], th) && th.phase != Flushing
    ensures Valid(s.(pages := s.pages[p := pg], threads := s.threads[t := th]))
  {
    hide PagesOk, ListsOk, WbufsOk, IosOk, WritesDistinct, IoCounts, DataOk, ReadersOk, WritersOk, MaintOk, BlocksOk;
    hide ThreadOk, HoldOk, Continues, Holds;
    TouchKeepsPages(s, p, pg);
    PageKeepsBuffers(s, p, pg);
    TouchKeepsData(s, p, pg);
    TouchKeepsBlocks(s, p, pg);
    TouchKeepsWriters(s, p, pg);
    ThreadKeepsIos(s.cfg, s.pages[p := pg], s.wbufs, s.ios, s.ioStack, s.threads, t, th, d);
    PinKeepsReaders(s.pages, s.threads, p, pg, t, th);
  }

  lemma ReadBeginKeeps(s: State, t: nat)
    requires Valid(s) && AtRead(s, t, Ready)
    ensures Valid(ReadBegin(s, t))
  {
    hide PagesOk, ListsOk, WbufsOk, IosOk, WritesDistinct, IoCounts, DataOk, WritersOk, MaintOk, BlocksOk, ReadersOk,
         FlushesOk;
    var th0, th := s.threads[t], ReadBegin(s, t).threads[t];
    var a := th0.batch[0].addr;
    var pg := s.pages[a.page];
    assert ThreadOk(s.cfg, |s.pages|, th0);
    if Current(pg, a) && InBuffer(pg, a) && !BufferServes(pg, s.wbufs, a) {
    } else if !Current(pg, a) || InBuffer(pg, a) {
      FinishedContinues(s.cfg, |s.pages|, th0);
      ThreadStepKeeps(s, t, th, 1);
    } else {
      assert Pending(th) == Pending(th0);
      PinKeeps(s, a.page, pg.(refcount := pg.refcount + 1), t, th, 0);
    }
  }

  lemma PreadKeeps(s: State, t: nat)
    requires Valid(s) && AtRead(s, t, Reading)
    ensures Valid(PreadDone(s, t))
  {
    hide PagesOk, ListsOk, WbufsOk, IosOk, WritesDistinct, IoCounts, DataOk, WritersOk, MaintOk, BlocksOk, ReadersOk,
         FlushesOk;
    var th0, th := s.threads[t], PreadDone(s, t).threads[t];
    assert ThreadOk(s.cfg, |s.pages|, th0);
    assert Pending(th) == Pending(th0);
    ThreadStepKeeps(s, t, th, 0);
  }

  lemma ReadEndKeeps(s: State, t: nat)
    requires Valid(s) && AtRead(s, t, Draining)
    ensures s.pages[s.threads[t].batch[0].addr.page].refcount > 0
    ensures Valid(ReadEnd(s, t))
  {
    hide PagesOk, ListsOk, WbufsOk, IosOk, WritesDistinct, IoCounts, DataOk, WritersOk, MaintOk, BlocksOk, FlushesOk;
    var th0 := s.threads[t];
    var a := th0.batch[0].addr;
    var pg := s.pages[a.page];
    assert ThreadOk(s.cfg, |s.pages|, th0);
    CountPositive(Holders(s.threads, a.page), t);
    FinishedContinues(s.cfg, |s.pages|, th0);
    FreePagesUnpinned(s, a.page);
    PinKeeps(s, a.page, pg.(refcount := pg.refcount - 1), t, Finished(th0), 1);
  }

  lemma FreePagesUnpinned(s: State, p: nat)
    requires Valid(s) && p < |s.pages|
    ensures s.pages[p].free ==> s.pages[p].refcount == 0
  {
    hide ListsOk, WbufsOk, IosOk, WritesDistinct, IoCounts, DataOk, WritersOk, MaintOk, BlocksOk, ReadersOk, FlushesOk,
         ThreadsOk;
    assert PageOk(s.cfg, s.pages[p]);
  }
}
