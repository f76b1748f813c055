/** extstore.c: giving pages out and taking them back, whole runs, and what a run
    guarantees to a reader. */
module ExtstoreRuns {
  import opened Basics
  import opened Counting
  import opened ExtstoreModel
  import opened ExtstoreLists
  import opened ExtstoreBlocks
  import opened ExtstoreSteps
  import opened ExtstoreWrites
  import opened ExtstoreFlush

  // ------------------------------------------------------------------ giving a page out

  /** A free page can be given any version: nothing was ever stored under the next one. */
  lemma ActivateData(s: State, p: nat, pg: Page)
    requires Valid(s) && p < |s.pages| && s.pages[p].free && pg.version == s.version
    ensures DataOk(s.cfg, s.pages[p := pg], s.disk, s.wbufs, s.version + 1, s.written)
  {
    hide PagesOk, ListsOk, WbufsOk, IosOk, WritesDistinct, IoCounts, ThreadsOk, ReadersOk, FlushesOk, WritersOk,
         MaintOk, BlocksOk;
    forall a | a in s.written ensures AddrOk(s.pages[p := pg], s.disk, s.wbufs, s.version + 1, a, s.written[a]) {
      assert AddrOk(s.pages, s.disk, s.wbufs, s.version, a, s.written[a]);
    }
  }

  /** The state after _allocate_page has taken page p from a free list. */
  lemma ActivatePages(s: State, p: nat, pg: Page)
    requires Valid(s) && p < |s.pages| && s.pages[p].free && p != 0 && pg.bucket < s.cfg.bucketCount
    requires pg == s.pages[p].(active := true, free := false, closed := false, version := s.version,
                               bucket := pg.bucket)
    ensures PagesOk(s.cfg, s.pages[p := pg], s.version + 1) && MaintOk(s.pages[p := pg], s.maint)
  {
    hide ListsOk, WbufsOk, IosOk, WritesDistinct, IoCounts, ThreadsOk, ReadersOk, FlushesOk, WritersOk, BlocksOk,
         DataOk;
    assert PageOk(s.cfg, s.pages[p]);
  }

  /** A page that is given out, or taken back, has no blocks. */
  lemma FreshBlocks(s: State, p: nat, pg: Page)
    requires Valid(s) && p < |s.pages| && (pg.free || (pg.wbuf.None? && pg.written == 0))
    ensures BlocksOk(s.cfg, s.pages[p := pg], s.disk, s.wbufs, s.written)
  {
    BlocksKept(s.cfg, s.pages, s.disk, s.wbufs, s.written, p, pg);
  }

  /** Only the bucket that gets the page changes, and all below its new head are full. */
  lemma ActivateWriters(s: State, b: nat, p: nat, pg: Page, u: nat, w: Writer)
    requires Valid(s) && b < s.cfg.bucketCount && p < |s.pages| && s.pages[p].free
    requires MayAllocate(s.cfg, s.pages, s.buckets[b]) && u < |s.writers| && WriterOk(s.cfg, |s.pages|, w)
    ensures WritersOk(s.cfg, s.pages[p := pg], s.buckets[b := [p] + s.buckets[b]], s.writers[u := w])
  {
    hide PagesOk, WbufsOk, IosOk, WritesDistinct, IoCounts, ThreadsOk, ReadersOk, DataOk, FlushesOk, MaintOk, BlocksOk,
         FreeListOk;
    var pages, buckets := s.pages[p := pg], s.buckets[b := [p] + s.buckets[b]];
    forall b' | 0 <= b' < |buckets| ensures BelowHeadFull(s.cfg, pages, buckets[b']) {
      assert BelowHeadFull(s.cfg, s.pages, s.buckets[b']);
      assert p !in s.buckets[b'] by {
        assert BucketListOk(s.buckets[b'], s.pages, b');
        assert !OnBucket(s.pages, b', p);
      }
      forall k | 0 <= k < |s.buckets[b']| ensures s.buckets[b'][k] != p { assert s.buckets[b'][k] in s.buckets[b']; }
    }
  }

  /** Giving out page p keeps the invariant, whatever the lists it was taken from were. */
  lemma ActivateKeeps(s: State, s1: State, b: nat, p: nat, u: nat, w: Writer)
    requires Valid(s) && b < s.cfg.bucketCount && 1 <= p < |s.pages| && s.pages[p].free && b < |s.buckets|
    requires s1 == s.(freelist := s1.freelist, freeBuckets := s1.freeBuckets) && s1.pageFree > 0
    requires ListsOf(Activate(s1, b, p)) && MayAllocate(s.cfg, s.pages, s.buckets[b])
    requires u < |s.writers| && WriterOk(s.cfg, |s.pages|, w)
    ensures var s2 := Activate(s1, b, p); Valid(s2.(writers := s2.writers[u := w]))
  {
    hide PagesOk, ListsOk, WbufsOk, IosOk, WritesDistinct, IoCounts, ThreadsOk, ReadersOk, DataOk, FlushesOk, WritersOk,
         MaintOk, BlocksOk;
    hide MayAllocate, WriterOk;
    var pg := s.pages[p].(active := true, free := false, closed := false, version := s.version, bucket := b);
    ActivatePages(s, p, pg);
    ActivateData(s, p, pg);
    FreeIsBare(s, p);
    PageKeepsBuffers(s, p, pg);
    FreeReaders(s, p, pg);
    FreshBlocks(s, p, pg);
    ActivateWriters(s, b, p, pg, u, w);
  }

  /** AllocatePage takes nothing away unless it hands out a page. */
  lemma AllocateKeeps(s: State, b: nat, fb: nat, u: nat, w: Writer)
    requires Valid(s) && b < s.cfg.bucketCount && fb < s.cfg.bucketCount && MayAllocate(s.cfg, s.pages, s.buckets[b])
    requires u < |s.writers| && WriterOk(s.cfg, |s.pages|, w)
    ensures FreeInRange(s)
    ensures AllocatePage(s, b, fb).1 == TakeFree(s, fb).1
    ensures TakeFree(s, fb).1.Some? ==> var s2 := AllocatePage(s, b, fb).0; Valid(s2.(writers := s2.writers[u := w]))
    ensures TakeFree(s, fb).1.None? ==> AllocatePage(s, b, fb) == (s, None)
  {
    FreeInRangeOf(s);
    if TakeFree(s, fb).1.Some? {
      AllocateKeepsLists(s, b, fb);
      assert b < |s.buckets|;
      hide Valid, ListsOf, Activate, MayAllocate, WriterOk, FreeInRange;
      ActivateKeeps(s, TakeFree(s, fb).0, b, TakeFree(s, fb).1.value, u, w);
    }
  }

  lemma FreeIsBare(s: State, p: nat)
    requires Valid(s) && p < |s.pages| && s.pages[p].free
    ensures s.pages[p].wbuf.None? && s.pages[p].refcount == 0 && s.pages[p].written == 0
  {
    hide ListsOk, WbufsOk, IosOk, WritesDistinct, IoCounts, ThreadsOk, ReadersOk, DataOk, FlushesOk, WritersOk, MaintOk,
         BlocksOk;
    assert PageOk(s.cfg, s.pages[p]);
  }

  // ------------------------------------------------------------------- taking it back

  lemma FreePages(s: State, p: nat, pg: Page, m: Maint)
    requires Valid(s) && p < |s.pages| && !s.pages[p].free && !s.pages[p].active
    requires pg == s.pages[p].(version := 0, objCount := 0, bytesUsed := 0, allotted := 0, written := 0,
                               bucket := 0, active := false, closed := false, free := true)
    requires pg.refcount == 0 && MaintOk(s.pages, m) && (m.Scanning? && m.low.Some? ==> m.low.value != p)
    ensures PagesOk(s.cfg, s.pages[p := pg], s.version) && MaintOk(s.pages[p := pg], m)
    ensures s.pages[p].wbuf.None? && Full(s.cfg, s.pages, p)
  {
    hide ListsOk, WbufsOk, IosOk, WritesDistinct, IoCounts, ThreadsOk, ReadersOk, DataOk, FlushesOk, WritersOk,
         BlocksOk;
    assert PageOk(s.cfg, s.pages[p]);
    NoRoomWhenFull(s.pages[p].written, s.cfg.pageSize, s.cfg.wbufSize);
  }

  /** Nothing is stored under version 0. */
  lemma FreeData(s: State, p: nat, pg: Page)
    requires Valid(s) && p < |s.pages| && pg.version == 0
    ensures DataOk(s.cfg, s.pages[p := pg], s.disk, s.wbufs, s.version, s.written)
  {
    hide PagesOk, ListsOk, WbufsOk, IosOk, WritesDistinct, IoCounts, ThreadsOk, ReadersOk, FlushesOk, WritersOk,
         MaintOk, BlocksOk;
    forall a | a in s.written ensures AddrOk(s.pages[p := pg], s.disk, s.wbufs, s.version, a, s.written[a]) {
      assert AddrOk(s.pages, s.disk, s.wbufs, s.version, a, s.written[a]);
    }
  }

  lemma NoRoomWhenFull(x: nat, total: nat, unit: nat)
    requires Multiple(total, unit)
    ensures x == total ==> x + unit > total
  {
  }

  /** A page nobody has pinned can be freed without a reader noticing. */
  lemma FreeReaders(s: State, p: nat, pg: Page)
    requires Valid(s) && p < |s.pages| && s.pages[p].refcount == 0 && pg.refcount == 0
    ensures ReadersOk(s.pages[p := pg], s.threads)
  {
    hide PagesOk, ListsOk, WbufsOk, IosOk, WritesDistinct, IoCounts, ThreadsOk, DataOk, FlushesOk, WritersOk, MaintOk,
         BlocksOk, CountTrue;
    forall t | 0 <= t < |s.threads| ensures HoldOk(s.pages[p := pg], s.threads[t]) {
      assert HoldOk(s.pages, s.threads[t]);
      if Holds(s.threads[t], p) { CountPositive(Holders(s.threads, p), t); }
    }
  }

  lemma {:induction false} RemoveFirstKeepsFull(c: Config, pages: seq<Page>, l: seq<nat>, p: nat)
    requires forall k :: 0 <= k < |l| ==> Full(c, pages, l[k])
    ensures forall k :: 0 <= k < |RemoveFirst(l, p)| ==> Full(c, pages, RemoveFirst(l, p)[k])
  {
    if l != [] && l[0] != p { RemoveFirstKeepsFull(c, pages, l[1..], p); }
  }

  lemma FreeWriters(s: State, p: nat, pg: Page)
    requires Valid(s) && p < |s.pages| && !s.pages[p].free && s.pages[p].bucket < |s.buckets|
    ensures WritersOk(s.cfg, s.pages[p := pg],
                      s.buckets[s.pages[p].bucket := RemoveFirst(s.buckets[s.pages[p].bucket], p)], s.writers)
  {
    hide PagesOk, WbufsOk, IosOk, WritesDistinct, IoCounts, ThreadsOk, ReadersOk, DataOk, FlushesOk, MaintOk, BlocksOk,
         FreeListOk;
    var b := s.pages[p].bucket;
    var pages, buckets := s.pages[p := pg], s.buckets[b := RemoveFirst(s.buckets[b], p)];
    forall b' | 0 <= b' < |buckets| ensures BelowHeadFull(s.cfg, pages, buckets[b']) {
      assert BucketListOk(s.buckets[b'], s.pages, b');
      assert BelowHeadFull(s.cfg, s.pages, s.buckets[b']);
      if b' == b {
        FreeBelowHead(s.cfg, s.pages, s.buckets[b], p, pg);
      } else {
        assert p !in s.buckets[b'] by { assert !OnBucket(s.pages, b', p); }
        forall k | 0 <= k < |s.buckets[b']| ensures s.buckets[b'][k] != p { assert s.buckets[b'][k] in s.buckets[b']; }
      }
    }
  }

  lemma FreeBelowHead(c: Config, pages: seq<Page>, l: seq<nat>, p: nat, pg: Page)
    requires BelowHeadFull(c, pages, l) && NoDup(l) && p < |pages|
    ensures BelowHeadFull(c, pages[p := pg], RemoveFirst(l, p))
    ensures MayAllocate(c, pages, l) ==> MayAllocate(c, pages[p := pg], RemoveFirst(l, p))
  {
    var r := RemoveFirst(l, p);
    RemoveFirstMembers(l, p);
    forall k | 0 <= k < |r| ensures r[k] != p { assert r[k] in r; }
    if l != [] {
      RemoveFirstKeepsFull(c, pages, l[1..], p);
      if l[0] == p {
        assert r == l[1..];
      } else {
        assert r == [l[0]] + RemoveFirst(l[1..], p);
      }
    }
  }

  /** _free_page on a page that is inactive and unpinned. */
  lemma FreeKeeps(s: State, p: nat, m: Maint)
    requires Valid(s) && p < |s.pages| && !s.pages[p].free && !s.pages[p].active && s.pages[p].refcount == 0
    requires MaintOk(s.pages, m) && (m.Scanning? && m.low.Some? ==> m.low.value != p)
    ensures s.pages[p].bucket < |s.buckets| && s.pages[p].freeBucket < |s.freeBuckets|
    ensures Valid(FreePage(s, p).(maint := m))
  {
    InBucketRange(s, p);
    hide PagesOk, ListsOk, WbufsOk, IosOk, WritesDistinct, IoCounts, ThreadsOk, ReadersOk, DataOk, FlushesOk, WritersOk,
         MaintOk, BlocksOk;
    var pg := FreePage(s, p).pages[p];
    FreePages(s, p, pg, m);
    FreeKeepsLists(s, p);
    FreeData(s, p, pg);
    PageKeepsBuffers(s, p, pg);
    FreeReaders(s, p, pg);
    FreshBlocks(s, p, pg);
    FreeWriters(s, p, pg);
  }

  lemma InBucketRange(s: State, p: nat)
    requires Valid(s) && p < |s.pages|
    ensures s.pages[p].bucket < |s.buckets| && s.pages[p].freeBucket < |s.freeBuckets|
  {
    hide WbufsOk, IosOk, WritesDistinct, IoCounts, ThreadsOk, ReadersOk, DataOk, FlushesOk, WritersOk, MaintOk,
         BlocksOk;
    assert PageOk(s.cfg, s.pages[p]);
  }

  // ------------------------------------------------------------------------- events

  datatype Event =
    | BeginWrite(writer: nat, bucket: nat, freeBucket: nat)
    | AttemptWrite(writer: nat, data: seq<Byte>, thread: nat)
    | AllocateAfterFull(writer: nat)
    | Submit(thread: nat, addrs: seq<Addr>)
    | Batch(thread: nat)
    | LockForRead(thread: nat)
    | DiskRead(thread: nat)
    | Unpin(thread: nat)
    | DiskWrite(thread: nat)
    | Callback(thread: nat)
    | DeleteObjects(page: nat, version: nat, count: nat, bytes: nat)
    | ClosePage(page: nat, version: nat)
    | StartScan
    | ScanPage
    | Evict

  ghost predicate Enabled(s: State, e: Event)
    requires Valid(s)
  {
    !s.stopped &&
    match e
    case BeginWrite(w, b, fb) => w < |s.writers| && s.writers[w] == Idle && b < s.cfg.bucketCount
        && fb < s.cfg.bucketCount
    case AttemptWrite(w, data, t) => w < |s.writers| && s.writers[w].HasPage? && t < |s.threads| && |data| > 0
    case AllocateAfterFull(w) => w < |s.writers| && s.writers[w].MustAllocate?
    case ScanPage => s.maint.Scanning? && s.maint.next < |s.pages|
    case Evict => s.maint.Scanning? && s.maint.next == |s.pages|
    case _ => EnabledLocal(s, e)
  }

  ghost function Apply(s: State, e: Event): State
    requires Valid(s) && Enabled(s, e)
  {
    match e
    case BeginWrite(w, b, fb) => WriteBegin(s, w, b, fb)
    case AttemptWrite(w, data, t) => WriteAttempt(s, w, data, t)
    case AllocateAfterFull(w) => WriteAllocate(s, w)
    case ScanPage => MaintPage(s)
    case Evict => MaintEvict(s)
    case _ => ApplyLocal(s, e)
  }

  /** The steps that touch one thread or one page and nothing else. */
  predicate EnabledLocal(s: State, e: Event) {
    match e
    case Submit(t, addrs) => t < |s.threads| && forall i :: 0 <= i < |addrs| ==> RangeOk(s.cfg, |s.pages|, addrs[i])
    case Batch(t) => t < |s.threads| && s.threads[t].phase == Ready && s.threads[t].batch == []
    case LockForRead(t) => AtRead(s, t, Ready)
    case DiskRead(t) => AtRead(s, t, Reading)
    case Unpin(t) => AtRead(s, t, Draining)
    case DiskWrite(t) => AtWrite(s, t, Ready)
    case Callback(t) => AtWrite(s, t, Flushing)
    case DeleteObjects(p, _, _, _) => p < |s.pages|
    case ClosePage(p, _) => p < |s.pages|
    case StartScan => s.maint == Waiting
    case _ => false
  }

  function ApplyLocal(s: State, e: Event): State
    requires EnabledLocal(s, e)
  {
    match e
    case Submit(t, addrs) => SubmitReads(s, t, addrs)
    case Batch(t) => TakeBatch(s, t)
    case LockForRead(t) => ReadBegin(s, t)
    case DiskRead(t) => PreadDone(s, t)
    case Unpin(t) => ReadEnd(s, t)
    case DiskWrite(t) => Pwrite(s, t)
    case Callback(t) => FlushDone(s, t)
    case DeleteObjects(p, version, count, bytes) => Delete(s, p, version, count, bytes)
    case ClosePage(p, version) => Close(s, p, version)
    case StartScan => MaintStart(s)
  }

  // -------------------------------------------------- steps of writers and the maintainer

  /** A writer that only moves on in its own protocol. */
  lemma WriterMoves(s: State, u: nat, w: Writer)
    requires Valid(s) && u < |s.writers| && WriterOk(s.cfg, |s.pages|, w)
    ensures Valid(s.(writers := s.writers[u := w]))
  {
    hide PagesOk, ListsOk, WbufsOk, IosOk, WritesDistinct, IoCounts, ThreadsOk, ReadersOk, DataOk, FlushesOk, MaintOk,
         BlocksOk, WriterOk;
  }

  /** What a writer can rely on between its critical sections. */
  lemma WriterFacts(s: State, u: nat)
    requires Valid(s) && u < |s.writers|
    ensures |s.buckets| == |s.freeBuckets| == s.cfg.bucketCount
    ensures s.writers[u].HasPage? ==> s.writers[u].page < |s.pages|
    ensures !s.writers[u].Idle? ==>
              s.writers[u].bucket < s.cfg.bucketCount && s.writers[u].freeBucket < s.cfg.bucketCount
    ensures FreeInRange(s)
  {
    FreeInRangeOf(s);
    assert WriterOk(s.cfg, |s.pages|, s.writers[u]);
  }

  lemma BeginWriteKeeps(s: State, u: nat, b: nat, fb: nat)
    requires Valid(s) && Enabled(s, BeginWrite(u, b, fb))
    ensures Valid(WriteBegin(s, u, b, fb))
  {
    WriterFacts(s, u);
    hide Valid, FreeInRange;
    if s.buckets[b] != [] {
      HeadInRange(s, b);
      WriterMoves(s, u, HasPage(b, fb, s.buckets[b][0]));
    } else {
      TakenInRange(s, fb);
      AllocateKeeps(s, b, fb, u, if TakeFree(s, fb).1.Some? then HasPage(b, fb, TakeFree(s, fb).1.value) else Idle);
    }
  }

  lemma TakenInRange(s: State, fb: nat)
    requires FreeInRange(s) && fb < |s.freeBuckets|
    ensures TakeFree(s, fb).1.Some? ==> TakeFree(s, fb).1.value < |s.pages|
  {
  }

  lemma HeadInRange(s: State, b: nat)
    requires Valid(s) && b < s.cfg.bucketCount && s.buckets[b] != []
    ensures s.buckets[b][0] < |s.pages|
  {
    hide PagesOk, WbufsOk, IosOk, WritesDistinct, IoCounts, ThreadsOk, ReadersOk, DataOk, FlushesOk, WritersOk, MaintOk,
         BlocksOk;
    assert BucketListOk(s.buckets[b], s.pages, b);
    assert s.buckets[b][0] in s.buckets[b];
  }

  lemma AllocateAfterFullKeeps(s: State, u: nat)
    requires Valid(s) && Enabled(s, AllocateAfterFull(u))
    ensures Valid(WriteAllocate(s, u))
  {
    WriterFacts(s, u);
    hide Valid, FreeInRange, MayAllocate;
    var b, fb := s.writers[u].bucket, s.writers[u].freeBucket;
    if MayAllocate(s.cfg, s.pages, s.buckets[b]) {
      AllocateKeeps(s, b, fb, u, Idle);
      WriterMoves(s, u, Idle);
    } else {
      StopKeeps(s);
    }
  }

  lemma StopKeeps(s: State)
    requires Valid(s)
    ensures Valid(s.(stopped := true))
  {
    hide PagesOk, ListsOk, WbufsOk, IosOk, WritesDistinct, IoCounts, ThreadsOk, ReadersOk, DataOk, FlushesOk, WritersOk,
         MaintOk, BlocksOk;
  }

  /** Flush, get a buffer, store: each part of the attempt keeps the invariant. */
  lemma AttemptFlush(s: State, p: nat, len: nat, t: nat)
    requires Valid(s) && p < |s.pages| && t < |s.threads|
    requires s.pages[p].wbuf.Some? && s.pages[p].wbuf.value < |s.wbufs| && !s.wbufs[s.pages[p].wbuf.value].full
    ensures s.ioStack != [] && s.ioStack[0] < |s.ios|
    ensures s.wbufs[s.pages[p].wbuf.value].free <= |s.wbufs[s.pages[p].wbuf.value].buf|
    ensures Valid(SubmitWbuf(s, p, t))
    ensures !HasRoom(SubmitWbuf(s, p, t), p, len)
  {
    BufferInRange(s, p);
    IoAvailable(s, p);
    hide Valid;
    SubmitKeeps(s, p, t);
  }

  lemma AttemptBuffer(s: State, p: nat)
    requires Valid(s) && p < |s.pages| && s.pages[p].active && s.pages[p].wbuf.None?
             && s.pages[p].allotted < s.cfg.pageSize
    ensures s.wbufStack != [] ==> s.wbufStack[0] < |s.wbufs|
    ensures Valid(AllocateWbuf(s, p)) && AllocateWbuf(s, p).pages[p].active
  {
    WbufInRange(s);
    hide Valid;
    if s.wbufStack != [] { AllocateWbufKeeps(s, p); }
  }

  lemma AttemptStore(s: State, p: nat, data: seq<Byte>)
    requires Valid(s) && p < |s.pages| && s.pages[p].active && |data| > 0
    ensures HasRoom(s, p, |data|) ==> Valid(StoreObject(s, p, data))
  {
    hide Valid;
    if HasRoom(s, p, |data|) { StoreKeeps(s, p, data); }
  }

  lemma AttemptOnPageKeeps(s: State, p: nat, data: seq<Byte>, t: nat)
    requires Valid(s) && p < |s.pages| && t < |s.threads| && |data| > 0
    requires s.pages[p].wbuf.Some? ==> s.pages[p].wbuf.value < |s.wbufs|
    requires !TakesNoMore(s, p)
    ensures Valid(AttemptOnPage(s, p, data, t))
  {
    var pg := s.pages[p];
    hide Valid, StoreObject;
    if pg.wbuf.Some? && s.wbufs[pg.wbuf.value].free < |data| && !s.wbufs[pg.wbuf.value].full {
      AttemptFlush(s, p, |data|, t);
    } else {
      if pg.wbuf.None? { AttemptBuffer(s, p); }
      AttemptStore(if pg.wbuf.None? then AllocateWbuf(s, p) else s, p, data);
    }
  }

  lemma AttemptKeepsWriters(s: State, p: nat, data: seq<Byte>, t: nat)
    requires Valid(s) && p < |s.pages| && t < |s.threads|
    requires s.pages[p].wbuf.Some? ==> s.pages[p].wbuf.value < |s.wbufs|
    ensures AttemptOnPage(s, p, data, t).writers == s.writers && AttemptOnPage(s, p, data, t).cfg == s.cfg
  {
    if s.pages[p].wbuf.Some? && !InFlight(s.pages[p], s.wbufs) { IoAvailable(s, p); }
    WbufInRange(s);
    hide Valid;
  }

  lemma AttemptWriteKeeps(s: State, u: nat, data: seq<Byte>, t: nat)
    requires Valid(s) && Enabled(s, AttemptWrite(u, data, t))
    ensures Valid(WriteAttempt(s, u, data, t))
  {
    WriterFacts(s, u);
    hide Valid, AttemptOnPage, FreeInRange;
    var p := s.writers[u].page;
    BufferInRange(s, p);
    if TakesNoMore(s, p) {
      WriterMoves(s, u, MustAllocate(s.writers[u].bucket, s.writers[u].freeBucket));
    } else {
      AttemptOnPageKeeps(s, p, data, t);
      AttemptKeepsWriters(s, p, data, t);
      WriterMoves(AttemptOnPage(s, p, data, t), u, Idle);
    }
  }

  lemma BufferInRange(s: State, p: nat)
    requires Valid(s) && p < |s.pages|
    ensures s.pages[p].wbuf.Some? ==> s.pages[p].wbuf.value < |s.wbufs|
    ensures s.pages[p].wbuf.Some? ==> s.wbufs[s.pages[p].wbuf.value].free <= |s.wbufs[s.pages[p].wbuf.value].buf|
  {
    hide PagesOk, ListsOk, IosOk, WritesDistinct, IoCounts, ThreadsOk, ReadersOk, DataOk, FlushesOk, MaintOk, BlocksOk,
         WritersOk;
  }

  lemma MaintMoves(s: State, m: Maint)
    requires Valid(s) && MaintOk(s.pages, m)
    ensures Valid(s.(maint := m))
  {
    hide PagesOk, ListsOk, WbufsOk, IosOk, WritesDistinct, IoCounts, ThreadsOk, ReadersOk, DataOk, FlushesOk, WritersOk,
         MaintOk, BlocksOk;
  }

  lemma MaintFacts(s: State)
    requires Valid(s)
    ensures MaintOk(s.pages, s.maint)
  {
  }

  lemma ScanPageKeeps(s: State)
    requires Valid(s) && Enabled(s, ScanPage)
    ensures Valid(MaintPage(s))
  {
    hide Valid, FreePage;
    InBucketRange(s, s.maint.next);
    MaintFacts(s);
    var p, m := s.maint.next, s.maint;
    var pg := s.pages[p];
    if pg.active || pg.free {
      MaintMoves(s, m.(next := p + 1));
    } else {
      var lower := pg.objCount > 0 && !pg.closed && pg.freeBucket == 0 && (m.low.None? || pg.version < m.lowVersion);
      var m1 := if lower then m.(next := p + 1, low := Some(p), lowVersion := pg.version) else m.(next := p + 1);
      assert MaintOk(s.pages, m1);
      if Reclaimable(pg) {
        FreeKeeps(s, p, m1.(evict := false));
      } else {
        MaintMoves(s, m1);
      }
    }
  }

  lemma EvictKeeps(s: State)
    requires Valid(s) && Enabled(s, Evict)
    ensures Valid(MaintEvict(s))
  {
    if s.maint.evict && s.maint.low.Some? && !s.pages[s.maint.low.value].closed {
      var p := s.maint.low.value;
      MaintFacts(s);
      hide Valid, FreePage;
      InBucketRange(s, p);
      TouchKeeps(s, p, s.pages[p].(closed := true));
      var s0 := s.(pages := s.pages[p := s.pages[p].(closed := true)]);
      MaintMoves(s0, Waiting);
      var s1 := s0.(maint := Waiting);
      if s1.pages[p].refcount == 0 { FreeKeeps(s1, p, Waiting); }
    } else {
      MaintMoves(s, Waiting);
    }
  }

  /** Every step of every thread keeps the whole invariant. */
  lemma StepKeeps(s: State, e: Event)
    requires Valid(s) && Enabled(s, e)
    ensures Valid(Apply(s, e))
  {
    hide Valid, WriteBegin, WriteAttempt, WriteAllocate, SubmitReads, TakeBatch, ReadBegin, PreadDone, ReadEnd, Pwrite,
         FlushDone, Delete, Close, MaintPage, MaintEvict;
    match e
    case BeginWrite(u, b, fb) => BeginWriteKeeps(s, u, b, fb);
    case AttemptWrite(u, data, t) => AttemptWriteKeeps(s, u, data, t);
    case AllocateAfterFull(u) => AllocateAfterFullKeeps(s, u);
    case Submit(t, addrs) => SubmitReadsKeeps(s, t, addrs);
    case Batch(t) => TakeBatchKeeps(s, t);
    case LockForRead(t) => ReadBeginKeeps(s, t);
    case DiskRead(t) => PreadKeeps(s, t);
    case Unpin(t) => ReadEndKeeps(s, t);
    case DiskWrite(t) => PwriteKeeps(s, t);
    case Callback(t) => FlushDoneKeeps(s, t);
    case DeleteObjects(p, version, count, bytes) => DeleteKeeps(s, p, version, count, bytes);
    case ClosePage(p, version) => CloseKeeps(s, p, version);
    case StartScan => MaintMoves(s, MaintStart(s).maint);
    case ScanPage => ScanPageKeeps(s);
    case Evict => EvictKeeps(s);
  }
}
