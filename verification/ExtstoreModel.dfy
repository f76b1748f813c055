/** The external store engine (memcached/extstore.c) as a state machine.  A page
    goes from a free list to a bucket, is filled through one write buffer at a
    time, is flushed by the IO threads, and returns to its free list when the
    maintenance thread finds it empty, closed or the oldest.  Every critical
    section of the source is one step; the steps of all threads interleave in
    any order. */
module ExtstoreModel {
  import opened Basics
  import opened Counting

  datatype Config = Config(pageSize: nat, wbufSize: nat, wbufCount: nat, bucketCount: nat, ioDepth: nat)

  /** x is divisible by unit. */
  predicate Multiple(x: nat, unit: nat) {
    unit > 0 && (x == 0 || (x >= unit && Multiple(x - unit, unit)))
  }

  /** What extstore_init accepts: whole buffers fill a page, and there is at least
      one buffer per bucket. */
  predicate ConfigOk(c: Config) {
    c.pageSize > 0 && Multiple(c.pageSize, c.wbufSize) && 1 <= c.bucketCount <= c.wbufCount
  }

  datatype Page = Page(version: nat, refcount: nat, allotted: nat, written: nat, bucket: nat, freeBucket: nat,
                       active: bool, closed: bool, free: bool, wbuf: Option<nat>, objCount: nat, bytesUsed: nat)

  /** A write buffer; `free` counts the bytes left at its end. */
  datatype Wbuf = Wbuf(buf: seq<Byte>, free: nat, offset: nat, full: bool)

  /** The engine's own IO objects, used to ship write buffers to an IO thread. */
  datatype ObjIo = ObjIo(page: nat, wbuf: nat, offset: nat)

  /** A range of a page under one version: where extstore_write put an object, or what a read asks for. */
  datatype Addr = Addr(page: nat, version: nat, offset: nat, len: nat)

  datatype Io = ReadIo(addr: Addr) | WriteIo(io: nat)

  /** Ready: between two IOs.  Reading: holds the page's refcount, about to pread.
      Draining: has read, still holds the refcount.  Flushing: has done the
      pwrite, the callback is still to run.  The IO in progress is batch[0]. */
  datatype Phase = Ready | Reading | Draining | Flushing

  datatype IoThread = IoThread(queue: seq<Io>, depth: int, batch: seq<Io>, phase: Phase)

  /** A thread in extstore_write_request, between its critical sections.  Any number of
      them may write to one bucket. */
  datatype Writer = Idle | HasPage(bucket: nat, freeBucket: nat, page: nat) | MustAllocate(bucket: nat, freeBucket: nat)

  datatype Maint = Waiting | Scanning(next: nat, evict: bool, low: Option<nat>, lowVersion: nat)

  /** `stopped`: an assertion of the source has failed, or it has read past a buffer, and nothing
      happens any more.  `written` records every object ever written: it is history, not memory. */
  datatype State = State(cfg: Config, pages: seq<Page>, disk: seq<seq<Byte>>,
                         freelist: seq<nat>, freeBuckets: seq<seq<nat>>, buckets: seq<seq<nat>>,
                         pageFree: nat, version: nat,
                         wbufs: seq<Wbuf>, wbufStack: seq<nat>, ios: seq<ObjIo>, ioStack: seq<nat>,
                         threads: seq<IoThread>, writers: seq<Writer>, maint: Maint, stopped: bool,
                         written: map<Addr, seq<Byte>>)

  // ------------------------------------------------------------------ the invariant

  predicate PageOk(c: Config, pg: Page) {
    && pg.written <= pg.allotted <= c.pageSize
    && Multiple(pg.written, c.wbufSize)
    && pg.allotted == pg.written + (if pg.wbuf.Some? then c.wbufSize else 0)
    && (pg.free ==> pg.version == 0 && pg.refcount == 0 && pg.written == 0 && pg.wbuf.None?)
    && (!pg.free ==> pg.version > 0)
    && (pg.active <==> !pg.free && pg.written < c.pageSize)
    && pg.bucket < c.bucketCount && pg.freeBucket < c.bucketCount
  }

  /** Page 0 is never put on a list by extstore_init, so it stays free forever. */
  ghost predicate PagesOk(c: Config, pages: seq<Page>, version: nat) {
    && version > 0
    && (forall p :: 0 <= p < |pages| ==> PageOk(c, pages[p]) && pages[p].version < version)
    && (forall p, q :: 0 <= p < q < |pages| && !pages[p].free && !pages[q].free ==>
        pages[p].version != pages[q].version)
    && (|pages| > 0 ==> pages[0].free)
  }

  function Lengths(ls: seq<seq<nat>>): (r: seq<nat>)
    ensures |r| == |ls|
  {
    seq(|ls|, i requires 0 <= i < |ls| => |ls[i]|)
  }

  predicate OnFree(pages: seq<Page>, fb: nat, p: nat) {
    1 <= p < |pages| && pages[p].free && pages[p].freeBucket == fb
  }

  predicate OnBucket(pages: seq<Page>, b: nat, p: nat) {
    1 <= p < |pages| && !pages[p].free && pages[p].bucket == b
  }

  ghost predicate FreeListOk(l: seq<nat>, pages: seq<Page>, fb: nat) {
    NoDup(l) && forall p :: p in l <==> OnFree(pages, fb, p)
  }

  ghost predicate BucketListOk(l: seq<nat>, pages: seq<Page>, b: nat) {
    NoDup(l) && forall p :: p in l <==> OnBucket(pages, b, p)
  }

  /** Every page is on exactly the list its own fields name, once. */
  ghost predicate ListsOk(c: Config, pages: seq<Page>, freelist: seq<nat>, freeBuckets: seq<seq<nat>>,
                          buckets: seq<seq<nat>>, pageFree: nat)
  {
    && |freeBuckets| == c.bucketCount && |buckets| == c.bucketCount
    && FreeListOk(freelist, pages, 0)
    && (forall b :: 1 <= b < |freeBuckets| ==> FreeListOk(freeBuckets[b], pages, b))
    && (|freeBuckets| > 0 ==> freeBuckets[0] == [])
    && (forall b :: 0 <= b < |buckets| ==> BucketListOk(buckets[b], pages, b))
    && pageFree == |freelist| + Sum(Lengths(freeBuckets))
  }

  function Attached(pages: seq<Page>): (r: seq<bool>)
    ensures |r| == |pages|
  {
    seq(|pages|, i requires 0 <= i < |pages| => pages[i].wbuf.Some?)
  }

  /** The page's buffer is on its way to disk. */
  predicate InFlight(pg: Page, wbufs: seq<Wbuf>) {
    pg.wbuf.Some? && pg.wbuf.value < |wbufs| && wbufs[pg.wbuf.value].full
  }

  function InFlights(pages: seq<Page>, wbufs: seq<Wbuf>): (r: seq<bool>)
    ensures |r| == |pages|
  {
    seq(|pages|, i requires 0 <= i < |pages| => InFlight(pages[i], wbufs))
  }

  /** Write buffers are on the stack or attached to one page, never both or neither. */
  ghost predicate WbufsOk(c: Config, pages: seq<Page>, wbufs: seq<Wbuf>, wbufStack: seq<nat>) {
    && |wbufs| == c.wbufCount && NoDup(wbufStack)
    && (forall w :: 0 <= w < |wbufs| ==> |wbufs[w].buf| == c.wbufSize && wbufs[w].free <= c.wbufSize)
    && (forall w :: w in wbufStack ==> w < |wbufs|)
    && (forall p :: 0 <= p < |pages| && pages[p].wbuf.Some? ==>
          pages[p].wbuf.value < |wbufs| && pages[p].wbuf.value !in wbufStack &&
          wbufs[pages[p].wbuf.value].offset == pages[p].written)
    && (forall p, q :: 0 <= p < q < |pages| && pages[p].wbuf.Some? && pages[q].wbuf.Some? ==>
          pages[p].wbuf.value != pages[q].wbuf.value)
    && |wbufStack| + CountTrue(Attached(pages)) == c.wbufCount
  }

  /** All IOs a thread has been given and not finished, oldest first. */
  function Pending(th: IoThread): seq<Io> { th.batch + th.queue }

  predicate WriteAt(threads: seq<IoThread>, t: int, k: int) {
    0 <= t < |threads| && 0 <= k < |Pending(threads[t])| && Pending(threads[t])[k].WriteIo?
  }

  function IoAt(threads: seq<IoThread>, t: int, k: int): nat
    requires WriteAt(threads, t, k)
  {
    Pending(threads[t])[k].io
  }

  function Writes(l: seq<Io>): nat {
    if l == [] then 0 else (if l[0].WriteIo? then 1 else 0) + Writes(l[1..])
  }

  function WriteCounts(threads: seq<IoThread>): (r: seq<nat>)
    ensures |r| == |threads|
  {
    seq(|threads|, t requires 0 <= t < |threads| => Writes(Pending(threads[t])))
  }

  /** A busy IO object carries the full buffer of its page. */
  predicate CarriesBuffer(pages: seq<Page>, wbufs: seq<Wbuf>, ios: seq<ObjIo>, ioStack: seq<nat>, i: nat) {
    && i < |ios| && i !in ioStack
    && var io := ios[i];
    && io.page < |pages| && pages[io.page].wbuf == Some(io.wbuf)
    && io.wbuf < |wbufs| && wbufs[io.wbuf].full && io.offset == wbufs[io.wbuf].offset
  }

  ghost predicate IosOk(c: Config, pages: seq<Page>, wbufs: seq<Wbuf>, ios: seq<ObjIo>, ioStack: seq<nat>,
                        threads: seq<IoThread>)
  {
    && |ios| == c.wbufCount && NoDup(ioStack)
    && (forall i :: i in ioStack ==> i < |ios|)
    && (forall t, k :: WriteAt(threads, t, k) ==> CarriesBuffer(pages, wbufs, ios, ioStack, IoAt(threads, t, k)))
  }

  /** No two pending IOs flush the same page. */
  ghost predicate WritesDistinct(ios: seq<ObjIo>, threads: seq<IoThread>) {
    forall t, k, t', k' ::
      (WriteAt(threads, t, k) && WriteAt(threads, t', k') &&
       IoAt(threads, t, k) < |ios| && IoAt(threads, t', k') < |ios| &&
       ios[IoAt(threads, t, k)].page == ios[IoAt(threads, t', k')].page) ==> (t == t' && k == k')
  }

  /** IO objects are on the stack or pending, and as many pend as buffers are in flight. */
  ghost predicate IoCounts(c: Config, pages: seq<Page>, wbufs: seq<Wbuf>, ioStack: seq<nat>, threads: seq<IoThread>) {
    && |ioStack| + Sum(WriteCounts(threads)) == c.wbufCount
    && Sum(WriteCounts(threads)) == CountTrue(InFlights(pages, wbufs))
  }

  /** A read asks for a range within a page, whatever lies there. */
  predicate RangeOk(c: Config, pageCount: nat, a: Addr) {
    a.page < pageCount && a.offset + a.len <= c.pageSize
  }

  predicate ThreadOk(c: Config, pageCount: nat, th: IoThread) {
    && th.depth == |th.queue|
    && (th.phase != Ready ==> th.batch != [])
    && (th.phase == Reading || th.phase == Draining ==> th.batch[0].ReadIo?)
    && (th.phase == Flushing ==> th.batch[0].WriteIo?)
    && (forall k :: 0 <= k < |Pending(th)| && Pending(th)[k].ReadIo? ==> RangeOk(c, pageCount, Pending(th)[k].addr))
  }

  ghost predicate ThreadsOk(c: Config, pageCount: nat, threads: seq<IoThread>) {
    forall t :: 0 <= t < |threads| ==> ThreadOk(c, pageCount, threads[t])
  }

  /** The bytes of an object of the page's current version are where a read will look. */
  predicate InPlace(pg: Page, diskPage: seq<Byte>, wbufs: seq<Wbuf>, a: Addr, data: seq<Byte>) {
    if a.offset < pg.written then
      a.offset + a.len <= pg.written <= |diskPage| && diskPage[a.offset..a.offset + a.len] == data
    else
      && pg.wbuf.Some? && pg.wbuf.value < |wbufs|
      && var w := wbufs[pg.wbuf.value];
      && w.offset == pg.written
      && a.offset - w.offset + a.len <= |w.buf| - w.free
      && w.buf[a.offset - w.offset..a.offset - w.offset + a.len] == data
  }

  predicate AddrOk(pages: seq<Page>, disk: seq<seq<Byte>>, wbufs: seq<Wbuf>, version: nat, a: Addr, data: seq<Byte>) {
    && |data| == a.len > 0 && 0 < a.version < version && a.page < |pages| == |disk|
    && (pages[a.page].version == a.version ==> InPlace(pages[a.page], disk[a.page], wbufs, a, data))
  }

  ghost predicate DataOk(c: Config, pages: seq<Page>, disk: seq<seq<Byte>>, wbufs: seq<Wbuf>, version: nat,
                         written: map<Addr, seq<Byte>>)
  {
    && |disk| == |pages|
    && (forall p :: 0 <= p < |disk| ==> |disk[p]| == c.pageSize)
    && (forall a :: a in written ==> AddrOk(pages, disk, wbufs, version, a, written[a]))
  }

  predicate Holds(th: IoThread, p: nat) {
    (th.phase == Reading || th.phase == Draining) && th.batch != [] && th.batch[0].ReadIo? && th.batch[0].addr.page == p
  }

  function Holders(threads: seq<IoThread>, p: nat): (r: seq<bool>)
    ensures |r| == |threads|
  {
    seq(|threads|, t requires 0 <= t < |threads| => Holds(threads[t], p))
  }

  /** What a thread may rely on while it holds a page's refcount. */
  predicate HoldOk(pages: seq<Page>, th: IoThread) {
    if th.phase == Reading && th.batch != [] && th.batch[0].ReadIo? then
      var a := th.batch[0].addr;
      a.page < |pages| && pages[a.page].version == a.version && !InBuffer(pages[a.page], a)
    else
      true
  }

  /** A page's refcount is the number of threads reading it, and pins its version. */
  ghost predicate ReadersOk(pages: seq<Page>, threads: seq<IoThread>) {
    && (forall p :: 0 <= p < |pages| ==> pages[p].refcount == CountTrue(Holders(threads, p)))
    && (forall t :: 0 <= t < |threads| ==> HoldOk(pages, threads[t]))
  }

  predicate FlushedOk(disk: seq<seq<Byte>>, wbufs: seq<Wbuf>, ios: seq<ObjIo>, th: IoThread) {
    if th.phase == Flushing && th.batch != [] && th.batch[0].WriteIo? && th.batch[0].io < |ios| then
      var io := ios[th.batch[0].io];
      && io.page < |disk| && io.wbuf < |wbufs|
      && var w := wbufs[io.wbuf];
      && w.offset + |w.buf| <= |disk[io.page]|
      && disk[io.page][w.offset..w.offset + |w.buf|] == w.buf
    else
      true
  }

  /** Between a pwrite and its callback the disk already holds the buffer. */
  ghost predicate FlushesOk(disk: seq<seq<Byte>>, wbufs: seq<Wbuf>, ios: seq<ObjIo>, threads: seq<IoThread>) {
    forall t :: 0 <= t < |threads| ==> FlushedOk(disk, wbufs, ios, threads[t])
  }

  predicate Full(c: Config, pages: seq<Page>, p: nat) {
    p < |pages| && pages[p].allotted == c.pageSize
  }

  /** The assertion at the top of _allocate_page. */
  predicate MayAllocate(c: Config, pages: seq<Page>, bucket: seq<nat>) {
    bucket == [] || Full(c, pages, bucket[0])
  }

  predicate WriterOk(c: Config, pageCount: nat, w: Writer) {
    && (w.HasPage? ==> w.bucket < c.bucketCount && w.freeBucket < c.bucketCount && w.page < pageCount)
    && (w.MustAllocate? ==> w.bucket < c.bucketCount && w.freeBucket < c.bucketCount)
  }

  predicate BelowHeadFull(c: Config, pages: seq<Page>, bucket: seq<nat>) {
    forall k :: 1 <= k < |bucket| ==> Full(c, pages, bucket[k])
  }

  /** Below the head of a bucket every page is full. */
  ghost predicate WritersOk(c: Config, pages: seq<Page>, buckets: seq<seq<nat>>, writers: seq<Writer>) {
    && |buckets| == c.bucketCount
    && (forall b :: 0 <= b < |buckets| ==> BelowHeadFull(c, pages, buckets[b]))
    && (forall w :: 0 <= w < |writers| ==> WriterOk(c, |pages|, writers[w]))
  }

  // ----- what whole buffers hold

  /** Objects of a page's version lie one after the other from one offset to another. */
  ghost predicate Tiled(written: map<Addr, seq<Byte>>, p: nat, version: nat, from: nat, to: nat)
    decreases if to > from then to - from else 0
  {
    from == to ||
    exists len: nat :: 0 < len <= to - from && Addr(p, version, from, len) in written
      && Tiled(written, p, version, from + len, to)
  }

  predicate ZeroBetween(bytes: seq<Byte>, from: nat, to: nat) {
    forall j :: from <= j < to && j < |bytes| ==> bytes[j] == 0
  }

  /** The used part of a buffer is objects, and from when it is submitted the rest is zeros. */
  ghost predicate BufferTiled(pg: Page, p: nat, wbufs: seq<Wbuf>, written: map<Addr, seq<Byte>>) {
    pg.wbuf.Some? && pg.wbuf.value < |wbufs| ==>
      var w := wbufs[pg.wbuf.value];
      && w.free <= |w.buf| && Tiled(written, p, pg.version, w.offset, w.offset + |w.buf| - w.free)
      && (w.full ==> ZeroBetween(w.buf, |w.buf| - w.free, |w.buf|))
  }

  /** A buffer's worth of a page on disk is objects, then zeros. */
  ghost predicate BlockTiled(c: Config, diskPage: seq<Byte>, p: nat, version: nat, k: nat,
                             written: map<Addr, seq<Byte>>) {
    exists end: nat :: k <= end <= k + c.wbufSize && Tiled(written, p, version, k, end)
      && ZeroBetween(diskPage, end, k + c.wbufSize)
  }

  ghost predicate PageTiled(c: Config, pg: Page, p: nat, diskPage: seq<Byte>, wbufs: seq<Wbuf>,
                            written: map<Addr, seq<Byte>>) {
    !pg.free ==>
      && BufferTiled(pg, p, wbufs, written)
      && (forall k: nat :: Multiple(k, c.wbufSize) && k < pg.written ==>
          BlockTiled(c, diskPage, p, pg.version, k, written))
  }

  ghost predicate BlocksOk(c: Config, pages: seq<Page>, disk: seq<seq<Byte>>, wbufs: seq<Wbuf>,
                           written: map<Addr, seq<Byte>>) {
    |disk| == |pages| && forall p :: 0 <= p < |pages| ==> PageTiled(c, pages[p], p, disk[p], wbufs, written)
  }

  /** The page the maintenance thread may evict cannot have been freed behind its back. */
  predicate MaintOk(pages: seq<Page>, maint: Maint) {
    maint.Scanning? ==> (maint.next <= |pages| && (maint.low.Some? ==> EvictionCandidate(pages, maint)))
  }

  predicate EvictionCandidate(pages: seq<Page>, maint: Maint)
    requires maint.Scanning? && maint.low.Some?
  {
    && maint.low.value < maint.next && maint.low.value < |pages|
    && var pg := pages[maint.low.value];
    && !pg.free && !pg.active && pg.version == maint.lowVersion && pg.freeBucket == 0
  }

  ghost predicate Valid(s: State) {
    && ConfigOk(s.cfg)
    && PagesOk(s.cfg, s.pages, s.version)
    && ListsOk(s.cfg, s.pages, s.freelist, s.freeBuckets, s.buckets, s.pageFree)
    && WbufsOk(s.cfg, s.pages, s.wbufs, s.wbufStack)
    && IosOk(s.cfg, s.pages, s.wbufs, s.ios, s.ioStack, s.threads)
    && WritesDistinct(s.ios, s.threads)
    && IoCounts(s.cfg, s.pages, s.wbufs, s.ioStack, s.threads)
    && ThreadsOk(s.cfg, |s.pages|, s.threads)
    && DataOk(s.cfg, s.pages, s.disk, s.wbufs, s.version, s.written)
    && ReadersOk(s.pages, s.threads)
    && FlushesOk(s.disk, s.wbufs, s.ios, s.threads)
    && WritersOk(s.cfg, s.pages, s.buckets, s.writers)
    && BlocksOk(s.cfg, s.pages, s.disk, s.wbufs, s.written)
    && MaintOk(s.pages, s.maint)
  }

  // ---------------------------------------------------------------------- steps

  /** The first half of _allocate_page: the requested special list, else the default one. */
  function TakeFree(s: State, freeBucket: nat): (r: (State, Option<nat>))
    requires freeBucket < |s.freeBuckets|
    ensures r.1.Some? ==> r.1.value in s.freelist || r.1.value in s.freeBuckets[freeBucket]
  {
    var special := s.freeBuckets[freeBucket];
    if freeBucket != 0 && special != [] then
      (s.(freeBuckets := s.freeBuckets[freeBucket := special[1..]]), Some(special[0]))
    else if s.freelist != [] then
      (s.(freelist := s.freelist[1..]), Some(s.freelist[0]))
    else
      (s, None)
  }

  /** The second half: the page becomes the head of the bucket under a new version. */
  function Activate(s: State, b: nat, p: nat): State
    requires b < |s.buckets| && p < |s.pages| && s.pageFree > 0
  {
    s.(pages := s.pages[p := s.pages[p].(active := true, free := false, closed := false,
                                         version := s.version, bucket := b)],
       version := s.version + 1,
       buckets := s.buckets[b := [p] + s.buckets[b]],
       pageFree := s.pageFree - 1)
  }

  ghost predicate FreeInRange(s: State) {
    (forall p :: p in s.freelist ==> p < |s.pages|) &&
    forall b, p :: 0 <= b < |s.freeBuckets| && p in s.freeBuckets[b] ==> p < |s.pages|
  }

  lemma FreeInRangeOf(s: State)
    requires ListsOk(s.cfg, s.pages, s.freelist, s.freeBuckets, s.buckets, s.pageFree)
    ensures FreeInRange(s)
  {
    forall b, p | 0 <= b < |s.freeBuckets| && p in s.freeBuckets[b] ensures p < |s.pages| {
      assert b > 0 && FreeListOk(s.freeBuckets[b], s.pages, b);
      assert OnFree(s.pages, b, p);
    }
    forall p | p in s.freelist ensures p < |s.pages| { assert OnFree(s.pages, 0, p); }
  }

  /** _allocate_page.  A page taken while page_free is 0 would be lost. */
  ghost function AllocatePage(s: State, b: nat, freeBucket: nat): (State, Option<nat>)
    requires freeBucket < |s.freeBuckets| && b < |s.buckets| && FreeInRange(s)
    requires MayAllocate(s.cfg, s.pages, s.buckets[b])
  {
    var (s1, page) := TakeFree(s, freeBucket);
    if page.Some? && s1.pageFree > 0 then (Activate(s1, b, page.value), page) else (s1, page)
  }

  /** extstore_write_request up to the unlock of the engine, by writer w. */
  ghost function WriteBegin(s: State, w: nat, b: nat, freeBucket: nat): State
    requires Valid(s) && w < |s.writers| && s.writers[w] == Idle && b < s.cfg.bucketCount
             && freeBucket < s.cfg.bucketCount
  {
    if s.buckets[b] != [] then
      s.(writers := s.writers[w := HasPage(b, freeBucket, s.buckets[b][0])])
    else
      FreeInRangeOf(s);
      var (s1, page) := AllocatePage(s, b, freeBucket);
      if page.Some? then s1.(writers := s1.writers[w := HasPage(b, freeBucket, page.value)]) else s1
  }

  function Zeroed(buf: seq<Byte>, free: nat): (r: seq<Byte>)
    requires free <= |buf|
    ensures |r| == |buf|
  {
    buf[..|buf| - free] + seq(free, i => 0)
  }

  function Splice(buf: seq<Byte>, at: nat, data: seq<Byte>): (r: seq<Byte>)
    requires at + |data| <= |buf|
    ensures |r| == |buf|
  {
    buf[..at] + data + buf[at + |data|..]
  }

  /** _submit_wbuf, and marking the buffer full. */
  function SubmitWbuf(s: State, p: nat, t: nat): (r: State)
    requires p < |s.pages| && s.pages[p].wbuf.Some? && s.pages[p].wbuf.value < |s.wbufs| && t < |s.threads|
    requires s.ioStack != [] && s.ioStack[0] < |s.ios|
    requires s.wbufs[s.pages[p].wbuf.value].free <= |s.wbufs[s.pages[p].wbuf.value].buf|
    ensures r.written == s.written && r.pages == s.pages
  {
    var w, i := s.pages[p].wbuf.value, s.ioStack[0];
    var wb, th := s.wbufs[w], s.threads[t];
    s.(wbufs := s.wbufs[w := wb.(buf := Zeroed(wb.buf, wb.free), full := true)],
       ios := s.ios[i := ObjIo(p, w, wb.offset)],
       ioStack := s.ioStack[1..],
       threads := s.threads[t := th.(queue := th.queue + [WriteIo(i)], depth := th.depth + 1)])
  }

  /** _allocate_wbuf. */
  function AllocateWbuf(s: State, p: nat): (r: State)
    requires p < |s.pages| && (s.wbufStack != [] ==> s.wbufStack[0] < |s.wbufs|)
    ensures r.written == s.written && |r.pages| == |s.pages| && r.pages[p].active == s.pages[p].active
  {
    if s.wbufStack == [] then s
    else
      var w, pg := s.wbufStack[0], s.pages[p];
      var size := |s.wbufs[w].buf|;
      s.(wbufs := s.wbufs[w := s.wbufs[w].(free := size, offset := pg.allotted, full := false)],
         wbufStack := s.wbufStack[1..],
         pages := s.pages[p := pg.(allotted := pg.allotted + size, wbuf := Some(w))])
  }

  predicate HasRoom(s: State, p: nat, len: nat) {
    p < |s.pages| && s.pages[p].wbuf.Some? && s.pages[p].wbuf.value < |s.wbufs| &&
    var wb := s.wbufs[s.pages[p].wbuf.value];
    !wb.full && len <= wb.free <= |wb.buf|
  }

  function NextAddr(s: State, p: nat, len: nat): Addr
    requires HasRoom(s, p, len)
  {
    var wb := s.wbufs[s.pages[p].wbuf.value];
    Addr(p, s.pages[p].version, wb.offset + (|wb.buf| - wb.free), len)
  }

  /** The caller's copy into the buffer, and extstore_write. */
  function StoreObject(s: State, p: nat, data: seq<Byte>): (r: State)
    requires HasRoom(s, p, |data|)
    ensures r.written == s.written[NextAddr(s, p, |data|) := data]
  {
    var w, pg := s.pages[p].wbuf.value, s.pages[p];
    var wb := s.wbufs[w];
    s.(wbufs := s.wbufs[w := wb.(buf := Splice(wb.buf, |wb.buf| - wb.free, data), free := wb.free - |data|)],
       pages := s.pages[p := pg.(bytesUsed := pg.bytesUsed + |data|, objCount := pg.objCount + 1)],
       written := s.written[NextAddr(s, p, |data|) := data])
  }

  /** FlushDone frees the page's slot: the callback _wbuf_cb. */
  function FlushDone(s: State, t: nat): State
    requires t < |s.threads| && s.threads[t].batch != [] && s.threads[t].batch[0].WriteIo?
    requires s.threads[t].batch[0].io < |s.ios|
    requires var io := s.ios[s.threads[t].batch[0].io]; io.page < |s.pages| && io.wbuf < |s.wbufs|
  {
    var th := s.threads[t];
    var i := th.batch[0].io;
    var p, w := s.ios[i].page, s.ios[i].wbuf;
    var pg := s.pages[p];
    var written := pg.written + |s.wbufs[w].buf|;
    s.(pages := s.pages[p := pg.(written := written, wbuf := None,
                                 active := pg.active && written != s.cfg.pageSize)],
       wbufStack := [w] + s.wbufStack,
       ioStack := [i] + s.ioStack,
       threads := s.threads[t := th.(batch := th.batch[1..], phase := Ready)])
  }

  function RemoveFirst(l: seq<nat>, p: nat): seq<nat> {
    if l == [] then [] else if l[0] == p then l[1..] else [l[0]] + RemoveFirst(l[1..], p)
  }

  /** _free_page. */
  function FreePage(s: State, p: nat): State
    requires p < |s.pages| && s.pages[p].bucket < |s.buckets| && s.pages[p].freeBucket < |s.freeBuckets|
  {
    var pg := s.pages[p];
    var s1 := s.(buckets := s.buckets[pg.bucket := RemoveFirst(s.buckets[pg.bucket], p)],
                 pages := s.pages[p := pg.(version := 0, objCount := 0, bytesUsed := 0, allotted := 0, written := 0,
                                           bucket := 0, active := false, closed := false, free := true)],
                 pageFree := s.pageFree + 1);
    if pg.freeBucket != 0 then
      s1.(freeBuckets := s.freeBuckets[pg.freeBucket := [p] + s.freeBuckets[pg.freeBucket]])
    else
      s1.(freelist := [p] + s.freelist)
  }

  /** The page takes no more objects. */
  predicate TakesNoMore(s: State, p: nat)
    requires p < |s.pages| && (s.pages[p].wbuf.Some? ==> s.pages[p].wbuf.value < |s.wbufs|)
  {
    var pg := s.pages[p];
    !pg.active || ((pg.wbuf.None? || s.wbufs[pg.wbuf.value].full) && pg.allotted >= s.cfg.pageSize)
  }

  /** Flush a buffer the object does not fit in, get a buffer if there is none, and
      store the object if it now fits.  Thread `t` takes the flush, if there is one. */
  ghost function AttemptOnPage(s: State, p: nat, data: seq<Byte>, t: nat): State
    requires Valid(s) && p < |s.pages| && t < |s.threads|
    requires s.pages[p].wbuf.Some? ==> s.pages[p].wbuf.value < |s.wbufs|
  {
    var pg := s.pages[p];
    var s1 := if pg.wbuf.Some? && s.wbufs[pg.wbuf.value].free < |data| && !s.wbufs[pg.wbuf.value].full
              then IoAvailable(s, p); SubmitWbuf(s, p, t) else s;
    var s2 := if pg.wbuf.None? && pg.allotted < s.cfg.pageSize
              then WbufInRange(s); AllocateWbuf(s1, p) else s1;
    if HasRoom(s2, p, |data|) then StoreObject(s2, p, data) else s2
  }

  /** extstore_write_request with the page locked, up to and including extstore_write. */
  ghost function WriteAttempt(s: State, w: nat, data: seq<Byte>, t: nat): State
    requires Valid(s) && w < |s.writers| && s.writers[w].HasPage? && t < |s.threads|
  {
    var p := s.writers[w].page;
    if TakesNoMore(s, p) then
      s.(writers := s.writers[w := MustAllocate(s.writers[w].bucket, s.writers[w].freeBucket)])
    else
      var s1 := AttemptOnPage(s, p, data, t);
      s1.(writers := s.writers[w := Idle])
  }

  /** extstore_write_request after it found its page full.  Another writer may have allocated a
      page since: then the assertion at the top of _allocate_page fails. */
  ghost function WriteAllocate(s: State, w: nat): State
    requires Valid(s) && w < |s.writers| && s.writers[w].MustAllocate?
  {
    FreeInRangeOf(s);
    var b := s.writers[w].bucket;
    if !MayAllocate(s.cfg, s.pages, s.buckets[b]) then s.(stopped := true)
    else
      var s1 := AllocatePage(s, b, s.writers[w].freeBucket).0;
      s1.(writers := s1.writers[w := Idle])
  }

  /** _submit_wbuf never finds the IO stack empty: there are as many IO objects as
      write buffers, and one of the buffers is attached and not in flight. */
  lemma IoAvailable(s: State, p: nat)
    requires WbufsOk(s.cfg, s.pages, s.wbufs, s.wbufStack) && IoCounts(s.cfg, s.pages, s.wbufs, s.ioStack, s.threads)
    requires IosOk(s.cfg, s.pages, s.wbufs, s.ios, s.ioStack, s.threads)
    requires p < |s.pages| && s.pages[p].wbuf.Some? && !InFlight(s.pages[p], s.wbufs)
    ensures s.ioStack != [] && s.ioStack[0] < |s.ios|
  {
    CountStrict(InFlights(s.pages, s.wbufs), Attached(s.pages), p);
    assert |s.ioStack| > 0;
    assert s.ioStack[0] in s.ioStack;
  }

  lemma WbufInRange(s: State)
    requires WbufsOk(s.cfg, s.pages, s.wbufs, s.wbufStack)
    ensures s.wbufStack != [] ==> s.wbufStack[0] < |s.wbufs|
  {
    if s.wbufStack != [] { assert s.wbufStack[0] in s.wbufStack; }
  }

  /** extstore_submit for reads. */
  function SubmitReads(s: State, t: nat, addrs: seq<Addr>): State
    requires t < |s.threads|
  {
    var th := s.threads[t];
    var asked := seq(|addrs|, i requires 0 <= i < |addrs| => ReadIo(addrs[i]));
    s.(threads := s.threads[t := th.(queue := th.queue + asked, depth := th.depth + |addrs|)])
  }

  /** How many IOs a thread takes from its queue at a time. */
  function BatchSize(ioDepth: nat, queued: nat): nat {
    if ioDepth <= 1 then (if queued == 0 then 0 else 1) else if queued < ioDepth then queued else ioDepth
  }

  function TakeBatch(s: State, t: nat): State
    requires t < |s.threads|
  {
    var th := s.threads[t];
    var n := BatchSize(s.cfg.ioDepth, |th.queue|);
    s.(threads := s.threads[t := th.(batch := th.queue[..n], queue := th.queue[n..], depth := th.depth - n)])
  }

  predicate AtRead(s: State, t: nat, phase: Phase) {
    t < |s.threads| && s.threads[t].phase == phase && s.threads[t].batch != [] && s.threads[t].batch[0].ReadIo? &&
    s.threads[t].batch[0].addr.page < |s.pages|
  }

  predicate AtWrite(s: State, t: nat, phase: Phase) {
    t < |s.threads| && s.threads[t].phase == phase && s.threads[t].batch != [] && s.threads[t].batch[0].WriteIo? &&
    s.threads[t].batch[0].io < |s.ios| &&
    var io := s.ios[s.threads[t].batch[0].io];
    io.page < |s.pages| && io.wbuf < |s.wbufs|
  }

  function Finished(th: IoThread): IoThread
    requires th.batch != []
  {
    th.(batch := th.batch[1..], phase := Ready)
  }

  /** The check a read has to pass with the page locked. */
  predicate Current(pg: Page, a: Addr) {
    !pg.free && !pg.closed && pg.version == a.version
  }

  predicate InBuffer(pg: Page, a: Addr) {
    pg.active && a.offset >= pg.written
  }

  /** What _read_from_wbuf asserts, and that the copy stays within the buffer. */
  predicate BufferServes(pg: Page, wbufs: seq<Wbuf>, a: Addr) {
    && pg.wbuf.Some? && pg.wbuf.value < |wbufs|
    && var w := wbufs[pg.wbuf.value];
    w.offset <= a.offset < w.offset + |w.buf| && a.offset - w.offset + a.len <= |w.buf|
  }

  /** extstore_io_thread, a read with the page locked: refused, served from the
      write buffer, or the page pinned for a read from disk. */
  function ReadBegin(s: State, t: nat): State
    requires AtRead(s, t, Ready)
  {
    var th := s.threads[t];
    var a := th.batch[0].addr;
    var pg := s.pages[a.page];
    if Current(pg, a) && InBuffer(pg, a) && !BufferServes(pg, s.wbufs, a) then
      s.(stopped := true)
    else if !Current(pg, a) || InBuffer(pg, a) then
      s.(threads := s.threads[t := Finished(th)])
    else
      s.(pages := s.pages[a.page := pg.(refcount := pg.refcount + 1)],
         threads := s.threads[t := th.(phase := Reading)])
  }

  function PreadDone(s: State, t: nat): State
    requires AtRead(s, t, Reading)
  {
    s.(threads := s.threads[t := s.threads[t].(phase := Draining)])
  }

  function ReadEnd(s: State, t: nat): State
    requires AtRead(s, t, Draining)
  {
    var th := s.threads[t];
    var a := th.batch[0].addr;
    var pg := s.pages[a.page];
    s.(pages := s.pages[a.page := pg.(refcount := if pg.refcount > 0 then pg.refcount - 1 else 0)],
       threads := s.threads[t := Finished(th)])
  }

  /** The pwrite of a buffer, without a lock. */
  function Pwrite(s: State, t: nat): State
    requires AtWrite(s, t, Ready)
  {
    var th := s.threads[t];
    var io := s.ios[th.batch[0].io];
    var buf := s.wbufs[io.wbuf].buf;
    var disk := if io.page < |s.disk| && io.offset + |buf| <= |s.disk[io.page]|
                then s.disk[io.page := Splice(s.disk[io.page], io.offset, buf)] else s.disk;
    s.(disk := disk, threads := s.threads[t := th.(phase := Flushing)])
  }

  function Less(n: nat, k: nat): nat { if n >= k then n - k else 0 }

  /** extstore_delete. */
  function Delete(s: State, p: nat, version: nat, count: nat, bytes: nat): State
    requires p < |s.pages|
  {
    var pg := s.pages[p];
    if !pg.closed && pg.version == version then
      s.(pages := s.pages[p := pg.(bytesUsed := Less(pg.bytesUsed, bytes), objCount := Less(pg.objCount, count))])
    else s
  }

  /** extstore_close_page. */
  function Close(s: State, p: nat, version: nat): State
    requires p < |s.pages|
  {
    var pg := s.pages[p];
    if !pg.closed && pg.version == version then s.(pages := s.pages[p := pg.(closed := true)]) else s
  }

  /** extstore_maint_thread: the decision to evict. */
  function MaintStart(s: State): State {
    s.(maint := Scanning(0, s.pageFree == 0 || s.freelist == [], None, 0))
  }

  predicate Reclaimable(pg: Page) {
    !pg.active && !pg.free && (pg.objCount == 0 || pg.closed) && pg.refcount == 0
  }

  /** One page of the scan. */
  ghost function MaintPage(s: State): State
    requires Valid(s) && s.maint.Scanning? && s.maint.next < |s.pages|
  {
    var p, m := s.maint.next, s.maint;
    var pg := s.pages[p];
    if pg.active || pg.free then
      s.(maint := m.(next := p + 1))
    else
      var lower := pg.objCount > 0 && !pg.closed && pg.freeBucket == 0 && (m.low.None? || pg.version < m.lowVersion);
      var m1 := if lower then m.(next := p + 1, low := Some(p), lowVersion := pg.version) else m.(next := p + 1);
      if Reclaimable(pg) then FreePage(s, p).(maint := m1.(evict := false)) else s.(maint := m1)
  }

  /** The eviction at the end of the scan. */
  ghost function MaintEvict(s: State): State
    requires Valid(s) && s.maint.Scanning? && s.maint.next == |s.pages|
  {
    if s.maint.evict && s.maint.low.Some? && !s.pages[s.maint.low.value].closed then
      var p := s.maint.low.value;
      var s1 := s.(pages := s.pages[p := s.pages[p].(closed := true)], maint := Waiting);
      if s1.pages[p].refcount == 0 then FreePage(s1, p) else s1
    else
      s.(maint := Waiting)
  }
}
