/** extstore.c: what every read is answered with, in every run.  A read may ask for any range of a
    page, as the compaction of storage.c does, which reads back whole buffers. */
module ExtstoreReads {
  import opened Basics
  import opened Counting
  import opened ExtstoreModel
  import opened ExtstoreBlocks
  import opened ExtstoreSteps
  import opened ExtstoreFlush
  import opened ExtstoreRuns
  import opened ExtstoreTheorems

  // ------------------------------------------------------------------------- the answer

  /** The bytes an event hands to the callback of a read, if it is the one that reads. */
  ghost function Answer(s: State, e: Event): Option<seq<Byte>>
    requires Valid(s) && Enabled(s, e)
  {
    if e.LockForRead? then
      var a := s.threads[e.thread].batch[0].addr;
      var pg := s.pages[a.page];
      if Current(pg, a) && InBuffer(pg, a) && BufferServes(pg, s.wbufs, a) then
        var w := s.wbufs[pg.wbuf.value];
        Some(w.buf[a.offset - w.offset..a.offset - w.offset + a.len])
      else None
    else if e.DiskRead? then
      var a := s.threads[e.thread].batch[0].addr;
      RangeOnDisk(s, e.thread);
      Some(s.disk[a.page][a.offset..a.offset + a.len])
    else None
  }

  /** A pinned page has the version asked for, and the range is not one for the buffer. */
  lemma RangeOnDisk(s: State, t: nat)
    requires Valid(s) && AtRead(s, t, Reading)
    ensures var a := s.threads[t].batch[0].addr;
      && a.page < |s.disk| && a.offset + a.len <= |s.disk[a.page]| == s.cfg.pageSize
      && s.pages[a.page].version == a.version && !InBuffer(s.pages[a.page], a) && !s.pages[a.page].free
      && |s.disk| == |s.pages|
  {
    PinnedInUse(s, t);
    hide PagesOk, ListsOk, IosOk, WritesDistinct, IoCounts, WritersOk, MaintOk, BlocksOk, FlushesOk, WbufsOk, CountTrue,
         Holders, AddrOk;
    var th := s.threads[t];
    assert ThreadOk(s.cfg, |s.pages|, th);
    assert Pending(th)[0] == th.batch[0];
    assert HoldOk(s.pages, th);
  }

  lemma PinnedInUse(s: State, t: nat)
    requires Valid(s) && AtRead(s, t, Reading)
    ensures !s.pages[s.threads[t].batch[0].addr.page].free
  {
    hide PagesOk, ListsOk, IosOk, WritesDistinct, IoCounts, DataOk, WritersOk, MaintOk, BlocksOk, FlushesOk, WbufsOk,
         ThreadsOk, CountTrue;
    var p := s.threads[t].batch[0].addr.page;
    CountPositive(Holders(s.threads, p), t);
    FreePagesUnpinned(s, p);
  }

  /** Event e of state s answers the read of range r with the bytes d. */
  ghost predicate AnswersWith(s: State, e: Event, r: Addr, d: seq<Byte>) {
    && Valid(s) && Enabled(s, e) && (e.LockForRead? || e.DiskRead?)
    && s.threads[e.thread].batch[0].addr == r && Answer(s, e) == Some(d)
  }

  /** Object o lies inside range r. */
  predicate Covers(r: Addr, o: Addr) {
    o.page == r.page && o.version == r.version && r.offset <= o.offset && o.offset + o.len <= r.offset + r.len
  }

  /** The part of d, read from range r, where object o lies. */
  function PartOf(d: seq<Byte>, r: Addr, o: Addr): seq<Byte>
    requires Covers(r, o) && |d| == r.len
  {
    d[o.offset - r.offset..o.offset - r.offset + o.len]
  }

  lemma AnswerLength(s: State, e: Event, r: Addr, d: seq<Byte>)
    requires AnswersWith(s, e, r, d)
    ensures |d| == r.len && r.page < |s.pages| && s.pages[r.page].version == r.version
    ensures e.LockForRead? ==> InBuffer(s.pages[r.page], r)
    ensures e.DiskRead? ==> !InBuffer(s.pages[r.page], r)
  {
    hide Valid;
    if e.DiskRead? { RangeOnDisk(s, e.thread); }
  }

  /** An object outside the buffer of its page is on disk. */
  lemma OnDisk(s: State, o: Addr)
    requires Valid(s) && o in s.written && o.page < |s.pages| && s.pages[o.page].version == o.version
             && !InBuffer(s.pages[o.page], o)
    ensures o.offset < s.pages[o.page].written && o.page < |s.disk| && o.offset + o.len <= |s.disk[o.page]|
    ensures s.disk[o.page][o.offset..o.offset + o.len] == s.written[o]
  {
    hide ListsOk, WbufsOk, IosOk, WritesDistinct, IoCounts, WritersOk, MaintOk, BlocksOk, ReadersOk, FlushesOk,
         ThreadsOk;
    assert AddrOk(s.pages, s.disk, s.wbufs, s.version, o, s.written[o]);
    assert PageOk(s.cfg, s.pages[o.page]);
  }

  /** An object behind the written part of its page is in the buffer. */
  lemma StillInBuffer(s: State, o: Addr)
    requires Valid(s) && o in s.written && o.page < |s.pages| && s.pages[o.page].version == o.version
             && InBuffer(s.pages[o.page], o)
    ensures var pg := s.pages[o.page];
            && pg.wbuf.Some? && pg.wbuf.value < |s.wbufs|
            && var w := s.wbufs[pg.wbuf.value];
            && w.offset <= o.offset && o.offset - w.offset + o.len <= |w.buf|
            && w.buf[o.offset - w.offset..o.offset - w.offset + o.len] == s.written[o]
  {
    hide PagesOk, ListsOk, WbufsOk, IosOk, WritesDistinct, IoCounts, WritersOk, MaintOk, BlocksOk, ReadersOk, FlushesOk,
         ThreadsOk;
    assert AddrOk(s.pages, s.disk, s.wbufs, s.version, o, s.written[o]);
  }

  /** A read from disk agrees with the objects inside it that have been flushed, a read from the
      buffer with all. */
  lemma AnswerAgrees(s: State, e: Event, r: Addr, d: seq<Byte>, o: Addr)
    requires AnswersWith(s, e, r, d) && o in s.written && Covers(r, o)
    requires o.page < |s.pages| && (e.DiskRead? ==> !InBuffer(s.pages[o.page], o))
    ensures |d| == r.len && PartOf(d, r, o) == s.written[o]
  {
    hide Valid;
    AnswerLength(s, e, r, d);
    if e.DiskRead? {
      RangeOnDisk(s, e.thread);
      OnDisk(s, o);
      PartOfPart(s.disk[o.page], r.offset, r, o);
    } else {
      StillInBuffer(s, o);
      var w := s.wbufs[s.pages[o.page].wbuf.value];
      PartOfPart(w.buf, r.offset - w.offset, r, o);
    }
  }

  lemma PartOfPart(bytes: seq<Byte>, from: nat, r: Addr, o: Addr)
    requires Covers(r, o) && from + r.len <= |bytes|
    ensures PartOf(bytes[from..from + r.len], r, o)
            == bytes[from + o.offset - r.offset..from + o.offset - r.offset + o.len]
  {
    SliceOfSlice(bytes, from, from + r.len, o.offset - r.offset, o.offset - r.offset + o.len);
  }

  // ------------------------------------------------------------------ reads in whole runs

  /** The range lies in one block of a page, the size of a write buffer. */
  ghost predicate InOneBlock(c: Config, r: Addr) {
    exists k: nat :: Multiple(k, c.wbufSize) && k <= r.offset && r.offset + r.len <= k + c.wbufSize
  }

  /** What is written of a page is whole blocks, so no block is partly in the buffer. */
  lemma BlockOnOneSide(s: State, r: Addr, o: Addr)
    requires Valid(s) && r.page < |s.pages| && InOneBlock(s.cfg, r) && Covers(r, o) && o.len > 0
    ensures InBuffer(s.pages[r.page], o) ==> InBuffer(s.pages[r.page], r)
  {
    var k: nat :| Multiple(k, s.cfg.wbufSize) && k <= r.offset && r.offset + r.len <= k + s.cfg.wbufSize;
    assert PageOk(s.cfg, s.pages[r.page]);
    if k < s.pages[r.page].written { RoomForOne(k, s.pages[r.page].written, s.cfg.wbufSize); }
  }

  /** In every run, whatever interleaving of writes, flushes, reads, deletes, closes, evictions and
      page reuse: a read that is answered returns, for every object stored earlier inside its range
      under its version, exactly the bytes that were stored, if it asks for that object or for a
      range in one block. */
  lemma ReadsReturnWhatWasWritten(run: seq<State>, events: seq<Event>, i: nat, j: nat, r: Addr, d: seq<Byte>, o: Addr)
    requires IsRun(run, events) && i <= j < |events| && o in run[i].written
    requires AnswersWith(run[j], events[j], r, d) && Covers(r, o) && (r == o || InOneBlock(run[j].cfg, r))
    ensures |d| == r.len && PartOf(d, r, o) == run[i].written[o]
  {
    RunKeepsWritten(run, events, i, j, o);
    AnswerLength(run[j], events[j], r, d);
    StoredIsLong(run[j], o);
    if r != o { BlockOnOneSide(run[j], r, o); }
    AnswerAgrees(run[j], events[j], r, d, o);
  }

  lemma StoredIsLong(s: State, o: Addr)
    requires Valid(s) && o in s.written
    ensures |s.written[o]| == o.len > 0 && o.page < |s.pages|
  {
    hide PagesOk, ListsOk, WbufsOk, IosOk, WritesDistinct, IoCounts, WritersOk, MaintOk, BlocksOk, ReadersOk, FlushesOk,
         ThreadsOk;
    assert AddrOk(s.pages, s.disk, s.wbufs, s.version, o, s.written[o]);
  }

  // --------------------------------------------------------- ranges across the written part

  /** No thread is between the pwrite of a buffer of page p and its callback. */
  predicate NotFlushing(s: State, p: nat) {
    forall t :: 0 <= t < |s.threads| && AtWrite(s, t, Flushing) ==> s.ios[s.threads[t].batch[0].io].page != p
  }

  /** The disk behind the written part of a page may hold anything. */
  lemma DiskBehindIsFree(s: State, p: nat, d: seq<Byte>)
    requires Valid(s) && p < |s.pages| && |s.disk| == |s.pages| && |d| == |s.disk[p]|
    requires s.pages[p].written <= |d| && d[..s.pages[p].written] == s.disk[p][..s.pages[p].written]
             && NotFlushing(s, p)
    ensures Valid(s.(disk := s.disk[p := d]))
  {
    hide ListsOk, WbufsOk, WritesDistinct, IoCounts, WritersOk, MaintOk, ReadersOk, Tiled, BlockTiled;
    var disk := s.disk[p := d];
    forall a | a in s.written ensures AddrOk(s.pages, disk, s.wbufs, s.version, a, s.written[a]) {
      assert AddrOk(s.pages, s.disk, s.wbufs, s.version, a, s.written[a]);
      if a.page == p && s.pages[p].version == a.version && a.offset < s.pages[p].written {
        DiskPrefix(s.disk[p], d, s.pages[p].written, a.offset, a.len);
      }
    }
    forall q | 0 <= q < |s.pages| ensures PageTiled(s.cfg, s.pages[q], q, disk[q], s.wbufs, s.written) {
      assert PageTiled(s.cfg, s.pages[q], q, s.disk[q], s.wbufs, s.written);
      assert PageOk(s.cfg, s.pages[q]);
      if q == p && !s.pages[q].free {
        assert forall j :: 0 <= j < s.pages[p].written ==> d[j] == d[..s.pages[p].written][j];
        PageMore(s.cfg, s.pages[p], s.pages[p], p, s.disk[p], d, s.wbufs, s.wbufs, s.written, s.written);
      }
    }
    FlushesElsewhere(s, p, d);
  }

  lemma FlushesElsewhere(s: State, p: nat, d: seq<Byte>)
    requires Valid(s) && p < |s.pages| && |s.disk| == |s.pages| && NotFlushing(s, p)
    ensures FlushesOk(s.disk[p := d], s.wbufs, s.ios, s.threads)
  {
    hide PagesOk, ListsOk, WbufsOk, WritesDistinct, IoCounts, DataOk, WritersOk, MaintOk, BlocksOk, ReadersOk;
    forall t | 0 <= t < |s.threads| ensures FlushedOk(s.disk[p := d], s.wbufs, s.ios, s.threads[t]) {
      assert FlushedOk(s.disk, s.wbufs, s.ios, s.threads[t]);
      var th := s.threads[t];
      if th.phase == Flushing {
        assert ThreadOk(s.cfg, |s.pages|, th);
        assert Pending(th)[0] == th.batch[0] && WriteAt(s.threads, t, 0);
      }
    }
  }

  /** The condition is needed: when a read from disk reaches from the written part of its page over
      an object in the buffer, there is a state, the same but for the disk, in which it is
      answered with other bytes than the object's. */
  lemma ReadsAcrossMayBeStale(s: State, t: nat, o: Addr) returns (s': State)
    requires Valid(s) && !s.stopped && AtRead(s, t, Reading) && NotFlushing(s, s.threads[t].batch[0].addr.page)
    requires o in s.written && Covers(s.threads[t].batch[0].addr, o)
             && InBuffer(s.pages[s.threads[t].batch[0].addr.page], o)
    ensures Valid(s') && s' == s.(disk := s'.disk) && AtRead(s', t, Reading)
    ensures var d := Answer(s', DiskRead(t));
            d.Some? && |d.value| == s.threads[t].batch[0].addr.len
              && PartOf(d.value, s.threads[t].batch[0].addr, o) != s.written[o]
  {
    hide Valid;
    var r := s.threads[t].batch[0].addr;
    var p := r.page;
    RangeOnDisk(s, t);
    StoredIsLong(s, o);
    var x := if s.written[o][0] == 0 then 1 else 0;
    var d := s.disk[p][o.offset := x];
    assert d[..s.pages[p].written] == s.disk[p][..s.pages[p].written];
    DiskBehindIsFree(s, p, d);
    s' := s.(disk := s.disk[p := d]);
    var got := d[r.offset..r.offset + r.len];
    assert Answer(s', DiskRead(t)) == Some(got);
    assert PartOf(got, r, o)[0] == x;
  }

  /** Between the pwrite of a buffer and its callback the disk already has what is in the buffer. */
  lemma FlushingIsOnDisk(s: State, t: nat, o: Addr)
    requires Valid(s) && AtWrite(s, t, Flushing) && o in s.written && s.ios[s.threads[t].batch[0].io].page == o.page
    requires s.pages[o.page].version == o.version && InBuffer(s.pages[o.page], o)
    ensures o.page < |s.disk| && o.offset + o.len <= |s.disk[o.page]|
    ensures s.disk[o.page][o.offset..o.offset + o.len] == s.written[o]
  {
    hide PagesOk, ListsOk, WbufsOk, IosOk, WritesDistinct, IoCounts, DataOk, WritersOk, MaintOk, BlocksOk, ReadersOk,
         ThreadsOk;
    CurrentWrite(s, t);
    StillInBuffer(s, o);
    assert FlushedOk(s.disk, s.wbufs, s.ios, s.threads[t]);
    var w := s.wbufs[s.pages[o.page].wbuf.value];
    var from := o.offset - w.offset;
    SliceOfSlice(s.disk[o.page], w.offset, w.offset + |w.buf|, from, from + o.len);
  }

  /** A read from disk, if thread t is at one, is answered with what was stored as object o. */
  ghost predicate DiskAgrees(s: State, t: nat, o: Addr) {
    Valid(s) && !s.stopped && AtRead(s, t, Reading) && o in s.written && Covers(s.threads[t].batch[0].addr, o) ==>
      var r, d := s.threads[t].batch[0].addr, Answer(s, DiskRead(t));
      d.Some? && |d.value| == r.len && PartOf(d.value, r, o) == s.written[o]
  }

  /** Whatever the disk holds that the engine has not put there. */
  ghost predicate AlwaysAgrees(s: State, t: nat, o: Addr) {
    forall s' :: Valid(s') && s' == s.(disk := s'.disk) ==> DiskAgrees(s', t, o)
  }

  lemma DiskAnswer(s: State, t: nat)
    requires Valid(s) && !s.stopped && AtRead(s, t, Reading)
    ensures var r := s.threads[t].batch[0].addr;
            && r.page < |s.disk| && r.offset + r.len <= |s.disk[r.page]|
            && Answer(s, DiskRead(t)) == Some(s.disk[r.page][r.offset..r.offset + r.len])
  {
    hide Valid;
    RangeOnDisk(s, t);
  }

  lemma SliceAgrees(s: State, t: nat, o: Addr)
    requires Valid(s) && o.page < |s.disk| && o.offset + o.len <= |s.disk[o.page]|
    requires o in s.written && s.disk[o.page][o.offset..o.offset + o.len] == s.written[o]
    ensures DiskAgrees(s, t, o)
  {
    hide Valid, Answer, PartOf;
    if !s.stopped && AtRead(s, t, Reading) && Covers(s.threads[t].batch[0].addr, o) {
      DiskAnswer(s, t);
      var r := s.threads[t].batch[0].addr;
      PartOfPart(s.disk[r.page], r.offset, r, o);
    }
  }

  /** A read from disk agrees with an object inside its range, whatever else is on the disk, if and
      only if the object is not in the buffer of its page, or the buffer has just been written out. */
  lemma DiskAgreesExactly(s: State, t: nat, o: Addr)
    requires Valid(s) && !s.stopped && AtRead(s, t, Reading) && o in s.written && Covers(s.threads[t].batch[0].addr, o)
    ensures o.page < |s.pages|
    ensures AlwaysAgrees(s, t, o) <==> !InBuffer(s.pages[o.page], o) || !NotFlushing(s, o.page)
  {
    hide Valid, DiskAgrees;
    StoredIsLong(s, o);
    RangeOnDisk(s, t);
    if !InBuffer(s.pages[o.page], o) || !NotFlushing(s, o.page) {
      forall s' | Valid(s') && s' == s.(disk := s'.disk) ensures DiskAgrees(s', t, o) {
        if InBuffer(s.pages[o.page], o) {
          var u :| 0 <= u < |s.threads| && AtWrite(s, u, Flushing) && s.ios[s.threads[u].batch[0].io].page == o.page;
          FlushingIsOnDisk(s', u, o);
        } else {
          OnDisk(s', o);
        }
        SliceAgrees(s', t, o);
      }
    } else {
      var s' := ReadsAcrossMayBeStale(s, t, o);
      Disagrees(s', t, o);
    }
  }

  lemma Disagrees(s: State, t: nat, o: Addr)
    requires Valid(s) && !s.stopped && AtRead(s, t, Reading) && o in s.written && Covers(s.threads[t].batch[0].addr, o)
    requires var r, d := s.threads[t].batch[0].addr, Answer(s, DiskRead(t));
             d.Some? && |d.value| == r.len && PartOf(d.value, r, o) != s.written[o]
    ensures !DiskAgrees(s, t, o)
  {
    hide Valid;
  }

  // ---------------------------------------------------------------------- whole buffers

  /** d holds objects of the page and version one after the other from an offset on, then zeros. */
  ghost predicate ObjectsThenZeros(written: map<Addr, seq<Byte>>, p: nat, v: nat, offset: nat, d: seq<Byte>)
    decreases |d|
  {
    || ZeroBetween(d, 0, |d|)
    || exists len: nat ::
         && 0 < len <= |d| && Addr(p, v, offset, len) in written && written[Addr(p, v, offset, len)] == d[..len]
         && ObjectsThenZeros(written, p, v, offset + len, d[len..])
  }

  lemma {:induction false} TilesRead(s: State, e: Event, r: Addr, d: seq<Byte>, from: nat, end: nat)
    requires AnswersWith(s, e, r, d) && |d| == r.len && r.offset <= from <= end <= r.offset + r.len
    requires Tiled(s.written, r.page, r.version, from, end) && ZeroBetween(d, end - r.offset, r.len)
    requires e.DiskRead? ==> r.page < |s.pages| && r.offset + r.len <= s.pages[r.page].written
    ensures ObjectsThenZeros(s.written, r.page, r.version, from, d[from - r.offset..])
    decreases end - from
  {
    hide AnswersWith;
    if from != end {
      var len: nat :| 0 < len <= end - from && Addr(r.page, r.version, from, len) in s.written
        && Tiled(s.written, r.page, r.version, from + len, end);
      TilesRead(s, e, r, d, from + len, end);
      var o := Addr(r.page, r.version, from, len);
      assert Covers(r, o);
      PageKnown(s, e, r, d);
      AnswerAgrees(s, e, r, d, o);
      SuffixCut(d, from - r.offset, len);
    }
  }

  lemma SuffixCut(d: seq<Byte>, a: nat, n: nat)
    requires a + n <= |d|
    ensures d[a..][..n] == d[a..a + n] && d[a..][n..] == d[a + n..]
  {
    var x, y := d[a..][n..], d[a + n..];
    forall k | 0 <= k < |y| ensures x[k] == y[k] { assert x[k] == d[a + n + k]; }
  }

  lemma NotFromDisk(s: State, e: Event, r: Addr, d: seq<Byte>)
    requires AnswersWith(s, e, r, d)
    ensures e.DiskRead? || e.LockForRead?
  {
  }

  lemma PageKnown(s: State, e: Event, r: Addr, d: seq<Byte>)
    requires AnswersWith(s, e, r, d)
    ensures r.page < |s.pages|
  {
    AnswerLength(s, e, r, d);
  }

  /** Reading back a whole buffer, from disk or while it is on its way there, gives the objects
      that were stored in it, one after the other, and then zeros. */
  lemma WholeBufferRead(s: State, e: Event, r: Addr, d: seq<Byte>)
    requires AnswersWith(s, e, r, d) && Multiple(r.offset, s.cfg.wbufSize) && r.len == s.cfg.wbufSize
    requires e.DiskRead? || (r.page < |s.pages| && InFlight(s.pages[r.page], s.wbufs))
    ensures ObjectsThenZeros(s.written, r.page, r.version, r.offset, d)
  {
    hide Valid, Tiled, ObjectsThenZeros, AnswersWith;
    PageKnown(s, e, r, d);
    var pg := s.pages[r.page];
    assert d[0..] == d;
    if e.DiskRead? {
      FlushedBlockRead(s, e, r, d);
    } else {
      NotFromDisk(s, e, r, d);
      BufferRead(s, e, r, d);
      var w := s.wbufs[pg.wbuf.value];
      TilesRead(s, e, r, d, r.offset, w.offset + |w.buf| - w.free);
    }
  }

  lemma FlushedBlockRead(s: State, e: Event, r: Addr, d: seq<Byte>)
    requires AnswersWith(s, e, r, d) && Multiple(r.offset, s.cfg.wbufSize) && r.len == s.cfg.wbufSize && e.DiskRead?
    ensures |d| == r.len && d[0..] == d && ObjectsThenZeros(s.written, r.page, r.version, r.offset, d)
  {
    hide Valid, BlockTiled, Tiled, ObjectsThenZeros;
    AnswerLength(s, e, r, d);
    RangeOnDisk(s, e.thread);
    BlockIsWritten(s, r);
    var end := BlockEnd(s.cfg, s.disk[r.page], r.page, r.version, r.offset, s.written);
    assert d == s.disk[r.page][r.offset..r.offset + r.len];
    assert ZeroBetween(d, end - r.offset, r.len) by {
      forall j | end - r.offset <= j < r.len && j < |d| ensures d[j] == 0 {
        assert d[j] == s.disk[r.page][r.offset + j];
      }
    }
    TilesRead(s, e, r, d, r.offset, end);
    assert d[0..] == d;
  }

  lemma BlockIsWritten(s: State, r: Addr)
    requires Valid(s) && r.page < |s.pages| && s.pages[r.page].version == r.version && !InBuffer(s.pages[r.page], r)
    requires Multiple(r.offset, s.cfg.wbufSize) && r.len == s.cfg.wbufSize && r.offset + r.len <= s.cfg.pageSize
    requires !s.pages[r.page].free
    ensures r.page < |s.disk| && r.offset + r.len <= s.pages[r.page].written
    ensures BlockTiled(s.cfg, s.disk[r.page], r.page, r.version, r.offset, s.written)
  {
    hide ListsOk, WbufsOk, IosOk, WritesDistinct, IoCounts, DataOk, WritersOk, MaintOk, ReadersOk, FlushesOk, ThreadsOk,
         Tiled, BlockTiled;
    assert PageOk(s.cfg, s.pages[r.page]);
    assert PageTiled(s.cfg, s.pages[r.page], r.page, s.disk[r.page], s.wbufs, s.written);
    if r.offset < s.pages[r.page].written { RoomForOne(r.offset, s.pages[r.page].written, s.cfg.wbufSize); }
  }

  lemma BlockEnd(c: Config, d: seq<Byte>, p: nat, v: nat, k: nat, written: map<Addr, seq<Byte>>) returns (end: nat)
    requires BlockTiled(c, d, p, v, k, written)
    ensures k <= end <= k + c.wbufSize && Tiled(written, p, v, k, end) && ZeroBetween(d, end, k + c.wbufSize)
  {
    end :| k <= end <= k + c.wbufSize && Tiled(written, p, v, k, end) && ZeroBetween(d, end, k + c.wbufSize);
  }

  lemma BufferRead(s: State, e: Event, r: Addr, d: seq<Byte>)
    requires AnswersWith(s, e, r, d) && r.len == s.cfg.wbufSize && e.LockForRead?
    requires r.page < |s.pages| && InFlight(s.pages[r.page], s.wbufs)
    ensures |d| == r.len
    ensures var w := s.wbufs[s.pages[r.page].wbuf.value];
            && w.offset == r.offset && w.free <= |w.buf| == r.len && d == w.buf
            && Tiled(s.written, r.page, r.version, r.offset, w.offset + |w.buf| - w.free)
            && ZeroBetween(d, w.offset + |w.buf| - w.free - r.offset, r.len)
  {
    hide ListsOk, IosOk, WritesDistinct, IoCounts, DataOk, WritersOk, MaintOk, ReadersOk, FlushesOk, ThreadsOk, Tiled,
         BlockTiled, Attached;
    assert PageOk(s.cfg, s.pages[r.page]);
    assert PageTiled(s.cfg, s.pages[r.page], r.page, s.disk[r.page], s.wbufs, s.written);
  }

  // --------------------------------------------------------------- reads that stop the process

  /** A read trips the assertions of _read_from_wbuf, or runs past the buffer, exactly if it asks
      an open page for more than has been allotted to buffers. */
  lemma ReadStopsExactly(s: State, t: nat)
    requires Valid(s) && !s.stopped && AtRead(s, t, Ready)
    ensures var a := s.threads[t].batch[0].addr; var pg := s.pages[a.page];
            ReadBegin(s, t).stopped <==>
              Current(pg, a) && InBuffer(pg, a) && !(a.offset < pg.allotted && a.offset + a.len <= pg.allotted)
  {
    hide ListsOk, IosOk, WritesDistinct, IoCounts, DataOk, WritersOk, MaintOk, BlocksOk, ReadersOk, FlushesOk,
         ThreadsOk, Attached;
    assert PageOk(s.cfg, s.pages[s.threads[t].batch[0].addr.page]);
  }

  /** So the read of a stored object never does. */
  lemma ObjectReadsDoNotStop(s: State, t: nat)
    requires Valid(s) && !s.stopped && AtRead(s, t, Ready) && s.threads[t].batch[0].addr in s.written
    ensures !ReadBegin(s, t).stopped
  {
    hide PagesOk, ListsOk, IosOk, WritesDistinct, IoCounts, WritersOk, MaintOk, BlocksOk, ReadersOk, FlushesOk,
         ThreadsOk, WbufsOk;
    var a := s.threads[t].batch[0].addr;
    assert AddrOk(s.pages, s.disk, s.wbufs, s.version, a, s.written[a]);
  }
}
