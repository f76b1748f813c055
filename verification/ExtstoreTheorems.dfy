/** extstore.c: what every run of the engine guarantees, from extstore_init on. */
module ExtstoreTheorems {
  import opened Basics
  import opened Counting
  import opened ExtstoreModel
  import opened ExtstoreLists
  import opened ExtstoreSteps
  import opened ExtstoreRuns

  // ------------------------------------------------------------------ the initial state

  /** extstore_init pushes the pages on their free lists from the last down to page 1. */
  function ListsFrom(homes: seq<nat>, bucketCount: nat, i: nat): (r: (seq<nat>, seq<seq<nat>>))
    requires i <= |homes| && forall p :: 0 <= p < |homes| ==> homes[p] < bucketCount
    ensures |r.1| == bucketCount
    decreases |homes| - i
  {
    if i == |homes| then ([], seq(bucketCount, b => []))
    else
      var (fl, fbs) := ListsFrom(homes, bucketCount, i + 1);
      if homes[i] == 0 then ([i] + fl, fbs) else (fl, fbs[homes[i] := [i] + fbs[homes[i]]])
  }

  function FreshPage(home: nat): Page {
    Page(0, 0, 0, 0, 0, home, false, false, true, None, 0, 0)
  }

  /** `homes` gives the free bucket of every page, `disk` and `bufs` what memory
      happens to hold, `threads` and `writers` the number of IO threads and of threads that
      write.  The buffers and IO objects are pushed on their stacks in turn. */
  function Init(cfg: Config, homes: seq<nat>, disk: seq<seq<Byte>>, bufs: seq<seq<Byte>>, threads: nat,
                writers: nat): State
    requires forall p :: 0 <= p < |homes| ==> homes[p] < cfg.bucketCount
  {
    var lists := if |homes| == 0 then ([], seq(cfg.bucketCount, b => [])) else ListsFrom(homes, cfg.bucketCount, 1);
    State(cfg, seq(|homes|, p requires 0 <= p < |homes| => FreshPage(homes[p])), disk,
          lists.0, lists.1, seq(cfg.bucketCount, b => []),
          if |homes| == 0 then 0 else |homes| - 1, 1,
          seq(|bufs|, w requires 0 <= w < |bufs| => Wbuf(bufs[w], |bufs[w]|, 0, false)),
          Countdown(cfg.wbufCount), seq(cfg.wbufCount, i => ObjIo(0, 0, 0)), Countdown(cfg.wbufCount),
          seq(threads, t => IoThread([], 0, [], Ready)), seq(writers, w => Idle), Waiting, false, map[])
  }

  function Countdown(n: nat): (r: seq<nat>)
    ensures |r| == n && NoDup(r) && forall i :: i in r ==> i < n
  {
    seq(n, i requires 0 <= i < n => n - 1 - i)
  }

  predicate InitOk(cfg: Config, homes: seq<nat>, disk: seq<seq<Byte>>, bufs: seq<seq<Byte>>) {
    && ConfigOk(cfg)
    && (forall p :: 0 <= p < |homes| ==> homes[p] < cfg.bucketCount)
    && |disk| == |homes| && (forall p :: 0 <= p < |disk| ==> |disk[p]| == cfg.pageSize)
    && |bufs| == cfg.wbufCount && (forall w :: 0 <= w < |bufs| ==> |bufs[w]| == cfg.wbufSize)
  }

  /** l has exactly the pages from i on whose home is b. */
  ghost predicate HasHomes(l: seq<nat>, homes: seq<nat>, i: nat, b: nat) {
    NoDup(l) && forall p :: p in l <==> i <= p < |homes| && homes[p] == b
  }

  lemma {:induction false} ListsFromOk(homes: seq<nat>, bucketCount: nat, i: nat)
    requires i <= |homes| && bucketCount >= 1 && forall p :: 0 <= p < |homes| ==> homes[p] < bucketCount
    ensures var (fl, fbs) := ListsFrom(homes, bucketCount, i);
      && HasHomes(fl, homes, i, 0) && fbs[0] == []
      && (forall b :: 1 <= b < bucketCount ==> HasHomes(fbs[b], homes, i, b))
      && |fl| + Sum(Lengths(fbs)) == |homes| - i
    decreases |homes| - i
  {
    if i == |homes| {
      SumNone(Lengths(ListsFrom(homes, bucketCount, i).1));
    } else {
      ListsFromOk(homes, bucketCount, i + 1);
      var (fl, fbs) := ListsFrom(homes, bucketCount, i + 1);
      if homes[i] == 0 {
        PushMembers(i, fl);
      } else {
        assert HasHomes(fbs[homes[i]], homes, i + 1, homes[i]);
        PushMembers(i, fbs[homes[i]]);
        LengthsUpdate(fbs, homes[i], [i] + fbs[homes[i]]);
      }
    }
  }

  lemma HomesAreFree(l: seq<nat>, homes: seq<nat>, pages: seq<Page>, b: nat)
    requires |pages| == |homes| && forall p :: 0 <= p < |pages| ==> pages[p] == FreshPage(homes[p])
    requires HasHomes(l, homes, 1, b)
    ensures FreeListOk(l, pages, b)
  {
    forall p: nat ensures p in l <==> OnFree(pages, b, p) {
      assert p in l <==> 1 <= p < |homes| && homes[p] == b;
    }
  }

  lemma InitLists(cfg: Config, homes: seq<nat>, disk: seq<seq<Byte>>, bufs: seq<seq<Byte>>, threads: nat, writers: nat)
    requires InitOk(cfg, homes, disk, bufs)
    ensures ListsOf(Init(cfg, homes, disk, bufs, threads, writers))
  {
    var s := Init(cfg, homes, disk, bufs, threads, writers);
    if |homes| == 0 {
      SumNone(Lengths(s.freeBuckets));
    } else {
      ListsFromOk(homes, cfg.bucketCount, 1);
      HomesAreFree(s.freelist, homes, s.pages, 0);
      forall b | 1 <= b < |s.freeBuckets| ensures FreeListOk(s.freeBuckets[b], s.pages, b) {
        HomesAreFree(s.freeBuckets[b], homes, s.pages, b);
      }
    }
    forall b | 0 <= b < |s.buckets| ensures BucketListOk(s.buckets[b], s.pages, b) {
      forall p ensures p in s.buckets[b] <==> OnBucket(s.pages, b, p) { }
    }
  }

  lemma InitCounts(s: State, cfg: Config, homes: seq<nat>, disk: seq<seq<Byte>>, bufs: seq<seq<Byte>>, threads: nat,
                   writers: nat)
    requires InitOk(cfg, homes, disk, bufs) && s == Init(cfg, homes, disk, bufs, threads, writers)
    ensures CountTrue(Attached(s.pages)) == 0 && CountTrue(InFlights(s.pages, s.wbufs)) == 0
    ensures Sum(WriteCounts(s.threads)) == 0 && forall p: nat :: CountTrue(Holders(s.threads, p)) == 0
  {
    CountNone(Attached(s.pages));
    CountNone(InFlights(s.pages, s.wbufs));
    SumNone(WriteCounts(s.threads));
    forall p: nat ensures CountTrue(Holders(s.threads, p)) == 0 { CountNone(Holders(s.threads, p)); }
  }

  /** extstore_init establishes the invariant. */
  lemma InitValid(cfg: Config, homes: seq<nat>, disk: seq<seq<Byte>>, bufs: seq<seq<Byte>>, threads: nat, writers: nat)
    requires InitOk(cfg, homes, disk, bufs)
    ensures Valid(Init(cfg, homes, disk, bufs, threads, writers))
  {
    hide ListsOk, CountTrue, Sum;
    var s := Init(cfg, homes, disk, bufs, threads, writers);
    InitLists(cfg, homes, disk, bufs, threads, writers);
    InitCounts(s, cfg, homes, disk, bufs, threads, writers);
    assert Multiple(0, cfg.wbufSize);
  }

  // ------------------------------------------------------------------------- runs

  /** A run: states linked by enabled steps, starting where extstore_init leaves off. */
  ghost predicate IsRun(run: seq<State>, events: seq<Event>) {
    && |run| == |events| + 1 && Valid(run[0])
    && forall i :: 0 <= i < |events| ==> StepOf(run[i], events[i], run[i + 1])
  }

  ghost predicate StepOf(s: State, e: Event, s': State) {
    Valid(s) ==> Enabled(s, e) && s' == Apply(s, e)
  }

  lemma {:induction false} RunValid(run: seq<State>, events: seq<Event>, i: nat)
    requires IsRun(run, events) && i < |run|
    ensures Valid(run[i])
  {
    if i > 0 {
      RunValid(run, events, i - 1);
      assert StepOf(run[i - 1], events[i - 1], run[i]);
      StepKeeps(run[i - 1], events[i - 1]);
    }
  }

  // ----------------------------------------------------------------- what was written stays

  /** The objects of a page and version lie below the place the next one goes: no byte of a page
      is given out twice under one version. */
  lemma ObjectsBelow(s: State, p: nat, len: nat, a: Addr)
    requires Valid(s) && HasRoom(s, p, len) && a in s.written && a.page == p && a.version == s.pages[p].version
    ensures a.offset + a.len <= NextAddr(s, p, len).offset && a.len > 0
  {
    hide PagesOk, ListsOk, IosOk, WritesDistinct, IoCounts, WritersOk, MaintOk, BlocksOk, ReadersOk, FlushesOk,
         ThreadsOk;
    assert AddrOk(s.pages, s.disk, s.wbufs, s.version, a, s.written[a]);
  }

  lemma AddressFresh(s: State, p: nat, len: nat)
    requires Valid(s) && HasRoom(s, p, len)
    ensures NextAddr(s, p, len) !in s.written
  {
    hide Valid;
    var a := NextAddr(s, p, len);
    if a in s.written { ObjectsBelow(s, p, len, a); }
  }

  lemma LocalKeepsWritten(s: State, e: Event)
    requires EnabledLocal(s, e)
    ensures ApplyLocal(s, e).written == s.written
  {
  }

  lemma AllocateKeepsWritten(s: State, b: nat, fb: nat)
    requires fb < |s.freeBuckets| && b < |s.buckets| && FreeInRange(s) && MayAllocate(s.cfg, s.pages, s.buckets[b])
    ensures AllocatePage(s, b, fb).0.written == s.written
  {
    hide FreeInRange, MayAllocate;
  }

  /** The bucket and the free bucket of a step that may allocate. */
  function BucketOf(s: State, e: Event): nat
    requires e.BeginWrite? || (e.AllocateAfterFull? && e.writer < |s.writers| && s.writers[e.writer].MustAllocate?)
  {
    if e.BeginWrite? then e.bucket else s.writers[e.writer].bucket
  }

  function HomeOf(s: State, e: Event): nat
    requires e.BeginWrite? || (e.AllocateAfterFull? && e.writer < |s.writers| && s.writers[e.writer].MustAllocate?)
  {
    if e.BeginWrite? then e.freeBucket else s.writers[e.writer].freeBucket
  }

  lemma WriterKeepsWritten(s: State, e: Event)
    requires Valid(s) && (e.BeginWrite? || e.AllocateAfterFull?) && Enabled(s, e)
    ensures Apply(s, e).written == s.written
  {
    hide Valid, AllocatePage, FreeInRange;
    WriterFacts(s, e.writer);
    var b, fb := BucketOf(s, e), HomeOf(s, e);
    if MayAllocate(s.cfg, s.pages, s.buckets[b]) { AllocateKeepsWritten(s, b, fb); }
  }

  lemma MaintKeepsWritten(s: State, e: Event)
    requires Valid(s) && (e.ScanPage? || e.Evict?) && Enabled(s, e)
    ensures Apply(s, e).written == s.written
  {
    hide Valid;
  }

  /** No step forgets or alters what has been written. */
  lemma StepKeepsWritten(s: State, e: Event, a: Addr)
    requires Valid(s) && Enabled(s, e) && a in s.written
    ensures a in Apply(s, e).written && Apply(s, e).written[a] == s.written[a]
  {
    hide Valid, WriteBegin, WriteAttempt, WriteAllocate, MaintPage, MaintEvict, ApplyLocal, EnabledLocal;
    match e
    case AttemptWrite(u, data, t) => AttemptKeepsWritten(s, u, data, t, a);
    case BeginWrite(_, _, _) => WriterKeepsWritten(s, e);
    case AllocateAfterFull(_) => WriterKeepsWritten(s, e);
    case ScanPage => MaintKeepsWritten(s, e);
    case Evict => MaintKeepsWritten(s, e);
    case _ => LocalKeepsWritten(s, e);
  }

  lemma AttemptKeepsWritten(s: State, u: nat, data: seq<Byte>, t: nat, a: Addr)
    requires Valid(s) && Enabled(s, AttemptWrite(u, data, t)) && a in s.written
    ensures a in WriteAttempt(s, u, data, t).written && WriteAttempt(s, u, data, t).written[a] == s.written[a]
  {
    hide Valid, AttemptOnPage, FreeInRange;
    WriterFacts(s, u);
    var p := s.writers[u].page;
    BufferInRange(s, p);
    if !TakesNoMore(s, p) {
      AttemptOnPageKeepsWritten(s, p, data, t, a);
    }
  }

  lemma AttemptOnPageKeepsWritten(s: State, p: nat, data: seq<Byte>, t: nat, a: Addr)
    requires Valid(s) && p < |s.pages| && t < |s.threads| && a in s.written
    requires s.pages[p].wbuf.Some? ==> s.pages[p].wbuf.value < |s.wbufs|
    requires !TakesNoMore(s, p)
    ensures a in AttemptOnPage(s, p, data, t).written && AttemptOnPage(s, p, data, t).written[a] == s.written[a]
  {
    hide Valid, StoreObject, NextAddr, SubmitWbuf, AllocateWbuf;
    var pg := s.pages[p];
    if pg.wbuf.Some? && s.wbufs[pg.wbuf.value].free < |data| && !s.wbufs[pg.wbuf.value].full {
      AttemptFlush(s, p, |data|, t);
    } else {
      if pg.wbuf.None? { AttemptBuffer(s, p); }
      var s2 := if pg.wbuf.None? then AllocateWbuf(s, p) else s;
      if HasRoom(s2, p, |data|) { AddressFresh(s2, p, |data|); }
    }
  }

  lemma {:induction false} RunKeepsWritten(run: seq<State>, events: seq<Event>, i: nat, j: nat, a: Addr)
    requires IsRun(run, events) && i <= j < |run| && a in run[i].written
    ensures a in run[j].written && run[j].written[a] == run[i].written[a]
  {
    hide Valid, Apply, Enabled;
    if i < j {
      RunKeepsWritten(run, events, i, j - 1, a);
      RunValid(run, events, j - 1);
      assert StepOf(run[j - 1], events[j - 1], run[j]);
      StepKeepsWritten(run[j - 1], events[j - 1], a);
    }
  }

  // ------------------------------------------------------- pages, pins and versions

  /** A page that is in use is on the list of its bucket and on no other, a free one
      on the list of its home and on no other. */
  lemma OnExactlyOneList(s: State, p: nat)
    requires Valid(s) && 1 <= p < |s.pages|
    ensures !s.pages[p].free ==>
      p !in s.freelist && (forall b :: 0 <= b < |s.freeBuckets| ==> p !in s.freeBuckets[b]) &&
      (forall b :: 0 <= b < |s.buckets| ==> (p in s.buckets[b] <==> b == s.pages[p].bucket))
    ensures s.pages[p].free ==>
      (p in s.freelist <==> s.pages[p].freeBucket == 0) &&
      (forall b :: 0 <= b < |s.freeBuckets| ==> (p in s.freeBuckets[b] <==> b != 0 && b == s.pages[p].freeBucket)) &&
      (forall b :: 0 <= b < |s.buckets| ==> p !in s.buckets[b])
  {
    hide PagesOk, WbufsOk, IosOk, WritesDistinct, IoCounts, ThreadsOk, ReadersOk, DataOk, FlushesOk, WritersOk, MaintOk,
         BlocksOk;
    assert p in s.freelist <==> OnFree(s.pages, 0, p);
    forall b | 1 <= b < |s.freeBuckets| ensures p in s.freeBuckets[b] <==> OnFree(s.pages, b, p) {
      assert FreeListOk(s.freeBuckets[b], s.pages, b);
    }
    forall b | 0 <= b < |s.buckets| ensures p in s.buckets[b] <==> OnBucket(s.pages, b, p) {
      assert BucketListOk(s.buckets[b], s.pages, b);
    }
  }

  /** Local steps never give a page another version. */
  lemma LocalKeepsVersions(s: State, e: Event, p: nat)
    requires EnabledLocal(s, e) && p < |s.pages|
    ensures var s1 := ApplyLocal(s, e);
      |s1.pages| == |s.pages| && s1.pages[p].version == s.pages[p].version && s1.version == s.version
  {
  }

  lemma AttemptKeepsVersions(s: State, u: nat, data: seq<Byte>, t: nat, p: nat)
    requires Valid(s) && Enabled(s, AttemptWrite(u, data, t)) && p < |s.pages|
    ensures var s1 := WriteAttempt(s, u, data, t);
      |s1.pages| == |s.pages| && s1.pages[p].version == s.pages[p].version && s1.version == s.version
  {
    var q := s.writers[u].page;
    assert WriterOk(s.cfg, |s.pages|, s.writers[u]);
    BufferInRange(s, q);
    if !TakesNoMore(s, q) {
      if s.pages[q].wbuf.Some? && !InFlight(s.pages[q], s.wbufs) { IoAvailable(s, q); }
      WbufInRange(s);
      hide Valid;
    }
  }

  lemma TakesFree(s: State, b: nat, fb: nat)
    requires Valid(s) && b < s.cfg.bucketCount && fb < s.cfg.bucketCount && fb < |s.freeBuckets|
             && TakeFree(s, fb).1.Some?
    ensures var (s1, page) := TakeFree(s, fb); page.value < |s.pages| && s.pages[page.value].free && s1.pageFree > 0
  {
    AllocateKeepsLists(s, b, fb);
  }

  /** A new version is the old counter, and the counter moves past it. */
  lemma WriterVersions(s: State, e: Event, p: nat)
    requires Valid(s) && (e.BeginWrite? || e.AllocateAfterFull?) && Enabled(s, e) && p < |s.pages|
    ensures var s1 := Apply(s, e);
      && |s1.pages| == |s.pages| && s.version <= s1.version
      && (s1.pages[p].version == s.pages[p].version
          || (s.pages[p].free && s1.pages[p].version == s.version < s1.version))
  {
    hide Valid, FreeInRange, MayAllocate;
    WriterFacts(s, e.writer);
    var b, fb := BucketOf(s, e), HomeOf(s, e);
    if TakeFree(s, fb).1.Some? { TakesFree(s, b, fb); }
  }

  lemma FreeVersions(s: State, q: nat, p: nat)
    requires q < |s.pages| && s.pages[q].bucket < |s.buckets| && s.pages[q].freeBucket < |s.freeBuckets|
             && p < |s.pages|
    ensures var s1 := FreePage(s, q);
      && |s1.pages| == |s.pages| && s1.version == s.version
      && s1.pages[p].version == (if p == q then 0 else s.pages[p].version)
  {
  }

  // The maintenance thread frees only pages that nobody has pinned.

  lemma ScanVersions(s: State, p: nat)
    requires Valid(s) && Enabled(s, ScanPage) && p < |s.pages|
    ensures var s1 := MaintPage(s);
      && |s1.pages| == |s.pages| && s1.version == s.version
      && (s1.pages[p].version == s.pages[p].version || (s.pages[p].refcount == 0 && s1.pages[p].version == 0))
  {
    var q := s.maint.next;
    InBucketRange(s, q);
    hide Valid, FreePage;
    FreeVersions(s, q, p);
  }

  lemma EvictVersions(s: State, p: nat)
    requires Valid(s) && Enabled(s, Evict) && p < |s.pages|
    ensures var s1 := MaintEvict(s);
      && |s1.pages| == |s.pages| && s1.version == s.version
      && (s1.pages[p].version == s.pages[p].version || (s.pages[p].refcount == 0 && s1.pages[p].version == 0))
  {
    assert MaintOk(s.pages, s.maint);
    if s.maint.low.Some? {
      var q := s.maint.low.value;
      InBucketRange(s, q);
      hide Valid, FreePage;
      FreeVersions(s.(pages := s.pages[q := s.pages[q].(closed := true)], maint := Waiting), q, p);
    }
  }

  /** One step changes a page's version only by giving a free page the next number of
      the counter or by freeing a page that no reader holds. */
  lemma StepVersions(s: State, e: Event, p: nat)
    requires Valid(s) && Enabled(s, e) && p < |s.pages|
    ensures var s1 := Apply(s, e);
      && |s1.pages| == |s.pages| && s.version <= s1.version
      && (s1.pages[p].version == s.pages[p].version ||
          (s.pages[p].free && s1.pages[p].version == s.version < s1.version) ||
          (s.pages[p].refcount == 0 && s1.pages[p].version == 0))
  {
    hide Valid, WriteBegin, WriteAttempt, WriteAllocate, MaintPage, MaintEvict, ApplyLocal, EnabledLocal;
    match e
    case AttemptWrite(u, data, t) => AttemptKeepsVersions(s, u, data, t, p);
    case BeginWrite(_, _, _) => WriterVersions(s, e, p);
    case AllocateAfterFull(_) => WriterVersions(s, e, p);
    case ScanPage => ScanVersions(s, p);
    case Evict => EvictVersions(s, p);
    case _ => LocalKeepsVersions(s, e, p);
  }

  /** A page with a reader keeps its version, so it is neither freed nor reused. */
  lemma PinnedPageStays(s: State, e: Event, p: nat)
    requires Valid(s) && Enabled(s, e) && p < |s.pages| && s.pages[p].refcount > 0
    ensures !s.pages[p].free && Valid(Apply(s, e)) && p < |Apply(s, e).pages|
    ensures Apply(s, e).pages[p].version == s.pages[p].version && !Apply(s, e).pages[p].free
  {
    StepVersions(s, e, p);
    StepKeeps(s, e);
    FreePagesUnpinned(s, p);
    VersionTellsFree(s, p);
    VersionTellsFree(Apply(s, e), p);
  }

  lemma VersionTellsFree(s: State, p: nat)
    requires Valid(s) && p < |s.pages|
    ensures s.pages[p].free <==> s.pages[p].version == 0
    ensures s.pages[p].version < s.version
  {
    hide ListsOk, WbufsOk, IosOk, WritesDistinct, IoCounts, ThreadsOk, ReadersOk, DataOk, FlushesOk, WritersOk, MaintOk,
         BlocksOk;
    assert PageOk(s.cfg, s.pages[p]);
  }

  lemma {:induction false} CounterGrows(run: seq<State>, events: seq<Event>, i: nat, j: nat)
    requires IsRun(run, events) && i <= j < |run| && |run[i].pages| > 0
    ensures run[i].version <= run[j].version && |run[i].pages| == |run[j].pages|
  {
    hide Valid, Apply, Enabled;
    if i < j {
      CounterGrows(run, events, i, j - 1);
      RunValid(run, events, j - 1);
      assert StepOf(run[j - 1], events[j - 1], run[j]);
      StepVersions(run[j - 1], events[j - 1], 0);
    }
  }

  /** In every run, a version given to a page at one step is larger than every
      version given to any page at an earlier step. */
  lemma VersionsNeverReused(run: seq<State>, events: seq<Event>, i: nat, j: nat, p: nat, q: nat)
    requires IsRun(run, events) && i < j < |events| && p < |run[i].pages| && q < |run[j].pages|
    requires |run[i + 1].pages| == |run[i].pages| && |run[j + 1].pages| == |run[j].pages|
    requires run[i + 1].pages[p].version != run[i].pages[p].version && run[i + 1].pages[p].version != 0
    requires run[j + 1].pages[q].version != run[j].pages[q].version && run[j + 1].pages[q].version != 0
    ensures run[i + 1].pages[p].version < run[j + 1].pages[q].version
  {
    RunValid(run, events, i);
    RunValid(run, events, j);
    assert StepOf(run[i], events[i], run[i + 1]) && StepOf(run[j], events[j], run[j + 1]);
    StepVersions(run[i], events[i], p);
    StepVersions(run[j], events[j], q);
    CounterGrows(run, events, i + 1, j);
  }
}
