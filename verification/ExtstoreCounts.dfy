/** The object counts of the external store (memcached/extstore.c) over whole runs: a page is freed
    without being closed only after as many deletions were reported as objects were stored in it. */
module ExtstoreCounts {
  import opened Basics
  import opened ExtstoreModel
  import opened ExtstoreRuns
  import opened ExtstoreTheorems

  /** The objects ever stored in a page under a version. */
  function ObjectsOf(written: map<Addr, seq<Byte>>, p: nat, v: nat): set<Addr> {
    set a | a in written && a.page == p && a.version == v
  }

  /** How many objects of page p an event reports as deleted, if it counts. */
  function Reported(s: State, e: Event, p: nat): nat
    requires p < |s.pages|
  {
    if e.DeleteObjects? && e.page == p && e.version == s.pages[p].version && !s.pages[p].closed then e.count else 0
  }

  /** The deletions reported before event n for page p under version v. */
  ghost function Deleted(run: seq<State>, events: seq<Event>, p: nat, v: nat, n: nat): nat
    requires n <= |events| < |run|
  {
    if n == 0 then 0
    else
      Deleted(run, events, p, v, n - 1)
      + (if p < |run[n - 1].pages| && run[n - 1].pages[p].version == v then Reported(run[n - 1], events[n - 1], p)
         else 0)
  }

  /** Before event n no more objects were reported as deleted than the page counted. */
  ghost predicate Fair(run: seq<State>, events: seq<Event>, p: nat, n: nat)
    requires n <= |events| < |run|
  {
    forall k :: 0 <= k < n && p < |run[k].pages| ==> Reported(run[k], events[k], p) <= run[k].pages[p].objCount
  }

  /** The count of a page, when d objects were reported as deleted: exact if no report was wrong. */
  ghost predicate Tally(s: State, p: nat, d: nat, fair: bool) {
    && p < |s.pages|
    && var pg := s.pages[p];
       && (pg.free ==> pg.objCount == 0)
       && (!pg.free ==>
             && pg.objCount <= |ObjectsOf(s.written, p, pg.version)| <= pg.objCount + d
             && (fair ==> |ObjectsOf(s.written, p, pg.version)| == pg.objCount + d))
  }

  // ---------------------------------------------------------------- what a step does to a page

  /** Nothing but the page's other fields changes, and objects of other pages. */
  ghost predicate SameCount(s: State, s1: State, p: nat)
    requires p < |s.pages| == |s1.pages|
  {
    && s1.pages[p].free == s.pages[p].free && s1.pages[p].version == s.pages[p].version
    && s1.pages[p].objCount == s.pages[p].objCount
    && forall a: Addr :: a.page == p ==> (a in s1.written <==> a in s.written)
  }

  /** The page was freed. */
  predicate WasFreed(s1: State, p: nat)
    requires p < |s1.pages|
  {
    s1.pages[p].free && s1.pages[p].objCount == 0
  }

  /** The page was given out under the next version. */
  predicate WasGivenOut(s: State, s1: State, p: nat)
    requires p < |s.pages| == |s1.pages|
  {
    && s.pages[p].free && !s1.pages[p].free && s1.pages[p].version == s.version
    && s1.pages[p].objCount == s.pages[p].objCount && s1.written == s.written
  }

  /** One object was stored in the page. */
  ghost predicate WasFilled(s: State, s1: State, p: nat, a: Addr)
    requires p < |s.pages| == |s1.pages|
  {
    && s1.pages[p].free == s.pages[p].free && s1.pages[p].version == s.pages[p].version
    && s1.pages[p].objCount == s.pages[p].objCount + 1 && !s.pages[p].free
    && a !in s.written && a.page == p && a.version == s.pages[p].version
    && s1.written.Keys == s.written.Keys + {a}
  }

  lemma LocalCounts(s: State, e: Event, p: nat)
    requires EnabledLocal(s, e) && p < |s.pages| && !e.DeleteObjects?
    ensures var s1 := ApplyLocal(s, e); |s1.pages| == |s.pages| && SameCount(s, s1, p)
  {
  }

  lemma DeleteCounts(s: State, e: Event, p: nat)
    requires EnabledLocal(s, e) && e.DeleteObjects? && p < |s.pages|
    ensures var s1 := ApplyLocal(s, e);
            && |s1.pages| == |s.pages| && s1.written == s.written
            && s1.pages[p].free == s.pages[p].free && s1.pages[p].version == s.pages[p].version
            && s1.pages[p].objCount <= s.pages[p].objCount <= s1.pages[p].objCount + Reported(s, e, p)
            && (Reported(s, e, p) <= s.pages[p].objCount ==>
                  s.pages[p].objCount == s1.pages[p].objCount + Reported(s, e, p))
  {
  }

  lemma AttemptCounts(s: State, e: Event, p: nat)
    requires Valid(s) && e.AttemptWrite? && Enabled(s, e) && p < |s.pages|
    ensures var s1 := Apply(s, e);
            |s1.pages| == |s.pages| && (SameCount(s, s1, p) || exists a :: WasFilled(s, s1, p, a))
  {
    hide Valid, AttemptOnPage, WasFilled, SameCount;
    WriterFacts(s, e.writer);
    var q := s.writers[e.writer].page;
    BufferInRange(s, q);
    ActiveInUse(s, q);
    if TakesNoMore(s, q) {
      SameWriters(s, s, Apply(s, e).writers, p);
    } else {
      AttemptOne(s, q, e.data, e.thread, p);
      SameWriters(s, AttemptOnPage(s, q, e.data, e.thread), Apply(s, e).writers, p);
    }
  }

  /** Writers moving on change no page. */
  lemma SameWriters(s: State, s1: State, writers: seq<Writer>, p: nat)
    requires p < |s.pages| == |s1.pages|
    ensures SameCount(s, s, p)
    ensures SameCount(s, s1, p) ==> SameCount(s, s1.(writers := writers), p)
    ensures SameCount(s, s, p) ==> SameCount(s, s.(writers := writers), p)
    ensures (exists a :: WasFilled(s, s1, p, a)) ==> exists a :: WasFilled(s, s1.(writers := writers), p, a)
  {
    if a :| WasFilled(s, s1, p, a) { assert WasFilled(s, s1.(writers := writers), p, a); }
  }

  lemma ActiveInUse(s: State, q: nat)
    requires Valid(s) && q < |s.pages|
    ensures s.pages[q].active ==> !s.pages[q].free
  {
    hide ListsOk, WbufsOk, IosOk, WritesDistinct, IoCounts, ThreadsOk, ReadersOk, DataOk, FlushesOk, WritersOk, MaintOk,
         BlocksOk;
    assert PageOk(s.cfg, s.pages[q]);
  }

  lemma AttemptOne(s: State, q: nat, data: seq<Byte>, t: nat, p: nat)
    requires Valid(s) && q < |s.pages| && t < |s.threads| && p < |s.pages| && |data| > 0
    requires s.pages[q].wbuf.Some? ==> s.pages[q].wbuf.value < |s.wbufs|
    requires !TakesNoMore(s, q) && !s.pages[q].free
    ensures var s1 := AttemptOnPage(s, q, data, t);
            |s1.pages| == |s.pages| && (SameCount(s, s1, p) || exists a :: WasFilled(s, s1, p, a))
  {
    hide Valid, StoreObject, SubmitWbuf, AllocateWbuf, WasFilled, SameCount;
    var pg := s.pages[q];
    if pg.wbuf.Some? && s.wbufs[pg.wbuf.value].free < |data| && !s.wbufs[pg.wbuf.value].full {
      AttemptFlush(s, q, |data|, t);
      FlushCounts(s, q, t, p);
    } else {
      if pg.wbuf.None? { AttemptBuffer(s, q); }
      var s2 := if pg.wbuf.None? then AllocateWbuf(s, q) else s;
      BufferCounts(s, q, p);
      if HasRoom(s2, q, |data|) {
        AddressFresh(s2, q, |data|);
        StoreCounts(s, s2, q, data, p);
      }
    }
  }

  lemma FlushCounts(s: State, q: nat, t: nat, p: nat)
    requires q < |s.pages| && s.pages[q].wbuf.Some? && s.pages[q].wbuf.value < |s.wbufs| && t < |s.threads|
    requires s.ioStack != [] && s.ioStack[0] < |s.ios| && p < |s.pages|
    requires s.wbufs[s.pages[q].wbuf.value].free <= |s.wbufs[s.pages[q].wbuf.value].buf|
    ensures SameCount(s, SubmitWbuf(s, q, t), p)
  {
  }

  lemma BufferCounts(s: State, q: nat, p: nat)
    requires q < |s.pages| && p < |s.pages|
    ensures SameCount(s, s, p)
    ensures s.wbufStack != [] ==>
              s.wbufStack[0] < |s.wbufs| ==>
                |AllocateWbuf(s, q).pages| == |s.pages| && SameCount(s, AllocateWbuf(s, q), p)
    ensures s.wbufStack == [] ==> AllocateWbuf(s, q) == s
    ensures s.wbufStack != [] && s.wbufStack[0] < |s.wbufs| ==>
              AllocateWbuf(s, q).pages[q].version == s.pages[q].version && AllocateWbuf(s, q).written == s.written
  {
  }

  lemma StoreCounts(s: State, s2: State, q: nat, data: seq<Byte>, p: nat)
    requires p < |s.pages| == |s2.pages| && q < |s.pages| && HasRoom(s2, q, |data|)
    requires NextAddr(s2, q, |data|) !in s2.written
    requires SameCount(s, s2, p) && s2.written == s.written && s2.pages[q].version == s.pages[q].version
    requires !s.pages[q].free
    ensures var s1 := StoreObject(s2, q, data);
            |s1.pages| == |s.pages| && (SameCount(s, s1, p) || exists a :: WasFilled(s, s1, p, a))
  {
    var s1, a := StoreObject(s2, q, data), NextAddr(s2, q, |data|);
    assert s1.written.Keys == s2.written.Keys + {a};
    if p == q { assert WasFilled(s, s1, p, a); }
  }

  lemma WriterCounts(s: State, e: Event, p: nat)
    requires Valid(s) && (e.BeginWrite? || e.AllocateAfterFull?) && Enabled(s, e) && p < |s.pages|
    ensures var s1 := Apply(s, e); |s1.pages| == |s.pages| && (SameCount(s, s1, p) || WasGivenOut(s, s1, p))
  {
    hide Valid, FreeInRange, MayAllocate;
    WriterFacts(s, e.writer);
    var b, fb := BucketOf(s, e), HomeOf(s, e);
    if TakeFree(s, fb).1.Some? { TakesFree(s, b, fb); }
  }

  lemma FreeCounts(s: State, q: nat, p: nat)
    requires q < |s.pages| && s.pages[q].bucket < |s.buckets| && s.pages[q].freeBucket < |s.freeBuckets|
    requires p < |s.pages|
    ensures var s1 := FreePage(s, q);
            |s1.pages| == |s.pages| && if p == q then WasFreed(s1, p) else SameCount(s, s1, p)
  {
  }

  lemma ScanCounts(s: State, p: nat)
    requires Valid(s) && Enabled(s, ScanPage) && p < |s.pages|
    ensures var s1 := MaintPage(s); |s1.pages| == |s.pages| && (SameCount(s, s1, p) || WasFreed(s1, p))
  {
    hide Valid, FreePage, SameCount;
    var q := s.maint.next;
    InBucketRange(s, q);
    FreeCounts(s, q, p);
    var m := MaintPage(s).maint;
    MaintIsNoPage(s, s, m, p);
    MaintIsNoPage(s, FreePage(s, q), m, p);
  }

  lemma MaintIsNoPage(s: State, t: State, m: Maint, p: nat)
    requires p < |s.pages| == |t.pages|
    ensures SameCount(s, s, p) && (SameCount(s, t, p) ==> SameCount(s, t.(maint := m), p))
  {
  }

  lemma ClosingCounts(s: State, t: State, u: State, q: nat, p: nat)
    requires q < |s.pages| && p < |s.pages| == |u.pages|
    requires t == s.(pages := s.pages[q := s.pages[q].(closed := true)], maint := Waiting)
    ensures SameCount(s, t, p) && (SameCount(t, u, p) ==> SameCount(s, u, p))
  {
  }

  lemma EvictCounts(s: State, p: nat)
    requires Valid(s) && Enabled(s, Evict) && p < |s.pages|
    ensures var s1 := MaintEvict(s); |s1.pages| == |s.pages| && (SameCount(s, s1, p) || WasFreed(s1, p))
  {
    hide Valid, FreePage, SameCount;
    MaintFacts(s);
    MaintIsNoPage(s, s, Waiting, p);
    if s.maint.low.Some? {
      var q := s.maint.low.value;
      InBucketRange(s, q);
      var t := s.(pages := s.pages[q := s.pages[q].(closed := true)], maint := Waiting);
      FreeCounts(t, q, p);
      ClosingCounts(s, t, FreePage(t, q), q, p);
    }
  }

  // -------------------------------------------------------------------------- what it does to the tally

  lemma SameTally(s: State, s1: State, p: nat, d: nat, fair: bool)
    requires p < |s.pages| == |s1.pages| && SameCount(s, s1, p) && Tally(s, p, d, fair)
    ensures Tally(s1, p, d, fair)
  {
    assert ObjectsOf(s1.written, p, s.pages[p].version) == ObjectsOf(s.written, p, s.pages[p].version);
  }

  /** No object was stored under a version not given out yet. */
  lemma NewVersionIsEmpty(s: State, p: nat)
    requires Valid(s)
    ensures ObjectsOf(s.written, p, s.version) == {}
  {
    forall a | a in s.written ensures a.version != s.version {
      assert AddrOk(s.pages, s.disk, s.wbufs, s.version, a, s.written[a]);
    }
  }

  lemma GivenOutTally(s: State, s1: State, p: nat, d: nat, fair: bool)
    requires Valid(s) && p < |s.pages| == |s1.pages| && WasGivenOut(s, s1, p) && Tally(s, p, d, fair)
    ensures Tally(s1, p, 0, true)
  {
    NewVersionIsEmpty(s, p);
    hide Valid;
  }

  lemma FilledTally(s: State, s1: State, p: nat, a: Addr, d: nat, fair: bool)
    requires p < |s.pages| == |s1.pages| && WasFilled(s, s1, p, a) && Tally(s, p, d, fair)
    ensures Tally(s1, p, d, fair)
  {
    var v := s.pages[p].version;
    assert ObjectsOf(s1.written, p, v) == ObjectsOf(s.written, p, v) + {a} && a !in ObjectsOf(s.written, p, v);
  }

  /** Every step keeps the tally, with what it reports as deleted. A page given out starts anew. */
  lemma StepTallies(s: State, e: Event, p: nat, d: nat, fair: bool)
    requires Valid(s) && Enabled(s, e) && p < |s.pages| && Tally(s, p, d, fair)
    ensures var s1 := Apply(s, e);
            && |s1.pages| == |s.pages|
            && (s1.pages[p].version == s.pages[p].version ==>
                  Tally(s1, p, d + Reported(s, e, p), fair && Reported(s, e, p) <= s.pages[p].objCount))
            && (s1.pages[p].version != s.pages[p].version ==>
                  s1.pages[p].free || (s1.pages[p].version == s.version && Tally(s1, p, 0, true)))
            && (s1.pages[p].free ==> s1.pages[p].objCount == 0)
  {
    hide Valid, Apply, SameCount, WasFilled;
    var s1 := Apply(s, e);
    if e.AttemptWrite? {
      AttemptCounts(s, e, p);
      if a :| WasFilled(s, s1, p, a) {
        FilledTally(s, s1, p, a, d, fair);
        SameVersion(s, s1, p, a);
      } else {
        SameTally(s, s1, p, d, fair);
        SameVersionToo(s, s1, p);
      }
    } else if e.BeginWrite? || e.AllocateAfterFull? {
      WriterCounts(s, e, p);
      if WasGivenOut(s, s1, p) {
        GivenOutTally(s, s1, p, d, fair);
        VersionTellsFree(s, p);
      } else {
        SameTally(s, s1, p, d, fair);
        SameVersionToo(s, s1, p);
      }
    } else if e == ScanPage || e == Evict {
      MaintCounts(s, e, p);
      if !WasFreed(s1, p) {
        SameTally(s, s1, p, d, fair);
        SameVersionToo(s, s1, p);
      }
    } else {
      LocalTallies(s, e, p, d, fair);
    }
  }

  lemma MaintCounts(s: State, e: Event, p: nat)
    requires Valid(s) && (e == ScanPage || e == Evict) && Enabled(s, e) && p < |s.pages|
    ensures var s1 := Apply(s, e); |s1.pages| == |s.pages| && (SameCount(s, s1, p) || WasFreed(s1, p))
  {
    hide Valid, MaintPage, MaintEvict, SameCount, WasFreed;
    if e == ScanPage { ScanCounts(s, p); } else { EvictCounts(s, p); }
  }

  lemma SameVersion(s: State, s1: State, p: nat, a: Addr)
    requires p < |s.pages| == |s1.pages| && WasFilled(s, s1, p, a)
    ensures s1.pages[p].version == s.pages[p].version
  {
  }

  lemma SameVersionToo(s: State, s1: State, p: nat)
    requires p < |s.pages| == |s1.pages| && SameCount(s, s1, p)
    ensures s1.pages[p].version == s.pages[p].version
  {
  }

  lemma LocalTallies(s: State, e: Event, p: nat, d: nat, fair: bool)
    requires Valid(s) && Enabled(s, e) && p < |s.pages| && Tally(s, p, d, fair)
    requires !e.AttemptWrite? && !e.BeginWrite? && !e.AllocateAfterFull? && e != ScanPage && e != Evict
    ensures var s1 := Apply(s, e);
            && |s1.pages| == |s.pages| && s1.pages[p].version == s.pages[p].version
            && Tally(s1, p, d + Reported(s, e, p), fair && Reported(s, e, p) <= s.pages[p].objCount)
  {
    hide Valid, SameCount, ApplyLocal, EnabledLocal;
    var s1 := Apply(s, e);
    if e.DeleteObjects? {
      DeleteCounts(s, e, p);
    } else {
      LocalCounts(s, e, p);
      SameTally(s, s1, p, d, fair);
      SameVersionToo(s, s1, p);
    }
  }

  // ---------------------------------------------------------------------------------- whole runs

  /** A version counts no deletions before it is given out. */
  lemma {:induction false} NothingYet(run: seq<State>, events: seq<Event>, p: nat, v: nat, n: nat)
    requires n <= |events| < |run|
    requires forall k :: 0 <= k < n && p < |run[k].pages| ==> run[k].pages[p].version != v
    ensures Deleted(run, events, p, v, n) == 0
  {
    if n > 0 { NothingYet(run, events, p, v, n - 1); }
  }

  lemma EarlierVersions(run: seq<State>, events: seq<Event>, p: nat, n: nat)
    requires IsRun(run, events) && n <= |events| && p < |run[0].pages|
    ensures forall k :: 0 <= k <= n ==> p < |run[k].pages| && run[k].pages[p].version < run[n].version
  {
    hide Valid, Apply, Enabled;
    forall k | 0 <= k <= n ensures p < |run[k].pages| && run[k].pages[p].version < run[n].version {
      CounterGrows(run, events, 0, k);
      RunValid(run, events, k);
      VersionTellsFree(run[k], p);
      CounterGrows(run, events, k, n);
    }
  }

  /** In every run from a store without objects: the count of a page in use is at most the number of
      objects stored in it, and no less than that number without the deletions reported; it is exactly
      that, if never more were reported than the page counted. */
  lemma {:induction false} CountsHold(run: seq<State>, events: seq<Event>, n: nat, p: nat)
    requires IsRun(run, events) && n <= |events| && p < |run[0].pages|
    requires run[0].written == map[] && run[0].pages[p].free && run[0].pages[p].objCount == 0
    ensures p < |run[n].pages|
    ensures Tally(run[n], p, Deleted(run, events, p, run[n].pages[p].version, n), Fair(run, events, p, n))
    decreases n
  {
    hide Valid, Apply, Enabled, Reported;
    if n > 0 {
      var m := n - 1;
      CountsHold(run, events, m, p);
      RunValid(run, events, m);
      assert StepOf(run[m], events[m], run[n]);
      var v := run[m].pages[p].version;
      StepTallies(run[m], events[m], p, Deleted(run, events, p, v, m), Fair(run, events, p, m));
      EarlierVersions(run, events, p, m);
      if run[n].pages[p].version == run[m].version { NothingYet(run, events, p, run[m].version, n); }
    }
  }

  /** So a page that a scan frees without its having been closed held no object that was not reported
      as deleted. */
  lemma FreedPagesAreEmpty(run: seq<State>, events: seq<Event>, n: nat)
    requires IsRun(run, events) && n < |events| && events[n] == ScanPage && run[n].maint.Scanning?
    requires run[n].maint.next < |run[0].pages| && run[0].written == map[]
    requires run[0].pages[run[n].maint.next].free && run[0].pages[run[n].maint.next].objCount == 0
    ensures var p := run[n].maint.next;
            && p < |run[n].pages| == |run[n + 1].pages|
            && (!run[n].pages[p].free && !run[n].pages[p].closed && run[n + 1].pages[p].free ==>
                  var v := run[n].pages[p].version;
                  |ObjectsOf(run[n].written, p, v)| <= Deleted(run, events, p, v, n))
  {
    hide Valid, Apply, Enabled, Deleted, ObjectsOf;
    var p := run[n].maint.next;
    CountsHold(run, events, n, p);
    RunValid(run, events, n);
    assert StepOf(run[n], events[n], run[n + 1]);
    VisitNeedsEmpty(run[n]);
  }

  lemma VisitNeedsEmpty(s: State)
    requires Valid(s) && Enabled(s, ScanPage)
    ensures var p, t := s.maint.next, Apply(s, ScanPage);
            && p < |s.pages| == |t.pages|
            && (!s.pages[p].free && !s.pages[p].closed && t.pages[p].free ==> s.pages[p].objCount == 0)
  {
    InBucketRange(s, s.maint.next);
    hide Valid;
  }
}
