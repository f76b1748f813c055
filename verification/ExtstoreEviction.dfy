/** Which page the maintenance thread of the external store evicts (memcached/extstore.c): over every
    run, the one with the lowest version among those its scan came by. */
module ExtstoreEviction {
  import opened Basics
  import opened ExtstoreModel
  import opened ExtstoreRuns
  import opened ExtstoreTheorems

  /** A page in use and full, whose objects may be given up: not closed, and of the default list. */
  predicate Evictable(pg: Page) {
    !pg.active && !pg.free && !pg.closed && pg.objCount > 0 && pg.freeBucket == 0
  }

  /** A page in use and full that nobody reads, and nobody needs: empty, or closed. */
  predicate Spare(pg: Page) {
    !pg.active && !pg.free && pg.refcount == 0 && (pg.closed || pg.objCount == 0)
  }

  /** The store has no page left for ordinary writes. */
  predicate Wants(s: State) { s.pageFree == 0 || s.freelist == [] }

  predicate OfScan(e: Event) { e == StartScan || e == ScanPage || e == Evict }

  /** A scan begins with event i and ends with event j. */
  predicate OneScan(events: seq<Event>, i: nat, j: nat) {
    && i < j < |events| && events[i] == StartScan && events[j] == Evict
    && forall k :: i < k < j ==> events[k] != StartScan && events[k] != Evict
  }

  /** How many pages the scan begun with event i has visited before event k. */
  function Visited(events: seq<Event>, i: nat, k: nat): nat
    requires i < k <= |events|
  {
    if k == i + 1 then 0 else Visited(events, i, k - 1) + (if events[k - 1] == ScanPage then 1 else 0)
  }

  /** Event k visits a page, the next after those visited before. */
  predicate Visits(run: seq<State>, events: seq<Event>, i: nat, k: nat) {
    i < k < |events| && k < |run| && events[k] == ScanPage && Visited(events, i, k) < |run[k].pages|
  }

  function PageAt(run: seq<State>, events: seq<Event>, i: nat, k: nat): Page
    requires Visits(run, events, i, k)
  {
    run[k].pages[Visited(events, i, k)]
  }

  /** A page it visited before event k could be evicted, as it then stood. */
  predicate Candidate(run: seq<State>, events: seq<Event>, i: nat, k: nat, l: nat) {
    l < k && Visits(run, events, i, l) && Evictable(PageAt(run, events, i, l))
  }

  /** A page it visited before event k could be freed without evicting anything. */
  predicate Freed(run: seq<State>, events: seq<Event>, i: nat, k: nat, l: nat) {
    l < k && Visits(run, events, i, l) && Spare(PageAt(run, events, i, l))
  }

  /** Evicting is called for: there was no page at the start, and the scan found none to free. */
  ghost predicate Needed(run: seq<State>, events: seq<Event>, i: nat, k: nat)
    requires i < |run|
  {
    Wants(run[i]) && forall l :: !Freed(run, events, i, k, l)
  }

  /** It came by no page that could be evicted. */
  ghost predicate Nothing(run: seq<State>, events: seq<Event>, i: nat, k: nat) {
    forall l :: !Candidate(run, events, i, k, l)
  }

  /** The page visited by event l is the oldest of those that could be evicted. */
  ghost predicate Oldest(run: seq<State>, events: seq<Event>, i: nat, k: nat, l: nat) {
    && Candidate(run, events, i, k, l)
    && forall m :: Candidate(run, events, i, k, m) ==>
         PageAt(run, events, i, l).version <= PageAt(run, events, i, m).version
  }

  /** What the thread has noted before event k. */
  ghost predicate Noted(run: seq<State>, events: seq<Event>, i: nat, k: nat, m: Maint)
    requires i < k <= |events| && i < |run|
  {
    && m.Scanning? && m.next == Visited(events, i, k)
    && (m.evict <==> Needed(run, events, i, k))
    && (m.low.None? <==> Nothing(run, events, i, k))
    && (m.low.Some? ==> exists l :: LowAt(run, events, i, k, m, l))
  }

  /** The page and the version it noted are those of the oldest it came by, with event l. */
  ghost predicate LowAt(run: seq<State>, events: seq<Event>, i: nat, k: nat, m: Maint, l: nat)
    requires m.Scanning?
  {
    && Oldest(run, events, i, k, l) && m.low == Some(Visited(events, i, l))
    && m.lowVersion == PageAt(run, events, i, l).version
  }

  // ------------------------------------------------------------------------------- the steps

  lemma AttemptMaint(s: State, p: nat, data: seq<Byte>, t: nat)
    requires Valid(s) && p < |s.pages| && t < |s.threads|
    requires s.pages[p].wbuf.Some? ==> s.pages[p].wbuf.value < |s.wbufs|
    ensures AttemptOnPage(s, p, data, t).maint == s.maint
  {
    hide Valid;
  }

  /** No other thread touches what the maintenance thread has noted. */
  lemma MaintStays(s: State, e: Event)
    requires Valid(s) && Enabled(s, e) && !OfScan(e)
    ensures Apply(s, e).maint == s.maint
  {
    hide Valid, AttemptOnPage;
    if e.AttemptWrite? {
      WriterFacts(s, e.writer);
      BufferInRange(s, s.writers[e.writer].page);
      if !TakesNoMore(s, s.writers[e.writer].page) { AttemptMaint(s, s.writers[e.writer].page, e.data, e.thread); }
    }
  }

  lemma ScanStarts(run: seq<State>, events: seq<Event>, i: nat)
    requires |run| == |events| + 1 && i < |events|
    ensures Noted(run, events, i, i + 1, MaintStart(run[i]).maint)
  {
  }

  /** Nothing is visited by other events. */
  lemma NotVisited(run: seq<State>, events: seq<Event>, i: nat, k: nat, m: Maint)
    requires |run| == |events| + 1 && i < k < |events| && events[k] != ScanPage && Noted(run, events, i, k, m)
    ensures Noted(run, events, i, k + 1, m)
  {
    VisitedStep(events, i, k);
    EarlierVisits(run, events, i, k);
    assert !Candidate(run, events, i, k + 1, k) && !Freed(run, events, i, k + 1, k);
    hide Candidate, Freed, Visited;
    if m.low.Some? {
      var l :| LowAt(run, events, i, k, m, l);
      OldestStays(run, events, i, k, l);
      assert LowAt(run, events, i, k + 1, m, l);
    }
  }

  /** The oldest stays the oldest unless event k visits one that is older still. */
  lemma OldestStays(run: seq<State>, events: seq<Event>, i: nat, k: nat, l: nat)
    requires Oldest(run, events, i, k, l)
    requires Candidate(run, events, i, k + 1, k) ==>
               PageAt(run, events, i, l).version <= PageAt(run, events, i, k).version
    ensures Oldest(run, events, i, k + 1, l)
  {
    forall m | Candidate(run, events, i, k + 1, m)
      ensures PageAt(run, events, i, l).version <= PageAt(run, events, i, m).version
    {
      assert m == k || Candidate(run, events, i, k, m);
    }
  }

  lemma VisitedStep(events: seq<Event>, i: nat, k: nat)
    requires i < k < |events|
    ensures Visited(events, i, k + 1) == Visited(events, i, k) + (if events[k] == ScanPage then 1 else 0)
  {
  }

  /** What a visit notes. */
  lemma VisitNotes(s: State)
    requires Valid(s) && Enabled(s, ScanPage)
    ensures var m, m', pg := s.maint, MaintPage(s).maint, s.pages[s.maint.next];
            && m'.Scanning? && m'.next == m.next + 1 && (m'.evict <==> m.evict && !Spare(pg))
            && (if Evictable(pg) && (m.low == None || pg.version < m.lowVersion)
                then m'.low == Some(m.next) && m'.lowVersion == pg.version
                else m'.low == m.low && m'.lowVersion == m.lowVersion)
  {
    InBucketRange(s, s.maint.next);
    hide Valid;
  }

  /** A visit frees a spare page, and does nothing to any other. */
  lemma VisitFrees(s: State)
    requires Valid(s) && Enabled(s, ScanPage)
    ensures var p, t := s.maint.next, Apply(s, ScanPage);
            && p < |s.pages| == |t.pages|
            && (!Spare(s.pages[p]) ==> t == s.(maint := t.maint))
            && (Spare(s.pages[p]) ==>
                  && t.pages[p].free && t.pageFree == s.pageFree + 1
                  && (forall q :: 0 <= q < |s.pages| && q != p ==> t.pages[q] == s.pages[q])
                  && var home := s.pages[p].freeBucket;
                     if home == 0 then t.freelist == [p] + s.freelist && t.freeBuckets == s.freeBuckets
                     else home < |s.freeBuckets| && t.freelist == s.freelist
                          && t.freeBuckets == s.freeBuckets[home := [p] + s.freeBuckets[home]])
  {
    InBucketRange(s, s.maint.next);
    hide Valid;
  }

  lemma VisitKeeps(run: seq<State>, events: seq<Event>, i: nat, k: nat)
    requires |run| == |events| + 1 && i < k < |events| && events[k] == ScanPage && Valid(run[k])
    requires Enabled(run[k], ScanPage) && Noted(run, events, i, k, run[k].maint)
    ensures Noted(run, events, i, k + 1, MaintPage(run[k]).maint)
  {
    VisitNotes(run[k]);
    hide Valid, MaintPage, Spare, Evictable, Visited, Enabled;
    VisitedStep(events, i, k);
    var m, m', pg := run[k].maint, MaintPage(run[k]).maint, run[k].pages[run[k].maint.next];
    assert Visits(run, events, i, k) && PageAt(run, events, i, k) == pg;
    assert Freed(run, events, i, k + 1, k) <==> Spare(pg);
    assert Candidate(run, events, i, k + 1, k) <==> Evictable(pg);
    EarlierVisits(run, events, i, k);
    hide Candidate, Freed, PageAt, Needed, Nothing;
    if m.low.Some? {
      var l :| LowAt(run, events, i, k, m, l);
      if m' == m.(next := m'.next, evict := m'.evict) {
        OldestStays(run, events, i, k, l);
        assert LowAt(run, events, i, k + 1, m', l);
      } else {
        NewOldest(run, events, i, k, l);
        assert LowAt(run, events, i, k + 1, m', k);
      }
    } else if m'.low.Some? {
      FirstOldest(run, events, i, k);
      assert LowAt(run, events, i, k + 1, m', k);
    }
  }

  lemma FirstOldest(run: seq<State>, events: seq<Event>, i: nat, k: nat)
    requires Nothing(run, events, i, k) && Candidate(run, events, i, k + 1, k)
    ensures Oldest(run, events, i, k + 1, k)
  {
    forall m | Candidate(run, events, i, k + 1, m)
      ensures PageAt(run, events, i, k).version <= PageAt(run, events, i, m).version
    {
      assert !Candidate(run, events, i, k, m) && m == k;
    }
  }

  lemma NewOldest(run: seq<State>, events: seq<Event>, i: nat, k: nat, l: nat)
    requires Oldest(run, events, i, k, l) && Candidate(run, events, i, k + 1, k)
    requires PageAt(run, events, i, k).version < PageAt(run, events, i, l).version
    ensures Oldest(run, events, i, k + 1, k)
  {
    forall m | Candidate(run, events, i, k + 1, m)
      ensures PageAt(run, events, i, k).version <= PageAt(run, events, i, m).version
    {
      assert m == k || Candidate(run, events, i, k, m);
    }
  }

  /** Whether anything was found changes with the event just past at most. */
  lemma EarlierVisits(run: seq<State>, events: seq<Event>, i: nat, k: nat)
    requires i < |run|
    ensures Needed(run, events, i, k + 1) <==> Needed(run, events, i, k) && !Freed(run, events, i, k + 1, k)
    ensures Nothing(run, events, i, k + 1) <==> Nothing(run, events, i, k) && !Candidate(run, events, i, k + 1, k)
  {
    var n := k + 1;
    if Needed(run, events, i, k) && !Freed(run, events, i, n, k) {
      forall l ensures !Freed(run, events, i, n, l) { assert !Freed(run, events, i, k, l); }
    } else if Needed(run, events, i, k + 1) {
      forall l ensures !Freed(run, events, i, k, l) { FoundLater(run, events, i, k, l); }
    }
    if Nothing(run, events, i, k) && !Candidate(run, events, i, k + 1, k) {
      forall l ensures !Candidate(run, events, i, n, l) { assert !Candidate(run, events, i, k, l); }
    } else if Nothing(run, events, i, k + 1) {
      forall l ensures !Candidate(run, events, i, k, l) { FoundLater(run, events, i, k, l); }
    }
  }

  lemma FoundLater(run: seq<State>, events: seq<Event>, i: nat, k: nat, l: nat)
    ensures Freed(run, events, i, k, l) ==> Freed(run, events, i, k + 1, l)
    ensures Candidate(run, events, i, k, l) ==> Candidate(run, events, i, k + 1, l)
  {
  }

  // ----------------------------------------------------------------------------- the whole scan

  lemma {:induction false} ScanNotes(run: seq<State>, events: seq<Event>, i: nat, j: nat, k: nat)
    requires IsRun(run, events) && OneScan(events, i, j) && i < k <= j
    ensures Noted(run, events, i, k, run[k].maint)
    decreases k
  {
    hide Valid, Apply, Enabled, Noted, MaintPage, MaintEvict, MaintStart;
    var h := k - 1;
    RunValid(run, events, h);
    assert StepOf(run[h], events[h], run[k]);
    if h == i {
      ScanStarts(run, events, i);
      StartApplied(run[i]);
    } else {
      ScanNotes(run, events, i, j, h);
      if events[h] == ScanPage {
        VisitKeeps(run, events, i, h);
        ScanApplied(run[h]);
      } else {
        MaintStays(run[h], events[h]);
        NotVisited(run, events, i, h, run[h].maint);
      }
    }
  }

  lemma StartApplied(s: State)
    requires Valid(s) && Enabled(s, StartScan)
    ensures Apply(s, StartScan) == MaintStart(s)
  {
  }

  lemma ScanApplied(s: State)
    requires Valid(s) && Enabled(s, ScanPage)
    ensures Apply(s, ScanPage) == MaintPage(s)
  {
  }

  lemma EvictApplied(s: State)
    requires Valid(s) && Enabled(s, Evict)
    ensures Apply(s, Evict) == MaintEvict(s) && s.maint.Scanning? && s.maint.next == |s.pages|
  {
  }

  /** Page p goes, if it is not closed already: it is closed, and freed at once if nobody reads it.
      Nothing happens to any other page. */
  predicate GivesUp(s: State, s': State, p: nat) {
    && p < |s.pages| == |s'.pages|
    && (forall q :: 0 <= q < |s.pages| && q != p ==> s'.pages[q] == s.pages[q])
    && (if s.pages[p].closed then s' == s.(maint := Waiting)
        else if s.pages[p].refcount > 0 then s'.pages[p] == s.pages[p].(closed := true)
        else s'.pages[p].free && s'.pageFree == s.pageFree + 1 && p in s'.freelist)
  }

  lemma EvictGivesUp(s: State)
    requires Valid(s) && Enabled(s, Evict)
    ensures !s.maint.evict || s.maint.low.None? ==> MaintEvict(s) == s.(maint := Waiting)
    ensures s.maint.evict && s.maint.low.Some? ==>
              && GivesUp(s, MaintEvict(s), s.maint.low.value)
              && s.pages[s.maint.low.value].version == s.maint.lowVersion && !s.pages[s.maint.low.value].free
              && !s.pages[s.maint.low.value].active
  {
    MaintFacts(s);
    if s.maint.low.Some? { InBucketRange(s, s.maint.low.value); }
    hide Valid;
  }

  /** The eviction at the end of a scan, in every run. If there was no page to write to when the scan
      began, and it came by none it could free, then the page is closed that has the lowest version
      of all in use and full that it came by; otherwise nothing happens. The scan has visited every
      page, and the page given up is still the one it visited. */
  lemma OldestIsEvicted(run: seq<State>, events: seq<Event>, i: nat, j: nat)
    requires IsRun(run, events) && OneScan(events, i, j)
    ensures Visited(events, i, j) == |run[j].pages|
    ensures !Needed(run, events, i, j) || Nothing(run, events, i, j) ==>
              run[j + 1] == run[j].(maint := Waiting)
    ensures Needed(run, events, i, j) && !Nothing(run, events, i, j) ==>
              exists l :: Oldest(run, events, i, j, l) && GivesUpVisited(run, events, i, j, l)
  {
    hide Valid, Apply, Enabled, MaintEvict, Candidate, Needed, GivesUp, Visited, PageAt;
    RunValid(run, events, j);
    assert StepOf(run[j], events[j], run[j + 1]);
    ScanNotes(run, events, i, j, j);
    EvictApplied(run[j]);
    EvictGivesUp(run[j]);
    var m := run[j].maint;
    if m.evict && m.low.Some? {
      var l :| LowAt(run, events, i, j, m, l);
      OldestVisits(run, events, i, j, l);
      assert GivesUpVisited(run, events, i, j, l);
    }
  }

  /** Event j gives up the page that event l visited, under the version it had then. */
  ghost predicate GivesUpVisited(run: seq<State>, events: seq<Event>, i: nat, j: nat, l: nat)
    requires |run| == |events| + 1 && j < |events|
  {
    && Visits(run, events, i, l)
    && GivesUp(run[j], run[j + 1], Visited(events, i, l))
    && run[j].pages[Visited(events, i, l)].version == PageAt(run, events, i, l).version
    && !run[j].pages[Visited(events, i, l)].free && !run[j].pages[Visited(events, i, l)].active
  }

  lemma OldestVisits(run: seq<State>, events: seq<Event>, i: nat, k: nat, l: nat)
    requires Oldest(run, events, i, k, l)
    ensures Candidate(run, events, i, k, l) && Visits(run, events, i, l)
  {
  }
}
