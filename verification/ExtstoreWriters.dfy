/** extstore.c: several threads writing to one bucket.  A writer that found the page of its bucket
    full allocates a new one in a second critical section, and _allocate_page asserts that the
    head of the bucket is full.  When another writer has allocated a page in between, it is not,
    and the process stops. */
module ExtstoreWriters {
  import opened Basics
  import opened Counting
  import opened ExtstoreModel
  import opened ExtstoreLists
  import opened ExtstoreSteps
  import opened ExtstoreRuns
  import opened ExtstoreTheorems

  // ------------------------------------------------------------------- the second allocation

  /** Right after an allocation the assertion holds exactly if there was no page to allocate. */
  lemma SecondAllocation(s: State, b: nat, fb: nat)
    requires Valid(s) && b < s.cfg.bucketCount && fb < s.cfg.bucketCount && MayAllocate(s.cfg, s.pages, s.buckets[b])
    ensures FreeInRange(s)
    ensures var s1 := AllocatePage(s, b, fb).0;
            b < |s1.buckets| && (MayAllocate(s1.cfg, s1.pages, s1.buckets[b]) <==> TakeFree(s, fb).1.None?)
  {
    FreeInRangeOf(s);
    if TakeFree(s, fb).1.Some? {
      AllocateKeepsLists(s, b, fb);
      assert PageOk(s.cfg, s.pages[TakeFree(s, fb).1.value]);
    }
    hide Valid, FreeInRange, ListsOk;
  }

  /** Two writers of one bucket that have both found its head full: the second to allocate stops
      the process exactly if the first got a page. */
  lemma TwoAllocations(s: State, u: nat, w: nat)
    requires Valid(s) && !s.stopped && u < |s.writers| && w < |s.writers| && u != w
    requires s.writers[u].MustAllocate? && s.writers[w].MustAllocate? && s.writers[u].bucket == s.writers[w].bucket
    requires s.writers[u].bucket < |s.buckets| && MayAllocate(s.cfg, s.pages, s.buckets[s.writers[u].bucket])
    requires s.writers[u].freeBucket < |s.freeBuckets|
    ensures var s1 := Apply(s, AllocateAfterFull(u));
            && Valid(s1) && Enabled(s1, AllocateAfterFull(w))
            && (Apply(s1, AllocateAfterFull(w)).stopped <==> TakeFree(s, s.writers[u].freeBucket).1.Some?)
  {
    hide Valid, MayAllocate, FreeInRange, WriteAllocate, TakeFree, AllocatePage;
    WriterFacts(s, u);
    StepKeeps(s, AllocateAfterFull(u));
    SecondAllocation(s, s.writers[u].bucket, s.writers[u].freeBucket);
    AllocateIs(s, u);
    var s1 := Apply(s, AllocateAfterFull(u));
    WriterFacts(s1, w);
    AllocateIs(s1, w);
  }

  /** What the second critical section of a writer does. */
  lemma AllocateIs(s: State, u: nat)
    requires Valid(s) && Enabled(s, AllocateAfterFull(u))
    ensures s.writers[u].bucket < |s.buckets| && s.writers[u].freeBucket < |s.freeBuckets| && FreeInRange(s)
    ensures !MayAllocate(s.cfg, s.pages, s.buckets[s.writers[u].bucket]) ==> WriteAllocate(s, u) == s.(stopped := true)
    ensures MayAllocate(s.cfg, s.pages, s.buckets[s.writers[u].bucket]) ==>
              var s1 := AllocatePage(s, s.writers[u].bucket, s.writers[u].freeBucket).0;
              WriteAllocate(s, u) == s1.(writers := s.writers[u := Idle]) && !s1.stopped && s1.cfg == s.cfg
  {
    WriterFacts(s, u);
    hide Valid, FreeInRange, MayAllocate;
  }

  // ------------------------------------------------------------------ a run that stops

  /** The head of bucket b takes no more. */
  ghost predicate HeadDone(s: State, b: nat) {
    && Valid(s) && !s.stopped && b < s.cfg.bucketCount && b < |s.buckets| && s.buckets[b] != []
       && s.buckets[b][0] < |s.pages|
    && (s.pages[s.buckets[b][0]].wbuf.Some? ==> s.pages[s.buckets[b][0]].wbuf.value < |s.wbufs|)
    && TakesNoMore(s, s.buckets[b][0])
  }

  lemma BeginsOnHead(s: State, u: nat, b: nat, fb: nat)
    requires HeadDone(s, b) && u < |s.writers| && s.writers[u] == Idle && fb < s.cfg.bucketCount
    ensures var s1 := s.(writers := s.writers[u := HasPage(b, fb, s.buckets[b][0])]);
            HeadDone(s1, b) && StepOf(s, BeginWrite(u, b, fb), s1)
  {
    hide Valid;
    StepKeeps(s, BeginWrite(u, b, fb));
  }

  lemma FindsItFull(s: State, u: nat, b: nat, fb: nat, data: seq<Byte>, t: nat)
    requires HeadDone(s, b) && u < |s.writers| && s.writers[u] == HasPage(b, fb, s.buckets[b][0]) && t < |s.threads|
             && |data| > 0
    ensures var s1 := s.(writers := s.writers[u := MustAllocate(b, fb)]);
            HeadDone(s1, b) && StepOf(s, AttemptWrite(u, data, t), s1)
  {
    hide Valid, AttemptOnPage;
    StepKeeps(s, AttemptWrite(u, data, t));
  }

  lemma BothAllocate(s: State, u: nat, w: nat, b: nat, fb: nat)
    requires HeadDone(s, b) && u < |s.writers| && w < |s.writers| && u != w
    requires s.writers[u] == MustAllocate(b, fb) && s.writers[w] == MustAllocate(b, fb)
    ensures fb < |s.freeBuckets|
    ensures var s1 := Apply(s, AllocateAfterFull(u));
            && Valid(s1) && Enabled(s1, AllocateAfterFull(w)) && StepOf(s, AllocateAfterFull(u), s1)
            && (Apply(s1, AllocateAfterFull(w)).stopped <==> TakeFree(s, fb).1.Some?)
  {
    hide Valid, MayAllocate, FreeInRange, WriteAllocate, TakeFree, TakesNoMore;
    HeadIsFull(s, b);
    WriterFacts(s, u);
    TwoAllocations(s, u, w);
  }

  /** From any state with two writers at rest and a bucket whose head takes no more: both find the
      head full, both allocate, and the process stops exactly if there is a page to be had. */
  lemma OvertakenWriterStops(s: State, u: nat, w: nat, b: nat, fb: nat, data: seq<Byte>, t: nat)
    returns (run: seq<State>, events: seq<Event>)
    requires HeadDone(s, b) && u < |s.writers| && w < |s.writers| && u != w && fb < s.cfg.bucketCount
    requires s.writers[u] == Idle && s.writers[w] == Idle && t < |s.threads| && |data| > 0
    ensures IsRun(run, events) && |events| == 6 && run[0] == s
    ensures fb < |s.freeBuckets| && (run[6].stopped <==> TakeFree(s, fb).1.Some?)
  {
    hide HeadDone, StepOf, Apply, Enabled, TakeFree;
    HeadFacts(s, b);
    var p := s.buckets[b][0];
    var s1 := s.(writers := s.writers[u := HasPage(b, fb, p)]);
    BeginsOnHead(s, u, b, fb);
    var s2 := s1.(writers := s1.writers[w := HasPage(b, fb, p)]);
    BeginsOnHead(s1, w, b, fb);
    var s3 := s2.(writers := s2.writers[u := MustAllocate(b, fb)]);
    FindsItFull(s2, u, b, fb, data, t);
    var s4 := s3.(writers := s3.writers[w := MustAllocate(b, fb)]);
    FindsItFull(s3, w, b, fb, data, t);
    HeadFacts(s4, b);
    CanAllocate(s4, u, b, fb);
    BothAllocate(s4, u, w, b, fb);
    var s5 := Apply(s4, AllocateAfterFull(u));
    var s6 := Apply(s5, AllocateAfterFull(w));
    SameFree(s, s4, fb);
    run := [s, s1, s2, s3, s4, s5, s6];
    events := [BeginWrite(u, b, fb), BeginWrite(w, b, fb), AttemptWrite(u, data, t), AttemptWrite(w, data, t),
               AllocateAfterFull(u), AllocateAfterFull(w)];
    LastStep(s5, AllocateAfterFull(w));
    SixSteps(run, events);
  }

  lemma SixSteps(run: seq<State>, events: seq<Event>)
    requires |events| == 6 && |run| == 7 && Valid(run[0])
    requires StepOf(run[0], events[0], run[1]) && StepOf(run[1], events[1], run[2]) && StepOf(run[2], events[2], run[3])
    requires StepOf(run[3], events[3], run[4]) && StepOf(run[4], events[4], run[5]) && StepOf(run[5], events[5], run[6])
    ensures IsRun(run, events)
  {
    hide Valid, StepOf;
  }

  lemma HeadFacts(s: State, b: nat)
    requires HeadDone(s, b)
    ensures Valid(s) && b < |s.buckets| && s.buckets[b] != []
  {
  }

  lemma CanAllocate(s: State, u: nat, b: nat, fb: nat)
    requires HeadDone(s, b) && u < |s.writers| && s.writers[u] == MustAllocate(b, fb)
    ensures Enabled(s, AllocateAfterFull(u))
  {
  }

  lemma LastStep(s: State, e: Event)
    requires Valid(s) && Enabled(s, e)
    ensures StepOf(s, e, Apply(s, e))
  {
  }

  lemma SameFree(s: State, s1: State, fb: nat)
    requires s1.freelist == s.freelist && s1.freeBuckets == s.freeBuckets && fb < |s.freeBuckets|
    ensures TakeFree(s1, fb).1 == TakeFree(s, fb).1
  {
  }

  lemma HeadIsFull(s: State, b: nat)
    requires HeadDone(s, b)
    ensures MayAllocate(s.cfg, s.pages, s.buckets[b])
  {
    PageIsFull(s, b, s.buckets[b][0]);
  }

  /** A page of a bucket that takes no more is full. */
  lemma PageIsFull(s: State, b: nat, p: nat)
    requires Valid(s) && b < |s.buckets| && p in s.buckets[b] && p < |s.pages|
    requires !s.pages[p].active || s.pages[p].allotted >= s.cfg.pageSize
    ensures Full(s.cfg, s.pages, p)
  {
    hide WbufsOk, IosOk, WritesDistinct, IoCounts, ThreadsOk, ReadersOk, DataOk, FlushesOk, MaintOk, BlocksOk,
         WritersOk;
    assert PageOk(s.cfg, s.pages[p]);
    assert BucketListOk(s.buckets[b], s.pages, b);
    assert OnBucket(s.pages, b, p);
  }

  // ----- such a run exists

  const SMALL := Config(1, 1, 1, 1, 1)

  /** Three pages of one byte, one write buffer, one IO thread, two writers. */
  function SmallStart(): State {
    Init(SMALL, [0, 0, 0], [[0], [0], [0]], [[0]], 1, 2)
  }

  /** A page of the small store in use. */
  function SmallPage(allotted: nat, wbuf: Option<nat>, objects: nat): Page {
    Page(1, 0, allotted, 0, 0, 0, true, false, false, wbuf, objects, objects)
  }

  function SmallState(writer: Writer, page: Page, wbuf: Wbuf, wbufStack: seq<nat>, io: ObjIo, ioStack: seq<nat>,
                      queue: seq<Io>, written: map<Addr, seq<Byte>>): State {
    State(SMALL, [FreshPage(0), page, FreshPage(0)], [[0], [0], [0]], [2], [[]], [[1]], 1, 2, [wbuf], wbufStack, [io],
          ioStack, [IoThread(queue, |queue|, [], Ready)], [writer, Idle], Waiting, false, written)
  }

  lemma SmallStartIs()
    ensures InitOk(SMALL, [0, 0, 0], [[0], [0], [0]], [[0]])
    ensures SmallStart() == State(SMALL, [FreshPage(0), FreshPage(0), FreshPage(0)], [[0], [0], [0]], [1, 2], [[]],
                                  [[]], 2, 1, [Wbuf([0], 1, 0, false)], [0], [ObjIo(0, 0, 0)], [0],
                                  [IoThread([], 0, [], Ready)], [Idle, Idle], Waiting, false, map[])
  {
    assert Multiple(1, 1) by { assert Multiple(0, 1); }
    var l3, l2 := ListsFrom([0, 0, 0], 1, 3), ListsFrom([0, 0, 0], 1, 2);
    assert l3.0 == [] && l3.1 == [[]];
    assert l2.0 == [2] && l2.1 == [[]];
    assert ListsFrom([0, 0, 0], 1, 1).0 == [1, 2] && ListsFrom([0, 0, 0], 1, 1).1 == [[]];
  }

  const STORED: map<Addr, seq<Byte>> := map[Addr(1, 1, 0, 1) := [7]]

  function Small1(): State {
    SmallState(HasPage(0, 0, 1), SmallPage(0, None, 0), Wbuf([0], 1, 0, false), [0], ObjIo(0, 0, 0), [0], [], map[])
  }

  function Small2(writer: Writer): State {
    SmallState(writer, SmallPage(1, Some(0), 1), Wbuf([7], 0, 0, false), [], ObjIo(0, 0, 0), [0], [], STORED)
  }

  function Small4(): State {
    SmallState(Idle, SmallPage(1, Some(0), 1), Wbuf([7], 0, 0, true), [], ObjIo(1, 0, 0), [], [WriteIo(0)], STORED)
  }

  lemma SmallStep1(s: State)
    requires s == SmallStart() && Valid(s)
    ensures Enabled(s, BeginWrite(0, 0, 0)) && Apply(s, BeginWrite(0, 0, 0)) == Small1()
  {
    hide Valid, FreeInRange, SmallStart;
    SmallStartIs();
    WriterFacts(s, 0);
    assert s.buckets[0] == [] && MayAllocate(s.cfg, s.pages, s.buckets[0]);
    var taken := TakeFree(s, 0);
    assert taken.1 == Some(1) && taken.0.freelist == [2];
    var s1 := Apply(s, BeginWrite(0, 0, 0));
    assert [1] + s.buckets[0] == [1] && s1.pages == Small1().pages;
    assert s1.freelist == [2] && s1.buckets == [[1]] && s1.writers == Small1().writers;
  }

  lemma SmallStep2(s: State)
    requires s == Small1() && Valid(s)
    ensures Enabled(s, AttemptWrite(0, [7], 0)) && Apply(s, AttemptWrite(0, [7], 0)) == Small2(Idle)
  {
    hide Valid;
    WbufInRange(s);
    var t := AllocateWbuf(s, 1);
    assert t.pages == [FreshPage(0), SmallPage(1, Some(0), 0), FreshPage(0)] && t.wbufs == [Wbuf([0], 1, 0, false)]
           && t.wbufStack == [];
    assert HasRoom(t, 1, 1) && NextAddr(t, 1, 1) == Addr(1, 1, 0, 1);
    assert Splice([0], 0, [7]) == [7];
    var s1 := StoreObject(t, 1, [7]);
    assert s1.pages == Small2(Idle).pages && s1.wbufs == Small2(Idle).wbufs && s1.written == STORED;
    assert s.writers[0 := Idle] == [Idle, Idle];
  }

  lemma SmallStep3(s: State)
    requires s == Small2(Idle) && Valid(s)
    ensures Enabled(s, BeginWrite(0, 0, 0)) && Apply(s, BeginWrite(0, 0, 0)) == Small2(HasPage(0, 0, 1))
  {
    hide Valid, FreeInRange;
    WriterFacts(s, 0);
    assert s.writers[0 := HasPage(0, 0, 1)] == [HasPage(0, 0, 1), Idle];
  }

  lemma SmallStep4(s: State)
    requires s == Small2(HasPage(0, 0, 1)) && Valid(s)
    ensures Enabled(s, AttemptWrite(0, [7], 0)) && Apply(s, AttemptWrite(0, [7], 0)) == Small4()
  {
    hide Valid;
    assert Zeroed([7], 0) == [7];
    var t := SubmitWbuf(s, 1, 0);
    assert t.wbufs == Small4().wbufs && t.ios == [ObjIo(1, 0, 0)] && t.ioStack == [];
    assert t.threads[0].queue == [WriteIo(0)];
    assert t.threads == Small4().threads;
    assert s.writers[0 := Idle] == [Idle, Idle];
  }

  /** From initialisation on, two writers of one bucket can bring the process to a stop. */
  lemma StopIsReachable() returns (run: seq<State>, events: seq<Event>)
    ensures IsRun(run, events) && run[0] == SmallStart() && run[|events|].stopped
  {
    hide Valid, Apply, Enabled;
    SmallStartIs();
    InitValid(SMALL, [0, 0, 0], [[0], [0], [0]], [[0]], 1, 2);
    var s0, s1, s2, s3, s4 := SmallStart(), Small1(), Small2(Idle), Small2(HasPage(0, 0, 1)), Small4();
    SmallStep1(s0);
    StepKeeps(s0, BeginWrite(0, 0, 0));
    SmallStep2(s1);
    StepKeeps(s1, AttemptWrite(0, [7], 0));
    SmallStep3(s2);
    StepKeeps(s2, BeginWrite(0, 0, 0));
    SmallStep4(s3);
    StepKeeps(s3, AttemptWrite(0, [7], 0));
    assert HeadDone(s4, 0);
    var run', events' := OvertakenWriterStops(s4, 0, 1, 0, 0, [7], 0);
    run := [s0, s1, s2, s3] + run';
    events := [BeginWrite(0, 0, 0), AttemptWrite(0, [7], 0), BeginWrite(0, 0, 0), AttemptWrite(0, [7], 0)] + events';
    forall i | 0 <= i < |events| ensures StepOf(run[i], events[i], run[i + 1]) {
      if i >= 4 { assert StepOf(run'[i - 4], events'[i - 4], run'[i - 3]); }
    }
  }

  // --------------------------------------------------- a writer that nobody overtakes

  /** The page a writer holds is the head of its bucket, or the head is full; once it has found
      its page full, the head is. */
  predicate Entitled(c: Config, pages: seq<Page>, buckets: seq<seq<nat>>, w: Writer) {
    && (w.HasPage? && w.bucket < |buckets| ==>
          MayAllocate(c, pages, buckets[w.bucket]) || buckets[w.bucket][0] == w.page)
    && (w.MustAllocate? && w.bucket < |buckets| ==> MayAllocate(c, pages, buckets[w.bucket]))
  }

  ghost predicate EntitledIn(s: State, u: nat) {
    u < |s.writers| && Entitled(s.cfg, s.pages, s.buckets, s.writers[u])
  }

  /** Another writer is given a page of the bucket that u is writing to. */
  ghost predicate Overtakes(s: State, e: Event, u: nat)
    requires Valid(s) && Enabled(s, e)
  {
    && (e.BeginWrite? || e.AllocateAfterFull?) && e.writer != u && u < |s.writers| && !s.writers[u].Idle?
    && BucketOf(s, e) == s.writers[u].bucket && GivesOut(s, e)
  }

  /** The event takes a page off a free list. */
  ghost predicate GivesOut(s: State, e: Event)
    requires Valid(s) && Enabled(s, e) && (e.BeginWrite? || e.AllocateAfterFull?)
  {
    WriterFacts(s, e.writer);
    var b := BucketOf(s, e);
    && (if e.BeginWrite? then s.buckets[b] == [] else MayAllocate(s.cfg, s.pages, s.buckets[b]))
    && TakeFree(s, HomeOf(s, e)).1.Some?
  }

  lemma FullStays(c: Config, pages: seq<Page>, pages': seq<Page>, buckets: seq<seq<nat>>, w: Writer)
    requires Entitled(c, pages, buckets, w) && |pages'| == |pages|
    requires forall q: nat :: Full(c, pages, q) ==> Full(c, pages', q)
    ensures Entitled(c, pages', buckets, w)
  {
  }

  lemma LocalKeepsFull(s: State, e: Event)
    requires EnabledLocal(s, e)
    ensures var s1 := ApplyLocal(s, e);
            && s1.cfg == s.cfg && s1.buckets == s.buckets && s1.writers == s.writers && |s1.pages| == |s.pages|
            && forall q :: 0 <= q < |s.pages| ==> s1.pages[q].allotted == s.pages[q].allotted
  {
  }

  lemma AttemptKeepsFull(s: State, u: nat, data: seq<Byte>, t: nat)
    requires Valid(s) && Enabled(s, AttemptWrite(u, data, t))
    ensures var s1 := WriteAttempt(s, u, data, t);
            && s1.cfg == s.cfg && s1.buckets == s.buckets && |s1.pages| == |s.pages|
            && (forall v :: 0 <= v < |s.writers| && v != u ==> v < |s1.writers| && s1.writers[v] == s.writers[v])
            && forall q: nat :: Full(s.cfg, s.pages, q) ==> Full(s.cfg, s1.pages, q)
  {
    hide Valid, FreeInRange;
    var q := s.writers[u].page;
    WriterFacts(s, u);
    BufferInRange(s, q);
    if !TakesNoMore(s, q) {
      if s.pages[q].wbuf.Some? && !InFlight(s.pages[q], s.wbufs) { IoFacts(s, q); }
      StackFacts(s);
    }
  }

  lemma IoFacts(s: State, q: nat)
    requires Valid(s) && q < |s.pages| && s.pages[q].wbuf.Some? && !InFlight(s.pages[q], s.wbufs)
    ensures s.ioStack != [] && s.ioStack[0] < |s.ios|
  {
    IoAvailable(s, q);
  }

  lemma StackFacts(s: State)
    requires Valid(s)
    ensures s.wbufStack != [] ==> s.wbufStack[0] < |s.wbufs|
  {
    WbufInRange(s);
  }

  /** The writer's own step: its page is full when it takes no more. */
  lemma OwnAttempt(s: State, u: nat, data: seq<Byte>, t: nat)
    requires Valid(s) && Enabled(s, AttemptWrite(u, data, t)) && EntitledIn(s, u)
    ensures EntitledIn(WriteAttempt(s, u, data, t), u)
  {
    WriterFacts(s, u);
    var w := s.writers[u];
    var p, b := w.page, w.bucket;
    BufferInRange(s, p);
    if TakesNoMore(s, p) {
      if s.buckets[b] != [] && s.buckets[b][0] == p {
        assert p in s.buckets[b];
        PageIsFull(s, b, p);
      }
    }
    hide Valid, FreeInRange, AttemptOnPage;
  }

  lemma HeadsInUse(s: State, b: nat, p: nat)
    requires Valid(s) && b < |s.buckets| && p < |s.pages| && s.pages[p].free
    ensures forall k :: 0 <= k < |s.buckets[b]| ==> s.buckets[b][k] != p
  {
    hide PagesOk, WbufsOk, IosOk, WritesDistinct, IoCounts, ThreadsOk, ReadersOk, DataOk, FlushesOk, MaintOk, BlocksOk,
         WritersOk;
    assert BucketListOk(s.buckets[b], s.pages, b);
    assert p !in s.buckets[b] by { assert !OnBucket(s.pages, b, p); }
    forall k | 0 <= k < |s.buckets[b]| ensures s.buckets[b][k] != p { assert s.buckets[b][k] in s.buckets[b]; }
  }

  /** A page given out to another bucket changes nothing in this one. */
  lemma OtherBucketGets(s: State, b: nat, fb: nat, w: Writer)
    requires Valid(s) && b < s.cfg.bucketCount && fb < s.cfg.bucketCount && MayAllocate(s.cfg, s.pages, s.buckets[b])
    requires Entitled(s.cfg, s.pages, s.buckets, w) && (!w.Idle? ==> w.bucket < |s.buckets|)
    requires w.Idle? || w.bucket != b || TakeFree(s, fb).1.None?
    ensures FreeInRange(s)
    ensures var s1 := AllocatePage(s, b, fb).0;
            s1.cfg == s.cfg && s1.writers == s.writers && Entitled(s1.cfg, s1.pages, s1.buckets, w)
  {
    FreeInRangeOf(s);
    if TakeFree(s, fb).1.Some? {
      TakesFree(s, b, fb);
      if !w.Idle? { HeadsInUse(s, w.bucket, TakeFree(s, fb).1.value); }
    }
    hide Valid, FreeInRange;
  }

  lemma WriterStepEntitled(s: State, e: Event, u: nat)
    requires Valid(s) && (e.BeginWrite? || e.AllocateAfterFull?) && Enabled(s, e) && EntitledIn(s, u)
             && !Overtakes(s, e, u)
    ensures EntitledIn(Apply(s, e), u)
  {
    WriterFacts(s, e.writer);
    WriterFacts(s, u);
    var b, fb := BucketOf(s, e), HomeOf(s, e);
    var w := s.writers[u];
    if e.writer == u {
      if e.BeginWrite? { OwnBegin(s, u, b, fb); } else { OwnAllocate(s, u); }
    } else if e.BeginWrite? && s.buckets[b] != [] {
    } else if MayAllocate(s.cfg, s.pages, s.buckets[b]) {
      OtherBucketGets(s, b, fb, w);
      hide Valid, FreeInRange, AllocatePage, MayAllocate, Entitled;
    }
  }

  lemma OwnBegin(s: State, u: nat, b: nat, fb: nat)
    requires Valid(s) && Enabled(s, BeginWrite(u, b, fb))
    ensures EntitledIn(WriteBegin(s, u, b, fb), u)
  {
    WriterFacts(s, u);
    if s.buckets[b] == [] && TakeFree(s, fb).1.Some? { TakesFree(s, b, fb); }
    hide Valid, FreeInRange;
  }

  lemma OwnAllocate(s: State, u: nat)
    requires Valid(s) && Enabled(s, AllocateAfterFull(u)) && EntitledIn(s, u)
    ensures EntitledIn(WriteAllocate(s, u), u)
  {
    WriterFacts(s, u);
    hide Valid, FreeInRange;
  }

  lemma FreedKeepsEntitled(s: State, q: nat, w: Writer)
    requires Valid(s) && q < |s.pages| && !s.pages[q].free && !s.pages[q].active
    requires s.pages[q].bucket < |s.buckets| && s.pages[q].freeBucket < |s.freeBuckets|
    requires Entitled(s.cfg, s.pages, s.buckets, w) && (!w.Idle? ==> w.bucket < |s.buckets|)
    ensures Entitled(s.cfg, FreePage(s, q).pages, FreePage(s, q).buckets, w)
  {
    hide Valid, BelowHeadFull, RemoveFirst;
    if !w.Idle? {
      BucketFacts(s, w.bucket, q);
      var l, pg := s.buckets[w.bucket], FreePage(s, q).pages[q];
      if w.bucket == s.pages[q].bucket {
        FreeBelowHead(s.cfg, s.pages, l, q, pg);
        HeadAfterRemoval(s.cfg, s.pages, l, q, pg);
      }
    }
  }

  lemma BucketFacts(s: State, b: nat, q: nat)
    requires Valid(s) && b < |s.buckets| && q < |s.pages|
    ensures NoDup(s.buckets[b]) && BelowHeadFull(s.cfg, s.pages, s.buckets[b])
    ensures b != s.pages[q].bucket ==> forall k :: 0 <= k < |s.buckets[b]| ==> s.buckets[b][k] != q
  {
    hide PagesOk, WbufsOk, IosOk, WritesDistinct, IoCounts, ThreadsOk, ReadersOk, DataOk, FlushesOk, MaintOk, BlocksOk;
    assert BucketListOk(s.buckets[b], s.pages, b);
    if b != s.pages[q].bucket {
      forall k | 0 <= k < |s.buckets[b]| ensures s.buckets[b][k] != q { assert s.buckets[b][k] in s.buckets[b]; }
    }
  }

  /** Taking a page out of a bucket leaves the head, or brings up a page that is full. */
  lemma HeadAfterRemoval(c: Config, pages: seq<Page>, l: seq<nat>, q: nat, pg: Page)
    requires BelowHeadFull(c, pages, l) && NoDup(l) && q < |pages|
    ensures var r := RemoveFirst(l, q); l != [] ==> MayAllocate(c, pages[q := pg], r) || r[0] == l[0]
  {
    if |l| > 1 && l[0] == q { assert l[1] != l[0]; }
  }

  lemma MaintEntitled(s: State, e: Event, u: nat)
    requires Valid(s) && (e.ScanPage? || e.Evict?) && Enabled(s, e) && EntitledIn(s, u)
    ensures EntitledIn(Apply(s, e), u)
  {
    WriterFacts(s, u);
    var w := s.writers[u];
    if e.ScanPage? {
      var q := s.maint.next;
      InBucketRange(s, q);
      if Reclaimable(s.pages[q]) { FreedKeepsEntitled(s, q, w); }
      hide Valid, FreePage, Entitled;
      FreeWritersSame(s, q);
    } else if s.maint.evict && s.maint.low.Some? && !s.pages[s.maint.low.value].closed {
      EvictEntitled(s, u);
    }
  }

  lemma FreeWritersSame(s: State, q: nat)
    requires q < |s.pages| && s.pages[q].bucket < |s.buckets| && s.pages[q].freeBucket < |s.freeBuckets|
    ensures FreePage(s, q).writers == s.writers && FreePage(s, q).cfg == s.cfg
  {
  }

  lemma EvictEntitled(s: State, u: nat)
    requires Valid(s) && Enabled(s, Evict) && EntitledIn(s, u)
    requires s.maint.evict && s.maint.low.Some? && !s.pages[s.maint.low.value].closed
    ensures EntitledIn(MaintEvict(s), u)
  {
    WriterFacts(s, u);
    var p, w := s.maint.low.value, s.writers[u];
    assert MaintOk(s.pages, s.maint);
    InBucketRange(s, p);
    TouchKeeps(s, p, s.pages[p].(closed := true));
    var s0 := s.(pages := s.pages[p := s.pages[p].(closed := true)]);
    MaintMoves(s0, Waiting);
    var s1 := s0.(maint := Waiting);
    FullStays(s.cfg, s.pages, s1.pages, s.buckets, w);
    if s1.pages[p].refcount == 0 { FreedKeepsEntitled(s1, p, w); }
    hide Valid, FreePage, Entitled;
    FreeWritersSame(s1, p);
  }

  /** Whatever happens, a writer stays entitled to allocate as long as no other writer is given a
      page of its bucket. */
  lemma EntitledKeeps(s: State, e: Event, u: nat)
    requires Valid(s) && Enabled(s, e) && EntitledIn(s, u) && !Overtakes(s, e, u)
    ensures EntitledIn(Apply(s, e), u)
  {
    hide Valid, WriteBegin, WriteAttempt, WriteAllocate, MaintPage, MaintEvict, ApplyLocal, EnabledLocal, Entitled;
    match e
    case AttemptWrite(v, data, t) =>
      if v == u {
        OwnAttempt(s, u, data, t);
      } else {
        AttemptKeepsFull(s, v, data, t);
        FullStays(s.cfg, s.pages, Apply(s, e).pages, s.buckets, s.writers[u]);
      }
    case BeginWrite(_, _, _) => WriterStepEntitled(s, e, u);
    case AllocateAfterFull(_) => WriterStepEntitled(s, e, u);
    case ScanPage => MaintEntitled(s, e, u);
    case Evict => MaintEntitled(s, e, u);
    case _ =>
      LocalKeepsFull(s, e);
      FullStays(s.cfg, s.pages, Apply(s, e).pages, s.buckets, s.writers[u]);
  }

  // -------------------------------------------------------------------------- whole runs

  ghost predicate OvertakesAt(run: seq<State>, events: seq<Event>, i: nat, u: nat) {
    i < |events| && i < |run| && Valid(run[i]) && Enabled(run[i], events[i]) && Overtakes(run[i], events[i], u)
  }

  lemma {:induction false} EntitledSoFar(run: seq<State>, events: seq<Event>, j: nat, u: nat)
    requires IsRun(run, events) && j < |run| && EntitledIn(run[0], u)
    requires forall i: nat :: i < j ==> !OvertakesAt(run, events, i, u)
    ensures EntitledIn(run[j], u)
  {
    hide Valid, Apply, Enabled, Overtakes, EntitledIn;
    if j > 0 {
      EntitledSoFar(run, events, j - 1, u);
      RunValid(run, events, j - 1);
      assert StepOf(run[j - 1], events[j - 1], run[j]);
      assert !OvertakesAt(run, events, j - 1, u);
      EntitledKeeps(run[j - 1], events[j - 1], u);
    }
  }

  /** In every run, when the assertion of _allocate_page fails for a writer, another writer was
      given a page of its bucket before, while it was under way. */
  lemma OnlyOvertakenWritersStop(run: seq<State>, events: seq<Event>, j: nat, u: nat)
    requires IsRun(run, events) && j < |events| && EntitledIn(run[0], u)
    requires events[j] == AllocateAfterFull(u) && run[j + 1].stopped
    ensures exists i: nat :: i < j && OvertakesAt(run, events, i, u)
  {
    RunValid(run, events, j);
    assert StepOf(run[j], events[j], run[j + 1]);
    if forall i: nat :: i < j ==> !OvertakesAt(run, events, i, u) {
      EntitledSoFar(run, events, j, u);
      WriterFacts(run[j], u);
      hide Valid, FreeInRange;
      AllocationGoesOn(run[j], u);
    }
  }

  lemma AllocationGoesOn(s: State, u: nat)
    requires Valid(s) && Enabled(s, AllocateAfterFull(u)) && EntitledIn(s, u)
    ensures !WriteAllocate(s, u).stopped
  {
    WriterFacts(s, u);
    hide Valid, FreeInRange;
  }

  /** No two writers are under way in one bucket. */
  predicate OneWriterEach(s: State) {
    forall u, w :: 0 <= u < w < |s.writers| && !s.writers[u].Idle? && !s.writers[w].Idle? ==>
        s.writers[u].bucket != s.writers[w].bucket
  }

  /** With one writer to a bucket at a time the assertion never fails. */
  lemma OneWriterEachNeverStops(run: seq<State>, events: seq<Event>, j: nat, u: nat)
    requires IsRun(run, events) && j < |events| && events[j] == AllocateAfterFull(u) && EntitledIn(run[0], u)
    requires forall i :: 0 <= i < |run| ==> OneWriterEach(run[i])
    ensures !run[j + 1].stopped
  {
    hide Valid, Apply, Enabled, EntitledIn;
    if run[j + 1].stopped {
      OnlyOvertakenWritersStop(run, events, j, u);
      var i: nat :| i < j && OvertakesAt(run, events, i, u);
      assert StepOf(run[i], events[i], run[i + 1]);
      OvertakingMeansTwo(run[i], events[i], u);
    }
  }

  lemma OvertakingMeansTwo(s: State, e: Event, u: nat)
    requires Valid(s) && Enabled(s, e) && Overtakes(s, e, u)
    ensures !OneWriterEach(s) || !OneWriterEach(Apply(s, e))
  {
    hide Valid, FreeInRange;
    WriterFacts(s, e.writer);
    var b, fb := BucketOf(s, e), HomeOf(s, e);
    var v := e.writer;
    if e.AllocateAfterFull? {
      var x, y := if u < v then u else v, if u < v then v else u;
      assert s.writers[x].bucket == s.writers[y].bucket;
    } else {
      TakesFree(s, b, fb);
      var s1 := Apply(s, e);
      var x, y := if u < v then u else v, if u < v then v else u;
      assert s1.writers[x].bucket == s1.writers[y].bucket;
    }
  }
}
