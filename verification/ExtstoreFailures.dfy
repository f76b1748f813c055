/** extstore.c: runs, from initialisation on, in which a read over a page is answered with stale
    bytes, and in which a read stops the process. */
module ExtstoreFailures {
  import opened Basics
  import opened ExtstoreModel
  import opened ExtstoreRuns
  import opened ExtstoreTheorems
  import opened ExtstoreReads

  // -------------------------------------------------------------------------- runs by steps

  /** A run goes on with an enabled step. */
  lemma Goes(run: seq<State>, events: seq<Event>, e: Event, s: State) returns (run': seq<State>, events': seq<Event>)
    requires IsRun(run, events) && Valid(run[|events|]) && Enabled(run[|events|], e) && Apply(run[|events|], e) == s
    ensures IsRun(run', events') && run' == run + [s] && events' == events + [e] && run'[|events'|] == s && Valid(s)
  {
    hide Valid, Apply, Enabled;
    StepKeeps(run[|events|], e);
    run', events' := run + [s], events + [e];
    forall i | 0 <= i < |events'| ensures StepOf(run'[i], events'[i], run'[i + 1]) {
      if i < |events| { assert StepOf(run[i], events[i], run[i + 1]); }
    }
  }

  lemma Begins(s: State) returns (run: seq<State>, events: seq<Event>)
    requires Valid(s)
    ensures IsRun(run, events) && run == [s] && events == []
  {
    run, events := [s], [];
  }

  // ------------------------------------------------------------------ a read that stops

  /** Any open page, and any IO thread with nothing to do: asked for the first byte that has not been
      allotted to a buffer, the thread stops the process. */
  lemma BeyondAllottedStops(run: seq<State>, events: seq<Event>, p: nat, t: nat)
    returns (run': seq<State>, events': seq<Event>)
    requires IsRun(run, events) && Valid(run[|events|]) && !run[|events|].stopped && ReadyToFail(run[|events|], p, t)
    ensures IsRun(run', events') && |events'| == |events| + 3 && run'[0] == run[0] && run'[|events'|].stopped
  {
    hide Valid, Apply, Enabled, IsRun;
    RunLength(run, events);
    var s := run[|events|];
    var a := Addr(p, s.pages[p].version, s.pages[p].allotted, 1);
    var s1 := SubmitReads(s, t, [a]);
    AskStep(s, p, t, a);
    var r1, e1 := Goes(run, events, Submit(t, [a]), s1);
    var s2 := TakeBatch(s1, t);
    BatchStep(s1, t, a);
    var r2, e2 := Goes(r1, e1, Batch(t), s2);
    var s3 := ReadBegin(s2, t);
    StopStep(s2, t, a);
    run', events' := Goes(r2, e2, LockForRead(t), s3);
    RunLength(r1, e1);
    RunLength(r2, e2);
  }

  predicate ReadyToFail(s: State, p: nat, t: nat) {
    && p < |s.pages| && s.pages[p].active && !s.pages[p].free && !s.pages[p].closed
       && s.pages[p].allotted < s.cfg.pageSize
    && s.pages[p].written <= s.pages[p].allotted && t < |s.threads| && s.threads[t] == IoThread([], 0, [], Ready)
  }

  lemma RunLength(run: seq<State>, events: seq<Event>)
    requires IsRun(run, events)
    ensures |run| == |events| + 1
  {
  }

  lemma AskStep(s: State, p: nat, t: nat, a: Addr)
    requires Valid(s) && !s.stopped && ReadyToFail(s, p, t) && a == Addr(p, s.pages[p].version, s.pages[p].allotted, 1)
    ensures Enabled(s, Submit(t, [a])) && Apply(s, Submit(t, [a])) == SubmitReads(s, t, [a])
    ensures var s1 := SubmitReads(s, t, [a]);
            s1 == s.(threads := s1.threads) && |s1.threads| == |s.threads|
              && s1.threads[t] == IoThread([ReadIo(a)], 1, [], Ready)
  {
    hide Valid;
  }

  lemma BatchStep(s: State, t: nat, a: Addr)
    requires Valid(s) && !s.stopped && t < |s.threads| && s.threads[t] == IoThread([ReadIo(a)], 1, [], Ready)
    ensures Enabled(s, Batch(t)) && Apply(s, Batch(t)) == TakeBatch(s, t)
    ensures var s1 := TakeBatch(s, t);
            s1 == s.(threads := s1.threads) && |s1.threads| == |s.threads|
              && s1.threads[t] == IoThread([], 0, [ReadIo(a)], Ready)
  {
    hide Valid;
    assert [ReadIo(a)][..1] == [ReadIo(a)] && [ReadIo(a)][1..] == [];
  }

  lemma StopStep(s: State, t: nat, a: Addr)
    requires Valid(s) && !s.stopped && t < |s.threads| && s.threads[t] == IoThread([], 0, [ReadIo(a)], Ready)
             && a.page < |s.pages|
    requires var pg := s.pages[a.page];
             && pg.active && !pg.free && !pg.closed && pg.version == a.version && pg.written <= pg.allotted
                && a.offset == pg.allotted
    ensures Enabled(s, LockForRead(t)) && Apply(s, LockForRead(t)) == ReadBegin(s, t) && ReadBegin(s, t).stopped
  {
    hide Valid;
    ReadStopsExactly(s, t);
  }

  // ------------------------------------------------------------------------ the small store

  /** Pages of two bytes, write buffers of one. */
  const TINY := Config(2, 1, 1, 1, 1)

  const NOTHING: map<Addr, seq<Byte>> := map[]
  const FIRST: map<Addr, seq<Byte>> := map[Addr(1, 1, 0, 1) := [7]]
  const BOTH: map<Addr, seq<Byte>> := map[Addr(1, 1, 0, 1) := [7], Addr(1, 1, 1, 1) := [8]]
  const ACROSS := Addr(1, 1, 0, 2)

  /** Two pages, of which one can be used, one write buffer, one IO thread, one writer. */
  function TinyStart(): State {
    Init(TINY, [0, 0], [[0, 0], [0, 0]], [[0]], 1, 1)
  }

  function TinyPage(refcount: nat, allotted: nat, written: nat, wbuf: Option<nat>, objects: nat): Page {
    Page(1, refcount, allotted, written, 0, 0, true, false, false, wbuf, objects, objects)
  }

  function TinyState(page: Page, first: Byte, wbuf: Wbuf, wbufStack: seq<nat>, io: ObjIo, ioStack: seq<nat>,
                     th: IoThread, w: Writer, written: map<Addr, seq<Byte>>): State
  {
    State(TINY, [FreshPage(0), page], [[0, 0], [first, 0]], [], [[]], [[1]], 0, 2, [wbuf], wbufStack, [io], ioStack,
          [th], [w], Waiting, false, written)
  }

  const REST := IoThread([], 0, [], Ready)
  const HOLDS := HasPage(0, 0, 1)

  function Tiny1(): State {
    TinyState(TinyPage(0, 0, 0, None, 0), 0, Wbuf([0], 1, 0, false), [0], ObjIo(0, 0, 0), [0], REST, HOLDS, NOTHING)
  }

  function Tiny2(w: Writer): State {
    TinyState(TinyPage(0, 1, 0, Some(0), 1), 0, Wbuf([7], 0, 0, false), [], ObjIo(0, 0, 0), [0], REST, w, FIRST)
  }

  function Tiny4(first: Byte, th: IoThread): State {
    TinyState(TinyPage(0, 1, 0, Some(0), 1), first, Wbuf([7], 0, 0, true), [], ObjIo(1, 0, 0), [], th, Idle, FIRST)
  }

  function Tiny7(w: Writer): State {
    TinyState(TinyPage(0, 1, 1, None, 1), 7, Wbuf([7], 0, 0, true), [0], ObjIo(1, 0, 0), [0], REST, w, FIRST)
  }

  function Tiny9(refcount: nat, th: IoThread): State {
    TinyState(TinyPage(refcount, 2, 1, Some(0), 2), 7, Wbuf([8], 0, 1, false), [], ObjIo(1, 0, 0), [0], th, Idle, BOTH)
  }

  lemma TinyStartIs()
    ensures InitOk(TINY, [0, 0], [[0, 0], [0, 0]], [[0]])
    ensures TinyStart() == State(TINY, [FreshPage(0), FreshPage(0)], [[0, 0], [0, 0]], [1], [[]], [[]], 1, 1,
                                 [Wbuf([0], 1, 0, false)], [0], [ObjIo(0, 0, 0)], [0], [REST], [Idle], Waiting, false,
                                 NOTHING)
  {
    assert Multiple(2, 1) by { assert Multiple(1, 1) by { assert Multiple(0, 1); } }
    var l2 := ListsFrom([0, 0], 1, 2);
    assert l2.0 == [] && l2.1 == [[]];
    assert ListsFrom([0, 0], 1, 1).0 == [1] && ListsFrom([0, 0], 1, 1).1 == [[]];
  }

  lemma Tiny1Step(s: State)
    requires s == TinyStart() && Valid(s)
    ensures Enabled(s, BeginWrite(0, 0, 0)) && Apply(s, BeginWrite(0, 0, 0)) == Tiny1()
  {
    hide Valid, FreeInRange, TinyStart;
    TinyStartIs();
    WriterFacts(s, 0);
    assert s.buckets[0] == [] && MayAllocate(s.cfg, s.pages, s.buckets[0]);
    var taken := TakeFree(s, 0);
    assert taken.1 == Some(1) && taken.0.freelist == [];
    var s1 := Apply(s, BeginWrite(0, 0, 0));
    assert [1] + s.buckets[0] == [1] && s1.pages == Tiny1().pages;
    assert s1.freelist == [] && s1.buckets == [[1]] && s1.writers == Tiny1().writers;
  }

  lemma Tiny2Step(s: State)
    requires s == Tiny1() && Valid(s)
    ensures Enabled(s, AttemptWrite(0, [7], 0)) && Apply(s, AttemptWrite(0, [7], 0)) == Tiny2(Idle)
  {
    hide Valid;
    WbufInRange(s);
    var t := AllocateWbuf(s, 1);
    assert t.pages == [FreshPage(0), TinyPage(0, 1, 0, Some(0), 0)] && t.wbufs == [Wbuf([0], 1, 0, false)]
           && t.wbufStack == [];
    assert HasRoom(t, 1, 1) && NextAddr(t, 1, 1) == Addr(1, 1, 0, 1);
    assert Splice([0], 0, [7]) == [7];
    var s1 := StoreObject(t, 1, [7]);
    assert s1.pages == Tiny2(Idle).pages && s1.wbufs == Tiny2(Idle).wbufs && s1.written == FIRST;
    assert s.writers[0 := Idle] == [Idle];
  }

  lemma TinyBegin(s: State)
    requires Valid(s) && (s == Tiny2(Idle) || s == Tiny7(Idle))
    ensures Enabled(s, BeginWrite(0, 0, 0)) && Apply(s, BeginWrite(0, 0, 0)) == s.(writers := [HOLDS])
  {
    hide Valid, FreeInRange;
    WriterFacts(s, 0);
    assert s.writers[0 := HOLDS] == [HOLDS];
  }

  lemma Tiny4Step(s: State)
    requires s == Tiny2(HOLDS) && Valid(s)
    ensures Enabled(s, AttemptWrite(0, [8], 0))
            && Apply(s, AttemptWrite(0, [8], 0)) == Tiny4(0, IoThread([WriteIo(0)], 1, [], Ready))
  {
    hide Valid;
    var s1 := Tiny4(0, IoThread([WriteIo(0)], 1, [], Ready));
    assert Zeroed([7], 0) == [7];
    var t := SubmitWbuf(s, 1, 0);
    assert t.wbufs == s1.wbufs && t.ios == [ObjIo(1, 0, 0)] && t.ioStack == [];
    assert t.threads[0].queue == [WriteIo(0)];
    assert t.threads == s1.threads;
    assert s.writers[0 := Idle] == [Idle];
  }

  lemma Tiny5Step(s: State)
    requires s == Tiny4(0, IoThread([WriteIo(0)], 1, [], Ready)) && Valid(s)
    ensures Enabled(s, Batch(0)) && Apply(s, Batch(0)) == Tiny4(0, IoThread([], 0, [WriteIo(0)], Ready))
  {
    hide Valid;
    assert [WriteIo(0)][..1] == [WriteIo(0)] && [WriteIo(0)][1..] == [];
    var s1 := TakeBatch(s, 0);
    assert s1.threads == [IoThread([], 0, [WriteIo(0)], Ready)];
  }

  lemma Tiny6Step(s: State)
    requires s == Tiny4(0, IoThread([], 0, [WriteIo(0)], Ready)) && Valid(s)
    ensures Enabled(s, DiskWrite(0)) && Apply(s, DiskWrite(0)) == Tiny4(7, IoThread([], 0, [WriteIo(0)], Flushing))
  {
    hide Valid;
    assert Splice([0, 0], 0, [7]) == [7, 0];
    var s1 := Pwrite(s, 0);
    assert s1.disk == [[0, 0], [7, 0]] && s1.threads == [IoThread([], 0, [WriteIo(0)], Flushing)];
  }

  lemma Tiny7Step(s: State)
    requires s == Tiny4(7, IoThread([], 0, [WriteIo(0)], Flushing)) && Valid(s)
    ensures Enabled(s, Callback(0)) && Apply(s, Callback(0)) == Tiny7(Idle)
  {
    hide Valid;
    var s1 := FlushDone(s, 0);
    assert [WriteIo(0)][1..] == [];
    assert s1.pages == Tiny7(Idle).pages && s1.wbufStack == [0] && s1.ioStack == [0] && s1.threads == [REST];
  }

  lemma Tiny9Step(s: State)
    requires s == Tiny7(HOLDS) && Valid(s)
    ensures Enabled(s, AttemptWrite(0, [8], 0)) && Apply(s, AttemptWrite(0, [8], 0)) == Tiny9(0, REST)
  {
    hide Valid;
    WbufInRange(s);
    var t := AllocateWbuf(s, 1);
    assert t.pages == [FreshPage(0), TinyPage(0, 2, 1, Some(0), 1)] && t.wbufs == [Wbuf([7], 1, 1, false)]
           && t.wbufStack == [];
    assert HasRoom(t, 1, 1) && NextAddr(t, 1, 1) == Addr(1, 1, 1, 1);
    assert Splice([7], 0, [8]) == [8];
    var s1 := StoreObject(t, 1, [8]);
    assert s1.pages == Tiny9(0, REST).pages && s1.wbufs == Tiny9(0, REST).wbufs && s1.written == BOTH;
    assert s.writers[0 := Idle] == [Idle];
  }

  lemma Tiny10Step(s: State)
    requires s == Tiny9(0, REST) && Valid(s)
    ensures Enabled(s, Submit(0, [ACROSS]))
            && Apply(s, Submit(0, [ACROSS])) == Tiny9(0, IoThread([ReadIo(ACROSS)], 1, [], Ready))
  {
    hide Valid;
    var s1 := SubmitReads(s, 0, [ACROSS]);
    assert s1.threads[0].queue == [ReadIo(ACROSS)];
    assert s1.threads == [IoThread([ReadIo(ACROSS)], 1, [], Ready)];
  }

  lemma Tiny11Step(s: State)
    requires s == Tiny9(0, IoThread([ReadIo(ACROSS)], 1, [], Ready)) && Valid(s)
    ensures Enabled(s, Batch(0)) && Apply(s, Batch(0)) == Tiny9(0, IoThread([], 0, [ReadIo(ACROSS)], Ready))
  {
    hide Valid;
    BatchStep(s, 0, ACROSS);
    assert TakeBatch(s, 0).threads == [IoThread([], 0, [ReadIo(ACROSS)], Ready)];
  }

  lemma Tiny12Step(s: State)
    requires s == Tiny9(0, IoThread([], 0, [ReadIo(ACROSS)], Ready)) && Valid(s)
    ensures Enabled(s, LockForRead(0))
            && Apply(s, LockForRead(0)) == Tiny9(1, IoThread([], 0, [ReadIo(ACROSS)], Reading))
  {
    hide Valid;
    var s1 := ReadBegin(s, 0);
    assert s1.pages == Tiny9(1, REST).pages && s1.threads == [IoThread([], 0, [ReadIo(ACROSS)], Reading)];
  }

  // -------------------------------------------------------------------------------- the runs

  /** From initialisation to a page with one byte written out and one in the buffer. */
  lemma TinyWrites() returns (run: seq<State>, events: seq<Event>)
    ensures IsRun(run, events) && run[0] == TinyStart() && run[|events|] == Tiny9(0, REST) && Valid(run[|events|])
  {
    hide Valid, Apply, Enabled, IsRun;
    TinyStartIs();
    InitValid(TINY, [0, 0], [[0, 0], [0, 0]], [[0]], 1, 1);
    run, events := Begins(TinyStart());
    Tiny1Step(TinyStart());
    run, events := Goes(run, events, BeginWrite(0, 0, 0), Tiny1());
    Tiny2Step(Tiny1());
    run, events := Goes(run, events, AttemptWrite(0, [7], 0), Tiny2(Idle));
    TinyBegin(Tiny2(Idle));
    run, events := Goes(run, events, BeginWrite(0, 0, 0), Tiny2(HOLDS));
    Tiny4Step(Tiny2(HOLDS));
    run, events := Goes(run, events, AttemptWrite(0, [8], 0), Tiny4(0, IoThread([WriteIo(0)], 1, [], Ready)));
    Tiny5Step(run[|events|]);
    run, events := Goes(run, events, Batch(0), Tiny4(0, IoThread([], 0, [WriteIo(0)], Ready)));
    Tiny6Step(run[|events|]);
    run, events := Goes(run, events, DiskWrite(0), Tiny4(7, IoThread([], 0, [WriteIo(0)], Flushing)));
    Tiny7Step(run[|events|]);
    run, events := Goes(run, events, Callback(0), Tiny7(Idle));
    TinyBegin(Tiny7(Idle));
    run, events := Goes(run, events, BeginWrite(0, 0, 0), Tiny7(HOLDS));
    Tiny9Step(Tiny7(HOLDS));
    run, events := Goes(run, events, AttemptWrite(0, [8], 0), Tiny9(0, REST));
  }

  /** From initialisation on: an object is stored and then, with the next read over it, answered with
      a byte that was never stored. */
  lemma StaleReadIsReachable() returns (run: seq<State>, events: seq<Event>, d: seq<Byte>, o: Addr)
    ensures IsRun(run, events) && run[0] == TinyStart() && AnswersWith(run[|events|], DiskRead(0), ACROSS, d)
    ensures o in run[|events|].written && Covers(ACROSS, o) && |d| == ACROSS.len
            && PartOf(d, ACROSS, o) != run[|events|].written[o]
  {
    hide Valid, Apply, Enabled, IsRun;
    run, events := TinyWrites();
    RunLength(run, events);
    Tiny10Step(run[|events|]);
    run, events := Goes(run, events, Submit(0, [ACROSS]), Tiny9(0, IoThread([ReadIo(ACROSS)], 1, [], Ready)));
    Tiny11Step(run[|events|]);
    run, events := Goes(run, events, Batch(0), Tiny9(0, IoThread([], 0, [ReadIo(ACROSS)], Ready)));
    Tiny12Step(run[|events|]);
    run, events := Goes(run, events, LockForRead(0), Tiny9(1, IoThread([], 0, [ReadIo(ACROSS)], Reading)));
    d, o := [7, 0], Addr(1, 1, 1, 1);
    StaleAnswer(run[|events|]);
  }

  lemma StaleAnswer(s: State)
    requires s == Tiny9(1, IoThread([], 0, [ReadIo(ACROSS)], Reading)) && Valid(s)
    ensures AnswersWith(s, DiskRead(0), ACROSS, [7, 0])
  {
    hide Valid;
    RangeOnDisk(s, 0);
    assert s.disk[1][0..2] == [7, 0];
  }

  /** From initialisation on: the page just given out has no buffer yet, and a read of it stops the
      process. */
  lemma StoppingReadIsReachable() returns (run: seq<State>, events: seq<Event>)
    ensures IsRun(run, events) && run[0] == TinyStart() && run[|events|].stopped
  {
    hide Valid, Apply, Enabled, IsRun;
    TinyStartIs();
    InitValid(TINY, [0, 0], [[0, 0], [0, 0]], [[0]], 1, 1);
    run, events := Begins(TinyStart());
    Tiny1Step(TinyStart());
    run, events := Goes(run, events, BeginWrite(0, 0, 0), Tiny1());
    run, events := BeyondAllottedStops(run, events, 1, 0);
  }
}
