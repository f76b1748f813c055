/** extstore.c as code: the engine's fields and pointers, and one method per critical section,
    each proved to take the step of the state machine it stands for. */
module ExtstoreEngine {
  import opened Basics
  import opened Counting
  import opened NextLists
  import opened ExtstoreModel
  import opened ExtstoreSteps
  import opened ExtstoreFlush
  import opened ExtstoreRuns
  import opened ExtstoreTheorems
  import opened ExtstoreReads
  import opened ExtstoreWriters
  import opened ExtstoreMemory

  class Engine {
    const cfg: Config
    var pages: seq<Page>
    var disk: seq<seq<Byte>>
    var pageFree: nat
    var version: nat
    var wbufs: seq<Wbuf>
    var ios: seq<ObjIo>
    /** The ranges callers' IO objects ask for; these objects have numbers from wbufCount on. */
    var asked: map<nat, Addr>
    var writers: seq<Writer>
    var maint: Maint
    var stopped: bool

    // page->next, and the heads of the lists it links
    var pageNext: map<nat, Ptr>
    var freelist: Ptr
    var freeBuckets: seq<Ptr>
    var buckets: seq<Ptr>

    // wbuf->next, and the stack of free buffers
    var wbufNext: map<nat, Ptr>
    var wbufStack: Ptr

    // io->next, the stack of the engine's own IO objects, and for each IO thread its queue with its
    // tail and depth, and the rest of the batch it is working on
    var ioNext: map<nat, Ptr>
    var ioStack: Ptr
    var queue: seq<Ptr>
    var queueTail: seq<Ptr>
    var depth: seq<int>
    var current: seq<Ptr>
    var phase: seq<Phase>

    // what the pointers stand for
    ghost var freePages: seq<nat>
    ghost var homePages: seq<seq<nat>>
    ghost var bucketPages: seq<seq<nat>>
    ghost var freeWbufs: seq<nat>
    ghost var freeIos: seq<nat>
    ghost var queued: seq<seq<nat>>
    ghost var batched: seq<seq<nat>>
    ghost var threads: seq<IoThread>
    ghost var written: map<Addr, seq<Byte>>

    ghost function Abs(): State
      reads this
    {
      State(cfg, pages, disk, freePages, homePages, bucketPages, pageFree, version, wbufs, freeWbufs, ios, freeIos,
            threads, writers, maint, stopped, written)
    }

    /** page->next links the free lists and the buckets. */
    ghost predicate PagesWired()
      reads this`pageNext, this`freelist, this`freeBuckets, this`buckets, this`freePages, this`homePages,
            this`bucketPages
    {
      PagesLinked(cfg.bucketCount, pageNext, freelist, freeBuckets, buckets, freePages, homePages, bucketPages)
    }

    ghost predicate OnNoList(p: nat)
      reads this`freePages, this`homePages, this`bucketPages
    {
      OffLists(freePages, homePages, bucketPages, p)
    }

    /** wbuf->next links the stack of free buffers. */
    ghost predicate WbufsWired()
      reads this`wbufNext, this`wbufStack, this`freeWbufs
    {
      AllChained(wbufNext, [wbufStack], [freeWbufs]) && Disjoint([freeWbufs])
    }

    /** io->next links the stack, the queues and the batches, and these are what the threads have
        to do. */
    ghost predicate IosWired()
      reads this`asked, this`ioNext, this`ioStack, this`queue, this`queueTail, this`depth, this`current, this`phase,
            this`freeIos, this`queued, this`batched, this`threads
    {
      && IosLinked(ioNext, ioStack, queue, current, freeIos, queued, batched) && |queue| == |threads|
      && AllThreads(cfg.wbufCount, asked, threads, queued, queueTail, depth, batched, phase)
    }

    ghost predicate Ok()
      reads this
    {
      PagesWired() && WbufsWired() && IosWired() && Valid(Abs())
    }

    /** extstore_init: pages, free lists, write buffers and IO objects. */
    constructor (cfg: Config, homes: seq<nat>, disk: seq<seq<Byte>>, bufs: seq<seq<Byte>>, threadCount: nat,
                 writerCount: nat)
      requires InitOk(cfg, homes, disk, bufs)
      ensures Ok() && Abs() == Init(cfg, homes, disk, bufs, threadCount, writerCount)
    {
      hide AllChained, Disjoint, OnNoneOf, Layout, Chained, Valid, AllThreads, ListsFrom;
      this.cfg := cfg;
      this.disk := disk;
      pages := seq(|homes|, p requires 0 <= p < |homes| => FreshPage(homes[p]));

      var none: seq<Ptr> := seq(cfg.bucketCount, _ => Nil);
      var next, free, special, count, fl, fbs := LinkPages(homes, cfg.bucketCount);
      pageNext, freelist, freeBuckets, buckets, pageFree, version := next, free, special, none, count, 1;
      freePages, homePages, bucketPages := fl, fbs, seq(cfg.bucketCount, _ => []);
      wbufs := seq(|bufs|, w requires 0 <= w < |bufs| => Wbuf(bufs[w], |bufs[w]|, 0, false));
      ios := seq(cfg.wbufCount, k => ObjIo(0, 0, 0));
      var wnext, wtop := StackUp(cfg.wbufCount);
      wbufNext, wbufStack, freeWbufs := wnext, wtop, Countdown(cfg.wbufCount);
      var inext, itop := StackUp(cfg.wbufCount);
      ioNext, ioStack, freeIos := inext, itop, Countdown(cfg.wbufCount);
      OneChained(inext, itop, Countdown(cfg.wbufCount));
      LayoutEmpty(inext, itop, Countdown(cfg.wbufCount), threadCount);
      asked := map[];
      queue, queueTail := seq(threadCount, _ => Nil), seq(threadCount, _ => Nil);
      depth, phase, current := seq(threadCount, _ => 0), seq(threadCount, _ => Ready), seq(threadCount, _ => Nil);
      queued, batched := seq(threadCount, _ => []), seq(threadCount, _ => []);
      threads := seq(threadCount, t => IoThread([], 0, [], Ready));
      writers := seq(writerCount, b => Idle);
      maint := Waiting;
      stopped := false;
      written := map[];
      new;
      InitValid(cfg, homes, disk, bufs, threadCount, writerCount);
      assert Abs() == Init(cfg, homes, disk, bufs, threadCount, writerCount);
      NoIos(cfg.wbufCount, threadCount);
    }

    // -------------------------------------------------------------------------- pages

    /** _allocate_page, first half: a page comes off the list asked for, else off the default one,
        and is then on no list. */
    method TakeFreePage(freeBucket: nat) returns (page: Option<nat>)
      requires PagesWired() && freeBucket < cfg.bucketCount
      modifies this`freelist, this`freeBuckets, this`freePages, this`homePages
      ensures PagesWired() && freeBucket < |old(homePages)| && (Abs(), page) == TakeFree(old(Abs()), freeBucket)
      ensures page.Some? ==> OnNoList(page.value)
    {
      hide PagesLinked, OffLists, Chained;
      page := None;
      PageHeads(cfg.bucketCount, pageNext, freelist, freeBuckets, buckets, freePages, homePages, bucketPages,
                freeBucket);
      if freeBucket != 0 && freeBuckets[freeBucket] != Nil {
        PopSpecial(cfg.bucketCount, pageNext, freelist, freeBuckets, buckets, freePages, homePages, bucketPages,
                   freeBucket);
        page := Some(freeBuckets[freeBucket].id);
        freeBuckets := freeBuckets[freeBucket := pageNext[page.value]];
        homePages := homePages[freeBucket := homePages[freeBucket][1..]];
      }
      if page == None && freelist != Nil {
        PopFree(cfg.bucketCount, pageNext, freelist, freeBuckets, buckets, freePages, homePages, bucketPages);
        page := Some(freelist.id);
        freelist := pageNext[page.value];
        freePages := freePages[1..];
      }
    }

    /** _allocate_page, second half: a page that is on no list heads its bucket. */
    method ActivatePage(b: nat, p: nat)
      requires PagesWired() && b < cfg.bucketCount && p < |pages| && pageFree > 0 && OnNoList(p)
      modifies this`pageNext, this`buckets, this`bucketPages, this`pages, this`version, this`pageFree
      ensures PagesWired() && b < |old(bucketPages)| && Abs() == Activate(old(Abs()), b, p)
    {
      hide PagesLinked, OffLists, Chained;
      PageHeads(cfg.bucketCount, pageNext, freelist, freeBuckets, buckets, freePages, homePages, bucketPages, b);
      PushBucket(cfg.bucketCount, pageNext, freelist, freeBuckets, buckets, freePages, homePages, bucketPages, b, p);
      pageNext := pageNext[p := buckets[b]];
      buckets := buckets[b := Ptr(p)];
      bucketPages := bucketPages[b := [p] + bucketPages[b]];
      pages := pages[p := pages[p].(active := true, free := false, closed := false, version := version, bucket := b)];
      version := version + 1;
      pageFree := pageFree - 1;
    }

    /** _allocate_page.  When its first assertion fails the process stops. */
    method AllocatePage(b: nat, freeBucket: nat) returns (page: Option<nat>)
      requires PagesWired() && Valid(Abs()) && b < cfg.bucketCount && freeBucket < cfg.bucketCount
      modifies this`freelist, this`freeBuckets, this`freePages, this`homePages, this`pageNext, this`buckets,
               this`bucketPages, this`pages, this`version, this`pageFree, this`stopped
      ensures PagesWired() && FreeInRange(old(Abs())) && freeBucket < |old(homePages)| && b < |old(bucketPages)|
      ensures MayAllocate(cfg, old(pages), old(bucketPages)[b]) ==>
                (Abs(), page) == ExtstoreModel.AllocatePage(old(Abs()), b, freeBucket)
      ensures !MayAllocate(cfg, old(pages), old(bucketPages)[b]) ==>
              page == None && Abs() == old(Abs()).(stopped := true)
    {
      hide FreeInRange, TakeFree, Activate, Valid, PagesLinked, OffLists, Chained;
      ghost var s := Abs();
      FreeFacts(s);
      PageHeads(cfg.bucketCount, pageNext, freelist, freeBuckets, buckets, freePages, homePages, bucketPages, b);
      page := None;
      if buckets[b] != Nil { HeadInRange(s, b); }
      if buckets[b] != Nil && pages[buckets[b].id].allotted != cfg.pageSize {
        stopped := true;
        return;
      }
      page := TakeFreePage(freeBucket);
      if pageFree > 0 && page != None {
        TakenInRange(s, freeBucket);
        ActivatePage(b, page.value);
      }
    }

    static lemma FreeFacts(s: State)
      requires Valid(s)
      ensures FreeInRange(s)
    {
      FreeInRangeOf(s);
    }

    /** extstore_write_request, first critical section; a bucket that does not exist is refused. */
    method BeginWriteRequest(w: nat, b: nat, freeBucket: nat) returns (ok: bool)
      requires Ok() && !stopped && w < |writers| && writers[w] == Idle && freeBucket < cfg.bucketCount
      modifies this
      ensures |writers| == |old(writers)| && (ok <==> writers[w] != Idle)
      ensures Ok()
      ensures b >= cfg.bucketCount ==> !ok && Abs() == old(Abs())
      ensures b < cfg.bucketCount ==> StepOf(old(Abs()), BeginWrite(w, b, freeBucket), Abs())
    {
      hide Valid, FreeInRange, ExtstoreModel.AllocatePage, PagesLinked, Chained, WbufsWired, IosWired, StepOf;
      if b >= cfg.bucketCount { return false; }
      ghost var s := Abs();
      WriterFacts(s, w);
      PageHeads(cfg.bucketCount, pageNext, freelist, freeBuckets, buckets, freePages, homePages, bucketPages, b);
      if buckets[b] != Nil {
        BeginsWithHead(s, w, b, freeBucket);
        writers := writers[w := HasPage(b, freeBucket, buckets[b].id)];
        ok := true;
      } else {
        BeginsWithNew(s, w, b, freeBucket);
        var page := AllocatePage(b, freeBucket);
        ok := page.Some?;
        if ok { writers := writers[w := HasPage(b, freeBucket, page.value)]; }
      }
    }

    /** extstore_write_request after it found its page full. */
    method AllocateAfterFullPage(w: nat)
      requires Ok() && !stopped && w < |writers| && writers[w].MustAllocate?
      modifies this
      ensures Ok() && StepOf(old(Abs()), AllocateAfterFull(w), Abs())
      ensures old(writers)[w].bucket < |old(bucketPages)|
      ensures stopped <==> !MayAllocate(cfg, old(pages), old(bucketPages)[old(writers)[w].bucket])
    {
      hide Valid, FreeInRange, ExtstoreModel.AllocatePage, MayAllocate, PagesWired, WbufsWired, IosWired, StepOf;
      ghost var s := Abs();
      WriterFacts(s, w);
      if MayAllocate(s.cfg, s.pages, s.buckets[s.writers[w].bucket]) {
        AllocatesNew(s, w);
      } else {
        AllocationStops(s, w);
      }
      var page := AllocatePage(writers[w].bucket, writers[w].freeBucket);
      if !stopped { writers := writers[w := Idle]; }
    }

    /** The list walk of _free_page: the page leaves the list of its bucket, and is on none. */
    method UnlinkPage(p: nat)
      requires PagesWired() && Valid(Abs()) && p < |pages| && !pages[p].free && p != 0
      modifies this`pageNext, this`buckets, this`bucketPages
      ensures PagesWired() && p < |old(pages)| && old(pages)[p].bucket < |old(bucketPages)| && OnNoList(p)
      ensures Abs() == Detached(old(Abs()), p)
    {
      hide PagesLinked, OffLists, Chained, RemoveFirst, Without, Valid, NoDup;
      var b := pages[p].bucket;
      OnItsBucket(Abs(), p);
      PageHeads(cfg.bucketCount, pageNext, freelist, freeBuckets, buckets, freePages, homePages, bucketPages, b);
      var prev, k := FindPage(buckets[b], p, bucketPages[b]);
      RemoveFirstAt(bucketPages[b], k);
      UnlinkBucket(cfg.bucketCount, pageNext, freelist, freeBuckets, buckets, freePages, homePages, bucketPages, b, k);
      if prev != Nil {
        pageNext := pageNext[prev.id := pageNext[p]];
      } else {
        buckets := buckets[b := pageNext[p]];
      }
      pageNext := pageNext[p := Nil];
      bucketPages := bucketPages[b := Without(bucketPages[b], k)];
    }

    /** The walk to a page, with the page before it. */
    method FindPage(head: Ptr, p: nat, ghost list: seq<nat>) returns (prev: Ptr, ghost k: nat)
      requires Chained(pageNext, head, list) && p in list
      ensures k < |list| && list[k] == p && prev == if k == 0 then Nil else Ptr(list[k - 1])
      ensures if prev == Nil then head == Ptr(p) else prev.id in pageNext && pageNext[prev.id] == Ptr(p)
    {
      k, prev := 0, Nil;
      var tmp := head;
      while tmp != Ptr(p)
        invariant k < |list| && tmp == PtrAt(list, k) && prev == (if k == 0 then Nil else Ptr(list[k - 1]))
        invariant p in list[k..]
        decreases |list| - k
      {
        assert list[k..] == [list[k]] + list[k + 1..];
        prev, tmp := tmp, pageNext[tmp.id];
        k := k + 1;
      }
    }

    static lemma OnItsBucket(s: State, p: nat)
      requires Valid(s) && p < |s.pages| && !s.pages[p].free && p != 0
      ensures s.pages[p].bucket < |s.buckets| == s.cfg.bucketCount && p in s.buckets[s.pages[p].bucket]
      ensures s.pages[p].freeBucket < |s.freeBuckets| == s.cfg.bucketCount
    {
      InBucketRange(s, p);
      OnExactlyOneList(s, p);
      TableSizes(s);
    }

    static lemma TableSizes(s: State)
      requires Valid(s)
      ensures |s.buckets| == |s.freeBuckets| == s.cfg.bucketCount
    {
    }

    method PushOnDefault(p: nat)
      requires PagesWired() && OnNoList(p)
      modifies this`pageNext, this`freelist, this`freePages
      ensures PagesWired() && Abs() == old(Abs()).(freelist := [p] + old(freePages))
    {
      hide PagesLinked, OffLists;
      PushFree(cfg.bucketCount, pageNext, freelist, freeBuckets, buckets, freePages, homePages, bucketPages, p);
      pageNext := pageNext[p := freelist];
      freelist := Ptr(p);
      freePages := [p] + freePages;
    }

    method PushOnSpecial(fb: nat, p: nat)
      requires PagesWired() && OnNoList(p) && fb < cfg.bucketCount
      modifies this`pageNext, this`freeBuckets, this`homePages
      ensures PagesWired() && fb < |old(homePages)|
              && Abs() == old(Abs()).(freeBuckets := old(homePages)[fb := [p] + old(homePages)[fb]])
    {
      hide PagesLinked, OffLists, Chained;
      PageHeads(cfg.bucketCount, pageNext, freelist, freeBuckets, buckets, freePages, homePages, bucketPages, fb);
      PushSpecial(cfg.bucketCount, pageNext, freelist, freeBuckets, buckets, freePages, homePages, bucketPages, fb, p);
      pageNext := pageNext[p := freeBuckets[fb]];
      freeBuckets := freeBuckets[fb := Ptr(p)];
      homePages := homePages[fb := [p] + homePages[fb]];
    }

    /** The end of _free_page: a page that is on no list goes to its free list. */
    method ReturnPage(p: nat)
      requires PagesWired() && p < |pages| && pages[p].freeBucket < cfg.bucketCount == |homePages| && OnNoList(p)
      modifies this`pageNext, this`pages, this`freeBuckets, this`freelist, this`homePages, this`freePages, this`pageFree
      ensures PagesWired() && Abs() == BackOnList(old(Abs()), p)
    {
      hide PagesWired, OffLists;
      var pg := pages[p];
      pages := pages[p := pg.(version := 0, objCount := 0, bytesUsed := 0, allotted := 0, written := 0,
                              bucket := 0, active := false, closed := false, free := true)];
      if pg.freeBucket != 0 { PushOnSpecial(pg.freeBucket, p); } else { PushOnDefault(p); }
      pageFree := pageFree + 1;
    }

    /** _free_page: from its bucket the page goes back to its free list. */
    method ReclaimPage(p: nat)
      requires PagesWired() && Valid(Abs()) && p < |pages| && !pages[p].free && p != 0
      modifies this`pageNext, this`buckets, this`bucketPages, this`pages, this`freeBuckets, this`freelist,
               this`homePages, this`freePages, this`pageFree
      ensures PagesWired() && old(pages)[p].freeBucket < |old(homePages)| && old(pages)[p].bucket < |old(bucketPages)|
      ensures Abs() == FreePage(old(Abs()), p)
    {
      hide PagesLinked, OffLists, RemoveFirst, Valid, BackOnList, FreePage;
      OnItsBucket(Abs(), p);
      FreePageIs(Abs(), p);
      UnlinkPage(p);
      ReturnPage(p);
    }

    // ----------------------------------------------------------------- IO threads and queues

    /** _get_io_thread: the first idle thread, else the first of the least loaded. */
    method PickThread() returns (tid: nat)
      requires |depth| > 0 && forall t :: 0 <= t < |depth| ==> depth[t] >= 0
      ensures tid < |depth|
      ensures forall t :: 0 <= t < |depth| ==> depth[tid] <= depth[t]
      ensures forall t :: 0 <= t < tid ==> depth[tid] < depth[t]
    {
      tid := 0;
      var x := 0;
      while x < |depth|
        invariant 0 <= tid <= x <= |depth| && tid < |depth|
        invariant x > 0 ==> tid < x
        invariant forall t :: 0 <= t < x ==> 0 < depth[tid] <= depth[t]
        invariant forall t :: 0 <= t < tid ==> depth[tid] < depth[t]
      {
        if depth[x] == 0 {
          tid := x;
          break;
        } else if x == 0 || depth[x] < depth[tid] {
          tid := x;
        }
        x := x + 1;
      }
    }

    /** The stack of IO objects extstore_submit is given is counted, and its last one found. */
    method CountStack(first: Ptr, ghost ids: seq<nat>) returns (count: nat, tail: Ptr)
      requires Chained(ioNext, first, ids) && ids != []
      ensures count == |ids| && tail == Ptr(ids[|ids| - 1]) && ids[|ids| - 1] in ioNext && ioNext[ids[|ids| - 1]] == Nil
    {
      count, tail := 0, Nil;
      var tio := first;
      while tio != Nil
        invariant count <= |ids| && tio == PtrAt(ids, count) && (count > 0 ==> tail == Ptr(ids[count - 1]))
        decreases |ids| - count
      {
        tail := tio;
        tio := ioNext[tio.id];
        count := count + 1;
      }
    }

    /** What submitting needs: at least one thread, and depths that count. */
    ghost predicate CanSubmit()
      reads this`depth, this`queue
    {
      |queue| > 0 && forall t :: 0 <= t < |depth| ==> depth[t] >= 0
    }

    /** Thread t had the shortest queue. */
    static predicate LeastLoaded(depth: seq<int>, t: nat) {
      t < |depth| && forall u :: 0 <= u < |depth| ==> depth[t] <= depth[u]
    }

    /** extstore_submit: the stack goes to the end of the queue of the least loaded thread. */
    method SubmitStack(first: Ptr, ghost ids: seq<nat>) returns (t: nat)
      requires IosWired() && CanSubmit() && ids != [] && Handed(ioNext, first, ids, freeIos, queued, batched)
      requires forall x :: x in ids ==> x < cfg.wbufCount || x in asked
      modifies this`queue, this`queueTail, this`depth, this`ioNext, this`queued, this`threads
      ensures IosWired() && LeastLoaded(old(depth), t) && t < |old(threads)|
      ensures Abs() == old(Abs()).(
                threads := old(threads)[t := Extended(old(threads)[t], IosOf(cfg.wbufCount, asked, ids))])
    {
      hide IosWired, Handed, Extended, IosOf;
      t := AddStack(first, ids);
    }

    method AddStack(first: Ptr, ghost ids: seq<nat>) returns (t: nat)
      requires IosWired() && CanSubmit() && ids != [] && Handed(ioNext, first, ids, freeIos, queued, batched)
      requires forall x :: x in ids ==> x < cfg.wbufCount || x in asked
      modifies this`queue, this`queueTail, this`depth, this`ioNext, this`queued, this`threads
      ensures IosWired() && LeastLoaded(old(depth), t) && t < |old(threads)|
      ensures threads == old(threads)[t := Extended(old(threads)[t], IosOf(cfg.wbufCount, asked, ids))]
    {
      hide IosLinked, AllThreads, ThreadWired, Chained, OffIos, Extended, IosOf;
      var count, last := CountStack(first, ids);
      SizesAre(0);
      t := PickThread();
      StackAdded(t, first, ids, last);
      threads := threads[t := Extended(threads[t], IosOf(cfg.wbufCount, asked, ids))];
      depth := depth[t := depth[t] + count];
      if queue[t] == Nil {
        queue := queue[t := first];
        queueTail := queueTail[t := last];
      } else {
        assert ioNext[last.id] == Nil;
        assert ioNext[queueTail[t].id] == Nil;
        ioNext := ioNext[queueTail[t].id := first];
        queueTail := queueTail[t := last];
      }
      queued := queued[t := queued[t] + ids];
    }

    /** What a stack of IO objects at the end of a queue does to the lists and the threads. */
    lemma StackAdded(t: nat, first: Ptr, ids: seq<nat>, last: Ptr)
      requires IosWired() && t < |queue| && ids != [] && Handed(ioNext, first, ids, freeIos, queued, batched)
      requires last == Ptr(ids[|ids| - 1]) && forall x :: x in ids ==> x < cfg.wbufCount || x in asked
      ensures |queue| == |threads| == |queued| == |queueTail| == |depth|
      ensures AllThreads(cfg.wbufCount, asked, threads[t := Extended(threads[t], IosOf(cfg.wbufCount, asked, ids))],
                         queued[t := queued[t] + ids], queueTail[t := last], depth[t := depth[t] + |ids|], batched,
                         phase)
      ensures queue[t] == Nil ==> IosLinked(ioNext, ioStack, queue[t := first], current, freeIos,
                                            queued[t := queued[t] + ids], batched)
      ensures queue[t] != Nil ==>
                && queueTail[t].Ptr? && queueTail[t].id in ioNext && ioNext[queueTail[t].id] == Nil
                && IosLinked(ioNext[queueTail[t].id := first], ioStack, queue, current, freeIos,
                             queued[t := queued[t] + ids], batched)
    {
      hide IosLinked, AllThreads, ThreadWired, Chained, OffIos, Extended, IosOf;
      SizesAre(t);
      if queue[t] != Nil { TailPointer(t); } else { assert queued[t] + ids == ids; }
      AppendQueue(ioNext, ioStack, queue, current, freeIos, queued, batched, t, first, ids);
      QueueGrows(cfg.wbufCount, asked, threads[t], queued[t], queueTail[t], depth[t], batched[t], phase[t], ids);
      OneThread(cfg.wbufCount, asked, threads, queued, queueTail, depth, batched, phase, t,
                Extended(threads[t], IosOf(cfg.wbufCount, asked, ids)), queued[t] + ids, last, depth[t] + |ids|,
                batched[t], phase[t]);
      assert batched[t := batched[t]] == batched && phase[t := phase[t]] == phase;
    }

    lemma SizesAre(t: nat)
      requires IosWired() && t < |queue|
      ensures |queue| == |current| == |threads| == |queued| == |queueTail| == |depth| == |batched| == |phase|
      ensures ThreadWired(cfg.wbufCount, asked, threads[t], queued[t], queueTail[t], depth[t], batched[t], phase[t])
      ensures queue[t] == PtrAt(queued[t], 0) && current[t] == PtrAt(batched[t], 0)
              && Chained(ioNext, queue[t], queued[t])
      ensures ioStack == PtrAt(freeIos, 0)
    {
      hide IosLinked, AllThreads, ThreadWired, Chained;
      IoHeads(ioNext, ioStack, queue, current, freeIos, queued, batched, t);
      ThreadIs(cfg.wbufCount, asked, threads, queued, queueTail, depth, batched, phase, t);
    }

    /** Unless its queue is empty, a thread's tail pointer leads to the last of it. */
    lemma TailPointer(t: nat)
      requires IosWired() && t < |queue| && queue[t] != Nil
      ensures t < |queueTail| && t < |queued| && queued[t] != [] && queueTail[t] == Ptr(queued[t][|queued[t]| - 1])
      ensures queueTail[t].id in ioNext && ioNext[queueTail[t].id] == Nil
    {
      SizesAre(t);
      hide IosLinked, AllThreads;
      NextIs(ioNext, queue[t], queued[t], |queued[t]| - 1);
    }

    /** The walk to the end of a batch; `ranOut` says that it came to the end of the queue before the
        batch was as long as it may be. */
    method FindBatchEnd(head: Ptr, ghost list: seq<nat>) returns (i: nat, end: nat, ranOut: bool)
      requires Chained(ioNext, head, list) && head != Nil
      ensures 1 <= i <= |list| && end == list[i - 1] && i == BatchSize(cfg.ioDepth, |list|) && (ranOut ==> i == |list|)
      ensures end in ioNext && ioNext[end] == PtrAt(list, i)
    {
      i, end, ranOut := 1, head.id, false;
      while i < cfg.ioDepth
        invariant 1 <= i <= |list| && end == list[i - 1] && (i == 1 || i <= cfg.ioDepth) && !ranOut
      {
        if ioNext[end] != Nil {
          end := ioNext[end].id;
        } else {
          ranOut := true;
          break;
        }
        i := i + 1;
      }
    }

    /** The first i of a queue become the batch. When the walk ran out, the tail pointer is cleared;
        when the batch is as long as it may be, it is left alone, even if the queue is empty then. */
    method Disconnect(t: nat, i: nat, end: nat, ranOut: bool)
      requires IosWired() && t < |queue| && t < |queued| && t < |batched| && batched[t] == [] && 0 < i <= |queued[t]|
      requires end == queued[t][i - 1] && (ranOut ==> i == |queued[t]|)
      modifies this`ioNext, this`queue, this`queueTail, this`depth, this`current, this`queued, this`batched,
               this`threads
      ensures IosWired() && t < |old(threads)| && i <= |old(threads)[t].queue|
              && threads == old(threads)[t := BatchOff(old(threads)[t], i)]
    {
      hide IosLinked, AllThreads, BatchOff;
      TailThere(t);
      var tail := if ranOut then Nil else queueTail[t];
      BatchSplit(t, i, tail);
      queueTail := queueTail[t := tail];
      depth := depth[t := depth[t] - i];
      threads := threads[t := BatchOff(threads[t], i)];
      CutQueue(t, i, end);
    }

    /** The pointer writes of disconnecting a batch. */
    method CutQueue(t: nat, ghost i: nat, end: nat)
      requires IosLinked(ioNext, ioStack, queue, current, freeIos, queued, batched)
               && t < |queue| == |current| == |queued| == |batched|
      requires batched[t] == [] && 0 < i <= |queued[t]| && end == queued[t][i - 1]
      modifies this`ioNext, this`queue, this`current, this`queued, this`batched
      ensures IosLinked(ioNext, ioStack, queue, current, freeIos, queued, batched) && |queue| == |old(queue)|
      ensures queued == old(queued)[t := old(queued)[t][i..]] && batched == old(batched)[t := old(queued)[t][..i]]
    {
      hide IosLinked;
      SplitQueue(ioNext, ioStack, queue, current, freeIos, queued, batched, t, i);
      current := current[t := queue[t]];
      queue := queue[t := ioNext[end]];
      ioNext := ioNext[end := Nil];
      queued, batched := queued[t := queued[t][i..]], batched[t := queued[t][..i]];
    }

    /** What extstore_io_thread does with its queue locked. */
    method PullBatch(t: nat)
      requires IosWired() && t < |threads| && threads[t].batch == []
      modifies this`ioNext, this`queue, this`queueTail, this`depth, this`current, this`queued, this`batched,
               this`threads
      ensures IosWired()
      ensures threads == old(threads)[t := BatchOff(old(threads)[t], BatchSize(cfg.ioDepth, |old(threads)[t].queue|))]
    {
      hide IosLinked, AllThreads, ThreadWired, Chained;
      SizesAre(t);
      CurrentIs(cfg.wbufCount, asked, threads[t], queued[t], queueTail[t], depth[t], batched[t], phase[t]);
      if queue[t] == Nil {
        assert threads[t := threads[t]] == threads;
        return;
      }
      var i, end, ranOut := FindBatchEnd(queue[t], queued[t]);
      Disconnect(t, i, end, ranOut);
    }

    /** extstore_io_thread: disconnect a batch from the front of the queue. */
    method TakeIoBatch(t: nat)
      requires Ok() && !stopped && t < |threads| && threads[t].phase == Ready && threads[t].batch == []
      modifies this`ioNext, this`queue, this`queueTail, this`depth, this`current, this`queued, this`batched,
               this`threads
      ensures Ok() && StepOf(old(Abs()), Batch(t), Abs())
    {
      hide Valid, PagesWired, WbufsWired, IosWired, StepOf, TakeBatch, BatchSize, BatchOff;
      ghost var s := Abs();
      BatchStep(s, t);
      PullBatch(t);
      assert Abs() == TakeBatch(s, t);
    }

    lemma TailThere(t: nat)
      requires IosWired() && t < |queue|
      ensures t < |queueTail|
    {
    }

    /** What disconnecting the first n of a queue does to the threads. */
    lemma BatchSplit(t: nat, n: nat, tail: Ptr)
      requires IosWired() && t < |queue| && t < |queued| && t < |batched| && t < |queueTail| && batched[t] == []
               && 0 < n <= |queued[t]|
      requires n < |queued[t]| ==> tail == queueTail[t]
      ensures |current| == |threads| == |depth| == |queue| == |queued| == |batched|
      ensures AllThreads(cfg.wbufCount, asked, threads[t := BatchOff(threads[t], n)], queued[t := queued[t][n..]],
                         queueTail[t := tail], depth[t := depth[t] - n], batched[t := queued[t][..n]], phase)
      ensures n <= |threads[t].queue|
    {
      hide IosLinked, AllThreads, ThreadWired, Chained;
      SizesAre(t);
      CurrentIs(cfg.wbufCount, asked, threads[t], queued[t], queueTail[t], depth[t], batched[t], phase[t]);
      BatchTaken(cfg.wbufCount, asked, threads[t], queued[t], queueTail[t], depth[t], phase[t], n, tail);
      OneThread(cfg.wbufCount, asked, threads, queued, queueTail, depth, batched, phase, t, BatchOff(threads[t], n),
                queued[t][n..], tail, depth[t] - n, queued[t][..n], phase[t]);
      assert phase[t := phase[t]] == phase;
    }

    static function BatchOff(th: IoThread, n: nat): IoThread {
      if n <= |th.queue| then th.(batch := th.queue[..n], queue := th.queue[n..], depth := th.depth - n) else th
    }

    static lemma BatchStep(s: State, t: nat)
      requires Valid(s) && !s.stopped && t < |s.threads| && s.threads[t].phase == Ready && s.threads[t].batch == []
      ensures StepOf(s, Batch(t), TakeBatch(s, t)) && Valid(TakeBatch(s, t))
      ensures TakeBatch(s, t) == s.(
                threads := s.threads[t := BatchOff(s.threads[t], BatchSize(s.cfg.ioDepth, |s.threads[t].queue|))])
    {
      hide Valid;
      TakeBatchKeeps(s, t);
    }

    static lemma DepthIs(s: State, t: nat)
      requires Valid(s) && t < |s.threads|
      ensures s.threads[t].depth == |s.threads[t].queue|
    {
      assert ThreadOk(s.cfg, |s.pages|, s.threads[t]);
    }

    /** The IO thread goes on to the next IO of its batch, which it noted before the callback: the
        object it is done with is on no list. */
    method FinishIo(t: nat)
      requires IosWired() && t < |threads| && threads[t].batch != []
      modifies this`current, this`batched, this`phase, this`threads
      ensures IosWired() && Abs() == old(Abs()).(threads := old(threads)[t := Finished(old(threads)[t])])
      ensures t < |old(current)| && old(current)[t].Ptr? && OffIos(freeIos, queued, batched, old(current)[t].id)
    {
      hide IosWired, OffIos;
      NextInBatch(t);
    }

    method NextInBatch(t: nat)
      requires IosWired() && t < |threads| && threads[t].batch != []
      modifies this`current, this`batched, this`phase, this`threads
      ensures IosWired() && threads == old(threads)[t := Finished(old(threads)[t])]
      ensures t < |old(current)| && old(current)[t].Ptr? && OffIos(freeIos, queued, batched, old(current)[t].id)
    {
      hide IosLinked, AllThreads, ThreadWired, Chained, OffIos;
      SizesAre(t);
      CurrentIs(cfg.wbufCount, asked, threads[t], queued[t], queueTail[t], depth[t], batched[t], phase[t]);
      PopBatch(ioNext, ioStack, queue, current, freeIos, queued, batched, t);
      IoFinished(cfg.wbufCount, asked, threads[t], queued[t], queueTail[t], depth[t], batched[t], phase[t]);
      OneThread(cfg.wbufCount, asked, threads, queued, queueTail, depth, batched, phase, t, Finished(threads[t]),
                queued[t], queueTail[t], depth[t], batched[t][1..], Ready);
      assert queued[t := queued[t]] == queued && queueTail[t := queueTail[t]] == queueTail
             && depth[t := depth[t]] == depth;
      var next := ioNext[current[t].id];
      current := current[t := next];
      threads, phase, batched := threads[t := Finished(threads[t])], phase[t := Ready], batched[t := batched[t][1..]];
    }

    method SetPhase(t: nat, ph: Phase)
      requires IosWired() && t < |threads|
      modifies this`phase, this`threads
      ensures IosWired() && Abs() == old(Abs()).(threads := old(threads)[t := old(threads)[t].(phase := ph)])
    {
      hide IosWired;
      NotePhase(t, ph);
    }

    method NotePhase(t: nat, ph: Phase)
      requires IosWired() && t < |threads|
      modifies this`phase, this`threads
      ensures IosWired() && threads == old(threads)[t := old(threads)[t].(phase := ph)]
    {
      hide IosLinked, AllThreads, ThreadWired, Chained;
      SizesAre(t);
      PhaseChanges(cfg.wbufCount, asked, threads[t], queued[t], queueTail[t], depth[t], batched[t], phase[t], ph);
      OneThread(cfg.wbufCount, asked, threads, queued, queueTail, depth, batched, phase, t, threads[t].(phase := ph),
                queued[t], queueTail[t], depth[t], batched[t], ph);
      assert queued[t := queued[t]] == queued && queueTail[t := queueTail[t]] == queueTail
             && depth[t := depth[t]] == depth
             && batched[t := batched[t]] == batched;
      threads, phase := threads[t := threads[t].(phase := ph)], phase[t := ph];
    }

    /** An IO object that is on no list goes on the stack. */
    method PushIo(x: nat)
      requires IosWired() && OffIos(freeIos, queued, batched, x)
      modifies this`ioNext, this`ioStack, this`freeIos
      ensures IosWired() && Abs() == old(Abs()).(ioStack := [x] + old(freeIos))
    {
      hide IosLinked, AllThreads, OffIos;
      PushStack(ioNext, ioStack, queue, current, freeIos, queued, batched, x);
      ioNext := ioNext[x := ioStack];
      ioStack := Ptr(x);
      freeIos := [x] + freeIos;
    }

    /** The top of the stack is taken, and points nowhere. */
    method PopIo() returns (x: nat)
      requires IosWired() && freeIos != []
      modifies this`ioNext, this`ioStack, this`freeIos
      ensures IosWired() && x == old(freeIos)[0] && Abs() == old(Abs()).(ioStack := old(freeIos)[1..])
      ensures Handed(ioNext, Ptr(x), [x], freeIos, queued, batched)
    {
      hide IosLinked, AllThreads, OffIos;
      PopStack(ioNext, ioStack, queue, current, freeIos, queued, batched);
      x := ioStack.id;
      LooseIo(ioNext, ioNext[x], queue, current, freeIos[1..], queued, batched, x, Nil);
      ioStack := ioNext[x];
      ioNext := ioNext[x := Nil];
      freeIos := freeIos[1..];
    }

    /** The IO object a thread is working on. */
    lemma CurrentObject(t: nat)
      requires IosWired() && t < |threads| && threads[t].batch != []
      ensures t < |current| && current[t].Ptr?
      ensures threads[t].batch[0] == IoOf(cfg.wbufCount, asked, current[t].id)
      ensures current[t].id < cfg.wbufCount || current[t].id in asked
    {
      hide IosLinked, AllThreads, ThreadWired, Chained;
      SizesAre(t);
      CurrentIs(cfg.wbufCount, asked, threads[t], queued[t], queueTail[t], depth[t], batched[t], phase[t]);
    }

    // ----------------------------------------------------------------------------- writing

    /** The top of the stack of free buffers is taken, and points nowhere. */
    method PopWbuf() returns (w: nat)
      requires WbufsWired() && freeWbufs != []
      modifies this`wbufNext, this`wbufStack, this`freeWbufs
      ensures WbufsWired() && w == old(freeWbufs)[0] && Abs() == old(Abs()).(wbufStack := old(freeWbufs)[1..])
    {
      hide AllChained, Disjoint;
      PopOne(wbufNext, wbufStack, freeWbufs);
      w := wbufStack.id;
      wbufStack := wbufNext[w];
      wbufNext := wbufNext[w := Nil];
      freeWbufs := freeWbufs[1..];
    }

    lemma WbufTop()
      requires WbufsWired()
      ensures wbufStack == PtrAt(freeWbufs, 0)
    {
      HeadIs(wbufNext, [wbufStack], [freeWbufs], 0);
    }

    /** _allocate_wbuf: the page gets the buffer on top of the stack, if there is one, for the part
        of it that is next. */
    method AllocateBuffer(p: nat)
      requires WbufsWired() && p < |pages| && (freeWbufs != [] ==> freeWbufs[0] < |wbufs|)
      modifies this`wbufNext, this`wbufStack, this`freeWbufs, this`wbufs, this`pages
      ensures WbufsWired() && Abs() == AllocateWbuf(old(Abs()), p)
    {
      hide WbufsWired;
      WbufTop();
      if wbufStack != Nil {
        var w := PopWbuf();
        AttachBuffer(p, w);
      }
    }

    method AttachBuffer(p: nat, w: nat)
      requires p < |pages| && w < |wbufs|
      modifies this`wbufs, this`pages
      ensures var pg, size := old(pages)[p], |old(wbufs)[w].buf|;
              Abs() == old(Abs()).(
                wbufs := old(wbufs)[w := old(wbufs)[w].(free := size, offset := pg.allotted, full := false)],
                pages := old(pages)[p := pg.(allotted := pg.allotted + size, wbuf := Some(w))])
    {
      var size := |wbufs[w].buf|;
      wbufs := wbufs[w := wbufs[w].(offset := pages[p].allotted, free := size, full := false)];
      pages := pages[p := pages[p].(allotted := pages[p].allotted + size, wbuf := Some(w))];
    }

    /** _submit_wbuf, and marking the buffer full; the least loaded IO thread gets it. */
    method SubmitBuffer(p: nat) returns (t: nat)
      requires IosWired() && CanSubmit() && p < |pages| && pages[p].wbuf.Some? && pages[p].wbuf.value < |wbufs|
      requires freeIos != [] && freeIos[0] < |ios| <= cfg.wbufCount
      requires wbufs[pages[p].wbuf.value].free <= |wbufs[pages[p].wbuf.value].buf|
      modifies this`ioNext, this`ioStack, this`freeIos, this`ios, this`wbufs, this`queue, this`queueTail, this`depth,
               this`queued, this`threads
      ensures IosWired() && LeastLoaded(old(depth), t) && t < |old(threads)| && Abs() == SubmitWbuf(old(Abs()), p, t)
    {
      hide IosWired, Handed, IosOf;
      ghost var s := Abs();
      var i := PopIo();
      FillWrite(p, i);
      OneWrite(cfg.wbufCount, asked, i);
      t := SubmitStack(Ptr(i), [i]);
    }

    static lemma OneWrite(n: nat, asked: map<nat, Addr>, i: nat)
      requires i < n
      ensures IosOf(n, asked, [i]) == [WriteIo(i)]
    {
    }

    /** The IO object is filled in, and the end of the buffer zeroed. */
    method FillWrite(p: nat, i: nat)
      requires p < |pages| && pages[p].wbuf.Some? && pages[p].wbuf.value < |wbufs| && i < |ios|
      requires wbufs[pages[p].wbuf.value].free <= |wbufs[pages[p].wbuf.value].buf|
      modifies this`ios, this`wbufs
      ensures var w := pages[p].wbuf.value; var wb := old(wbufs)[w];
              Abs() == old(Abs()).(wbufs := old(wbufs)[w := wb.(buf := Zeroed(wb.buf, wb.free), full := true)],
                                   ios := old(ios)[i := ObjIo(p, w, wb.offset)])
    {
      var w := pages[p].wbuf.value;
      var wb := wbufs[w];
      ios := ios[i := ObjIo(p, w, wb.offset)];
      wbufs := wbufs[w := wb.(buf := Zeroed(wb.buf, wb.free), full := true)];
    }

    /** The object goes behind all objects of its page and version. */
    static ghost predicate Placed(s: State, s1: State, a: Addr, data: seq<Byte>) {
      && a in s1.written && s1.written[a] == data
      && forall o :: o in s.written && o.page == a.page && o.version == a.version ==> o.offset + o.len <= a.offset
    }

    /** A read of the object would be served from the write buffer with these bytes. */
    static predicate ReadsBack(s: State, a: Addr, data: seq<Byte>) {
      && a.page < |s.pages| && BufferServes(s.pages[a.page], s.wbufs, a)
      && var w := s.wbufs[s.pages[a.page].wbuf.value];
         w.buf[a.offset - w.offset..a.offset - w.offset + a.len] == data
    }

    /** The writes of a copy into the buffer, and of extstore_write. */
    method CopyIn(p: nat, data: seq<Byte>) returns (a: Addr)
      requires HasRoom(Abs(), p, |data|)
      modifies this`wbufs, this`pages, this`written
      ensures Abs() == StoreObject(old(Abs()), p, data)
      ensures a == NextAddr(old(Abs()), p, |data|)
    {
      var w := pages[p].wbuf.value;
      var size := |wbufs[w].buf|;
      a := Addr(p, pages[p].version, wbufs[w].offset + (size - wbufs[w].free), |data|);
      wbufs := wbufs[w := wbufs[w].(buf := Splice(wbufs[w].buf, size - wbufs[w].free, data),
                                    free := wbufs[w].free - |data|)];
      pages := pages[p := pages[p].(bytesUsed := pages[p].bytesUsed + |data|, objCount := pages[p].objCount + 1)];
      written := written[a := data];
    }

    /** The caller's copy, and extstore_write: the object lies behind all others of its page and
        version, and can be read back at once. */
    method Store(p: nat, data: seq<Byte>) returns (a: Addr)
      requires Valid(Abs()) && HasRoom(Abs(), p, |data|) && pages[p].active && |data| > 0
      modifies this`wbufs, this`pages, this`written
      ensures Valid(Abs()) && Placed(old(Abs()), Abs(), a, data) && ReadsBack(Abs(), a, data)
      ensures a == NextAddr(old(Abs()), p, |data|) && Abs() == StoreObject(old(Abs()), p, data)
    {
      hide Valid, StoreObject, NextAddr, Placed, ReadsBack;
      StoredIs(Abs(), p, data);
      a := CopyIn(p, data);
    }

    static lemma StoredIs(s: State, p: nat, data: seq<Byte>)
      requires Valid(s) && HasRoom(s, p, |data|) && s.pages[p].active && |data| > 0
      ensures var a, s1 := NextAddr(s, p, |data|), StoreObject(s, p, data);
              Valid(s1) && Placed(s, s1, a, data) && ReadsBack(s1, a, data)
    {
      hide Valid;
      AttemptStore(s, p, data);
      PlacedIn(s, s, p, data);
      var w := s.wbufs[s.pages[p].wbuf.value];
      var at := |w.buf| - w.free;
      assert Splice(w.buf, at, data)[at..at + |data|] == data;
    }

    /** The part of extstore_write_request that works on a page that takes more. A buffer that was
        submitted takes nothing any more. */
    method AttemptOnPage(p: nat, data: seq<Byte>) returns (r: Option<Addr>, ghost t: nat)
      requires Ok() && |queue| > 0 && p < |pages| && |data| > 0
      requires pages[p].wbuf.Some? ==> pages[p].wbuf.value < |wbufs|
      requires !TakesNoMore(Abs(), p)
      modifies this`ioNext, this`ioStack, this`freeIos, this`ios, this`wbufs, this`queue, this`queueTail, this`depth,
               this`queued, this`threads, this`wbufNext, this`wbufStack, this`freeWbufs, this`pages, this`written
      ensures PagesWired() && WbufsWired() && IosWired() && t < |old(threads)|
              && (depth != old(depth) ==> LeastLoaded(old(depth), t))
      ensures Attempted(old(Abs()), p, data, t, Abs())
      ensures r.Some? ==> Placed(old(Abs()), Abs(), r.value, data)
    {
      hide Valid, PagesWired, WbufsWired, IosWired, SubmitWbuf, AllocateWbuf, StoreObject, NextAddr, Attempted, Placed,
           TakesNoMore;
      ghost var s := Abs();
      r, t := None, 0;
      BufferInRange(s, p);
      ThreadThere();
      if pages[p].wbuf != None && wbufs[pages[p].wbuf.value].free < |data| && !wbufs[pages[p].wbuf.value].full {
        t := FlushFirst(p, data);
      } else {
        r := FillBuffer(p, data);
      }
    }

    /** A page without a buffer gets one, and the object is stored if it fits. */
    method FillBuffer(p: nat, data: seq<Byte>) returns (r: Option<Addr>)
      requires WbufsWired() && Valid(Abs()) && p < |pages| && |data| > 0 && |threads| > 0
      requires pages[p].wbuf.Some? ==> pages[p].wbuf.value < |wbufs|
      requires !(pages[p].wbuf.Some? && wbufs[pages[p].wbuf.value].free < |data| && !wbufs[pages[p].wbuf.value].full)
      requires !TakesNoMore(Abs(), p)
      modifies this`wbufs, this`wbufNext, this`wbufStack, this`freeWbufs, this`pages, this`written
      ensures WbufsWired() && Attempted(old(Abs()), p, data, 0, Abs())
      ensures r.Some? ==> Placed(old(Abs()), Abs(), r.value, data)
    {
      hide Valid, WbufsWired, AllocateWbuf, StoreObject, NextAddr, Attempted, Placed, TakesNoMore;
      ghost var s := Abs();
      NeedsBuffer(s, p);
      if pages[p].wbuf == None && pages[p].allotted < cfg.pageSize { AllocateBuffer(p); }
      StoringAttempt(s, p, data, 0, Abs());
      ghost var s2 := Abs();
      if HasRoom(s2, p, |data|) { PlacedIn(s, s2, p, data); }
      r := StoreIfRoom(p, data);
    }

    /** A buffer the object does not fit in goes to disk. */
    method FlushFirst(p: nat, ghost data: seq<Byte>) returns (t: nat)
      requires Ok() && |queue| > 0 && p < |pages| && pages[p].wbuf.Some? && pages[p].wbuf.value < |wbufs|
      requires var wb := wbufs[pages[p].wbuf.value]; wb.free < |data| && !wb.full
      modifies this`ioNext, this`ioStack, this`freeIos, this`ios, this`wbufs, this`queue, this`queueTail, this`depth,
               this`queued, this`threads
      ensures IosWired() && t < |old(threads)| && LeastLoaded(old(depth), t) && Attempted(old(Abs()), p, data, t, Abs())
    {
      hide Valid, PagesWired, WbufsWired, IosWired, SubmitWbuf, Attempted;
      ghost var s := Abs();
      ThreadThere();
      FlushFacts(s, p);
      DepthsCount();
      t := SubmitBuffer(p);
      FlushedAttempt(s, p, data, t);
    }

    /** The object is stored if the buffer has room for it. */
    method StoreIfRoom(p: nat, data: seq<Byte>) returns (r: Option<Addr>)
      requires Valid(Abs()) && p < |pages| && pages[p].active && |data| > 0
      modifies this`wbufs, this`pages, this`written
      ensures r.Some? <==> HasRoom(old(Abs()), p, |data|)
      ensures r.Some? ==> r.value == NextAddr(old(Abs()), p, |data|) && Abs() == StoreObject(old(Abs()), p, data)
      ensures r.None? ==> Abs() == old(Abs())
    {
      hide Valid, StoreObject, NextAddr;
      r := None;
      BufferInRange(Abs(), p);
      if pages[p].wbuf != None && !wbufs[pages[p].wbuf.value].full && wbufs[pages[p].wbuf.value].free >= |data| {
        var a := Store(p, data);
        r := Some(a);
      }
    }

    static lemma FlushFacts(s: State, p: nat)
      requires Valid(s) && p < |s.pages| && s.pages[p].wbuf.Some? && s.pages[p].wbuf.value < |s.wbufs|
               && !s.wbufs[s.pages[p].wbuf.value].full
      ensures s.ioStack != [] && s.ioStack[0] < |s.ios| == s.cfg.wbufCount
      ensures s.wbufs[s.pages[p].wbuf.value].free <= |s.wbufs[s.pages[p].wbuf.value].buf|
    {
      IoFacts(s, p);
      BufferInRange(s, p);
    }

    static lemma NeedsBuffer(s: State, p: nat)
      requires Valid(s) && p < |s.pages|
      ensures s.wbufStack != [] ==> s.wbufStack[0] < |s.wbufs|
    {
      StackFacts(s);
    }

    static lemma FlushedAttempt(s: State, p: nat, data: seq<Byte>, t: nat)
      requires Valid(s) && p < |s.pages| && t < |s.threads| && s.pages[p].wbuf.Some?
               && s.pages[p].wbuf.value < |s.wbufs|
      requires var wb := s.wbufs[s.pages[p].wbuf.value]; wb.free < |data| && !wb.full
      requires s.ioStack != [] && s.ioStack[0] < |s.ios|
      requires s.wbufs[s.pages[p].wbuf.value].free <= |s.wbufs[s.pages[p].wbuf.value].buf|
      ensures Attempted(s, p, data, t, SubmitWbuf(s, p, t))
    {
      hide Valid;
    }

    static lemma StoringAttempt(s: State, p: nat, data: seq<Byte>, t: nat, s2: State)
      requires Valid(s) && p < |s.pages| && t < |s.threads| && |data| > 0
               && (s.pages[p].wbuf.Some? ==> s.pages[p].wbuf.value < |s.wbufs|)
      requires !(s.pages[p].wbuf.Some? && s.wbufs[s.pages[p].wbuf.value].free < |data|
                 && !s.wbufs[s.pages[p].wbuf.value].full)
      requires !TakesNoMore(s, p) && (s.wbufStack != [] ==> s.wbufStack[0] < |s.wbufs|)
      requires s2 == if s.pages[p].wbuf.None? && s.pages[p].allotted < s.cfg.pageSize then AllocateWbuf(s, p) else s
      ensures Valid(s2) && s2.written == s.written && p < |s2.pages| && s2.pages[p].active
      ensures s2.pages[p].version == s.pages[p].version
      ensures Attempted(s, p, data, t, if HasRoom(s2, p, |data|) then StoreObject(s2, p, data) else s2)
    {
      hide Valid, StoreObject;
      if s.pages[p].wbuf.None? { AttemptBuffer(s, p); }
    }

    static lemma PlacedIn(s: State, s2: State, p: nat, data: seq<Byte>)
      requires Valid(s2) && s2.written == s.written && HasRoom(s2, p, |data|)
      ensures Placed(s, StoreObject(s2, p, data), NextAddr(s2, p, |data|), data)
    {
      hide Valid;
      forall o | o in s.written && o.page == p && o.version == s2.pages[p].version
        ensures o.offset + o.len <= NextAddr(s2, p, |data|).offset
      {
        ObjectsBelow(s2, p, |data|, o);
      }
    }

    static ghost predicate Attempted(s: State, p: nat, data: seq<Byte>, t: nat, s1: State) {
      && Valid(s) && p < |s.pages| && t < |s.threads| && (s.pages[p].wbuf.Some? ==> s.pages[p].wbuf.value < |s.wbufs|)
      && s1 == ExtstoreModel.AttemptOnPage(s, p, data, t)
    }

    lemma ThreadThere()
      requires IosWired() && |queue| > 0
      ensures |threads| > 0
    {
    }

    /** extstore_write_request with the page locked, and extstore_write if it succeeds. */
    method AttemptWriteRequest(w: nat, data: seq<Byte>) returns (r: Option<Addr>, ghost t: nat)
      requires Ok() && !stopped && |queue| > 0 && w < |writers| && writers[w].HasPage? && |data| > 0
      modifies this
      ensures Ok() && StepOf(old(Abs()), AttemptWrite(w, data, t), Abs())
              && (depth != old(depth) ==> LeastLoaded(old(depth), t))
      ensures r.Some? ==> Placed(old(Abs()), Abs(), r.value, data)
    {
      hide Valid, PagesWired, WbufsWired, IosWired, FreeInRange, StepOf, Attempted, Placed, TakesNoMore;
      ghost var s := Abs();
      WriterFacts(s, w);
      ThreadThere();
      var p := writers[w].page;
      BufferInRange(s, p);
      var pg := pages[p];
      NoMoreIs(s, p);
      if !pg.active || ((pg.wbuf == None || wbufs[pg.wbuf.value].full) && pg.allotted >= cfg.pageSize) {
        r, t := None, 0;
        FullStep(s, w, data, t);
        writers := writers[w := MustAllocate(writers[w].bucket, writers[w].freeBucket)];
      } else {
        r, t := AttemptOnPage(p, data);
        AttemptStep(s, w, data, t, Abs());
        PlacedStays(s, Abs(), r, data, w);
        writers := writers[w := Idle];
      }
    }

    static lemma NoMoreIs(s: State, p: nat)
      requires p < |s.pages| && (s.pages[p].wbuf.Some? ==> s.pages[p].wbuf.value < |s.wbufs|)
      ensures var pg := s.pages[p];
        TakesNoMore(s, p) <==>
        !pg.active || ((pg.wbuf == None || s.wbufs[pg.wbuf.value].full) && pg.allotted >= s.cfg.pageSize)
    {
    }

    static ghost predicate CanAttempt(s: State, w: nat, data: seq<Byte>, t: nat) {
      && Valid(s) && !s.stopped && w < |s.writers| && s.writers[w].HasPage? && t < |s.threads| && |data| > 0
      && s.writers[w].page < |s.pages|
      && (s.pages[s.writers[w].page].wbuf.Some? ==> s.pages[s.writers[w].page].wbuf.value < |s.wbufs|)
    }

    static lemma FullStep(s: State, w: nat, data: seq<Byte>, t: nat)
      requires CanAttempt(s, w, data, t) && TakesNoMore(s, s.writers[w].page)
      ensures var s1 := s.(writers := s.writers[w := MustAllocate(s.writers[w].bucket, s.writers[w].freeBucket)]);
              StepOf(s, AttemptWrite(w, data, t), s1) && Valid(s1)
    {
      hide Valid;
      StepKeeps(s, AttemptWrite(w, data, t));
    }

    static lemma AttemptStep(s: State, w: nat, data: seq<Byte>, t: nat, s1: State)
      requires CanAttempt(s, w, data, t) && !TakesNoMore(s, s.writers[w].page)
               && Attempted(s, s.writers[w].page, data, t, s1)
      ensures var s2 := s1.(writers := s.writers[w := Idle]);
              s1.writers == s.writers && StepOf(s, AttemptWrite(w, data, t), s2) && Valid(s2)
    {
      hide Valid, ExtstoreModel.AttemptOnPage;
      StepKeeps(s, AttemptWrite(w, data, t));
      AttemptKeepsWriters(s, s.writers[w].page, data, t);
    }

    static lemma PlacedStays(s: State, s1: State, r: Option<Addr>, data: seq<Byte>, w: nat)
      requires w < |s1.writers|
      ensures r.Some? && Placed(s, s1, r.value, data) ==>
              Placed(s, s1.(writers := s1.writers[w := Idle]), r.value, data)
    {
    }

    // ------------------------------------------------------------------------------ reads

    static lemma LocalStep(s: State, e: Event)
      requires Valid(s) && !s.stopped && EnabledLocal(s, e)
      ensures StepOf(s, e, ApplyLocal(s, e)) && Valid(ApplyLocal(s, e))
    {
      hide Valid, ApplyLocal;
      StepKeeps(s, e);
    }

    /** A caller's IO object is filled in and put in front of others. */
    method LinkRequest(x: nat, a: Addr, first: Ptr, ghost ids: seq<nat>)
      requires IosWired() && OffIos(freeIos, queued, batched, x) && Chained(ioNext, first, ids) && x !in ids
      modifies this`ioNext, this`asked
      ensures IosWired() && Chained(ioNext, Ptr(x), [x] + ids) && asked == old(asked)[x := a] && Abs() == old(Abs())
    {
      hide IosLinked, AllThreads, OffIos, Chained;
      LooseIo(ioNext, ioStack, queue, current, freeIos, queued, batched, x, first);
      FillRequest(cfg.wbufCount, asked, threads, freeIos, queued, queueTail, depth, batched, phase, x, a);
      StaysChained(ioNext, first, ids, x, first);
      PushedChained(ioNext[x := first], first, ids, x);
      asked := asked[x := a];
      ioNext := ioNext[x := first];
    }

    /** The linking of the stack handed to extstore_submit, from its last object on. */
    method StackRequests(ids: seq<nat>, addrs: seq<Addr>) returns (first: Ptr)
      requires IosWired() && |ids| == |addrs| && NoDup(ids)
      requires forall x :: x in ids ==> x >= cfg.wbufCount && OffIos(freeIos, queued, batched, x)
      modifies this`ioNext, this`asked
      ensures IosWired() && Handed(ioNext, first, ids, freeIos, queued, batched) && Abs() == old(Abs())
      ensures forall i :: 0 <= i < |ids| ==> ids[i] in asked && asked[ids[i]] == addrs[i]
    {
      hide IosWired, OffIos, Chained;
      var k := |ids|;
      first := Nil;
      NoneChained(ioNext);
      assert ids[k..] == [];
      while k > 0
        invariant 0 <= k <= |ids| && IosWired() && Chained(ioNext, first, ids[k..]) && Abs() == old(Abs())
        invariant forall i :: k <= i < |ids| ==> ids[i] in asked && asked[ids[i]] == addrs[i]
      {
        k := k - 1;
        var x := ids[k];
        assert x in ids && ids[k..] == [x] + ids[k + 1..];
        assert x !in ids[k + 1..];
        LinkRequest(x, addrs[k], first, ids[k + 1..]);
        first := Ptr(x);
      }
      assert ids[0..] == ids;
    }

    /** extstore_submit of a caller's IO objects, none of which is in use. */
    method SubmitReadIos(ids: seq<nat>, addrs: seq<Addr>) returns (t: nat)
      requires Ok() && !stopped && |queue| > 0 && |ids| == |addrs| > 0 && NoDup(ids)
      requires forall x :: x in ids ==> x >= cfg.wbufCount && OffIos(freeIos, queued, batched, x)
      requires forall i :: 0 <= i < |addrs| ==> RangeOk(cfg, |pages|, addrs[i])
      modifies this`ioNext, this`asked, this`queue, this`queueTail, this`depth, this`queued, this`threads
      ensures Ok() && LeastLoaded(old(depth), t) && StepOf(old(Abs()), Submit(t, addrs), Abs())
    {
      hide Valid, PagesWired, WbufsWired, IosWired, StepOf, OffIos, Handed, SubmitReads, IosOf;
      ghost var s := Abs();
      DepthsCount();
      var first := StackRequests(ids, addrs);
      forall x | x in ids ensures x in asked {}
      t := SubmitStack(first, ids);
      SubmittedIs(s, t, cfg.wbufCount, asked, ids, addrs);
      LocalStep(s, Submit(t, addrs));
      assert Abs() == SubmitReads(s, t, addrs);
    }

    static lemma SubmittedIs(s: State, t: nat, n: nat, asked: map<nat, Addr>, ids: seq<nat>, addrs: seq<Addr>)
      requires t < |s.threads| && |ids| == |addrs| && forall x :: x in ids ==> x >= n
      requires forall i :: 0 <= i < |ids| ==> ids[i] in asked && asked[ids[i]] == addrs[i]
      ensures SubmitReads(s, t, addrs) == s.(threads := s.threads[t := Extended(s.threads[t], IosOf(n, asked, ids))])
    {
      forall i | 0 <= i < |ids| ensures ids[i] >= n { assert ids[i] in ids; }
      assert IosOf(n, asked, ids) == seq(|addrs|, i requires 0 <= i < |addrs| => ReadIo(addrs[i]));
    }

    lemma DepthsCount()
      requires IosWired() && Valid(Abs())
      ensures forall t :: 0 <= t < |depth| ==> depth[t] >= 0
    {
      assert |depth| == |queue|;
      hide IosLinked, AllThreads, Valid, ThreadWired;
      forall t | 0 <= t < |depth| ensures depth[t] >= 0 {
        SizesAre(t);
        CurrentIs(cfg.wbufCount, asked, threads[t], queued[t], queueTail[t], depth[t], batched[t], phase[t]);
        DepthIs(Abs(), t);
      }
    }

    /** A read with its page locked; `answer` is what goes to the callback at once. When the buffer
        cannot serve the read an assertion fails. */
    method LockPageForRead(t: nat) returns (r: Addr, answer: Option<seq<Byte>>, missed: bool)
      requires Ok() && !stopped && AtRead(Abs(), t, Ready)
      modifies this`pages, this`current, this`batched, this`phase, this`threads, this`stopped
      ensures Ok() && StepOf(old(Abs()), LockForRead(t), Abs())
      ensures r == old(threads)[t].batch[0].addr && r.page < |old(pages)|
      ensures answer.Some? ==> AnswersWith(old(Abs()), LockForRead(t), r, answer.value)
      ensures missed <==> !Current(old(pages)[r.page], r)
    {
      hide Valid, PagesWired, WbufsWired, IosWired, StepOf, OffIos, AnswersWith, ReadBegin;
      ghost var s := Abs();
      LockStep(s, t);
      CurrentObject(t);
      r := asked[current[t].id];
      var pg := pages[r.page];
      answer, missed := None, false;
      if !pg.free && !pg.closed && pg.version == r.version {
        if pg.active && r.offset >= pg.written {
          answer := ReadFromBuffer(pg, r);
          if answer == None {
            stopped := true;
            assert Abs() == ReadBegin(s, t);
          } else {
            BufferAnswers(s, t, answer.value);
            FinishIo(t);
            assert Abs() == ReadBegin(s, t);
          }
        } else {
          pages := pages[r.page := pg.(refcount := pg.refcount + 1)];
          SetPhase(t, Reading);
          assert Abs() == ReadBegin(s, t);
        }
      } else {
        missed := true;
        FinishIo(t);
        assert Abs() == ReadBegin(s, t);
      }
    }

    static lemma LockStep(s: State, t: nat)
      requires Valid(s) && !s.stopped && AtRead(s, t, Ready)
      ensures StepOf(s, LockForRead(t), ReadBegin(s, t)) && Valid(ReadBegin(s, t))
      ensures var r := s.threads[t].batch[0].addr; var pg := s.pages[r.page];
        && (!Current(pg, r) ==> ReadBegin(s, t) == s.(threads := s.threads[t := Finished(s.threads[t])]))
        && (Current(pg, r) && !InBuffer(pg, r) ==>
              ReadBegin(s, t) == s.(pages := s.pages[r.page := pg.(refcount := pg.refcount + 1)],
                                    threads := s.threads[t := s.threads[t].(phase := Reading)]))
        && (Current(pg, r) && InBuffer(pg, r) && BufferServes(pg, s.wbufs, r) ==>
              ReadBegin(s, t) == s.(threads := s.threads[t := Finished(s.threads[t])]))
        && (Current(pg, r) && InBuffer(pg, r) && !BufferServes(pg, s.wbufs, r) ==>
            ReadBegin(s, t) == s.(stopped := true))
    {
      hide Valid;
      LocalStep(s, LockForRead(t));
    }

    /** _read_from_wbuf: None stands for an assertion that fails, or a read past the buffer. */
    method ReadFromBuffer(pg: Page, r: Addr) returns (answer: Option<seq<Byte>>)
      ensures answer.Some? <==> BufferServes(pg, wbufs, r)
      ensures answer.Some? ==>
                var w := wbufs[pg.wbuf.value]; answer.value == w.buf[r.offset - w.offset..r.offset - w.offset + r.len]
    {
      if pg.wbuf == None || pg.wbuf.value >= |wbufs| { return None; }
      var w := wbufs[pg.wbuf.value];
      if r.offset < w.offset || r.offset >= w.offset + |w.buf| || r.offset - w.offset + r.len > |w.buf| { return None; }
      answer := Some(w.buf[r.offset - w.offset..r.offset - w.offset + r.len]);
    }

    static lemma BufferAnswers(s: State, t: nat, d: seq<Byte>)
      requires Valid(s) && !s.stopped && AtRead(s, t, Ready)
      requires var r := s.threads[t].batch[0].addr;
        && Current(s.pages[r.page], r) && InBuffer(s.pages[r.page], r) && BufferServes(s.pages[r.page], s.wbufs, r)
        && var w := s.wbufs[s.pages[r.page].wbuf.value]; d == w.buf[r.offset - w.offset..r.offset - w.offset + r.len]
      ensures AnswersWith(s, LockForRead(t), s.threads[t].batch[0].addr, d)
    {
      hide Valid;
    }

    static lemma DiskAnswers(s: State, t: nat)
      requires Valid(s) && !s.stopped && AtRead(s, t, Reading)
      ensures var r := s.threads[t].batch[0].addr;
        && r.page < |s.disk| && r.offset + r.len <= |s.disk[r.page]|
        && AnswersWith(s, DiskRead(t), r, s.disk[r.page][r.offset..r.offset + r.len])
    {
      hide Valid;
      RangeOnDisk(s, t);
    }

    /** The pread, without a lock. */
    method ReadDisk(t: nat) returns (r: Addr, answer: seq<Byte>)
      requires Ok() && !stopped && AtRead(Abs(), t, Reading)
      modifies this`phase, this`threads
      ensures Ok() && StepOf(old(Abs()), DiskRead(t), Abs())
      ensures r == old(threads)[t].batch[0].addr && AnswersWith(old(Abs()), DiskRead(t), r, answer)
    {
      hide Valid, PagesWired, WbufsWired, IosWired, StepOf, AnswersWith;
      ghost var s := Abs();
      LocalStep(s, DiskRead(t));
      CurrentObject(t);
      DiskAnswers(s, t);
      r := asked[current[t].id];
      answer := disk[r.page][r.offset..r.offset + r.len];
      SetPhase(t, Draining);
      assert Abs() == PreadDone(s, t);
    }

    method ReleasePage(t: nat)
      requires Ok() && !stopped && AtRead(Abs(), t, Draining)
      modifies this`pages, this`current, this`batched, this`phase, this`threads
      ensures Ok() && StepOf(old(Abs()), Unpin(t), Abs())
      ensures old(pages)[old(threads)[t].batch[0].addr.page].refcount > 0
    {
      hide Valid, PagesWired, WbufsWired, IosWired, StepOf, OffIos;
      ghost var s := Abs();
      LocalStep(s, Unpin(t));
      ReadEndKeeps(s, t);
      CurrentObject(t);
      var p := asked[current[t].id].page;
      pages := pages[p := pages[p].(refcount := pages[p].refcount - 1)];
      FinishIo(t);
      assert Abs() == ReadEnd(s, t);
    }

    // ----------------------------------------------------------------------------- flushes

    /** The pwrite, without a lock. */
    method WriteDisk(t: nat)
      requires Ok() && !stopped && AtWrite(Abs(), t, Ready)
      modifies this`disk, this`phase, this`threads
      ensures Ok() && StepOf(old(Abs()), DiskWrite(t), Abs())
    {
      hide Valid, PagesWired, WbufsWired, IosWired, StepOf;
      ghost var s := Abs();
      LocalStep(s, DiskWrite(t));
      CurrentWrite(s, t);
      CurrentObject(t);
      var io := ios[current[t].id];
      disk := disk[io.page := Splice(disk[io.page], io.offset, wbufs[io.wbuf].buf)];
      SetPhase(t, Flushing);
      assert Abs() == Pwrite(s, t);
    }

    /** A write buffer goes back on the stack. */
    method PushWbuf(w: nat)
      requires WbufsWired() && w !in freeWbufs
      modifies this`wbufNext, this`wbufStack, this`freeWbufs
      ensures WbufsWired() && Abs() == old(Abs()).(wbufStack := [w] + old(freeWbufs))
    {
      hide AllChained, Disjoint;
      PushOne(wbufNext, wbufStack, freeWbufs, w);
      wbufNext := wbufNext[w := wbufStack];
      wbufStack := Ptr(w);
      freeWbufs := [w] + freeWbufs;
    }

    /** The buffer and the IO object of a finished write go back on their stacks. */
    method ReturnObjects(t: nat, w: nat)
      requires WbufsWired() && w !in freeWbufs && IosWired() && t < |threads| && threads[t].batch != []
      modifies this`wbufNext, this`wbufStack, this`freeWbufs, this`ioNext, this`ioStack, this`freeIos,
               this`current, this`batched, this`phase, this`threads
      ensures WbufsWired() && IosWired() && t < |old(current)| && old(current)[t].Ptr?
      ensures Abs() == old(Abs()).(wbufStack := [w] + old(freeWbufs), ioStack := [old(current)[t].id] + old(freeIos),
                                   threads := old(threads)[t := Finished(old(threads)[t])])
    {
      hide WbufsWired, IosWired, OffIos;
      PushWbuf(w);
      var i := CurrentId(t);
      FinishIo(t);
      PushIo(i);
    }

    method CurrentId(t: nat) returns (id: nat)
      requires IosWired() && t < |threads| && threads[t].batch != []
      ensures t < |current| && current[t] == Ptr(id)
    {
      CurrentObject(t);
      id := current[t].id;
    }

    static lemma CallbackStep(s: State, t: nat)
      requires Valid(s) && !s.stopped && AtWrite(s, t, Flushing)
      ensures StepOf(s, Callback(t), FlushDone(s, t)) && Valid(FlushDone(s, t))
      ensures var io := s.ios[s.threads[t].batch[0].io];
        && s.pages[io.page].wbuf == Some(io.wbuf) && s.pages[io.page].written == s.wbufs[io.wbuf].offset
           && io.wbuf !in s.wbufStack
    {
      hide Valid;
      LocalStep(s, Callback(t));
      CurrentWrite(s, t);
    }

    /** _wbuf_cb with the page locked; its two assertions hold. */
    method NoteFlushed(p: nat, w: nat)
      requires p < |pages| && w < |wbufs| && pages[p].wbuf == Some(w) && pages[p].written == wbufs[w].offset
      modifies this`pages
      ensures var pg, written := old(pages)[p], old(pages)[p].written + |wbufs[w].buf|;
              Abs() == old(Abs()).(pages := old(pages)[p := pg.(written := written, wbuf := None,
                                                                active := pg.active && written != cfg.pageSize)])
    {
      var pg := pages[p];
      assert pg.wbuf == Some(w);
      assert pg.written == wbufs[w].offset;
      pg := pg.(written := pg.written + |wbufs[w].buf|, wbuf := None);
      if pg.written == cfg.pageSize { pg := pg.(active := false); }
      pages := pages[p := pg];
    }

    /** _wbuf_cb. */
    method FlushCallback(t: nat)
      requires Ok() && !stopped && AtWrite(Abs(), t, Flushing)
      modifies this`pages, this`wbufNext, this`wbufStack, this`freeWbufs, this`ioNext, this`ioStack, this`freeIos,
               this`current, this`batched, this`phase, this`threads
      ensures Ok() && StepOf(old(Abs()), Callback(t), Abs())
    {
      hide Valid, PagesWired, WbufsWired, IosWired, StepOf, OffIos;
      ghost var s := Abs();
      CallbackStep(s, t);
      CurrentObject(t);
      var i := CurrentId(t);
      NoteFlushed(ios[i].page, ios[i].wbuf);
      ReturnObjects(t, ios[i].wbuf);
      assert Abs() == FlushDone(s, t);
    }

    // --------------------------------------------------------- deleting, closing, reclaiming

    /** extstore_delete. */
    method NoteDelete(p: nat, pageVersion: nat, count: nat, bytes: nat) returns (ok: bool)
      requires Ok() && !stopped && p < |pages|
      modifies this`pages
      ensures Ok() && StepOf(old(Abs()), DeleteObjects(p, pageVersion, count, bytes), Abs())
      ensures ok <==> !old(pages)[p].closed && old(pages)[p].version == pageVersion
    {
      hide Valid, PagesWired, WbufsWired, IosWired, StepOf;
      ghost var s := Abs();
      LocalStep(s, DeleteObjects(p, pageVersion, count, bytes));
      var pg := pages[p];
      ok := !pg.closed && pg.version == pageVersion;
      if ok {
        pg := pg.(bytesUsed := if pg.bytesUsed >= bytes then pg.bytesUsed - bytes else 0);
        pg := pg.(objCount := if pg.objCount >= count then pg.objCount - count else 0);
        pages := pages[p := pg];
      }
      assert Abs() == Delete(s, p, pageVersion, count, bytes);
    }

    /** extstore_close_page. */
    method ClosePage(p: nat, pageVersion: nat)
      requires Ok() && !stopped && p < |pages|
      modifies this`pages
      ensures Ok() && StepOf(old(Abs()), Event.ClosePage(p, pageVersion), Abs())
    {
      hide Valid, PagesWired, WbufsWired, IosWired, StepOf;
      ghost var s := Abs();
      LocalStep(s, Event.ClosePage(p, pageVersion));
      if !pages[p].closed && pages[p].version == pageVersion {
        pages := pages[p := pages[p].(closed := true)];
      }
      assert Abs() == Close(s, p, pageVersion);
    }

    /** extstore_maint_thread: the decision to evict. */
    method StartMaintScan()
      requires Ok() && !stopped && maint == Waiting
      modifies this`maint
      ensures Ok() && StepOf(old(Abs()), StartScan, Abs())
    {
      hide Valid, PagesLinked, WbufsWired, IosWired, StepOf;
      ghost var s := Abs();
      LocalStep(s, StartScan);
      FreeHead();
      maint := Scanning(0, pageFree == 0 || freelist == Nil, None, 0);
      assert Abs() == MaintStart(s);
    }

    lemma FreeHead()
      requires PagesWired() && Valid(Abs())
      ensures freelist == PtrAt(freePages, 0)
    {
      TableSizes(Abs());
      HeadIs(pageNext, Layout(freelist, freeBuckets, buckets), Layout(freePages, homePages, bucketPages), 0);
    }

    /** extstore_maint_thread: one page of the scan. */
    method ScanOnePage()
      requires Ok() && !stopped && maint.Scanning? && maint.next < |pages|
      modifies this`pageNext, this`buckets, this`bucketPages, this`pages, this`freeBuckets, this`freelist,
               this`homePages, this`freePages, this`pageFree, this`maint
      ensures Ok() && StepOf(old(Abs()), ScanPage, Abs())
    {
      hide Valid, PagesWired, WbufsWired, IosWired, StepOf, FreePage, MaintPage, Candidate;
      ghost var s := Abs();
      var p := maint.next;
      var pg := pages[p];
      ScanStep(s);
      if pg.active || pg.free {
        NoteMaint(maint.(next := p + 1));
        return;
      }
      var m := NoteCandidate(pg, p, maint);
      if (pg.objCount == 0 || pg.closed) && pg.refcount == 0 {
        PageInUse(s, p);
        ReclaimPage(p);
        m := m.(evict := false);
      }
      NoteMaint(m);
    }

    method NoteMaint(m: Maint)
      modifies this`maint
      ensures Abs() == old(Abs()).(maint := m)
    {
      maint := m;
    }

    method MarkClosed(p: nat)
      requires p < |pages|
      modifies this`pages
      ensures Abs() == old(Abs()).(pages := old(pages)[p := old(pages)[p].(closed := true)])
    {
      pages := pages[p := pages[p].(closed := true)];
    }

    /** The lowest version of the scan so far. */
    static method NoteCandidate(pg: Page, p: nat, maint: Maint) returns (m: Maint)
      requires maint.Scanning?
      ensures m.Scanning? && m == Candidate(pg, p, maint)
    {
      m := maint.(next := p + 1);
      if pg.objCount > 0 && !pg.closed {
        if pg.freeBucket == 0 && (m.low == None || pg.version < m.lowVersion) {
          m := m.(low := Some(p), lowVersion := pg.version);
        }
      }
    }

    static lemma PageInUse(s: State, p: nat)
      requires Valid(s) && p < |s.pages| && !s.pages[p].free
      ensures p != 0
    {
      hide ListsOk, WbufsOk, IosOk, WritesDistinct, IoCounts, ThreadsOk, ReadersOk, DataOk, FlushesOk, WritersOk,
           MaintOk, BlocksOk;
    }

    /** The page of the scan that is the best to evict so far. */
    static function Candidate(pg: Page, p: nat, m: Maint): Maint
      requires m.Scanning?
    {
      if pg.objCount > 0 && !pg.closed && pg.freeBucket == 0 && (m.low.None? || pg.version < m.lowVersion)
      then m.(next := p + 1, low := Some(p), lowVersion := pg.version) else m.(next := p + 1)
    }

    static lemma ScanStep(s: State)
      requires Valid(s) && !s.stopped && s.maint.Scanning? && s.maint.next < |s.pages|
      ensures StepOf(s, ScanPage, MaintPage(s)) && Valid(MaintPage(s))
      ensures var p := s.maint.next; var pg := s.pages[p];
        && pg.bucket < |s.buckets| && pg.freeBucket < |s.freeBuckets|
        && (pg.active || pg.free ==> MaintPage(s) == s.(maint := s.maint.(next := p + 1)))
        && (!pg.active && !pg.free && Reclaimable(pg) ==>
              MaintPage(s) == FreePage(s, p).(maint := Candidate(pg, p, s.maint).(evict := false)))
        && (!pg.active && !pg.free && !Reclaimable(pg) ==> MaintPage(s) == s.(maint := Candidate(pg, p, s.maint)))
    {
      hide Valid, FreePage;
      InBucketRange(s, s.maint.next);
      StepKeeps(s, ScanPage);
    }

    static lemma CandidateFacts(s: State)
      requires Valid(s) && s.maint.Scanning? && s.maint.low.Some?
      ensures s.maint.low.value < |s.pages| && !s.pages[s.maint.low.value].free && s.maint.low.value != 0
      ensures s.pages[s.maint.low.value].bucket < |s.buckets| && s.pages[s.maint.low.value].freeBucket < |s.freeBuckets|
    {
      MaintFacts(s);
      hide Valid;
      InBucketRange(s, s.maint.low.value);
      PageInUse(s, s.maint.low.value);
    }

    /** extstore_maint_thread: the eviction after the scan. */
    method EvictOldest()
      requires Ok() && !stopped && maint.Scanning? && maint.next == |pages|
      modifies this`pageNext, this`buckets, this`bucketPages, this`pages, this`freeBuckets, this`freelist,
               this`homePages, this`freePages, this`pageFree, this`maint
      ensures Ok() && StepOf(old(Abs()), Evict, Abs())
    {
      hide Valid, PagesWired, WbufsWired, IosWired, StepOf, FreePage, MaintEvict;
      ghost var s := Abs();
      EvictStep(s);
      var m := maint;
      NoteMaint(Waiting);
      if m.evict && m.low != None {
        var p := m.low.value;
        CandidateFacts(s);
        if !pages[p].closed {
          MarkClosed(p);
          if pages[p].refcount == 0 { ReclaimPage(p); }
        }
      }
    }

    /** The candidate, closed. */
    static function Closed(s: State): State
      requires s.maint.Scanning? && s.maint.low.Some? && s.maint.low.value < |s.pages|
    {
      var p := s.maint.low.value;
      s.(pages := s.pages[p := s.pages[p].(closed := true)], maint := Waiting)
    }

    static lemma EvictStep(s: State)
      requires Valid(s) && !s.stopped && s.maint.Scanning? && s.maint.next == |s.pages|
      ensures StepOf(s, Evict, MaintEvict(s)) && Valid(MaintEvict(s))
      ensures s.maint.low.None? || !s.maint.evict ==> MaintEvict(s) == s.(maint := Waiting)
      ensures s.maint.evict && s.maint.low.Some? ==>
        var p := s.maint.low.value;
        && p < |s.pages| && !s.pages[p].free && p != 0 && s.pages[p].bucket < |s.buckets|
           && s.pages[p].freeBucket < |s.freeBuckets|
        && (s.pages[p].closed ==> MaintEvict(s) == s.(maint := Waiting))
        && (!s.pages[p].closed ==>
              && Valid(Closed(s))
              && MaintEvict(s) == if s.pages[p].refcount == 0 then FreePage(Closed(s), p) else Closed(s))
    {
      hide Valid, FreePage;
      StepKeeps(s, Evict);
      if s.maint.evict && s.maint.low.Some? {
        CandidateFacts(s);
        var p := s.maint.low.value;
        if !s.pages[p].closed {
          TouchKeeps(s, p, s.pages[p].(closed := true));
          MaintMoves(s.(pages := s.pages[p := s.pages[p].(closed := true)]), Waiting);
        }
      }
    }
  }

  // ------------------------------------------------------------------------ initialisation

  /** The loop of extstore_init that pushes the pages, from the last down to page 1. */
  method LinkPages(homes: seq<nat>, bucketCount: nat)
    returns (next: map<nat, Ptr>, free: Ptr, special: seq<Ptr>, count: nat, ghost fl: seq<nat>,
             ghost fbs: seq<seq<nat>>)
    requires forall p :: 0 <= p < |homes| ==> homes[p] < bucketCount
    ensures |special| == |fbs| == bucketCount && count == if |homes| == 0 then 0 else |homes| - 1
    ensures |homes| == 0 ==> fl == [] && fbs == seq(bucketCount, _ => [])
    ensures |homes| > 0 ==> fl == ListsFrom(homes, bucketCount, 1).0 && fbs == ListsFrom(homes, bucketCount, 1).1
    ensures var bks: seq<seq<nat>> := seq(bucketCount, _ => []);
            && AllChained(next, Layout(free, special, seq(bucketCount, _ => Nil)), Layout(fl, fbs, bks))
            && Disjoint(Layout(fl, fbs, bks))
  {
    hide AllChained, Disjoint, OnNoneOf, Chained, AllAbove, ListsFrom;
    next, free, special, count := map[], Nil, seq(bucketCount, _ => Nil), 0;
    var i: int := |homes| - 1;
    fl, fbs := [], seq(bucketCount, _ => []);
    ghost var bks: seq<seq<nat>>, none: seq<Ptr> := seq(bucketCount, _ => []), seq(bucketCount, _ => Nil);
    NoneChained(next);
    LayoutEmpty(next, Nil, [], bucketCount);
    NoneAbove(bucketCount, i);
    ListsStart(homes, bucketCount);
    while i > 0
      invariant -1 <= i < |homes|
      invariant i >= 0 ==> count == |homes| - 1 - i
      invariant i >= 0 ==> fl == ListsFrom(homes, bucketCount, i + 1).0 && fbs == ListsFrom(homes, bucketCount, i + 1).1
      invariant i < 0 ==> |homes| == 0 && count == 0 && fl == [] && fbs == seq(bucketCount, _ => [])
      invariant |special| == |fbs| == bucketCount
      invariant AllChained(next, Layout(free, special, none), Layout(fl, fbs, bks)) && Disjoint(Layout(fl, fbs, bks))
      invariant AllAbove(Layout(fl, fbs, bks), i)
    {
      count := count + 1;
      NotYet(Layout(fl, fbs, bks), i);
      ListsStep(homes, bucketCount, i);
      if homes[i] == 0 {
        Push(next, Layout(free, special, none), Layout(fl, fbs, bks), 0, i);
        LayoutFirst(free, special, none, Ptr(i));
        LayoutFirst(fl, fbs, bks, [i] + fl);
        PushAbove(Layout(fl, fbs, bks), 0, i);
        next := next[i := free];
        free := Ptr(i);
        fl := [i] + fl;
      } else {
        var fb := homes[i];
        Push(next, Layout(free, special, none), Layout(fl, fbs, bks), 1 + fb, i);
        LayoutMiddle(free, special, none, fb, Ptr(i));
        LayoutMiddle(fl, fbs, bks, fb, [i] + fbs[fb]);
        PushAbove(Layout(fl, fbs, bks), 1 + fb, i);
        next := next[i := special[fb]];
        special := special[fb := Ptr(i)];
        fbs := fbs[fb := [i] + fbs[fb]];
      }
      i := i - 1;
    }
  }

  lemma ListsStart(homes: seq<nat>, n: nat)
    requires forall p :: 0 <= p < |homes| ==> homes[p] < n
    ensures ListsFrom(homes, n, |homes|).0 == [] && ListsFrom(homes, n, |homes|).1 == seq(n, _ => [])
  {
  }

  lemma ListsStep(homes: seq<nat>, n: nat, i: nat)
    requires i < |homes| && forall p :: 0 <= p < |homes| ==> homes[p] < n
    ensures var (fl, fbs) := ListsFrom(homes, n, i + 1);
            && ListsFrom(homes, n, i).0 == (if homes[i] == 0 then [i] + fl else fl)
            && ListsFrom(homes, n, i).1 == (if homes[i] == 0 then fbs else fbs[homes[i] := [i] + fbs[homes[i]]])
  {
  }

  lemma NoIos(n: nat, count: nat)
    ensures AllThreads(n, map[], seq(count, t => IoThread([], 0, [], Ready)), seq(count, _ => []), seq(count, _ => Nil),
                       seq(count, _ => 0), seq(count, _ => []), seq(count, _ => Ready))
  {
    assert IosOf(n, map[], []) == [];
  }

  /** The loop that pushes buffers, and IO objects, on their stack. */
  method StackUp(n: nat) returns (next: map<nat, Ptr>, top: Ptr)
    ensures AllChained(next, [top], [Countdown(n)]) && Disjoint([Countdown(n)])
  {
    next, top := map[], Nil;
    OneChain(next, top, Countdown(0));
    for k := 0 to n
      invariant AllChained(next, [top], [Countdown(k)]) && Disjoint([Countdown(k)])
    {
      CountdownStep(k);
      PushOne(next, top, Countdown(k), k);
      next, top := next[k := top], Ptr(k);
    }
  }

  lemma NoneChained(next: map<nat, Ptr>)
    ensures Chained(next, Nil, [])
  {
  }

  lemma OneChain(next: map<nat, Ptr>, head: Ptr, list: seq<nat>)
    requires head == Nil && list == []
    ensures AllChained(next, [head], [list]) && Disjoint([list])
  {
  }

  lemma OneChained(next: map<nat, Ptr>, head: Ptr, list: seq<nat>)
    requires AllChained(next, [head], [list]) && Disjoint([list])
    ensures Chained(next, head, list) && NoDup(list)
  {
    assert [list][0] == list && [head][0] == head;
  }

  lemma PushOne(next: map<nat, Ptr>, head: Ptr, list: seq<nat>, x: nat)
    requires AllChained(next, [head], [list]) && Disjoint([list]) && x !in list
    ensures AllChained(next[x := head], [Ptr(x)], [[x] + list]) && Disjoint([[x] + list])
  {
    Push(next, [head], [list], 0, x);
    assert [head][0 := Ptr(x)] == [Ptr(x)] && [list][0 := [x] + list] == [[x] + list];
  }

  lemma PopOne(next: map<nat, Ptr>, head: Ptr, list: seq<nat>)
    requires AllChained(next, [head], [list]) && Disjoint([list]) && list != []
    ensures head == Ptr(list[0]) && list[0] in next
    ensures AllChained(next[list[0] := Nil], [next[list[0]]], [list[1..]]) && Disjoint([list[1..]])
  {
    Pop(next, [head], [list], 0);
    assert [head][0 := next[list[0]]] == [next[list[0]]] && [list][0 := list[1..]] == [list[1..]];
    Retarget(next, [next[list[0]]], [list[1..]], list[0], Nil);
  }

  lemma CountdownStep(k: nat)
    ensures [k] + Countdown(k) == Countdown(k + 1) && k !in Countdown(k)
  {
  }

  /** All objects on the lists have numbers above i. */
  ghost predicate AllAbove(lists: seq<seq<nat>>, i: int) {
    forall l, x :: 0 <= l < |lists| && x in lists[l] ==> x > i
  }

  lemma NoneAbove(n: nat, i: int)
    ensures AllAbove(Layout([], seq(n, _ => []), seq(n, _ => [])), i)
  {
  }

  lemma NotYet(lists: seq<seq<nat>>, i: nat)
    requires AllAbove(lists, i)
    ensures OnNoneOf(lists, i)
  {
  }

  lemma PushAbove(lists: seq<seq<nat>>, l: nat, i: nat)
    requires AllAbove(lists, i) && l < |lists|
    ensures AllAbove(lists[l := [i] + lists[l]], i - 1)
  {
  }
}
