/** How the engine of memcached/extstore.c lies in memory: pages, write buffers and IO objects each
    have one `next` field, which all lists they can be on share. */
module ExtstoreMemory {
  import opened Basics
  import opened Counting
  import opened NextLists
  import opened ExtstoreModel
  import opened ExtstoreLists
  import opened ExtstoreRuns
  import opened ExtstoreTheorems

  // ------------------------------------------------------------------------- pages

  /** A page on a list is on one list only, because its own fields say which. */
  lemma PageListsApart(s: State)
    requires ListsOf(s)
    ensures Disjoint(Layout(s.freelist, s.freeBuckets, s.buckets))
  {
    hide ListsOf, Layout;
    var lists := Layout(s.freelist, s.freeBuckets, s.buckets);
    forall l | 0 <= l < |lists| ensures NoDup(lists[l]) { ListNoDup(s, l); }
    forall l, m, x | 0 <= l < |lists| && 0 <= m < |lists| && l != m && x in lists[l] ensures x !in lists[m] {
      OnHomeList(s, l, x);
      if x in lists[m] { OnHomeList(s, m, x); }
    }
  }

  lemma ListNoDup(s: State, l: nat)
    requires ListsOf(s) && l < |Layout(s.freelist, s.freeBuckets, s.buckets)|
    ensures NoDup(Layout(s.freelist, s.freeBuckets, s.buckets)[l])
  {
    var n := |s.freeBuckets|;
    if 1 < l <= n { assert FreeListOk(s.freeBuckets[l - 1], s.pages, l - 1); }
    if l > n { assert BucketListOk(s.buckets[l - 1 - n], s.pages, l - 1 - n); }
  }

  lemma OnHomeList(s: State, l: nat, x: nat)
    requires ListsOf(s) && l < |Layout(s.freelist, s.freeBuckets, s.buckets)|
             && x in Layout(s.freelist, s.freeBuckets, s.buckets)[l]
    ensures l == HomeList(s, x)
  {
    var n := |s.freeBuckets|;
    if l == 0 {
      assert OnFree(s.pages, 0, x);
    } else if l <= n {
      assert x in s.freeBuckets[l - 1] && l > 1;
      assert FreeListOk(s.freeBuckets[l - 1], s.pages, l - 1);
      assert OnFree(s.pages, l - 1, x);
    } else {
      assert x in s.buckets[l - 1 - n];
      assert BucketListOk(s.buckets[l - 1 - n], s.pages, l - 1 - n);
      assert OnBucket(s.pages, l - 1 - n, x);
    }
  }

  /** The number of the list a page is on. */
  ghost function HomeList(s: State, p: nat): int {
    if p >= |s.pages| then -1
    else if !s.pages[p].free then 1 + |s.freeBuckets| + s.pages[p].bucket
    else if s.pages[p].freeBucket == 0 then 0
    else 1 + s.pages[p].freeBucket
  }

  lemma {:induction false} RemoveFirstAt(l: seq<nat>, i: nat)
    requires NoDup(l) && i < |l|
    ensures RemoveFirst(l, l[i]) == Without(l, i)
  {
    if i > 0 {
      RemoveFirstAt(l[1..], i - 1);
      assert Without(l, i) == [l[0]] + Without(l[1..], i - 1);
    }
  }

  lemma {:induction false} RemoveFirstNone(l: seq<nat>, p: nat)
    requires p !in l
    ensures RemoveFirst(l, p) == l
  {
    if l != [] { RemoveFirstNone(l[1..], p); }
  }

  /** page->next links the default free list, the special free lists and the buckets. */
  ghost predicate PagesLinked(n: nat, next: map<nat, Ptr>, free: Ptr, special: seq<Ptr>, buckets: seq<Ptr>,
                              fl: seq<nat>, fbs: seq<seq<nat>>, bks: seq<seq<nat>>)
  {
    && |special| == |fbs| == n && |buckets| == |bks| == n
    && AllChained(next, Layout(free, special, buckets), Layout(fl, fbs, bks)) && Disjoint(Layout(fl, fbs, bks))
  }

  /** The page is on none of them. */
  ghost predicate OffLists(fl: seq<nat>, fbs: seq<seq<nat>>, bks: seq<seq<nat>>, p: nat) {
    OnNoneOf(Layout(fl, fbs, bks), p)
  }

  lemma PageHeads(n: nat, next: map<nat, Ptr>, free: Ptr, special: seq<Ptr>, buckets: seq<Ptr>, fl: seq<nat>,
                  fbs: seq<seq<nat>>, bks: seq<seq<nat>>, b: nat)
    requires PagesLinked(n, next, free, special, buckets, fl, fbs, bks) && b < n
    ensures |special| == |fbs| == n && |buckets| == |bks| == n && free == PtrAt(fl, 0)
    ensures special[b] == PtrAt(fbs[b], 0) && buckets[b] == PtrAt(bks[b], 0) && Chained(next, buckets[b], bks[b])
            && NoDup(bks[b])
  {
    hide AllChained, Chained, Disjoint;
    var heads, lists := Layout(free, special, buckets), Layout(fl, fbs, bks);
    HeadIs(next, heads, lists, 0);
    HeadIs(next, heads, lists, 1 + b);
    HeadIs(next, heads, lists, 1 + n + b);
    ApartNoDup(lists, 1 + n + b);
  }

  lemma PopFree(n: nat, next: map<nat, Ptr>, free: Ptr, special: seq<Ptr>, buckets: seq<Ptr>, fl: seq<nat>,
                fbs: seq<seq<nat>>, bks: seq<seq<nat>>)
    requires PagesLinked(n, next, free, special, buckets, fl, fbs, bks) && fl != []
    ensures free == Ptr(fl[0]) && fl[0] in next
            && PagesLinked(n, next, next[fl[0]], special, buckets, fl[1..], fbs, bks)
    ensures OffLists(fl[1..], fbs, bks, fl[0])
  {
    hide AllChained, Disjoint, OnNoneOf, Layout;
    LayoutFirst(free, special, buckets, free);
    LayoutFirst(fl, fbs, bks, fl);
    Pop(next, Layout(free, special, buckets), Layout(fl, fbs, bks), 0);
    LayoutFirst(free, special, buckets, next[fl[0]]);
    LayoutFirst(fl, fbs, bks, fl[1..]);
  }

  lemma PopSpecial(n: nat, next: map<nat, Ptr>, free: Ptr, special: seq<Ptr>, buckets: seq<Ptr>, fl: seq<nat>,
                   fbs: seq<seq<nat>>, bks: seq<seq<nat>>, b: nat)
    requires PagesLinked(n, next, free, special, buckets, fl, fbs, bks) && b < n && fbs[b] != []
    ensures special[b] == Ptr(fbs[b][0]) && fbs[b][0] in next
    ensures PagesLinked(n, next, free, special[b := next[fbs[b][0]]], buckets, fl, fbs[b := fbs[b][1..]], bks)
    ensures OffLists(fl, fbs[b := fbs[b][1..]], bks, fbs[b][0])
  {
    hide AllChained, Disjoint, OnNoneOf, Layout;
    LayoutMiddle(free, special, buckets, b, special[b]);
    LayoutMiddle(fl, fbs, bks, b, fbs[b]);
    Pop(next, Layout(free, special, buckets), Layout(fl, fbs, bks), 1 + b);
    LayoutMiddle(free, special, buckets, b, next[fbs[b][0]]);
    LayoutMiddle(fl, fbs, bks, b, fbs[b][1..]);
  }

  lemma PushFree(n: nat, next: map<nat, Ptr>, free: Ptr, special: seq<Ptr>, buckets: seq<Ptr>, fl: seq<nat>,
                 fbs: seq<seq<nat>>, bks: seq<seq<nat>>, p: nat)
    requires PagesLinked(n, next, free, special, buckets, fl, fbs, bks) && OffLists(fl, fbs, bks, p)
    ensures PagesLinked(n, next[p := free], Ptr(p), special, buckets, [p] + fl, fbs, bks)
  {
    hide AllChained, Disjoint, OnNoneOf, Layout;
    LayoutFirst(free, special, buckets, free);
    LayoutFirst(fl, fbs, bks, fl);
    Push(next, Layout(free, special, buckets), Layout(fl, fbs, bks), 0, p);
    LayoutFirst(free, special, buckets, Ptr(p));
    LayoutFirst(fl, fbs, bks, [p] + fl);
  }

  lemma PushSpecial(n: nat, next: map<nat, Ptr>, free: Ptr, special: seq<Ptr>, buckets: seq<Ptr>, fl: seq<nat>,
                    fbs: seq<seq<nat>>, bks: seq<seq<nat>>, b: nat, p: nat)
    requires PagesLinked(n, next, free, special, buckets, fl, fbs, bks) && b < n && OffLists(fl, fbs, bks, p)
    ensures PagesLinked(n, next[p := special[b]], free, special[b := Ptr(p)], buckets, fl, fbs[b := [p] + fbs[b]], bks)
  {
    hide AllChained, Disjoint, OnNoneOf, Layout;
    LayoutMiddle(free, special, buckets, b, special[b]);
    LayoutMiddle(fl, fbs, bks, b, fbs[b]);
    Push(next, Layout(free, special, buckets), Layout(fl, fbs, bks), 1 + b, p);
    LayoutMiddle(free, special, buckets, b, Ptr(p));
    LayoutMiddle(fl, fbs, bks, b, [p] + fbs[b]);
  }

  lemma PushBucket(n: nat, next: map<nat, Ptr>, free: Ptr, special: seq<Ptr>, buckets: seq<Ptr>, fl: seq<nat>,
                   fbs: seq<seq<nat>>, bks: seq<seq<nat>>, b: nat, p: nat)
    requires PagesLinked(n, next, free, special, buckets, fl, fbs, bks) && b < n && OffLists(fl, fbs, bks, p)
    ensures PagesLinked(n, next[p := buckets[b]], free, special, buckets[b := Ptr(p)], fl, fbs, bks[b := [p] + bks[b]])
  {
    hide AllChained, Disjoint, OnNoneOf, Layout;
    LayoutLast(free, special, buckets, b, buckets[b]);
    LayoutLast(fl, fbs, bks, b, bks[b]);
    Push(next, Layout(free, special, buckets), Layout(fl, fbs, bks), 1 + n + b, p);
    LayoutLast(free, special, buckets, b, Ptr(p));
    LayoutLast(fl, fbs, bks, b, [p] + bks[b]);
  }

  /** The writes of _free_page to a page that it found at position k of its bucket. */
  lemma UnlinkBucket(n: nat, next: map<nat, Ptr>, free: Ptr, special: seq<Ptr>, buckets: seq<Ptr>, fl: seq<nat>,
                     fbs: seq<seq<nat>>, bks: seq<seq<nat>>, b: nat, k: nat)
    requires PagesLinked(n, next, free, special, buckets, fl, fbs, bks) && b < n && k < |bks[b]|
    ensures bks[b][k] in next && OffLists(fl, fbs, bks[b := Without(bks[b], k)], bks[b][k])
    ensures var p := bks[b][k];
            if k > 0 then PagesLinked(n, next[bks[b][k - 1] := next[p]][p := Nil], free, special, buckets, fl, fbs,
                                      bks[b := Without(bks[b], k)])
            else PagesLinked(n, next[p := Nil], free, special, buckets[b := next[p]], fl, fbs,
                             bks[b := Without(bks[b], k)])
  {
    hide AllChained, Disjoint, OnNoneOf, Without, Layout;
    LayoutLast(free, special, buckets, b, buckets[b]);
    LayoutLast(fl, fbs, bks, b, bks[b]);
    UnlinkAt(next, Layout(free, special, buckets), Layout(fl, fbs, bks), 1 + n + b, k);
    LayoutLast(free, special, buckets, b, next[bks[b][k]]);
    LayoutLast(fl, fbs, bks, b, Without(bks[b], k));
  }

  // --------------------------------------------------------------------- IO objects

  /** io->next links the stack of the engine's IO objects, the queues and the batches. */
  ghost predicate IosLinked(next: map<nat, Ptr>, stack: Ptr, queue: seq<Ptr>, current: seq<Ptr>,
                            il: seq<nat>, qs: seq<seq<nat>>, bs: seq<seq<nat>>)
  {
    && |queue| == |current| == |qs| == |bs|
    && AllChained(next, Layout(stack, queue, current), Layout(il, qs, bs)) && Disjoint(Layout(il, qs, bs))
  }

  ghost predicate OffIos(il: seq<nat>, qs: seq<seq<nat>>, bs: seq<seq<nat>>, x: nat) {
    OnNoneOf(Layout(il, qs, bs), x)
  }

  lemma IoHeads(next: map<nat, Ptr>, stack: Ptr, queue: seq<Ptr>, current: seq<Ptr>, il: seq<nat>, qs: seq<seq<nat>>,
                bs: seq<seq<nat>>, t: nat)
    requires IosLinked(next, stack, queue, current, il, qs, bs) && t < |queue|
    ensures |queue| == |current| == |qs| == |bs| && stack == PtrAt(il, 0) && current[t] == PtrAt(bs[t], 0)
    ensures queue[t] == PtrAt(qs[t], 0) && Chained(next, queue[t], qs[t])
  {
    hide AllChained, Chained, Disjoint;
    HeadIs(next, Layout(stack, queue, current), Layout(il, qs, bs), 0);
    HeadIs(next, Layout(stack, queue, current), Layout(il, qs, bs), 1 + t);
    HeadIs(next, Layout(stack, queue, current), Layout(il, qs, bs), 1 + |queue| + t);
  }

  lemma PopStack(next: map<nat, Ptr>, stack: Ptr, queue: seq<Ptr>, current: seq<Ptr>, il: seq<nat>,
                 qs: seq<seq<nat>>, bs: seq<seq<nat>>)
    requires IosLinked(next, stack, queue, current, il, qs, bs) && il != []
    ensures stack == Ptr(il[0]) && il[0] in next && IosLinked(next, next[il[0]], queue, current, il[1..], qs, bs)
    ensures OffIos(il[1..], qs, bs, il[0])
  {
    hide AllChained, Disjoint, OnNoneOf, Layout;
    LayoutFirst(stack, queue, current, stack);
    LayoutFirst(il, qs, bs, il);
    Pop(next, Layout(stack, queue, current), Layout(il, qs, bs), 0);
    LayoutFirst(stack, queue, current, next[il[0]]);
    LayoutFirst(il, qs, bs, il[1..]);
  }

  lemma PushStack(next: map<nat, Ptr>, stack: Ptr, queue: seq<Ptr>, current: seq<Ptr>, il: seq<nat>,
                  qs: seq<seq<nat>>, bs: seq<seq<nat>>, x: nat)
    requires IosLinked(next, stack, queue, current, il, qs, bs) && OffIos(il, qs, bs, x)
    ensures IosLinked(next[x := stack], Ptr(x), queue, current, [x] + il, qs, bs)
  {
    hide AllChained, Disjoint, OnNoneOf, Layout;
    LayoutFirst(stack, queue, current, stack);
    LayoutFirst(il, qs, bs, il);
    Push(next, Layout(stack, queue, current), Layout(il, qs, bs), 0, x);
    LayoutFirst(stack, queue, current, Ptr(x));
    LayoutFirst(il, qs, bs, [x] + il);
  }

  lemma LooseIo(next: map<nat, Ptr>, stack: Ptr, queue: seq<Ptr>, current: seq<Ptr>, il: seq<nat>, qs: seq<seq<nat>>,
                bs: seq<seq<nat>>, x: nat, link: Ptr)
    requires IosLinked(next, stack, queue, current, il, qs, bs) && OffIos(il, qs, bs, x)
    ensures IosLinked(next[x := link], stack, queue, current, il, qs, bs)
  {
    hide AllChained, Disjoint, OnNoneOf;
    Retarget(next, Layout(stack, queue, current), Layout(il, qs, bs), x, link);
  }

  lemma PopBatch(next: map<nat, Ptr>, stack: Ptr, queue: seq<Ptr>, current: seq<Ptr>, il: seq<nat>,
                 qs: seq<seq<nat>>, bs: seq<seq<nat>>, t: nat)
    requires IosLinked(next, stack, queue, current, il, qs, bs) && t < |bs| && bs[t] != []
    ensures t < |current| && current[t] == Ptr(bs[t][0]) && bs[t][0] in next
    ensures IosLinked(next, stack, queue, current[t := next[bs[t][0]]], il, qs, bs[t := bs[t][1..]])
    ensures OffIos(il, qs, bs[t := bs[t][1..]], bs[t][0])
  {
    hide AllChained, Disjoint, OnNoneOf, Layout;
    LayoutLast(stack, queue, current, t, current[t]);
    LayoutLast(il, qs, bs, t, bs[t]);
    Pop(next, Layout(stack, queue, current), Layout(il, qs, bs), 1 + |queue| + t);
    LayoutLast(stack, queue, current, t, next[bs[t][0]]);
    LayoutLast(il, qs, bs, t, bs[t][1..]);
  }

  /** extstore_io_thread disconnects a batch of n from the front of its queue. */
  lemma SplitQueue(next: map<nat, Ptr>, stack: Ptr, queue: seq<Ptr>, current: seq<Ptr>, il: seq<nat>,
                   qs: seq<seq<nat>>, bs: seq<seq<nat>>, t: nat, n: nat)
    requires IosLinked(next, stack, queue, current, il, qs, bs) && t < |qs| && bs[t] == [] && 0 < n <= |qs[t]|
    ensures t < |queue| && qs[t][n - 1] in next && next[qs[t][n - 1]] == PtrAt(qs[t], n)
    ensures IosLinked(next[qs[t][n - 1] := Nil], stack, queue[t := PtrAt(qs[t], n)], current[t := queue[t]],
                      il, qs[t := qs[t][n..]], bs[t := qs[t][..n]])
  {
    hide AllChained, Disjoint, OnNoneOf, Layout;
    LayoutBoth(stack, queue, current, t, PtrAt(qs[t], n), queue[t]);
    LayoutBoth(il, qs, bs, t, qs[t][n..], qs[t][..n]);
    Split(next, Layout(stack, queue, current), Layout(il, qs, bs), 1 + t, 1 + |queue| + t, n);
  }

  /** These IO objects are linked to one another, and are on no list. */
  ghost predicate Handed(next: map<nat, Ptr>, first: Ptr, ids: seq<nat>, il: seq<nat>, qs: seq<seq<nat>>,
                         bs: seq<seq<nat>>) {
    Chained(next, first, ids) && NoDup(ids) && forall x :: x in ids ==> OffIos(il, qs, bs, x)
  }

  lemma WithHanded(next: map<nat, Ptr>, stack: Ptr, queue: seq<Ptr>, current: seq<Ptr>, il: seq<nat>,
                   qs: seq<seq<nat>>, bs: seq<seq<nat>>, first: Ptr, ids: seq<nat>)
    requires IosLinked(next, stack, queue, current, il, qs, bs) && Handed(next, first, ids, il, qs, bs)
    ensures AllChained(next, Layout(stack, queue, current) + [first], Layout(il, qs, bs) + [ids])
            && Disjoint(Layout(il, qs, bs) + [ids])
  {
    var heads, lists := Layout(stack, queue, current) + [first], Layout(il, qs, bs) + [ids];
    forall l | 0 <= l < |lists| ensures Chained(next, heads[l], lists[l]) && NoDup(lists[l]) {
      if l < |lists| - 1 {
        assert Chained(next, Layout(stack, queue, current)[l], Layout(il, qs, bs)[l]) && NoDup(Layout(il, qs, bs)[l]);
      }
    }
    forall x, l | x in ids && 0 <= l < |lists| - 1 ensures x !in lists[l] {
      assert OffIos(il, qs, bs, x) && lists[l] == Layout(il, qs, bs)[l];
    }
  }

  /** extstore_submit: a stack of IO objects goes to the end of a queue. */
  lemma AppendQueue(next: map<nat, Ptr>, stack: Ptr, queue: seq<Ptr>, current: seq<Ptr>, il: seq<nat>,
                    qs: seq<seq<nat>>, bs: seq<seq<nat>>, t: nat, first: Ptr, ids: seq<nat>)
    requires IosLinked(next, stack, queue, current, il, qs, bs) && t < |qs| && Handed(next, first, ids, il, qs, bs)
    ensures t < |queue|
    ensures qs[t] == [] ==> IosLinked(next, stack, queue[t := first], current, il, qs[t := ids], bs)
    ensures qs[t] != [] ==>
              IosLinked(next[qs[t][|qs[t]| - 1] := first], stack, queue, current, il, qs[t := qs[t] + ids], bs)
  {
    hide AllChained, Disjoint, OnNoneOf, Handed, Layout;
    LayoutBoth(stack, queue, current, t, first, current[t]);
    LayoutBoth(il, qs, bs, t, ids, bs[t]);
    var hs, ls := Layout(stack, queue, current), Layout(il, qs, bs);
    var n := |hs|;
    WithHanded(next, stack, queue, current, il, qs, bs, first, ids);
    if qs[t] == [] {
      TakeOver(next, hs + [first], ls + [ids], 1 + t, n);
      DropLast(next, (hs + [first])[1 + t := first][n := Nil], (ls + [ids])[1 + t := ids][n := []]);
      Cut(hs, first, 1 + t, first, Nil);
      Cut(ls, ids, 1 + t, ids, []);
      LayoutMiddle(stack, queue, current, t, first);
      LayoutMiddle(il, qs, bs, t, ids);
    } else {
      Join(next, hs + [first], ls + [ids], 1 + t, n);
      var next' := next[qs[t][|qs[t]| - 1] := first];
      DropLast(next', (hs + [first])[n := Nil], (ls + [ids])[1 + t := qs[t] + ids][n := []]);
      Cut(hs, first, 1 + t, hs[1 + t], Nil);
      Cut(ls, ids, 1 + t, qs[t] + ids, []);
      LayoutMiddle(il, qs, bs, t, qs[t] + ids);
    }
  }

  /** A sequence with one element more, two elements replaced, cut back. */
  lemma Cut<T>(s: seq<T>, last: T, i: nat, x: T, y: T)
    requires i < |s|
    ensures (s + [last])[i := x][|s| := y][..|s|] == s[i := x]
    ensures x == s[i] ==> (s + [last])[|s| := y][..|s|] == s
  {
  }

  /** What IO object `id` is: the engine's own, with numbers below n, carry write buffers, those of
      callers ask for a range. */
  function IoOf(n: nat, asked: map<nat, Addr>, id: nat): Io {
    if id < n then WriteIo(id) else ReadIo(if id in asked then asked[id] else Addr(0, 0, 0, 0))
  }

  function IosOf(n: nat, asked: map<nat, Addr>, ids: seq<nat>): (r: seq<Io>)
    ensures |r| == |ids|
  {
    seq(|ids|, i requires 0 <= i < |ids| => IoOf(n, asked, ids[i]))
  }

  lemma IosOfJoin(n: nat, asked: map<nat, Addr>, a: seq<nat>, b: seq<nat>)
    ensures IosOf(n, asked, a + b) == IosOf(n, asked, a) + IosOf(n, asked, b)
  {
  }

  lemma IosOfCut(n: nat, asked: map<nat, Addr>, ids: seq<nat>, k: nat)
    requires k <= |ids|
    ensures IosOf(n, asked, ids[..k]) == IosOf(n, asked, ids)[..k]
            && IosOf(n, asked, ids[k..]) == IosOf(n, asked, ids)[k..]
  {
  }

  lemma IosOfSame(n: nat, asked: map<nat, Addr>, asked': map<nat, Addr>, ids: seq<nat>)
    requires forall x :: x in ids ==> IoOf(n, asked, x) == IoOf(n, asked', x)
    ensures IosOf(n, asked, ids) == IosOf(n, asked', ids)
  {
    forall i | 0 <= i < |ids| ensures IoOf(n, asked, ids[i]) == IoOf(n, asked', ids[i]) { assert ids[i] in ids; }
  }

  /** An IO thread in memory stands for one of the model: the objects on its queue and in its batch
      are the pending IOs, and unless the queue is empty its tail pointer is right. */
  ghost predicate ThreadWired(n: nat, asked: map<nat, Addr>, th: IoThread, queued: seq<nat>, tail: Ptr, depth: int,
                              batched: seq<nat>, phase: Phase)
  {
    && th == IoThread(IosOf(n, asked, queued), depth, IosOf(n, asked, batched), phase)
    && (queued != [] ==> tail == Ptr(queued[|queued| - 1]))
    && (forall x :: x in queued || x in batched ==> x < n || x in asked)
  }

  ghost predicate AllThreads(n: nat, asked: map<nat, Addr>, threads: seq<IoThread>, qs: seq<seq<nat>>, tail: seq<Ptr>,
                             depth: seq<int>, bs: seq<seq<nat>>, phase: seq<Phase>)
  {
    && |threads| == |qs| == |tail| == |depth| == |bs| == |phase|
    && forall t :: 0 <= t < |threads| ==> ThreadWired(n, asked, threads[t], qs[t], tail[t], depth[t], bs[t], phase[t])
  }

  /** One thread changes. */
  lemma OneThread(n: nat, asked: map<nat, Addr>, threads: seq<IoThread>, qs: seq<seq<nat>>, tail: seq<Ptr>,
                  depth: seq<int>,
                  bs: seq<seq<nat>>, phase: seq<Phase>, t: nat, th: IoThread, q: seq<nat>, l: Ptr, d: int, b: seq<nat>,
                  ph: Phase)
    requires AllThreads(n, asked, threads, qs, tail, depth, bs, phase) && t < |threads|
             && ThreadWired(n, asked, th, q, l, d, b, ph)
    ensures AllThreads(n, asked, threads[t := th], qs[t := q], tail[t := l], depth[t := d], bs[t := b], phase[t := ph])
  {
    hide ThreadWired;
  }

  lemma ThreadIs(n: nat, asked: map<nat, Addr>, threads: seq<IoThread>, qs: seq<seq<nat>>, tail: seq<Ptr>,
                 depth: seq<int>, bs: seq<seq<nat>>, phase: seq<Phase>, t: nat)
    requires AllThreads(n, asked, threads, qs, tail, depth, bs, phase) && t < |threads|
    ensures |threads| == |qs| == |tail| == |depth| == |bs| == |phase|
    ensures ThreadWired(n, asked, threads[t], qs[t], tail[t], depth[t], bs[t], phase[t])
  {
  }

  /** The IO in progress is the first of the batch. */
  lemma CurrentIs(n: nat, asked: map<nat, Addr>, th: IoThread, q: seq<nat>, l: Ptr, d: int, b: seq<nat>, ph: Phase)
    requires ThreadWired(n, asked, th, q, l, d, b, ph)
    ensures th.depth == d && th.phase == ph && |th.batch| == |b| && |th.queue| == |q|
    ensures b != [] ==> th.batch[0] == IoOf(n, asked, b[0]) && (b[0] < n || b[0] in asked)
  {
    if b != [] { assert b[0] in b; }
  }

  function Extended(th: IoThread, more: seq<Io>): IoThread {
    th.(queue := th.queue + more, depth := th.depth + |more|)
  }

  lemma QueueGrows(n: nat, asked: map<nat, Addr>, th: IoThread, q: seq<nat>, l: Ptr, d: int, b: seq<nat>, ph: Phase,
                   ids: seq<nat>)
    requires ThreadWired(n, asked, th, q, l, d, b, ph) && ids != [] && forall x :: x in ids ==> x < n || x in asked
    ensures ThreadWired(n, asked, Extended(th, IosOf(n, asked, ids)), q + ids, Ptr(ids[|ids| - 1]), d + |ids|, b, ph)
  {
    IosOfJoin(n, asked, q, ids);
  }

  lemma BatchTaken(n: nat, asked: map<nat, Addr>, th: IoThread, q: seq<nat>, l: Ptr, d: int, ph: Phase, k: nat, l': Ptr)
    requires ThreadWired(n, asked, th, q, l, d, [], ph) && k <= |q| && (k < |q| ==> l' == l)
    ensures th.batch == [] && |th.queue| == |q| && th.depth == d
    ensures ThreadWired(n, asked, th.(batch := th.queue[..k], queue := th.queue[k..], depth := th.depth - k), q[k..],
                        l', d - k, q[..k], ph)
  {
    IosOfCut(n, asked, q, k);
  }

  lemma IoFinished(n: nat, asked: map<nat, Addr>, th: IoThread, q: seq<nat>, l: Ptr, d: int, b: seq<nat>, ph: Phase)
    requires ThreadWired(n, asked, th, q, l, d, b, ph) && b != []
    ensures th.batch != [] && ThreadWired(n, asked, Finished(th), q, l, d, b[1..], Ready)
  {
    IosOfCut(n, asked, b, 1);
  }

  lemma PhaseChanges(n: nat, asked: map<nat, Addr>, th: IoThread, q: seq<nat>, l: Ptr, d: int, b: seq<nat>, ph: Phase,
                     ph': Phase)
    requires ThreadWired(n, asked, th, q, l, d, b, ph)
    ensures ThreadWired(n, asked, th.(phase := ph'), q, l, d, b, ph')
  {
  }

  /** A caller's IO object that is on no list may be filled in anew. */
  lemma FillRequest(n: nat, asked: map<nat, Addr>, threads: seq<IoThread>, il: seq<nat>, qs: seq<seq<nat>>,
                    tail: seq<Ptr>, depth: seq<int>, bs: seq<seq<nat>>, phase: seq<Phase>, x: nat, a: Addr)
    requires AllThreads(n, asked, threads, qs, tail, depth, bs, phase) && OffIos(il, qs, bs, x)
    ensures AllThreads(n, asked[x := a], threads, qs, tail, depth, bs, phase)
  {
    hide ThreadWired, OffIos;
    forall t | 0 <= t < |threads|
      ensures ThreadWired(n, asked[x := a], threads[t], qs[t], tail[t], depth[t], bs[t], phase[t])
    {
      OffBoth(il, qs, bs, x, t);
      FillOne(n, asked, threads[t], qs[t], tail[t], depth[t], bs[t], phase[t], x, a);
    }
  }

  lemma OffBoth(il: seq<nat>, qs: seq<seq<nat>>, bs: seq<seq<nat>>, x: nat, t: nat)
    requires OffIos(il, qs, bs, x) && t < |qs| == |bs|
    ensures x !in qs[t] && x !in bs[t]
  {
    assert Layout(il, qs, bs)[1 + t] == qs[t] && Layout(il, qs, bs)[1 + |qs| + t] == bs[t];
  }

  lemma FillOne(n: nat, asked: map<nat, Addr>, th: IoThread, q: seq<nat>, l: Ptr, d: int, b: seq<nat>, ph: Phase,
                x: nat, a: Addr)
    requires ThreadWired(n, asked, th, q, l, d, b, ph) && x !in q && x !in b
    ensures ThreadWired(n, asked[x := a], th, q, l, d, b, ph)
  {
    IosOfSame(n, asked, asked[x := a], q);
    IosOfSame(n, asked, asked[x := a], b);
  }

  // ------------------------------------------------------------- steps, put together from parts

  ghost predicate CanBegin(s: State, w: nat, b: nat, fb: nat) {
    && Valid(s) && !s.stopped && w < |s.writers| && s.writers[w] == Idle && b < s.cfg.bucketCount
       && fb < s.cfg.bucketCount
    && b < |s.buckets| && fb < |s.freeBuckets|
  }

  lemma BeginsWithHead(s: State, w: nat, b: nat, fb: nat)
    requires CanBegin(s, w, b, fb) && s.buckets[b] != []
    ensures var s' := s.(writers := s.writers[w := HasPage(b, fb, s.buckets[b][0])]);
            StepOf(s, BeginWrite(w, b, fb), s') && Valid(s')
  {
    hide Valid;
    BeginWriteKeeps(s, w, b, fb);
  }

  lemma BeginsWithNew(s: State, w: nat, b: nat, fb: nat)
    requires CanBegin(s, w, b, fb) && s.buckets[b] == [] && FreeInRange(s)
    ensures var (s1, page) := AllocatePage(s, b, fb);
            var s' := if page.Some? then s1.(writers := s1.writers[w := HasPage(b, fb, page.value)]) else s1;
            s1.writers == s.writers && StepOf(s, BeginWrite(w, b, fb), s') && Valid(s')
  {
    hide Valid, FreeInRange;
    BeginWriteKeeps(s, w, b, fb);
    AllocateKeepsRest(s, b, fb);
  }

  ghost predicate AboutToAllocate(s: State, w: nat) {
    && Valid(s) && !s.stopped && w < |s.writers| && s.writers[w].MustAllocate?
    && s.writers[w].bucket < |s.buckets| && s.writers[w].freeBucket < |s.freeBuckets|
  }

  lemma AllocatesNew(s: State, w: nat)
    requires AboutToAllocate(s, w) && FreeInRange(s) && MayAllocate(s.cfg, s.pages, s.buckets[s.writers[w].bucket])
    ensures var s1 := AllocatePage(s, s.writers[w].bucket, s.writers[w].freeBucket).0;
            var s' := s1.(writers := s.writers[w := Idle]);
            s1.writers == s.writers && !s1.stopped && StepOf(s, AllocateAfterFull(w), s') && Valid(s')
  {
    hide Valid, FreeInRange, MayAllocate;
    AllocateAfterFullKeeps(s, w);
    AllocateKeepsRest(s, s.writers[w].bucket, s.writers[w].freeBucket);
  }

  lemma AllocationStops(s: State, w: nat)
    requires AboutToAllocate(s, w) && !MayAllocate(s.cfg, s.pages, s.buckets[s.writers[w].bucket])
    ensures StepOf(s, AllocateAfterFull(w), s.(stopped := true)) && Valid(s.(stopped := true))
  {
    hide Valid, MayAllocate;
    AllocateAfterFullKeeps(s, w);
  }

  lemma AllocateKeepsRest(s: State, b: nat, fb: nat)
    requires fb < |s.freeBuckets| && b < |s.buckets| && FreeInRange(s) && MayAllocate(s.cfg, s.pages, s.buckets[b])
    ensures var s1 := AllocatePage(s, b, fb).0; s1.writers == s.writers && s1.stopped == s.stopped
  {
    hide FreeInRange, MayAllocate;
  }

  /** _free_page in two parts: off the bucket, onto the free list. */
  function Detached(s: State, p: nat): State
    requires p < |s.pages| && s.pages[p].bucket < |s.buckets|
  {
    s.(buckets := s.buckets[s.pages[p].bucket := RemoveFirst(s.buckets[s.pages[p].bucket], p)])
  }

  function BackOnList(s: State, p: nat): State
    requires p < |s.pages| && s.pages[p].freeBucket < |s.freeBuckets|
  {
    var pg := s.pages[p];
    var s1 := s.(pages := s.pages[p := pg.(version := 0, objCount := 0, bytesUsed := 0, allotted := 0, written := 0,
                                           bucket := 0, active := false, closed := false, free := true)],
                 pageFree := s.pageFree + 1);
    if pg.freeBucket != 0 then s1.(freeBuckets := s.freeBuckets[pg.freeBucket := [p] + s.freeBuckets[pg.freeBucket]])
    else s1.(freelist := [p] + s.freelist)
  }

  lemma FreePageIs(s: State, p: nat)
    requires p < |s.pages| && s.pages[p].bucket < |s.buckets| && s.pages[p].freeBucket < |s.freeBuckets|
    ensures FreePage(s, p) == BackOnList(Detached(s, p), p)
  {
  }
}
