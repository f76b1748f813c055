/** extstore.c: pages and their lists.  A page never leaves the list its fields
    name, page_free counts the free lists, and no version is given out twice. */
module ExtstoreLists {
  import opened Basics
  import opened Counting
  import opened ExtstoreModel

  ghost predicate ListsOf(s: State) {
    ListsOk(s.cfg, s.pages, s.freelist, s.freeBuckets, s.buckets, s.pageFree)
  }

  lemma LengthsUpdate(ls: seq<seq<nat>>, b: nat, l: seq<nat>)
    requires b < |ls|
    ensures Sum(Lengths(ls[b := l])) == Sum(Lengths(ls)) - |ls[b]| + |l|
  {
    SumUpdate(Lengths(ls), b, |l|);
    assert Lengths(ls[b := l]) == Lengths(ls)[b := |l|];
  }

  lemma {:induction false} RemoveFirstMembers(l: seq<nat>, p: nat)
    requires NoDup(l)
    ensures NoDup(RemoveFirst(l, p))
    ensures forall q :: q in RemoveFirst(l, p) <==> q in l && q != p
  {
    if l != [] && l[0] != p {
      RemoveFirstMembers(l[1..], p);
      assert l == [l[0]] + l[1..];
      PushMembers(l[0], RemoveFirst(l[1..], p));
    } else if l != [] {
      assert l == [l[0]] + l[1..];
    }
  }

  lemma TailMembers(l: seq<nat>)
    requires NoDup(l) && l != []
    ensures NoDup(l[1..])
    ensures forall q :: q in l[1..] <==> q in l && q != l[0]
  {
    assert l == [l[0]] + l[1..];
  }

  // A change of page p alone leaves a list as it should be, gives it p, or takes p away.

  lemma FreeListKeeps(l: seq<nat>, pages: seq<Page>, fb: nat, p: nat, pg: Page)
    requires FreeListOk(l, pages, fb) && p < |pages|
    requires OnFree(pages, fb, p) <==> OnFree(pages[p := pg], fb, p)
    ensures FreeListOk(l, pages[p := pg], fb)
  {
    forall q ensures q in l <==> OnFree(pages[p := pg], fb, q) {
      assert q in l <==> OnFree(pages, fb, q);
    }
  }

  lemma BucketKeeps(l: seq<nat>, pages: seq<Page>, b: nat, p: nat, pg: Page)
    requires BucketListOk(l, pages, b) && p < |pages|
    requires OnBucket(pages, b, p) <==> OnBucket(pages[p := pg], b, p)
    ensures BucketListOk(l, pages[p := pg], b)
  {
    forall q ensures q in l <==> OnBucket(pages[p := pg], b, q) {
      assert q in l <==> OnBucket(pages, b, q);
    }
  }

  lemma FreeListPops(l: seq<nat>, pages: seq<Page>, fb: nat, p: nat, pg: Page)
    requires FreeListOk(l, pages, fb) && l != [] && l[0] == p && !pg.free
    ensures 1 <= p < |pages| && pages[p].free && pages[p].freeBucket == fb && FreeListOk(l[1..], pages[p := pg], fb)
  {
    assert p in l;
    assert OnFree(pages, fb, p);
    TailMembers(l);
    forall q ensures q in l[1..] <==> OnFree(pages[p := pg], fb, q) {
      assert q in l <==> OnFree(pages, fb, q);
    }
  }

  lemma FreeListPushes(l: seq<nat>, pages: seq<Page>, fb: nat, p: nat, pg: Page)
    requires FreeListOk(l, pages, fb) && 1 <= p < |pages| && !pages[p].free && pg.free && pg.freeBucket == fb
    ensures FreeListOk([p] + l, pages[p := pg], fb)
  {
    assert p !in l by { assert !OnFree(pages, fb, p); }
    PushMembers(p, l);
    forall q ensures q in [p] + l <==> OnFree(pages[p := pg], fb, q) {
      assert q in l <==> OnFree(pages, fb, q);
    }
  }

  lemma BucketPushes(l: seq<nat>, pages: seq<Page>, b: nat, p: nat, pg: Page)
    requires BucketListOk(l, pages, b) && 1 <= p < |pages| && pages[p].free && !pg.free && pg.bucket == b
    ensures BucketListOk([p] + l, pages[p := pg], b)
  {
    assert p !in l by { assert !OnBucket(pages, b, p); }
    PushMembers(p, l);
    forall q ensures q in [p] + l <==> OnBucket(pages[p := pg], b, q) {
      assert q in l <==> OnBucket(pages, b, q);
    }
  }

  lemma BucketRemoves(l: seq<nat>, pages: seq<Page>, b: nat, p: nat, pg: Page)
    requires BucketListOk(l, pages, b) && p < |pages| && pg.free
    ensures BucketListOk(RemoveFirst(l, p), pages[p := pg], b)
  {
    RemoveFirstMembers(l, p);
    forall q ensures q in RemoveFirst(l, p) <==> OnBucket(pages[p := pg], b, q) {
      assert q in l <==> OnBucket(pages, b, q);
    }
  }

  /** A step that leaves the list fields of a page alone leaves the lists alone. */
  lemma PageChangeKeepsLists(c: Config, pages: seq<Page>, freelist: seq<nat>, freeBuckets: seq<seq<nat>>,
                             buckets: seq<seq<nat>>, pageFree: nat, p: nat, pg: Page)
    requires ListsOk(c, pages, freelist, freeBuckets, buckets, pageFree) && p < |pages|
    requires pg.free == pages[p].free && pg.bucket == pages[p].bucket && pg.freeBucket == pages[p].freeBucket
    ensures ListsOk(c, pages[p := pg], freelist, freeBuckets, buckets, pageFree)
  {
    FreeListKeeps(freelist, pages, 0, p, pg);
    forall b | 1 <= b < |freeBuckets| ensures FreeListOk(freeBuckets[b], pages[p := pg], b) {
      FreeListKeeps(freeBuckets[b], pages, b, p, pg);
    }
    forall b | 0 <= b < |buckets| ensures BucketListOk(buckets[b], pages[p := pg], b) {
      BucketKeeps(buckets[b], pages, b, p, pg);
    }
  }

  /** Taking a page off a free list and activating it moves it to its bucket. */
  lemma AllocateKeepsLists(s: State, b: nat, fb: nat)
    requires ConfigOk(s.cfg) && ListsOf(s) && b < s.cfg.bucketCount && fb < s.cfg.bucketCount
    requires TakeFree(s, fb).1.Some?
    ensures var (s1, page) := TakeFree(s, fb);
      && 1 <= page.value < |s.pages| && s.pages[page.value].free && s1.pageFree > 0
      && ListsOf(Activate(s1, b, page.value))
  {
    var (s1, page) := TakeFree(s, fb);
    var p, special := page.value, s.freeBuckets[fb];
    var fromSpecial := fb != 0 && special != [];
    FreeInRangeOf(s);
    var pg := s.pages[p].(active := true, free := false, closed := false, version := s.version, bucket := b);
    if fromSpecial {
      FreeListPops(special, s.pages, fb, p, pg);
      LengthsUpdate(s.freeBuckets, fb, special[1..]);
      FreeListKeeps(s.freelist, s.pages, 0, p, pg);
    } else {
      FreeListPops(s.freelist, s.pages, 0, p, pg);
    }
    forall b' | 1 <= b' < |s.freeBuckets| && !(fromSpecial && b' == fb)
      ensures FreeListOk(s.freeBuckets[b'], s.pages[p := pg], b')
    {
      FreeListKeeps(s.freeBuckets[b'], s.pages, b', p, pg);
    }
    BucketPushes(s.buckets[b], s.pages, b, p, pg);
    forall b' | 0 <= b' < |s.buckets| && b' != b ensures BucketListOk(s.buckets[b'], s.pages[p := pg], b') {
      BucketKeeps(s.buckets[b'], s.pages, b', p, pg);
    }
  }

  /** Freeing a page moves it from its bucket back to its free list. */
  lemma FreeKeepsLists(s: State, p: nat)
    requires ConfigOk(s.cfg) && PagesOk(s.cfg, s.pages, s.version) && ListsOf(s)
    requires p < |s.pages| && !s.pages[p].free
    ensures ListsOf(FreePage(s, p))
  {
    var was := s.pages[p];
    var pg := was.(version := 0, objCount := 0, bytesUsed := 0, allotted := 0, written := 0,
                   bucket := 0, active := false, closed := false, free := true);
    assert p != 0;
    forall b' | 1 <= b' < |s.freeBuckets| && b' != was.freeBucket
      ensures FreeListOk(s.freeBuckets[b'], s.pages[p := pg], b')
    {
      FreeListKeeps(s.freeBuckets[b'], s.pages, b', p, pg);
    }
    if was.freeBucket != 0 {
      FreeListKeeps(s.freelist, s.pages, 0, p, pg);
      FreeListPushes(s.freeBuckets[was.freeBucket], s.pages, was.freeBucket, p, pg);
      LengthsUpdate(s.freeBuckets, was.freeBucket, [p] + s.freeBuckets[was.freeBucket]);
    } else {
      FreeListPushes(s.freelist, s.pages, 0, p, pg);
    }
    BucketRemoves(s.buckets[was.bucket], s.pages, was.bucket, p, pg);
    forall b' | 0 <= b' < |s.buckets| && b' != was.bucket ensures BucketListOk(s.buckets[b'], s.pages[p := pg], b') {
      BucketKeeps(s.buckets[b'], s.pages, b', p, pg);
    }
  }
}
