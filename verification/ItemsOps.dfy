/** The operations of memcached/items.c and memcached/crawler.c built from the steps of
    module Items, and the invariant over every run of them. */
module ItemsOps {
  import opened Basics
  import opened Counting
  import opened LruList
  import opened Items

  /** The clock and the settings an operation reads. */
  datatype Env = Env(
    now: nat, segmented: bool, tempLru: bool, tempTtl: nat, evictToFree: bool,
    hotPct: nat, warmPct: nat, oldestLive: nat, oldestCas: nat)

  const UPDATE_INTERVAL := 60

  /** Subtraction of 32-bit unsigned times. */
  function Minus32(a: nat, b: nat): nat { (a - b) % 0x1_0000_0000 }

  /** item_is_flushed. */
  predicate Flushed(it: ItemData, env: Env) {
    && env.oldestLive != 0 && env.oldestLive <= env.now
    && (it.time <= env.oldestLive || (env.oldestCas != 0 && it.cas != 0 && it.cas < env.oldestCas))
  }

  // -------------------------------------------------------------- allocation and updating

  /** The list a new item starts in. */
  function FirstLru(cls: nat, exptime: nat, env: Env): nat {
    if env.tempLru && Minus32(exptime, env.now) <= env.tempTtl then cls + TEMP
    else if env.segmented then cls + HOT
    else cls + COLD
  }

  /** do_item_alloc once the slab allocator has handed out a chunk. */
  function Allocate(s: State, a: nat, key: Key, ntotal: nat, cls: nat, exptime: nat, env: Env): State {
    s.(items := s.items[a := ItemData(key, ntotal, FirstLru(cls, exptime, env), false, false, false, 1, 0, exptime, 0)],
       held := s.held[a := 1])
  }

  lemma AllocateLists(items: map<nat, ItemData>, lists: seq<seq<Entry>>, crawling: seq<bool>, a: nat, it: ItemData)
    requires |lists| == |crawling| && it.lru < |lists| && forall b :: b in items ==> items[b].lru < |lists|
    requires Homes(items, lists, crawling) && Placed(items, lists, crawling) && a !in items && !it.linked
    ensures Homes(items[a := it], lists, crawling) && Placed(items[a := it], lists, crawling)
    ensures forall l :: 0 <= l < |lists| ==> Item(a) !in lists[l]
  {
    forall l, e | 0 <= l < |lists| && e in lists[l] ensures Belongs(items[a := it], crawling, l, e) && e != Item(a) {
      assert Belongs(items, crawling, l, e);
    }
  }

  lemma AllocateKeeps(s: State, a: nat, key: Key, ntotal: nat, cls: nat, exptime: nat, env: Env)
    requires Valid(s) && a !in s.items && cls < 64
    ensures Valid(Allocate(s, a, key, ntotal, cls, exptime, env))
  {
    hide NoDups, TotalsOk, SizesOk, Homes, Placed;
    var t := Allocate(s, a, key, ntotal, cls, exptime, env);
    AllocateLists(s.items, s.lists, s.crawling, a, t.items[a]);
    SizesKept(s.items, t.items, s.lists, s.sizes, s.bytes);
  }

  /** Does an update relink the item at the head of a list? */
  predicate Relinks(it: ItemData, env: Env) {
    if env.segmented then SegmentOf(it.lru) == COLD && it.active
    else it.time < Minus32(env.now, UPDATE_INTERVAL)
  }

  /** The item after an update: a hit in COLD goes to WARM. */
  function Updated(it: ItemData, env: Env): ItemData {
    if env.segmented && SegmentOf(it.lru) == COLD && it.active then
      it.(time := env.now, lru := ClassOf(it.lru) + WARM, active := false)
    else if env.segmented || Relinks(it, env) then it.(time := env.now)
    else it
  }

  lemma UpdatedFits(it: ItemData, env: Env)
    requires it.lru < LISTS
    ensures Updated(it, env).lru < LISTS && Updated(it, env).refcount == it.refcount
    ensures SameBut(it, Updated(it, env).(lru := it.lru))
    ensures !Relinks(it, env) ==> SameBut(it, Updated(it, env))
  {
  }

  /** do_item_update. */
  function UpdateItem(s: State, a: nat, env: Env): State
    requires Valid(s) && a in s.items
  {
    var it := s.items[a];
    UpdatedFits(it, env);
    if !it.linked then s
    else if Relinks(it, env) then
      MoveKeeps(s, a, Updated(it, env));
      Move(s, a, Updated(it, env))
    else s.(items := s.items[a := Updated(it, env)])
  }

  lemma SetKeeps(s: State, a: nat, it: ItemData)
    requires Valid(s) && a in s.items && SameBut(s.items[a], it) && it.refcount == s.items[a].refcount
    ensures Valid(s.(items := s.items[a := it]))
  {
    hide Homes, Placed, TableOk, SizesOk, TotalsOk, NoDups;
    TouchKeeps(s, a, it, s.held[a]);
    assert s.held[a := s.held[a]] == s.held;
  }

  lemma UpdateKeeps(s: State, a: nat, env: Env)
    requires Valid(s) && a in s.items
    ensures Valid(UpdateItem(s, a, env))
    ensures UpdateItem(s, a, env).held == s.held && UpdateItem(s, a, env).items.Keys == s.items.Keys
  {
    var it := s.items[a];
    hide Valid, Move, Listed, Unlisted, Relinks, Updated;
    ValidShape(s);
    UpdatedFits(it, env);
    if it.linked {
      if Relinks(it, env) { MoveKeeps(s, a, Updated(it, env)); } else { SetKeeps(s, a, Updated(it, env)); }
    }
  }

  /** do_item_replace. */
  function ReplaceItem(s: State, a: nat, b: nat, now: nat, cas: nat): State
    requires Valid(s) && a in s.items && b in s.items && b != a
    requires s.items[a].linked && !s.items[b].linked && s.items[b].key == s.items[a].key
  {
    ReplaceKeeps(s, a, b, now, cas);
    LinkItem(UnlinkItem(s, a), b, now, cas)
  }

  lemma ReplaceKeeps(s: State, a: nat, b: nat, now: nat, cas: nat)
    requires Valid(s) && a in s.items && b in s.items && b != a
    requires s.items[a].linked && !s.items[b].linked && s.items[b].key == s.items[a].key
    ensures CanUnlink(s, a) && CanLink(UnlinkItem(s, a), b)
    ensures Valid(LinkItem(UnlinkItem(s, a), b, now, cas))
    ensures var t := LinkItem(UnlinkItem(s, a), b, now, cas);
            && t.table == s.table[s.items[a].key := b]
            && t.currItems == s.currItems && t.currBytes == s.currBytes - s.items[a].ntotal + s.items[b].ntotal
  {
    hide Valid, Listed, Unlisted;
    UnlinkItemKeeps(s, a);
    LinkItemKeeps(UnlinkItem(s, a), b, now, cas);
  }

  // ------------------------------------------------------------------------------ fetching

  /** do_item_bump; room says whether the thread's bump buffer takes another entry. */
  function Bump(s: State, a: nat, room: bool, env: Env): State
    requires Valid(s) && a in s.items
  {
    var it := s.items[a];
    if env.segmented then
      if it.active then s
      else if !it.fetched then s.(items := s.items[a := it.(fetched := true)])
      else if SegmentOf(it.lru) != COLD then s.(items := s.items[a := it.(active := true, time := env.now)])
      else if room then
        AcquireKeeps(s, a);
        Acquire(s.(items := s.items[a := it.(active := true)]), a)
      else s
    else
      SetKeeps(s, a, it.(fetched := true));
      UpdateItem(s.(items := s.items[a := it.(fetched := true)]), a, env)
  }

  lemma BumpKeeps(s: State, a: nat, room: bool, env: Env)
    requires Valid(s) && a in s.items
    ensures Valid(Bump(s, a, room, env))
  {
    hide Valid;
    var it := s.items[a];
    if env.segmented {
      if it.active {
      } else if !it.fetched {
        SetKeeps(s, a, it.(fetched := true));
      } else if SegmentOf(it.lru) != COLD {
        SetKeeps(s, a, it.(active := true, time := env.now));
      } else if room {
        SetKeeps(s, a, it.(active := true));
        AcquireKeeps(s.(items := s.items[a := it.(active := true)]), a);
      }
    } else {
      SetKeeps(s, a, it.(fetched := true));
      UpdateKeeps(s.(items := s.items[a := it.(fetched := true)]), a, env);
    }
  }

  predicate Gone(it: ItemData, env: Env) {
    Flushed(it, env) || (it.exptime != 0 && it.exptime <= env.now)
  }

  /** Take a reference, unlink the item and give the reference back. */
  function Reclaim(s: State, a: nat): State
    requires Valid(s) && a in s.items
  {
    ReclaimKeeps(s, a);
    Release(UnlinkItem(Acquire(s, a), a), a)
  }

  lemma ReclaimKeeps(s: State, a: nat)
    requires Valid(s) && a in s.items
    ensures a in s.held && Valid(Acquire(s, a)) && CanUnlink(Acquire(s, a), a)
    ensures Holding(UnlinkItem(Acquire(s, a), a), a)
    ensures Valid(UnlinkItem(Acquire(s, a), a))
    ensures Valid(Release(UnlinkItem(Acquire(s, a), a), a))
  {
    hide Valid, Listed;
    AcquireKeeps(s, a);
    var s1 := Acquire(s, a);
    UnlinkItemKeeps(s1, a);
    HeldStays(s1, a);
    ReleaseKeeps(UnlinkItem(s1, a), a);
  }

  /** Unlinking an item that somebody holds does not free it. */
  lemma HeldStays(s: State, a: nat)
    requires Valid(s) && CanUnlink(s, a) && Holding(s, a)
    ensures var t := UnlinkItem(s, a); Holding(t, a) && t.held == s.held && t.items.Keys == s.items.Keys
  {
    hide Listed, TableOk, SizesOk, Homes, Placed;
  }

  /** do_item_get. */
  function Get(s: State, k: Key, room: bool, doUpdate: bool, env: Env): (State, Option<nat>)
    requires Valid(s)
  {
    if k !in s.table then (s, None)
    else
      var a := s.table[k];
      if Gone(s.items[a], env) then (Reclaim(s, a), None)
      else
        AcquireKeeps(s, a);
        (if doUpdate then Bump(Acquire(s, a), a, room, env) else Acquire(s, a), Some(a))
  }

  lemma GetKeeps(s: State, k: Key, room: bool, doUpdate: bool, env: Env)
    requires Valid(s)
    ensures Valid(Get(s, k, room, doUpdate, env).0)
  {
    if k in s.table {
      var a := s.table[k];
      hide Valid;
      if Gone(s.items[a], env) {
        ReclaimKeeps(s, a);
      } else {
        AcquireKeeps(s, a);
        if doUpdate { BumpKeeps(Acquire(s, a), a, room, env); }
      }
    }
  }

  // --------------------------------------------------------------------------- the crawler

  predicate CrawlOn(s: State, l: nat) {
    l < |s.lists| && Crawler(l) in s.lists[l] && |s.crawling| == |s.lists|
  }

  /** The crawler of list l is put at its tail. */
  function StartCrawl(s: State, l: nat): State
    requires l < |s.lists| == |s.crawling|
  {
    s.(lists := s.lists[l := s.lists[l] + [Crawler(l)]], crawling := s.crawling[l := true])
  }

  function CrawlStep(s: State, l: nat): State
    requires CrawlOn(s, l) && Pos(s.lists[l], Crawler(l)) > 0
  {
    s.(lists := s.lists[l := Swapped(s.lists[l], Pos(s.lists[l], Crawler(l)))])
  }

  /** lru_crawler_class_done. */
  function EndCrawl(s: State, l: nat): State
    requires CrawlOn(s, l)
  {
    s.(lists := s.lists[l := Without(s.lists[l], Pos(s.lists[l], Crawler(l)))], crawling := s.crawling[l := false])
  }

  /** Adding, moving or taking away a crawler changes no counter. */
  lemma CrawlerWeighsNothing(items: map<nat, ItemData>, list: seq<Entry>, list': seq<Entry>, i: nat, j: nat)
    requires i < |list| && j < |list'| && list[i].Crawler? && list'[j].Crawler?
    requires Without(list, i) == Without(list', j)
    ensures ItemsIn(list') == ItemsIn(list) == ItemsIn(Without(list, i))
    ensures BytesIn(items, list') == BytesIn(items, list) == BytesIn(items, Without(list, i))
  {
    ItemsInWithout(list, i);
    ItemsInWithout(list', j);
    BytesInWithout(items, list, i);
    BytesInWithout(items, list', j);
  }

  lemma ListChanged(s: State, t: State, l: nat)
    requires Valid(s) && l < LISTS && |t.crawling| == |t.lists| == LISTS
    requires t == s.(lists := s.lists[l := t.lists[l]], crawling := s.crawling[l := t.crawling[l]])
    requires NoDup(t.lists[l])
    requires forall e: Entry :: e.Item? ==> (e in t.lists[l] <==> e in s.lists[l])
    requires forall i :: Crawler(i) in t.lists[l] <==> i == l && t.crawling[l]
    requires ItemsIn(t.lists[l]) == ItemsIn(s.lists[l]) && BytesIn(s.items, t.lists[l]) == BytesIn(s.items, s.lists[l])
    ensures Valid(t)
  {
    hide TableOk, RefsOk, TotalsOk;
    forall m, e | 0 <= m < |t.lists| && e in t.lists[m] ensures Belongs(t.items, t.crawling, m, e) {
      if e in s.lists[m] { assert Belongs(s.items, s.crawling, m, e); }
    }
  }

  lemma OnlyItsCrawler(s: State, l: nat, i: nat)
    requires Valid(s) && l < LISTS && Crawler(i) in s.lists[l]
    ensures i == l && s.crawling[l]
  {
    assert Belongs(s.items, s.crawling, l, Crawler(i));
  }

  lemma StartCrawlKeeps(s: State, l: nat)
    requires Valid(s) && l < LISTS && !s.crawling[l]
    ensures Valid(StartCrawl(s, l))
  {
    var t := StartCrawl(s, l);
    var list := s.lists[l];
    forall i | Crawler(i) in list ensures false { OnlyItsCrawler(s, l, i); }
    assert Without(t.lists[l], |list|) == list;
    CrawlerWeighsNothing(s.items, t.lists[l], t.lists[l], |list|, |list|);
    hide Homes, Placed, TableOk, RefsOk, SizesOk, TotalsOk;
    ListChanged(s, t, l);
  }

  lemma CrawlStepKeeps(s: State, l: nat)
    requires Valid(s) && l < LISTS && s.crawling[l]
    ensures CrawlOn(s, l) && (Pos(s.lists[l], Crawler(l)) > 0 ==> Valid(CrawlStep(s, l)))
  {
    assert CrawlOn(s, l);
    hide Homes, Placed, TableOk, RefsOk, SizesOk, TotalsOk;
    var list := s.lists[l];
    var i := Pos(list, Crawler(l));
    if i > 0 {
      var t := CrawlStep(s, l);
      SwappedMembers(list, i);
      assert Without(t.lists[l], i - 1) == Without(list, i);
      CrawlerWeighsNothing(s.items, list, t.lists[l], i, i - 1);
      forall j | Crawler(j) in list ensures j == l { OnlyItsCrawler(s, l, j); }
      ListChanged(s, t, l);
    }
  }

  lemma EndCrawlKeeps(s: State, l: nat)
    requires Valid(s) && l < LISTS && s.crawling[l]
    ensures CrawlOn(s, l) && Valid(EndCrawl(s, l))
  {
    assert CrawlOn(s, l);
    hide Homes, Placed, TableOk, RefsOk, SizesOk, TotalsOk;
    var list := s.lists[l];
    var i := Pos(list, Crawler(l));
    var t := EndCrawl(s, l);
    WithoutMembers(list, i);
    CrawlerWeighsNothing(s.items, list, list, i, i);
    forall j | Crawler(j) in list ensures j == l { OnlyItsCrawler(s, l, j); }
    ListChanged(s, t, l);
  }
}
