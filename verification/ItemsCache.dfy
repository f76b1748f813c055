/** The item cache as memcached/items.c keeps it: a heap of items with next and prev fields,
    heads and tails of the LRU lists, and counters, updated in place. */
module ItemsCache {
  import opened Basics
  import opened Counting
  import opened LruList
  import opened LruTable
  import opened Items
  import opened ItemsOps
  import opened ItemsPull
  import opened ItemsPullTheorems

  lemma ValidApart(s: State)
    requires Valid(s)
    ensures Apart(s.lists)
  {
    forall l, m, e | 0 <= l < |s.lists| && 0 <= m < |s.lists| && l != m && e in s.lists[l] ensures e !in s.lists[m] {
      assert Belongs(s.items, s.crawling, l, e);
    }
  }

  lemma ValidUnlisted(s: State, a: nat)
    requires Valid(s) && (a in s.items ==> !s.items[a].linked)
    ensures Nowhere(s.lists, Item(a))
  {
    forall m | 0 <= m < |s.lists| ensures Item(a) !in s.lists[m] {
      assert Item(a) in s.lists[m] ==> Belongs(s.items, s.crawling, m, Item(a));
    }
  }

  class Cache {
    var items: map<nat, ItemData>
    var next: map<Entry, Link>
    var prev: map<Entry, Link>
    var heads: seq<Link>
    var tails: seq<Link>
    var crawling: seq<bool>
    var sizes: seq<int>
    var bytes: seq<int>
    var currItems: int
    var currBytes: int
    var table: map<Key, nat>
    ghost var lists: seq<seq<Entry>>
    ghost var held: map<nat, nat>

    ghost function Abs(): State
      reads this
    {
      State(items, lists, crawling, sizes, bytes, currItems, currBytes, table, held)
    }

    ghost predicate Wired()
      reads this`next, this`prev, this`heads, this`tails, this`lists
    {
      |lists| == LISTS && AllForm(next, prev, heads, tails, lists)
    }

    ghost predicate Ok()
      reads this
    {
      Wired() && Valid(Abs())
    }

    constructor ()
      ensures Ok() && items == map[] && table == map[]
    {
      items, table, held := map[], map[], map[];
      next, prev := map[], map[];
      heads, tails := seq(LISTS, _ => Null), seq(LISTS, _ => Null);
      lists := seq(LISTS, _ => []);
      crawling := seq(LISTS, _ => false);
      sizes, bytes := seq(LISTS, _ => 0), seq(LISTS, _ => 0);
      currItems, currBytes := 0, 0;
      new;
      EmptyIsValid(Abs());
    }

    // ------------------------------------------------------------------------ the lists

    /** The pointer work of do_item_link_q: all lists stand, list l with the entry in front. */
    method HookHead(l: nat, it: Entry)
      requires AllForm(next, prev, heads, tails, lists) && Apart(lists) && l < |lists| && Nowhere(lists, it)
      modifies this`next, this`prev, this`heads, this`tails
      ensures AllForm(next, prev, heads, tails, lists[l := [it] + lists[l]]) && Apart(lists[l := [it] + lists[l]])
    {
      hide AllForm, Apart, Nowhere;
      AllFormShape(next, prev, heads, tails, lists);
      LinkHeadAll(next, prev, heads, tails, lists, l, it);
      prev := prev[it := Null];
      next := next[it := heads[l]];
      if next[it] != Null { prev := prev[next[it].entry := To(it)]; }
      heads := heads[l := To(it)];
      if tails[l] == Null { tails := tails[l := To(it)]; }
      assert tails == old(tails)[l := tails[l]];
    }

    /** The pointer work of do_item_unlink_q and do_item_unlinktail_q: all lists stand, and the
        entry at position i of list l is in none. */
    method Unhook(l: nat, it: Entry, ghost i: nat)
      requires AllForm(next, prev, heads, tails, lists) && Apart(lists) && l < |lists| && i < |lists[l]|
               && it == lists[l][i]
      modifies this`next, this`prev, this`heads, this`tails
      ensures var lists' := lists[l := Without(lists[l], i)];
              AllForm(next, prev, heads, tails, lists') && Apart(lists') && Nowhere(lists', it)
    {
      hide AllForm, Apart, Nowhere, Unlink, Without;
      AllFormShape(next, prev, heads, tails, lists);
      UnlinkAll(next, prev, heads, tails, lists, l, i);
      CutOut(l, it);
    }

    /** The four writes of unlinking. */
    method CutOut(l: nat, it: Entry)
      requires l < |heads| == |tails| && it in next && it in prev
      modifies this`next, this`prev, this`heads, this`tails
      ensures var q := Unlink(View(old(next), old(prev), old(heads), old(tails), l), it);
              next == q.next && prev == q.prev && heads == old(heads)[l := q.head] && tails == old(tails)[l := q.tail]
    {
      if heads[l] == To(it) { heads := heads[l := next[it]]; }
      if tails[l] == To(it) { tails := tails[l := prev[it]]; }
      if next[it] != Null { prev := prev[next[it].entry := prev[it]]; }
      if prev[it] != Null { next := next[prev[it].entry := next[it]]; }
      assert heads == old(heads)[l := heads[l]] && tails == old(tails)[l := tails[l]];
    }

    /** do_item_link_q: the item becomes the head of its list. */
    method LinkAtHead(a: nat)
      requires Wired() && Apart(lists) && Unlisted(Abs(), a) && Nowhere(lists, Item(a))
      modifies this`next, this`prev, this`heads, this`tails, this`lists, this`sizes, this`bytes
      ensures Wired() && Apart(lists) && Abs() == LinkQ(old(Abs()), a)
    {
      hide AllForm, Apart, Nowhere;
      var it, l := Item(a), items[a].lru;
      HookHead(l, it);
      lists := lists[l := [it] + lists[l]];
      sizes := sizes[l := sizes[l] + 1];
      bytes := bytes[l := bytes[l] + items[a].ntotal];
    }

    /** do_item_unlink_q. */
    method UnlinkFromList(a: nat)
      requires Wired() && Apart(lists) && Listed(Abs(), a)
      modifies this`next, this`prev, this`heads, this`tails, this`lists, this`sizes, this`bytes
      ensures Wired() && Apart(lists) && Abs() == UnlinkQ(old(Abs()), a) && Nowhere(lists, Item(a))
    {
      hide AllForm, Apart, Nowhere, Without, Pos;
      var it, l := Item(a), items[a].lru;
      Unhook(l, it, Pos(lists[l], it));
      lists := lists[l := Without(lists[l], Pos(lists[l], it))];
      sizes := sizes[l := sizes[l] - 1];
      bytes := bytes[l := bytes[l] - items[a].ntotal];
    }

    // ------------------------------------------------------------------ reference counts

    /** item_free, with the conditions the source asserts. */
    method Free(a: nat)
      requires Wired() && a in items && items[a].lru < LISTS
      requires !items[a].linked && items[a].refcount == 0
      requires heads[items[a].lru] != To(Item(a)) && tails[items[a].lru] != To(Item(a))
      modifies this`items, this`held
      ensures items == old(items) - {a} && held == old(held) - {a}
    {
      items := items - {a};
      held := held - {a};
    }

    /** do_item_remove. */
    method Remove(a: nat)
      requires Wired() && a in items && items[a].lru < LISTS && items[a].refcount > 0
      requires items[a].refcount == 1 ==> !items[a].linked && Item(a) !in lists[items[a].lru]
      modifies this`items, this`held
      ensures var it := old(items[a]);
              Abs() == Settle(old(Abs()).(items := old(items)[a := it.(refcount := it.refcount - 1)]), a)
    {
      items := items[a := items[a].(refcount := items[a].refcount - 1)];
      if items[a].refcount == 0 {
        NotAtTheEnds(next, prev, heads, tails, lists, items[a].lru, Item(a));
        Free(a);
      }
    }

    /** do_item_remove by someone who holds the item. */
    method GiveBack(a: nat)
      requires Ok() && Holding(Abs(), a)
      modifies this`items, this`held
      ensures Ok() && Abs() == Release(old(Abs()), a)
    {
      hide Valid, AllForm;
      ReleaseKeeps(Abs(), a);
      RemoveFits(Abs(), a);
      held := held[a := held[a] - 1];
      Remove(a);
    }

    /** refcount_incr. */
    method TakeReference(a: nat)
      requires Ok() && a in items
      modifies this`items, this`held
      ensures a in old(held) && Ok() && Abs() == Acquire(old(Abs()), a) && Holding(Abs(), a)
    {
      hide Valid, AllForm;
      AcquireKeeps(Abs(), a);
      items := items[a := items[a].(refcount := items[a].refcount + 1)];
      held := held[a := held[a] + 1];
    }

    // -------------------------------------------------------------- linking and unlinking

    /** do_item_link up to the reference of the link. */
    method Enqueue(a: nat, now: nat, cas: nat)
      requires Ok() && CanLink(Abs(), a)
      modifies this
      ensures Wired() && Abs() == Enqueued(old(Abs()), a, now, cas)
    {
      hide Valid, AllForm, Apart, Nowhere, LinkQ;
      ValidApart(Abs());
      ValidUnlisted(Abs(), a);
      items := items[a := items[a].(linked := true, time := now)];
      currBytes := currBytes + items[a].ntotal;
      currItems := currItems + 1;
      items := items[a := items[a].(cas := cas)];
      table := table[items[a].key := a];
      assert items == old(items)[a := old(items[a]).(linked := true, time := now, cas := cas)];
      LinkAtHead(a);
    }

    /** do_item_link. */
    method LinkIn(a: nat, now: nat, cas: nat)
      requires Ok() && a in items && !items[a].linked && items[a].key !in table
      modifies this
      ensures CanLink(old(Abs()), a)
      ensures Ok() && Abs() == LinkItem(old(Abs()), a, now, cas)
    {
      hide Valid, AllForm, Enqueued, CanLink, LinkItem;
      LinkItemKeeps(Abs(), a, now, cas);
      LinkSteps(Abs(), a, now, cas);
      Enqueue(a, now, cas);
      items := items[a := items[a].(refcount := items[a].refcount + 1)];
    }

    /** do_item_unlink of a linked item, up to do_item_remove. */
    method Dequeue(a: nat)
      requires Ok() && CanUnlink(Abs(), a) && items[a].linked
      modifies this
      ensures Wired() && Nowhere(lists, Item(a)) && Abs() == Dequeued(old(Abs()), a)
    {
      hide Valid, AllForm, Apart, Nowhere, UnlinkQ;
      ValidApart(Abs());
      items := items[a := items[a].(linked := false)];
      currBytes := currBytes - items[a].ntotal;
      currItems := currItems - 1;
      table := table - {items[a].key};
      UnlinkFromList(a);
    }

    /** do_item_unlink and do_item_unlink_nolock. */
    method UnlinkOut(a: nat)
      requires Ok() && a in items
      modifies this
      ensures CanUnlink(old(Abs()), a)
      ensures Ok() && Abs() == UnlinkItem(old(Abs()), a)
    {
      hide Valid, AllForm, Nowhere, Settle, Detach, Dequeued;
      UnlinkItemKeeps(Abs(), a);
      if items[a].linked {
        DetachSteps(Abs(), a);
        Dequeue(a);
        NowhereAt(lists, Item(a), items[a].lru);
        Remove(a);
      }
    }

    /** do_item_unlink_q, the changes between, and do_item_link_q; pre is the item with the
        changes made before. */
    method Requeue(a: nat, ghost was: ItemData, it: ItemData)
      requires a in items && was.lru == items[a].lru && was.ntotal == items[a].ntotal == it.ntotal && was.linked
               && it.lru < LISTS
      requires Wired() && Valid(Abs().(items := items[a := was]))
      requires SameBut(was, it.(lru := was.lru)) && it.refcount == was.refcount
      modifies this
      ensures var s := old(Abs()).(items := old(items)[a := was]);
              && Listed(s, a) && Unlisted(UnlinkQ(s, a).(items := s.items[a := it]), a)
              && Ok() && Abs() == Move(s, a, it)
    {
      hide Valid, AllForm, Apart, Nowhere, LinkQ, UnlinkQ, Listed, Unlisted;
      ghost var s := Abs().(items := items[a := was]);
      ValidApart(s);
      MoveKeeps(s, a, it);
      MoveSteps(s, items, a, it);
      UnlinkFromList(a);
      items := items[a := it];
      LinkAtHead(a);
    }

    /** do_item_update. */
    method Update(a: nat, env: Env)
      requires Ok() && a in items
      modifies this
      ensures Ok() && Abs() == UpdateItem(old(Abs()), a, env)
    {
      hide Valid, AllForm, Move, Listed, Unlisted, UnlinkQ, SegmentOf, ClassOf, Minus32;
      ghost var s := Abs();
      ValidShape(s);
      UpdateKeeps(s, a, env);
      if env.segmented {
        if items[a].linked {
          if SegmentOf(items[a].lru) == COLD && items[a].active {
            items := items[a := items[a].(time := env.now)];
            assert items[a := s.items[a]] == s.items;
            Requeue(a, s.items[a], items[a].(lru := ClassOf(items[a].lru) + WARM, active := false));
          } else {
            items := items[a := items[a].(time := env.now)];
          }
        }
      } else if items[a].time < Minus32(env.now, UPDATE_INTERVAL) {
        if items[a].linked {
          items := items[a := items[a].(time := env.now)];
          assert items[a := s.items[a]] == s.items;
          Requeue(a, s.items[a], items[a]);
        }
      } else {
        assert items[a := items[a]] == items;
      }
    }

    /** do_item_replace. */
    method Replace(a: nat, b: nat, now: nat, cas: nat)
      requires Ok() && a in items && b in items && b != a
      requires items[a].linked && !items[b].linked && items[b].key == items[a].key
      modifies this
      ensures Ok() && Abs() == ReplaceItem(old(Abs()), a, b, now, cas)
    {
      hide Valid, AllForm, UnlinkItem, LinkItem, CanUnlink;
      ReplaceKeeps(Abs(), a, b, now, cas);
      UnlinkOut(a);
      LinkIn(b, now, cas);
    }

    // ------------------------------------------------------------------------- fetching

    /** lru_bump_async: the bump buffer, if it has room, gets a reference of its own. */
    method BumpAsync(a: nat, room: bool) returns (queued: bool)
      requires Ok() && a in items
      modifies this`items, this`held
      ensures queued == room && a in old(held)
      ensures Ok() && Abs() == if room then Acquire(old(Abs()), a) else old(Abs())
    {
      hide Valid, AllForm;
      TakeReference(a);
      if !room {
        items := items[a := items[a].(refcount := items[a].refcount - 1)];
        held := held[a := held[a] - 1];
        assert items == old(items) && held == old(held);
      }
      queued := room;
    }

    /** do_item_bump; room says whether the thread's bump buffer takes another entry. */
    method BumpItem(a: nat, room: bool, env: Env)
      requires Ok() && a in items
      modifies this
      ensures Ok() && Abs() == Bump(old(Abs()), a, room, env)
    {
      hide Valid, AllForm, SegmentOf, UpdateItem;
      ghost var s := Abs();
      BumpKeeps(s, a, room, env);
      if env.segmented {
        if !items[a].active {
          if !items[a].fetched {
            items := items[a := items[a].(fetched := true)];
          } else {
            items := items[a := items[a].(active := true)];
            if SegmentOf(items[a].lru) != COLD {
              items := items[a := items[a].(time := env.now)];
              assert items == s.items[a := s.items[a].(active := true, time := env.now)];
            } else {
              SetKeeps(s, a, s.items[a].(active := true));
              var queued := BumpAsync(a, room);
              if !queued {
                items := items[a := items[a].(active := false)];
                assert items == s.items[a := s.items[a]] == s.items;
              }
            }
          }
        }
      } else {
        SetKeeps(s, a, s.items[a].(fetched := true));
        items := items[a := items[a].(fetched := true)];
        Update(a, env);
      }
    }

    /** do_item_get: lazy expiry and flush, else a reference for the caller. */
    method Fetch(key: Key, room: bool, doUpdate: bool, env: Env) returns (r: Option<nat>)
      requires Ok()
      modifies this
      ensures Ok() && (Abs(), r) == Get(old(Abs()), key, room, doUpdate, env)
    {
      hide Valid, AllForm, Flushed, UnlinkItem, Release, Bump, CanUnlink;
      GetKeeps(Abs(), key, room, doUpdate, env);
      if key !in table { return None; }
      var a := table[key];
      TableLeads(Abs(), key);
      ghost var s := Abs();
      ReclaimKeeps(s, a);
      TakeReference(a);
      if Flushed(items[a], env) || (items[a].exptime != 0 && items[a].exptime <= env.now) {
        SameFlush(s.items[a], items[a], env);
        UnlinkOut(a);
        GiveBack(a);
        r := None;
      } else {
        SameFlush(s.items[a], items[a], env);
        if doUpdate { BumpItem(a, room, env); }
        r := Some(a);
      }
    }

    /** lru_maintainer_bumps, one entry of a bump buffer: update the item, give it back. */
    method DrainBump(a: nat, env: Env)
      requires Ok() && Holding(Abs(), a)
      modifies this
      ensures Ok() && Holding(UpdateItem(old(Abs()), a, env), a)
      ensures Abs() == Release(UpdateItem(old(Abs()), a, env), a)
    {
      hide Valid, AllForm, UpdateItem, Release;
      UpdateHolds(Abs(), a, env);
      Update(a, env);
      GiveBack(a);
    }

    /** do_item_alloc, given a free chunk of the slab class. */
    method AllocateItem(a: nat, key: Key, ntotal: nat, cls: nat, exptime: nat, env: Env)
      requires Ok() && a !in items && cls < 64
      modifies this`items, this`held
      ensures Ok() && Abs() == Allocate(old(Abs()), a, key, ntotal, cls, exptime, env)
    {
      hide Valid, AllForm, Minus32;
      AllocateKeeps(Abs(), a, key, ntotal, cls, exptime, env);
      var lru := cls;
      if env.tempLru && Minus32(exptime, env.now) <= env.tempTtl {
        lru := lru + TEMP;
      } else if env.segmented {
        lru := lru + HOT;
      } else {
        lru := lru + COLD;
      }
      items := items[a := ItemData(key, ntotal, lru, false, false, false, 1, 0, exptime, 0)];
      held := held[a := 1];
    }

    // ---------------------------------------------------------------------- the crawler

    /** do_item_linktail_q: all lists stand, list l with the entry behind. */
    method HookTail(l: nat, it: Entry)
      requires AllForm(next, prev, heads, tails, lists) && Apart(lists) && l < |lists| && Nowhere(lists, it)
      modifies this`next, this`prev, this`heads, this`tails
      ensures AllForm(next, prev, heads, tails, lists[l := lists[l] + [it]])
    {
      hide AllForm, Apart, Nowhere;
      AllFormShape(next, prev, heads, tails, lists);
      LinkTailAll(next, prev, heads, tails, lists, l, it);
      prev := prev[it := tails[l]];
      next := next[it := Null];
      if prev[it] != Null { next := next[prev[it].entry := To(it)]; }
      tails := tails[l := To(it)];
      if heads[l] == Null { heads := heads[l := To(it)]; }
      assert heads == old(heads)[l := heads[l]];
    }

    /** do_lru_crawler_start: a list that is not being crawled gets its crawler at the tail. */
    method StartCrawler(l: nat) returns (starts: nat)
      requires Ok() && l < LISTS
      modifies this`next, this`prev, this`heads, this`tails, this`lists, this`crawling
      ensures l < |old(lists)| == |old(crawling)|
      ensures starts == (if old(crawling)[l] then 0 else 1)
      ensures Ok() && Abs() == if old(crawling)[l] then old(Abs()) else StartCrawl(old(Abs()), l)
    {
      hide Valid, AllForm, Nowhere, Apart;
      starts := 0;
      ValidShape(Abs());
      if !crawling[l] {
        StartCrawlKeeps(Abs(), l);
        ValidApart(Abs());
        NoCrawler(Abs(), l);
        crawling := crawling[l := true];
        HookTail(l, Crawler(l));
        lists := lists[l := lists[l] + [Crawler(l)]];
        starts := 1;
      }
    }

    /** lru_crawler_class_done: the crawler leaves its list from wherever it stands. */
    method ClassDone(l: nat)
      requires Ok() && l < LISTS && |crawling| == LISTS && crawling[l]
      modifies this`next, this`prev, this`heads, this`tails, this`lists, this`crawling
      ensures CrawlOn(old(Abs()), l)
      ensures Ok() && Abs() == EndCrawl(old(Abs()), l)
    {
      hide Valid, AllForm, Nowhere, Apart, Pos, Without;
      EndCrawlKeeps(Abs(), l);
      ValidApart(Abs());
      crawling := crawling[l := false];
      Unhook(l, Crawler(l), Pos(lists[l], Crawler(l)));
      lists := lists[l := Without(lists[l], Pos(lists[l], Crawler(l)))];
    }

    /** do_item_crawl_q in front of another entry: all lists stand, in list l the entries at i and
        i - 1 have changed places, and the crawler now leads to the entry it passed. */
    method SwingForward(l: nat, it: Entry, ghost i: nat)
      requires AllForm(next, prev, heads, tails, lists) && Apart(lists)
      requires l < |lists| && 0 < i < |lists[l]| && it == lists[l][i]
      modifies this`next, this`prev, this`heads, this`tails
      ensures AllForm(next, prev, heads, tails, lists[l := Swapped(lists[l], i)])
      ensures it in next && next[it] == To(lists[l][i - 1])
    {
      hide AllForm, Apart, Swapped;
      AllFormShape(next, prev, heads, tails, lists);
      SwingAll(next, prev, heads, tails, lists, l, i);
      if heads[l] == prev[it] { heads := heads[l := To(it)]; }
      if tails[l] == To(it) { tails := tails[l := prev[it]]; }
      var before := prev[it].entry;
      if next[it] != Null {
        next := next[before := next[it]];
        prev := prev[next[it].entry := prev[it]];
      } else {
        next := next[before := Null];
      }
      next := next[it := To(before)];
      prev := prev[it := prev[before]];
      prev := prev[before := To(it)];
      if prev[it] != Null { next := next[prev[it].entry := To(it)]; }
      assert heads == old(heads)[l := heads[l]] && tails == old(tails)[l := tails[l]];
    }

    /** One round of the crawler in a list: do_item_crawl_q hands out the entry in front; at
        the head the crawler is done and leaves. */
    method CrawlOnce(l: nat) returns (r: Link)
      requires Ok() && l < LISTS && |crawling| == LISTS && crawling[l]
      modifies this`next, this`prev, this`heads, this`tails, this`lists, this`crawling
      ensures CrawlOn(old(Abs()), l) && Ok()
      ensures var i := Pos(old(lists)[l], Crawler(l));
              r == At(old(lists)[l], i - 1)
                && Abs() == if i == 0 then EndCrawl(old(Abs()), l) else CrawlStep(old(Abs()), l)
    {
      hide Valid, AllForm, Nowhere, Apart, Pos;
      CrawlStepKeeps(Abs(), l);
      EndCrawlKeeps(Abs(), l);
      ValidApart(Abs());
      var c := Crawler(l);
      ghost var i := Pos(lists[l], c);
      EntryBefore(next, prev, heads, tails, lists, l, i);
      if prev[c] == Null {
        TakeOff(l, c);
        crawling := crawling[l := false];
        assert Without(lists[l], 0) == lists[l][1..];
        lists := lists[l := lists[l][1..]];
        r := Null;
      } else {
        SwingForward(l, c, i);
        r := next[c];
        lists := lists[l := Swapped(lists[l], i)];
      }
    }

    /** The end of do_item_crawl_q at the head, then do_item_unlinktail_q: all lists stand, list l
        without its head. */
    method TakeOff(l: nat, c: Entry)
      requires AllForm(next, prev, heads, tails, lists) && Apart(lists)
      requires l < |lists| && |lists[l]| > 0 && c == lists[l][0]
      modifies this`next, this`prev, this`heads, this`tails
      ensures AllForm(next, prev, heads, tails, lists[l := lists[l][1..]])
    {
      hide AllForm, Apart, Unlink;
      AllFormShape(next, prev, heads, tails, lists);
      PopAll(next, prev, heads, tails, lists, l);
      if next[c] != Null {
        heads := heads[l := next[c]];
        prev := prev[next[c].entry := Null];
      }
      assert View(next, prev, heads, tails, l) == PopHead(View(old(next), old(prev), old(heads), old(tails), l), c);
      CutOut(l, c);
      assert heads == old(heads)[l := heads[l]];
    }

    // ------------------------------------------------------------------- lru_pull_tail

    /** The switch of lru_pull_tail: what to do with an item that could be locked. */
    method JudgeItem(it: ItemData, q: Query, env: Env) returns (v: Verdict)
      requires IsQuery(q) && |bytes| == LISTS
      ensures v == Decide(bytes[ListOf(q)], it, q, env)
    {
      hide Flushed, Minus32;
      var id := ListOf(q);
      if (it.exptime != 0 && it.exptime < env.now) || Flushed(it, env) { return Reclaimed; }
      v := Left;
      if q.segment == HOT || q.segment == WARM {
        var limit := 0;
        if q.segment == HOT { limit := q.totalBytes * env.hotPct / 100; }
        if limit == 0 { limit := q.totalBytes * env.warmPct / 100; }
        if it.active {
          if q.segment == WARM { v := Requeued; } else { v := Moved(WARM); }
        } else if bytes[id] > limit || Minus32(env.now, it.time) > q.maxAge {
          v := Moved(COLD);
        }
      } else if q.segment == COLD {
        if q.evict {
          if env.evictToFree { v := Evicted; }
        } else if !q.returnItem && it.active && env.segmented {
          v := Moved(WARM);
        }
      }
    }

    /** Carry a verdict out on an item the walk holds: the cases of the switch, and after
        the loop the relinking of an item that changes its segment. */
    method ActOn(a: nat, v: Verdict)
      requires Ok() && Holding(Abs(), a) && items[a].linked && Fits(v)
      modifies this
      ensures Ok() && Abs() == Act(old(Abs()), a, v) && Holding(Abs(), a)
    {
      hide Valid, AllForm, Move, UnlinkItem, Listed, Unlisted, UnlinkQ, CanUnlink;
      ghost var s := Abs();
      ActKeeps(s, a, v);
      ValidShape(s);
      match v
      case Reclaimed => UnlinkOut(a);
      case Evicted => UnlinkOut(a);
      case Left =>
      case Requeued =>
        items := items[a := items[a].(active := false)];
        assert items[a := s.items[a]] == s.items;
        Requeue(a, s.items[a], items[a]);
      case Moved(segment) =>
        items := items[a := items[a].(active := false)];
        assert items[a := s.items[a]] == s.items;
        Requeue(a, s.items[a], items[a].(lru := ClassOf(items[a].lru) + segment));
    }

    /** The items of the walk: pass or stop. */
    method Examine(a: nat, v: Verdict, q: Query)
      requires Ok() && a in items && items[a].linked && Fits(v)
      modifies this
      ensures Ok() && Holding(Carry(old(Abs()), a, v), a)
      ensures Abs() == if q.returnItem && !v.Reclaimed? && !v.Requeued? then Carry(old(Abs()), a, v)
                       else Release(Carry(old(Abs()), a, v), a)
    {
      hide Valid, AllForm, Act, Release;
      CarryKeeps(Abs(), a, v);
      TakeReference(a);
      ActOn(a, v);
      if v.Reclaimed? || v.Requeued? || !q.returnItem { GiveBack(a); }
    }

    /** lru_pull_tail. */
    method PullTheTail(q: Query, env: Env, busy: Locks) returns (removed: nat, ret: Option<nat>)
      requires Ok() && IsQuery(q)
      modifies this
      ensures Ok()
      ensures var r := PullTail(old(Abs()), q, env, busy); Abs() == r.s && removed == r.removed && ret == Returned(q, r)
    {
      hide Valid, AllForm, PullFrom, Decide, Carry, Release, Holding;
      removed, ret := 0, None;
      if q.cls == 0 { return; }
      var l, tries: nat := ListOf(q), TRIES;
      ValidShape(Abs());
      AllFormShape(next, prev, heads, tails, lists);
      ghost var s0 := Abs();
      ghost var i: int := |lists[l]| - 1;
      var search := tails[l];
      TailIsLast(next, prev, heads, tails, lists, l);
      while tries > 0 && search != Null
        invariant Ok() && |lists| == |sizes| == |bytes| == LISTS && -1 <= i < |lists[l]| && search == At(lists[l], i)
        invariant PullFrom(Abs(), i, tries, removed, q, env, busy)
                  == PullFrom(s0, |s0.lists[l]| - 1, TRIES, 0, q, env, busy)
        decreases tries, i
      {
        ghost var s := Abs();
        EntryBefore(next, prev, heads, tails, lists, l, i);
        var before := prev[search.entry];
        if search.entry.Crawler? {
          PullAtCrawler(s, i, tries, removed, q, env, busy);
          if q.crawlBlocks { removed := 0; return; }
          search, i := before, i - 1;
          continue;
        }
        var a := search.entry.addr;
        ListedItem(s, l, i);
        if items[a].key in busy(tries) {
          PullAtBusy(s, i, tries, removed, q, env, busy, a);
          tries, search, i := tries - 1, before, i - 1;
          continue;
        }
        var v := JudgeItem(items[a], q, env);
        JudgedFits(s, items[a], q, env);
        Examine(a, v, q);
        if v.Reclaimed? || v.Requeued? {
          PullPasses(s, i, tries, removed, q, env, busy, a, v);
          PassOneList(s, l, i, v);
          tries, removed, search, i := tries - 1, removed + 1, before, Onward(i, v);
          ValidShape(Abs());
        } else {
          PullStops(s, i, tries, removed, q, env, busy, a, v);
          removed := removed + Count(v);
          if q.segment == COLD && !q.evict && q.returnItem { ret := Some(a); }
          return;
        }
      }
      PullRanOut(Abs(), i, tries, removed, q, env, busy);
    }
  }

  lemma NotAtTheEnds(next: map<Entry, Link>, prev: map<Entry, Link>, heads: seq<Link>, tails: seq<Link>,
                     lists: seq<seq<Entry>>, l: nat, e: Entry)
    requires AllForm(next, prev, heads, tails, lists) && l < |lists| && e !in lists[l]
    ensures heads[l] != To(e) && tails[l] != To(e)
  {
    assert Forms(View(next, prev, heads, tails, l), lists[l]);
  }

  /** The steps of do_item_unlink in its order. */
  function Dequeued(s: State, a: nat): State
    requires CanUnlink(s, a) && s.items[a].linked
  {
    var it := s.items[a].(linked := false);
    UnlinkQ(s.(items := s.items[a := it], currItems := s.currItems - 1, currBytes := s.currBytes - it.ntotal,
               table := s.table - {it.key}), a)
  }

  lemma DetachSteps(s: State, a: nat)
    requires CanUnlink(s, a) && s.items[a].linked
    ensures var t := Dequeued(s, a);
            && a in t.items && t.items[a].refcount > 0 && !t.items[a].linked && t.items[a].lru == s.items[a].lru < LISTS
            && t.(items := t.items[a := t.items[a].(refcount := t.items[a].refcount - 1)]) == Detach(s, a)
  {
    hide Pos, Without;
  }

  /** The steps of do_item_link in its order. */
  function Enqueued(s: State, a: nat, now: nat, cas: nat): State
    requires CanLink(s, a)
  {
    var it := s.items[a].(linked := true, time := now, cas := cas);
    LinkQ(s.(items := s.items[a := it], currItems := s.currItems + 1, currBytes := s.currBytes + it.ntotal,
             table := s.table[it.key := a]), a)
  }

  lemma LinkSteps(s: State, a: nat, now: nat, cas: nat)
    requires CanLink(s, a)
    ensures var t := Enqueued(s, a, now, cas);
            && a in t.items
            && t.(items := t.items[a := t.items[a].(refcount := t.items[a].refcount + 1)]) == LinkItem(s, a, now, cas)
  {
  }

  /** Changes of the item before it is unlinked may as well be made after. */
  lemma MoveSteps(s: State, items: map<nat, ItemData>, a: nat, it: ItemData)
    requires Listed(s, a) && a in items && s.items == items[a := s.items[a]]
    requires items[a].lru == s.items[a].lru && items[a].ntotal == s.items[a].ntotal == it.ntotal && it.lru < LISTS
    requires Unlisted(UnlinkQ(s, a).(items := s.items[a := it]), a)
    ensures Listed(s.(items := items), a)
    ensures var u := UnlinkQ(s.(items := items), a);
            u.items == items && u.(items := items[a := it]) == UnlinkQ(s, a).(items := s.items[a := it])
  {
    hide Pos, Without;
  }

  lemma NoCrawler(s: State, l: nat)
    requires Valid(s) && l < LISTS && !s.crawling[l]
    ensures Nowhere(s.lists, Crawler(l))
  {
    forall m | 0 <= m < |s.lists| ensures Crawler(l) !in s.lists[m] {
      assert Crawler(l) in s.lists[m] ==> Belongs(s.items, s.crawling, m, Crawler(l));
    }
  }

  lemma TailIsLast(next: map<Entry, Link>, prev: map<Entry, Link>, heads: seq<Link>, tails: seq<Link>,
                   lists: seq<seq<Entry>>, l: nat)
    requires AllForm(next, prev, heads, tails, lists) && l < |lists|
    ensures tails[l] == At(lists[l], |lists[l]| - 1)
  {
    assert Forms(View(next, prev, heads, tails, l), lists[l]);
  }

  lemma EntryBefore(next: map<Entry, Link>, prev: map<Entry, Link>, heads: seq<Link>, tails: seq<Link>,
                    lists: seq<seq<Entry>>, l: nat, i: int)
    requires AllForm(next, prev, heads, tails, lists) && l < |lists| && 0 <= i < |lists[l]|
    ensures lists[l][i] in prev && prev[lists[l][i]] == At(lists[l], i - 1)
  {
    assert Forms(View(next, prev, heads, tails, l), lists[l])
           && Neighbours(View(next, prev, heads, tails, l), lists[l], i);
  }

  lemma PullAtCrawler(s: State, i: int, tries: nat, removed: nat, q: Query, env: Env, busy: Locks)
    requires Valid(s) && IsQuery(q) && 0 <= i < |s.lists[ListOf(q)]| && tries > 0 && s.lists[ListOf(q)][i].Crawler?
    ensures PullFrom(s, i, tries, removed, q, env, busy) ==
            if q.crawlBlocks then Pulled(s, 0, removed, None) else PullFrom(s, i - 1, tries, removed, q, env, busy)
  {
  }

  lemma PullAtBusy(s: State, i: int, tries: nat, removed: nat, q: Query, env: Env, busy: Locks, a: nat)
    requires Valid(s) && IsQuery(q) && 0 <= i < |s.lists[ListOf(q)]| && tries > 0
    requires s.lists[ListOf(q)][i] == Item(a) && a in s.items && s.items[a].key in busy(tries)
    ensures PullFrom(s, i, tries, removed, q, env, busy) == PullFrom(s, i - 1, tries - 1, removed, q, env, busy)
  {
    ListedItem(s, ListOf(q), i);
  }

  lemma PullRanOut(s: State, i: int, tries: nat, removed: nat, q: Query, env: Env, busy: Locks)
    requires Valid(s) && IsQuery(q) && -1 <= i < |s.lists[ListOf(q)]| && (tries == 0 || i == -1)
    ensures PullFrom(s, i, tries, removed, q, env, busy) == Pulled(s, removed, removed, None)
  {
  }

  lemma TableLeads(s: State, key: Key)
    requires Valid(s) && key in s.table
    ensures s.table[key] in s.items
  {
  }

  lemma SameFlush(it: ItemData, it': ItemData, env: Env)
    requires it' == it.(refcount := it'.refcount)
    ensures Flushed(it', env) == Flushed(it, env) && Gone(it', env) == Gone(it, env)
  {
  }

  lemma UpdateHolds(s: State, a: nat, env: Env)
    requires Valid(s) && Holding(s, a)
    ensures Holding(UpdateItem(s, a, env), a)
  {
    hide UpdateItem;
    UpdateKeeps(s, a, env);
  }

  lemma NowhereAt(lists: seq<seq<Entry>>, e: Entry, l: nat)
    requires Nowhere(lists, e) && l < |lists|
    ensures e !in lists[l]
  {
  }

  lemma RemoveFits(s: State, a: nat)
    requires Valid(s) && Holding(s, a)
    ensures s.items[a].lru < LISTS == |s.lists|
    ensures s.items[a].refcount == 1 ==> !s.items[a].linked && Item(a) !in s.lists[s.items[a].lru]
  {
    if s.items[a].refcount == 1 { ValidUnlisted(s, a); }
  }

  lemma AllFormShape(next: map<Entry, Link>, prev: map<Entry, Link>, heads: seq<Link>, tails: seq<Link>,
                     lists: seq<seq<Entry>>)
    requires AllForm(next, prev, heads, tails, lists)
    ensures |heads| == |tails| == |lists|
  {
  }
}
