/** What a client sees of the item cache (memcached/items.c): which keys are answered, what becomes of
    expired and flushed ones, and where hits take an item. */
module ItemsAnswers {
  import opened Basics
  import opened LruList
  import opened Items
  import opened ItemsOps
  import opened ItemsPull
  import opened ItemsPullTheorems
  import opened ItemsPullOutcome
  import opened ItemsRuns

  /** The time to live is over, or everything as old was flushed. */
  predicate Ended(it: ItemData, env: Env) {
    || 0 < it.exptime <= env.now
    || (0 < env.oldestLive <= env.now && (it.time <= env.oldestLive || 0 < it.cas < env.oldestCas))
  }

  lemma GoneIsEnded(it: ItemData, env: Env)
    ensures Gone(it, env) <==> Ended(it, env)
  {
  }

  // -------------------------------------------------------------------------------- do_item_get

  lemma ReclaimedIsOut(s: State, a: nat)
    requires Valid(s) && a in s.items && s.items[a].linked
    ensures OutOfCache(Reclaim(s, a), a, s.items[a].key)
  {
    hide Valid, UnlinkItem, CanUnlink, Release, Holding;
    ReclaimKeeps(s, a);
    AcquireKeeps(s, a);
    var s1 := Acquire(s, a);
    UnlinkRecord(s1, a);
    UnlinkedTable(s1, a);
    var s2 := UnlinkItem(s1, a);
    ReleaseRecord(s2, a);
    ReleasedTable(s2, a);
    ListMembers(Reclaim(s, a), a);
  }

  lemma UnlinkedTable(s: State, a: nat)
    requires CanUnlink(s, a) && s.items[a].linked
    ensures UnlinkItem(s, a).table == s.table - {s.items[a].key}
  {
  }

  lemma ReleasedTable(s: State, a: nat)
    requires Holding(s, a)
    ensures Release(s, a).table == s.table
  {
  }

  /** The item as a reader gets it: the same key, time to live and size, and one holder more. */
  ghost predicate HandedOut(s: State, t: State, a: nat) {
    && a in s.items && a in t.items && a in s.held && a in t.held && t.held[a] > s.held[a]
    && t.items[a].linked == s.items[a].linked && t.items[a].key == s.items[a].key
    && t.items[a].exptime == s.items[a].exptime && t.items[a].ntotal == s.items[a].ntotal && t.table == s.table
  }

  lemma UpdateHands(s: State, a: nat, env: Env)
    requires Valid(s) && a in s.items
    ensures var t := UpdateItem(s, a, env);
            && t.held == s.held && t.table == s.table && a in t.items
            && t.items[a] == s.items[a].(time := t.items[a].time, lru := t.items[a].lru, active := t.items[a].active)
  {
    hide Valid, Move, Listed, Unlisted, UnlinkQ;
    ValidShape(s);
    UpdatedFits(s.items[a], env);
    if s.items[a].linked && Relinks(s.items[a], env) { MoveKeeps(s, a, Updated(s.items[a], env)); }
  }

  lemma BumpHands(s: State, a: nat, room: bool, env: Env)
    requires Valid(s) && a in s.items && a in s.held
    ensures var t := Bump(s, a, room, env);
            && t.table == s.table && a in t.items && a in t.held && t.held[a] >= s.held[a]
            && t.items[a].linked == s.items[a].linked && t.items[a].key == s.items[a].key
            && t.items[a].exptime == s.items[a].exptime && t.items[a].ntotal == s.items[a].ntotal
  {
    hide Valid, UpdateItem;
    if !env.segmented {
      var it := s.items[a].(fetched := true);
      SetKeeps(s, a, it);
      UpdateHands(s.(items := s.items[a := it]), a, env);
    }
  }

  /** A key is answered exactly if it is in the table and its item has not ended; then with its item,
      which nobody changes but for its marks and its time. An item that has ended leaves the cache. */
  lemma Answers(s: State, k: Key, room: bool, doUpdate: bool, env: Env)
    requires Valid(s)
    ensures k in s.table ==> s.table[k] in s.items
    ensures var (t, r) := Get(s, k, room, doUpdate, env);
            && (r.Some? <==> k in s.table && !Ended(s.items[s.table[k]], env))
            && (r.Some? ==> r.value == s.table[k] && HandedOut(s, t, s.table[k]))
            && (k in s.table && r.None? ==> OutOfCache(t, s.table[k], k))
            && (k !in s.table ==> t == s)
  {
    KeyMember(s, k);
    ValidHeld(s);
    hide Valid, Reclaim, Bump, Gone, Ended, OutOfCache;
    if k in s.table {
      var a := s.table[k];
      GoneIsEnded(s.items[a], env);
      AcquireKeeps(s, a);
      ReclaimedIsOut(s, a);
      BumpHands(Acquire(s, a), a, room, env);
    }
  }

  /** A key is answered with the item linked under it last, until that item ends. */
  lemma LinkedAnswers(s: State, a: nat, now: nat, cas: nat, room: bool, doUpdate: bool, env: Env)
    requires Valid(s) && a in s.items && !s.items[a].linked && s.items[a].key !in s.table && CanLink(s, a)
    ensures var t := LinkItem(s, a, now, cas);
            && Valid(t) && a in t.items && t.items[a].time == now && t.items[a].cas == cas
            && Get(t, s.items[a].key, room, doUpdate, env).1 == if Ended(t.items[a], env) then None else Some(a)
  {
    LinkItemKeeps(s, a, now, cas);
    var t := LinkItem(s, a, now, cas);
    assert t.table == s.table[s.items[a].key := a] && t.items[a].time == now && t.items[a].cas == cas;
    hide Valid, Get, LinkItem, CanLink;
    Answers(t, s.items[a].key, room, doUpdate, env);
  }

  /** And not at all once it is unlinked. */
  lemma UnlinkedNotAnswered(s: State, a: nat, room: bool, doUpdate: bool, env: Env)
    requires Valid(s) && CanUnlink(s, a) && s.items[a].linked
    ensures Valid(UnlinkItem(s, a)) && Get(UnlinkItem(s, a), s.items[a].key, room, doUpdate, env).1 == None
  {
    hide Valid, UnlinkItem, Get;
    UnlinkItemKeeps(s, a);
    UnlinkedTable(s, a);
    Answers(UnlinkItem(s, a), s.items[a].key, room, doUpdate, env);
  }

  /** A new item, once linked, heads a list of its class: TEMP if that is in use and the item lives
      no longer than its limit, otherwise HOT with segments and COLD without. */
  lemma NewItemHeads(s: State, a: nat, key: Key, ntotal: nat, cls: nat, exptime: nat, env: Env, now: nat, cas: nat)
    requires Valid(s) && a !in s.items && cls < 64 && key !in s.table
    ensures var s1 := Allocate(s, a, key, ntotal, cls, exptime, env);
            var short := env.tempLru && (exptime - env.now) % 0x1_0000_0000 <= env.tempTtl;
            && CanLink(s1, a)
            && Heads(LinkItem(s1, a, now, cas), a,
                     cls + (if short then TEMP else if env.segmented then HOT else COLD))
  {
    hide Valid, LinkItem, CanLink;
    var s1 := Allocate(s, a, key, ntotal, cls, exptime, env);
    AllocateKeeps(s, a, key, ntotal, cls, exptime, env);
    LinkItemKeeps(s1, a, now, cas);
    LinkedHeads(s1, a, now, cas);
    OnlyThere(LinkItem(s1, a, now, cas), a);
  }

  lemma LinkedHeads(s: State, a: nat, now: nat, cas: nat)
    requires CanLink(s, a)
    ensures var t, l := LinkItem(s, a, now, cas), s.items[a].lru;
            && a in t.items && t.items[a].linked && t.items[a].lru == l < |t.lists|
            && t.items[a].active == s.items[a].active && t.lists[l] != [] && t.lists[l][0] == Item(a)
  {
  }

  // ------------------------------------------------------------------------- where hits lead

  /** With segments: the first hit marks an item fetched, the second active; in COLD only if the bump
      buffer takes it. Lists stay as they are. */
  lemma HitsMark(s: State, a: nat, room: bool, env: Env)
    requires Valid(s) && a in s.items && env.segmented
    ensures var t, it := Bump(s, a, room, env), s.items[a];
            && t.lists == s.lists && a in t.items
            && (t.items[a].active <==> it.active || (it.fetched && (room || SegmentOf(it.lru) != COLD)))
            && (t.items[a].fetched <==> it.fetched || !it.active)
            && (forall b :: b in s.items && b != a ==> b in t.items && t.items[b] == s.items[b])
  {
    hide Valid;
    AcquireKeeps(s, a);
  }

  /** do_item_update: an active item of COLD goes to the head of WARM; without segments, one that has
      not been asked for in a minute goes to the head of its list; anything else stays in its place. */
  lemma UpdatePlaces(s: State, a: nat, env: Env)
    requires Valid(s) && a in s.items && s.items[a].linked
    ensures var t, it := UpdateItem(s, a, env), s.items[a];
            && |s.lists| == |t.lists| == LISTS && it.lru < LISTS && a in t.items
            && (env.segmented ==> t.items[a].time == env.now)
            && (env.segmented && it.lru / 64 * 64 == COLD && it.active ==> Heads(t, a, it.lru % 64 + WARM))
            && (env.segmented && !(it.lru / 64 * 64 == COLD && it.active) ==> t.lists == s.lists)
            && (!env.segmented && it.time < (env.now - 60) % 0x1_0000_0000 ==>
                  t.items[a] == it.(time := env.now) && t.lists[it.lru] != [] && t.lists[it.lru][0] == Item(a))
            && (!env.segmented && it.time >= (env.now - 60) % 0x1_0000_0000 ==> t == s)
  {
    hide Valid, Move, Listed, Unlisted, UnlinkQ;
    ValidShape(s);
    var it := s.items[a];
    UpdatedFits(it, env);
    if Relinks(it, env) {
      MoveKeeps(s, a, Updated(it, env));
      UpdatedSize(it, env);
      MovedHeads(s, a, Updated(it, env));
      OnlyThere(Move(s, a, Updated(it, env)), a);
    } else if !env.segmented {
      assert Updated(it, env) == it && s.items[a := it] == s.items;
    }
  }

  lemma UpdatedSize(it: ItemData, env: Env)
    ensures Updated(it, env).ntotal == it.ntotal
  {
  }

  /** The way of a hit in COLD: marked and put in a bump buffer, and once the maintainer has worked
      the entry off the item heads WARM. */
  lemma ColdHitWarms(s: State, k: Key, env: Env, later: Env)
    requires Valid(s) && k in s.table && s.table[k] in s.items && !Ended(s.items[s.table[k]], env)
    requires env.segmented && later.segmented
    requires var it := s.items[s.table[k]]; it.lru / 64 * 64 == COLD && it.fetched && !it.active
    ensures var a, t := s.table[k], Get(s, k, true, true, env).0;
            Valid(t) && Holding(t, a) && Heads(Drain(t, a, later), a, s.items[a].lru % 64 + WARM)
  {
    hide Valid, Heads, UpdateItem, Release, Get, Ended;
    var a, t := s.table[k], Get(s, k, true, true, env).0;
    ColdHitMarks(s, k, env);
    UpdatePlaces(t, a, later);
    DrainKeeps(t, a, later);
    UpdateKeeps(t, a, later);
    ReleasedHeads(UpdateItem(t, a, later), a, s.items[a].lru % 64 + WARM);
  }

  lemma ColdHitMarks(s: State, k: Key, env: Env)
    requires Valid(s) && k in s.table && s.table[k] in s.items && !Ended(s.items[s.table[k]], env) && env.segmented
    requires var it := s.items[s.table[k]]; it.lru / 64 * 64 == COLD && it.fetched && !it.active
    ensures var a, t := s.table[k], Get(s, k, true, true, env).0;
            Valid(t) && Holding(t, a) && t.items[a].active && t.items[a].linked && t.items[a].lru == s.items[a].lru
  {
    KeyMember(s, k);
    var a := s.table[k];
    GoneIsEnded(s.items[a], env);
    AcquireKeeps(s, a);
    GetKeeps(s, k, true, true, env);
    ValidShape(s);
    hide Valid, Gone, Ended, Reclaim;
    var it := s.items[a];
    assert SegmentOf(it.lru) == COLD;
  }

  /** Giving a reference back moves nothing that is linked. */
  lemma ReleasedHeads(s: State, a: nat, l: nat)
    requires Holding(s, a) && Heads(s, a, l) && Valid(s)
    ensures Heads(Release(s, a), a, l)
  {
    ValidHeld(s);
    LinkedRefs(s, a);
    hide Valid;
  }

  lemma LinkedRefs(s: State, a: nat)
    requires Valid(s) && a in s.items && s.items[a].linked && a in s.held && s.held[a] > 0
    ensures s.items[a].refcount > 1
  {
  }
}
