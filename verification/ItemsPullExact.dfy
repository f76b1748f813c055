/** When a call of lru_pull_tail gives back the references it takes, and when it returns the
    number of items it unlinked or moved. */
module ItemsPullExact {
  import opened Basics
  import opened Counting
  import opened LruList
  import opened Items
  import opened ItemsOps
  import opened ItemsPull
  import opened ItemsPullTheorems

  // ---------------------------------------------------------------------- the reference taken

  /** The call gives back or hands over every reference it took. */
  predicate NoLeak(s: State, q: Query, r: Pulled) {
    forall b :: b in r.s.items && b in s.held && b in r.s.held ==>
      r.s.held[b] == s.held[b] + (if Returned(q, r) == Some(b) then 1 else 0)
  }

  /** The flags under which the item the walk stops at is given back or handed over. */
  predicate FlagsFit(q: Query) {
    q.cls == 0 || !q.returnItem || (q.segment == COLD && !q.evict)
  }

  lemma LeaksWhenStopped(s: State, q: Query, env: Env, busy: Locks)
    requires Valid(s) && IsQuery(q)
    ensures NoLeak(s, q, PullTail(s, q, env, busy)) <==>
            FlagsFit(q) || PullTail(s, q, env, busy).stopped == None
  {
    var r := PullTail(s, q, env, busy);
    assert q.cls == 0 ==> r.stopped == None;
    hide Valid, PullTail;
    PullTailIsSafe(s, q, env, busy);
    assert Holders(s, r.s, r.stopped, q);
    if !FlagsFit(q) && r.stopped.Some? {
      var b := r.stopped.value;
      assert r.s.held[b] == s.held[b] + 1 && Returned(q, r) == None;
    }
  }

  /** The item at the tail is neither expired nor active nor locked elsewhere. */
  predicate PlainTail(s: State, q: Query, env: Env, busy: Locks)
    requires IsQuery(q) && |s.lists| == LISTS
  {
    var list := s.lists[ListOf(q)];
    && |list| > 0 && list[|list| - 1].Item? && list[|list| - 1].addr in s.items
    && var it := s.items[list[|list| - 1].addr];
       !Expired(it, env) && !it.active && it.key !in busy(TRIES)
  }

  /** Whenever the tail is plain, asking for it outside a plain walk of COLD leaks. */
  lemma LeakForEveryTail(s: State, q: Query, env: Env, busy: Locks)
    requires Valid(s) && IsQuery(q) && !FlagsFit(q) && PlainTail(s, q, env, busy)
    ensures !NoLeak(s, q, PullTail(s, q, env, busy))
  {
    LeaksWhenStopped(s, q, env, busy);
    var list := s.lists[ListOf(q)];
    var a := list[|list| - 1].addr;
    ListedItem(s, ListOf(q), |list| - 1);
    JudgedFits(s, s.items[a], q, env);
    assert PullFrom(s, |list| - 1, TRIES, 0, q, env, busy).stopped == Some(a) by {
      hide Valid;
    }
  }

  const QUIET: Env := Env(1, true, false, 0, true, 0, 0, 0, 0)

  /** A cache with one item. */
  lemma OneLinked(cls: nat) returns (s: State)
    requires cls < 64
    ensures Valid(s) && s.items.Keys == {0} && s.items[0].linked && !s.items[0].active && s.items[0].exptime == 0
    ensures forall l :: 0 <= l < |s.crawling| ==> !s.crawling[l]
  {
    hide Valid;
    var s0 := State(map[], seq(LISTS, _ => []), seq(LISTS, _ => false), seq(LISTS, _ => 0), seq(LISTS, _ => 0), 0, 0,
                    map[], map[]);
    EmptyIsValid(s0);
    AllocateKeeps(s0, 0, "k", 1, cls, 0, QUIET);
    var s1 := Allocate(s0, 0, "k", 1, cls, 0, QUIET);
    LinkItemKeeps(s1, 0, 1, 0);
    s := LinkItem(s1, 0, 1, 0);
  }

  /** A cache with one item, in the given list. */
  lemma OneItemCache(cls: nat, lru: nat) returns (s: State)
    requires cls < 64 && lru < LISTS
    ensures Valid(s) && s.lists[lru] == [Item(0)] && 0 in s.items
    ensures s.items[0].exptime == 0 && !s.items[0].active && lru < |s.crawling| && !s.crawling[lru]
  {
    hide Valid, Move;
    var s1 := OneLinked(cls);
    var it := s1.items[0].(lru := lru);
    MoveKeeps(s1, 0, it);
    s := Move(s1, 0, it);
    ValidShape(s);
    OnlyItem(s, lru);
  }

  lemma OnlyItem(s: State, l: nat)
    requires Valid(s) && l < LISTS && s.items.Keys == {0} && s.items[0].linked && s.items[0].lru == l && !s.crawling[l]
    ensures s.lists[l] == [Item(0)]
  {
    var list := s.lists[l];
    forall e | e in list ensures e == Item(0) { assert Belongs(s.items, s.crawling, l, e); }
    OnlyMember(list, Item(0));
  }

  lemma OnlyMember(list: seq<Entry>, e: Entry)
    requires NoDup(list) && e in list && forall x :: x in list ==> x == e
    ensures list == [e]
  {
    assert list[0] in list;
    WithoutMembers(list, 0);
    if Without(list, 0) != [] { HasMember(Without(list, 0)); }
  }

  lemma HasMember(list: seq<Entry>)
    requires list != []
    ensures exists x :: x in list
  {
    assert list[0] in list;
  }

  /** Whatever the cache, the clock and the locks. */
  ghost predicate NeverLeaks(q: Query)
    requires IsQuery(q)
  {
    forall s, env, busy :: Valid(s) ==> NoLeak(s, q, PullTail(s, q, env, busy))
  }

  /** With LRU_PULL_RETURN_ITEM the reference on the item the walk stopped at is kept; only in
      COLD without LRU_PULL_EVICT is that item handed to the caller. So the flags a caller gives
      decide: the references are always given back or handed over if no item is asked for, or
      COLD is walked without evicting, or no class; and otherwise there is a cache that leaks. */
  lemma LeaksExactly(q: Query)
    requires IsQuery(q)
    ensures NeverLeaks(q) <==> FlagsFit(q)
  {
    hide Valid, PullTail, NoLeak;
    if FlagsFit(q) {
      forall s, env, busy | Valid(s) ensures NoLeak(s, q, PullTail(s, q, env, busy)) {
        LeaksWhenStopped(s, q, env, busy);
      }
    } else {
      var s := OneItemCache(q.cls, ListOf(q));
      ValidShape(s);
      LeakForEveryTail(s, q, QUIET, _ => {});
    }
  }

  // ---------------------------------------------------------------------- the count returned

  /** The walk goes on behind such an item when it could lock it. */
  predicate Passing(it: ItemData, q: Query, env: Env) {
    Expired(it, env) || (q.segment == WARM && it.active)
  }

  lemma PassingIsJudged(s: State, it: ItemData, q: Query, env: Env)
    requires IsQuery(q) && |s.bytes| == LISTS
    ensures var v := Judge(s, it, q, env); v.Reclaimed? || v.Requeued? <==> Passing(it, q, env)
  {
  }

  /** From position i and with the given tries, the walk comes to a crawler. */
  predicate Meets(s: State, i: int, tries: nat, q: Query, env: Env, busy: Locks)
    requires IsQuery(q) && |s.lists| == LISTS && i < |s.lists[ListOf(q)]|
    decreases i + 1
  {
    i >= 0 && tries > 0 &&
    match s.lists[ListOf(q)][i]
    case Crawler(_) => true
    case Item(a) =>
      && a in s.items && (s.items[a].key in busy(tries) || Passing(s.items[a], q, env))
      && Meets(s, i - 1, tries - 1, q, env, busy)
  }

  /** On the way it locks an item. */
  predicate Locks1(s: State, i: int, tries: nat, q: Query, busy: Locks)
    requires IsQuery(q) && |s.lists| == LISTS && i < |s.lists[ListOf(q)]|
    decreases i + 1
  {
    i >= 0 && tries > 0 &&
    match s.lists[ListOf(q)][i]
    case Crawler(_) => false
    case Item(a) => a in s.items && (s.items[a].key !in busy(tries) || Locks1(s, i - 1, tries - 1, q, busy))
  }

  /** Two states that agree on the entries from some position towards the head. */
  ghost predicate SameAhead(s: State, t: State, l: nat, i: int, d: nat) {
    && l < |s.lists| && l < |t.lists| && i < |s.lists[l]| && i + d < |t.lists[l]|
    && forall m :: 0 <= m <= i ==> SameEntry(s, t, s.lists[l][m], t.lists[l][m + d])
  }

  predicate SameEntry(s: State, t: State, e: Entry, f: Entry) {
    && f == e
    && (e.Item? ==>
          && (e.addr in s.items <==> e.addr in t.items)
          && (e.addr in s.items ==> t.items[e.addr] == s.items[e.addr]))
  }

  lemma {:induction false} MeetsSame(s: State, t: State, i: int, d: nat, tries: nat, q: Query, env: Env, busy: Locks)
    requires IsQuery(q) && |s.lists| == |t.lists| == LISTS && -1 <= i && SameAhead(s, t, ListOf(q), i, d)
    requires d == 0 || (d == 1 && t.lists[ListOf(q)][0].Item?)
    ensures Meets(s, i, tries, q, env, busy) == Meets(t, i + d, tries, q, env, busy)
    ensures Meets(s, i, tries, q, env, busy) ==> Locks1(s, i, tries, q, busy) == Locks1(t, i + d, tries, q, busy)
    decreases i + 1
  {
    hide Expired, ListOf;
    if i >= 0 && tries > 0 {
      var l := ListOf(q);
      assert SameEntry(s, t, s.lists[l][i], t.lists[l][i + d]);
      MeetsSame(s, t, i - 1, d, tries - 1, q, env, busy);
    }
  }

  /** Passing an item leaves everything ahead of it. */
  lemma PassedAhead(s: State, l: nat, i: nat, v: Verdict)
    requires Valid(s) && l < LISTS && i < |s.lists[l]| && s.lists[l][i].Item? && (v.Reclaimed? || v.Requeued?)
    ensures var a := s.lists[l][i].addr; a in s.items && s.items[a].linked && s.items[a].lru == l
    ensures var t, d := PassOne(s, s.lists[l][i].addr, v), if v.Requeued? then 1 else 0;
            |t.lists| == LISTS && SameAhead(s, t, l, i - 1, d) && (d == 1 ==> |t.lists[l]| > 0 && t.lists[l][0].Item?)
  {
    hide Valid, PassOne, Rest, Listed, AfterStep;
    ValidShape(s);
    ListedItem(s, l, i);
    var a := s.lists[l][i].addr;
    RestAt(s, l, i);
    PassedList(s, a, v);
    PassedItems(s, a, v);
    var t, d := PassOne(s, a, v), if v.Requeued? then 1 else 0;
    ListNoDup(s, l);
    forall m | 0 <= m <= i - 1 ensures SameEntry(s, t, s.lists[l][m], t.lists[l][m + d]) {
      assert s.lists[l][m] != s.lists[l][i];
      assert t.lists[l][m + d] == Without(s.lists[l], i)[m] == s.lists[l][m];
    }
  }

  lemma ListNoDup(s: State, l: nat)
    requires Valid(s) && l < LISTS
    ensures NoDup(s.lists[l])
  {
  }

  lemma PassedItems(s: State, a: nat, v: Verdict)
    requires Valid(s) && a in s.items && s.items[a].linked && (v.Reclaimed? || v.Requeued?)
    ensures var t := PassOne(s, a, v);
            && (forall b :: b in t.items && b != a ==> b in s.items && t.items[b] == s.items[b])
            && (forall b :: b in s.items && b != a ==> b in t.items)
  {
    hide Valid, Carry, Release, SameItem, AfterStep;
    SettledFate(s, a, v);
    ValidHeld(s);
    OthersOk(s, PassOne(s, a, v), a, 0);
  }

  /** What the counts are, from any position: if the walk meets a crawler that blocks it, the
      number returned is 0 and an item was changed exactly if one could be locked on the way. */
  lemma {:induction false} CountFrom(s: State, i: int, tries: nat, removed: nat, q: Query, env: Env, busy: Locks)
    requires Valid(s) && IsQuery(q) && -1 <= i < |s.lists[ListOf(q)]|
    ensures var r := PullFrom(s, i, tries, removed, q, env, busy);
            if q.crawlBlocks && Meets(s, i, tries, q, env, busy) then
              r.removed == 0 && r.changed >= removed && (r.changed > removed <==> Locks1(s, i, tries, q, busy))
            else r.removed == r.changed
    decreases tries, i + 1
  {
    hide Valid, Decide, Carry, PassOne, Release, Passing;
    ValidShape(s);
    var l := ListOf(q);
    if tries > 0 && i >= 0 {
      if s.lists[l][i].Crawler? {
        if !q.crawlBlocks { CountFrom(s, i - 1, tries, removed, q, env, busy); }
      } else {
        ListedItem(s, l, i);
        var a := s.lists[l][i].addr;
        if s.items[a].key in busy(tries) {
          CountFrom(s, i - 1, tries - 1, removed, q, env, busy);
        } else {
          CountAtItem(s, i, tries, removed, q, env, busy, a);
        }
      }
    }
  }

  lemma {:induction false} CountAtItem(s: State, i: nat, tries: nat, removed: nat, q: Query, env: Env, busy: Locks,
                                       a: nat)
    requires Valid(s) && IsQuery(q) && AtItem(s, i, tries, q, busy, a)
    ensures var r := PullFrom(s, i, tries, removed, q, env, busy);
            if q.crawlBlocks && Meets(s, i, tries, q, env, busy) then
              r.removed == 0 && r.changed >= removed && (r.changed > removed <==> Locks1(s, i, tries, q, busy))
            else r.removed == r.changed
    decreases tries, i
  {
    hide Valid, Decide, PassOne, PullFrom, Carry, Release, Holding, Passing;
    ValidShape(s);
    var v := Judge(s, s.items[a], q, env);
    PassingIsJudged(s, s.items[a], q, env);
    if v.Reclaimed? || v.Requeued? {
      PullPasses(s, i, tries, removed, q, env, busy, a, v);
      PassedAhead(s, ListOf(q), i, v);
      var t, d := PassOne(s, a, v), if v.Requeued? then 1 else 0;
      CountFrom(t, Onward(i, v), tries - 1, removed + 1, q, env, busy);
      if i > 0 { MeetsSame(s, t, i - 1, d, tries - 1, q, env, busy); }
    } else {
      PullStops(s, i, tries, removed, q, env, busy, a, v);
    }
  }

  // ----- the condition, on the list before the call

  /** The tries left when the walk comes to position j of a list of n entries. */
  function TriesAt(n: nat, j: int): int { TRIES - (n - 1 - j) }

  /** At position j stands an item whose lock another thread holds when the walk comes by. */
  predicate Taken(s: State, q: Query, busy: Locks, j: int)
    requires IsQuery(q) && |s.lists| == LISTS && 0 <= j < |s.lists[ListOf(q)]| <= j + TRIES
  {
    var list := s.lists[ListOf(q)];
    list[j].Item? && list[j].addr in s.items && s.items[list[j].addr].key in busy(TriesAt(|list|, j))
  }

  /** At position j stands an item that does not stop the walk. */
  predicate Passable(s: State, q: Query, env: Env, busy: Locks, j: int)
    requires IsQuery(q) && |s.lists| == LISTS && 0 <= j < |s.lists[ListOf(q)]| <= j + TRIES
  {
    var list := s.lists[ListOf(q)];
    list[j].Item? && list[j].addr in s.items && (Taken(s, q, busy, j) || Passing(s.items[list[j].addr], q, env))
  }

  /** At position c stands a crawler, and fewer items than there are tries stand behind it up to
      position i, all of them locked elsewhere, expired, flushed, or active in WARM. */
  ghost predicate Ahead(s: State, q: Query, env: Env, busy: Locks, c: int, i: int)
    requires IsQuery(q) && |s.lists| == LISTS && i < |s.lists[ListOf(q)]|
  {
    var list := s.lists[ListOf(q)];
    && 0 <= c <= i && |list| < c + 1 + TRIES && list[c].Crawler?
    && forall j :: c < j <= i ==> Passable(s, q, env, busy, j)
  }

  /** The crawler at position c hides a change from the count: it stands ahead of such items
      only, and one of them is not locked elsewhere. */
  ghost predicate Hides(s: State, q: Query, env: Env, busy: Locks, c: int)
    requires IsQuery(q) && |s.lists| == LISTS
  {
    var n := |s.lists[ListOf(q)]|;
    Ahead(s, q, env, busy, c, n - 1) && exists j :: c < j < n && !Taken(s, q, busy, j)
  }

  lemma {:induction false} AheadIsMet(s: State, c: int, i: int, q: Query, env: Env, busy: Locks)
    requires IsQuery(q) && |s.lists| == LISTS && i < |s.lists[ListOf(q)]| && Ahead(s, q, env, busy, c, i)
    ensures var tries := TriesAt(|s.lists[ListOf(q)]|, i);
            && tries > 0 && Meets(s, i, tries, q, env, busy)
            && (Locks1(s, i, tries, q, busy) <==> exists j :: c < j <= i && !Taken(s, q, busy, j))
    decreases i - c
  {
    hide Passing, ListOf;
    if c < i {
      assert Passable(s, q, env, busy, i);
      AheadIsMet(s, c, i - 1, q, env, busy);
      assert Locks1(s, i, TriesAt(|s.lists[ListOf(q)]|, i), q, busy) <==>
             !Taken(s, q, busy, i) || exists j :: c < j <= i - 1 && !Taken(s, q, busy, j);
    }
  }

  lemma {:induction false} MetIsAhead(s: State, i: int, q: Query, env: Env, busy: Locks) returns (c: int)
    requires IsQuery(q) && |s.lists| == LISTS && i < |s.lists[ListOf(q)]| && TriesAt(|s.lists[ListOf(q)]|, i) >= 0
    requires Meets(s, i, TriesAt(|s.lists[ListOf(q)]|, i), q, env, busy)
    ensures Ahead(s, q, env, busy, c, i)
    decreases i + 1
  {
    hide Passing, ListOf;
    if s.lists[ListOf(q)][i].Crawler? { c := i; } else { c := MetIsAhead(s, i - 1, q, env, busy); }
  }

  /** The number returned is that of the items unlinked or moved, unless a crawler blocks the
      walk after it has locked an item: exactly then, for every cache, it is not. */
  lemma CountIsExact(s: State, q: Query, env: Env, busy: Locks)
    requires Valid(s) && IsQuery(q)
    ensures |s.lists| == LISTS
    ensures PullTail(s, q, env, busy).removed != PullTail(s, q, env, busy).changed <==>
            q.cls != 0 && q.crawlBlocks && exists c :: Hides(s, q, env, busy, c)
    ensures PullTail(s, q, env, busy).removed != PullTail(s, q, env, busy).changed ==>
            PullTail(s, q, env, busy).removed == 0
  {
    ValidShape(s);
    hide Valid, PullFrom, Meets, Locks1, Ahead, Taken;
    if q.cls != 0 {
      var n := |s.lists[ListOf(q)]|;
      CountFrom(s, n - 1, TRIES, 0, q, env, busy);
      if Meets(s, n - 1, TRIES, q, env, busy) {
        var c := MetIsAhead(s, n - 1, q, env, busy);
        AheadIsMet(s, c, n - 1, q, env, busy);
        assert Locks1(s, n - 1, TRIES, q, busy) <==> Hides(s, q, env, busy, c);
      }
      forall c | Hides(s, q, env, busy, c)
        ensures Meets(s, n - 1, TRIES, q, env, busy) && Locks1(s, n - 1, TRIES, q, busy)
      {
        AheadIsMet(s, c, n - 1, q, env, busy);
      }
    }
  }

  // ----- flags under which the count can be wrong

  /** For every list a cache in which the crawler has passed the only item, since flushed. */
  lemma CrawlerBefore(q: Query) returns (s: State, env: Env)
    requires IsQuery(q)
    ensures Valid(s) && Hides(s, q, env, _ => {}, 0)
  {
    hide Valid, Hides;
    var l := ListOf(q);
    var s0 := OneItemCache(q.cls, l);
    ValidShape(s0);
    StartCrawlKeeps(s0, l);
    var s1 := StartCrawl(s0, l);
    CrawlStepKeeps(s1, l);
    PosUnique(s1.lists[l], 1);
    s := CrawlStep(s1, l);
    var now := s.items[0].time + 1;
    env := QUIET.(now := now, oldestLive := now);
    assert s.lists[l] == [Crawler(l), Item(0)];
    HidesOne(s, q, env, l);
  }

  lemma HidesOne(s: State, q: Query, env: Env, l: nat)
    requires IsQuery(q) && l == ListOf(q) && |s.lists| == LISTS && s.lists[l] == [Crawler(l), Item(0)]
    requires 0 in s.items && Expired(s.items[0], env)
    ensures Hides(s, q, env, _ => {}, 0)
  {
    assert Passable(s, q, env, _ => {}, 1) && !Taken(s, q, _ => {}, 1);
  }

  /** Whatever the cache, the clock and the locks. */
  ghost predicate NeverMiscounts(q: Query)
    requires IsQuery(q)
  {
    forall s, env, busy :: Valid(s) ==> PullTail(s, q, env, busy).removed == PullTail(s, q, env, busy).changed
  }

  /** So a caller gets the right number from every cache if and only if it lets no crawler block it,
      or names no class. */
  lemma MiscountsExactly(q: Query)
    requires IsQuery(q)
    ensures NeverMiscounts(q) <==> q.cls == 0 || !q.crawlBlocks
  {
    hide Valid, PullTail, Hides;
    if q.cls == 0 || !q.crawlBlocks {
      forall s, env, busy | Valid(s) ensures PullTail(s, q, env, busy).removed == PullTail(s, q, env, busy).changed {
        CountIsExact(s, q, env, busy);
      }
    } else {
      var s, env := CrawlerBefore(q);
      CountIsExact(s, q, env, _ => {});
    }
  }
}
