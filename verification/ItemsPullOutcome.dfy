/** What a call of lru_pull_tail (memcached/items.c) does to the first item it can lock: it is unlinked,
    moved to the head of another segment, or left, by its clock, its mark and the flags of the call. */
module ItemsPullOutcome {
  import opened Basics
  import opened Counting
  import opened LruList
  import opened Items
  import opened ItemsOps
  import opened ItemsPull
  import opened ItemsPullTheorems

  // --------------------------------------------------------------- what becomes of the records

  /** Nothing is allocated, linked, marked active or given another key. */
  ghost predicate Fades(s: State, t: State) {
    forall b :: b in t.items ==>
      && b in s.items && t.items[b].key == s.items[b].key
      && (t.items[b].linked ==> s.items[b].linked) && (t.items[b].active ==> s.items[b].active)
  }

  ghost predicate SameHomes(s: State, t: State) {
    forall b :: b in t.items && b in s.items ==> t.items[b].lru == s.items[b].lru
  }

  lemma UnlinkRecord(s: State, a: nat)
    requires Valid(s) && CanUnlink(s, a) && Holding(s, a) && s.items[a].linked
    ensures var t := UnlinkItem(s, a);
            && a in t.items && !t.items[a].linked && t.items[a].active == s.items[a].active
            && t.items[a].lru == s.items[a].lru && t.items[a].key == s.items[a].key
  {
    HeldStays(s, a);
  }

  /** What becomes of the item the walk works on. */
  lemma CarryRecord(s: State, a: nat, v: Verdict)
    requires Valid(s) && a in s.items && s.items[a].linked && Fits(v)
    ensures var t := Carry(s, a, v); a in t.items
    ensures var it, it' := s.items[a], Carry(s, a, v).items[a];
            && it'.key == it.key
            && (v.Reclaimed? || v.Evicted? ==> !it'.linked && it'.active == it.active && it'.lru == it.lru)
            && (v.Left? ==> it'.linked && it'.active == it.active && it'.lru == it.lru)
            && (v.Requeued? ==> it'.linked && !it'.active && it'.lru == it.lru)
            && (v.Moved? ==> it'.linked && !it'.active && it'.lru == ClassOf(it.lru) + v.segment)
  {
    AcquireKeeps(s, a);
    var s1 := Acquire(s, a);
    hide Valid, UnlinkItem, Move, CanUnlink;
    ActOnlyAt(s1, a, v);
    if v.Reclaimed? || v.Evicted? {
      UnlinkItemKeeps(s1, a);
      UnlinkRecord(s1, a);
    }
  }

  lemma ReleaseRecord(s: State, a: nat)
    requires Holding(s, a)
    ensures var t := Release(s, a);
            a in t.items ==> t.items[a] == s.items[a].(refcount := s.items[a].refcount - 1)
  {
  }

  /** The record of one item changed, the others did not. */
  lemma OneFades(s: State, t: State, a: nat, extra: nat)
    requires AfterStep(s, t, a, extra) && s.held.Keys == s.items.Keys
    requires a in t.items ==>
               && t.items[a].key == s.items[a].key && (t.items[a].linked ==> s.items[a].linked)
               && (t.items[a].active ==> s.items[a].active)
    ensures Fades(s, t)
    ensures (a in t.items ==> t.items[a].lru == s.items[a].lru) ==> SameHomes(s, t)
  {
    OthersOk(s, t, a, extra);
    hide AfterStep;
  }

  /** What one item the walk passes, or stops at, means for the records. */
  lemma StepFades(s: State, a: nat, v: Verdict, release: bool)
    requires Valid(s) && a in s.items && s.items[a].linked && Fits(v) && (v.Moved? ==> v.segment % 64 == 0)
    ensures Holding(Carry(s, a, v), a)
    ensures var t := if release then Release(Carry(s, a, v), a) else Carry(s, a, v);
            Valid(t) && Fades(s, t) && (!v.Moved? ==> SameHomes(s, t))
  {
    hide Valid, Carry, Release, AfterStep, Fades, SameHomes, SameItem, Holding;
    CarryKeeps(s, a, v);
    CarryRecord(s, a, v);
    CarryFate(s, a, v);
    ValidHeld(s);
    var t := Carry(s, a, v);
    ReleaseRecord(t, a);
    SettledFate(s, a, v);
    if release { OneFades(s, Release(t, a), a, 0); } else { OneFades(s, t, a, 1); }
  }

  lemma FadesSelf(s: State)
    ensures Fades(s, s)
  {
  }

  lemma FadesTwice(s: State, t: State, u: State)
    requires Fades(s, t) && Fades(t, u)
    ensures Fades(s, u)
  {
  }

  lemma PassedIs(s: State, a: nat, v: Verdict)
    requires Valid(s) && a in s.items && s.items[a].linked && (v.Reclaimed? || v.Requeued?)
    ensures Holding(Carry(s, a, v), a) && PassOne(s, a, v) == Release(Carry(s, a, v), a)
  {
    hide Valid, Carry, Release;
    CarryKeeps(s, a, v);
  }

  /** A verdict moves an item to another list only, and requeues only active ones. */
  lemma JudgedMoves(s: State, it: ItemData, q: Query, env: Env)
    requires IsQuery(q) && |s.bytes| == LISTS && it.lru == ListOf(q)
    ensures var v := Judge(s, it, q, env);
            && (v.Moved? ==> v.segment % 64 == 0 && ClassOf(it.lru) + v.segment != it.lru)
            && (v.Requeued? ==> it.active)
  {
  }

  /** The walk makes nothing active, and links nothing that was not. */
  lemma {:induction false} PullFades(s: State, i: int, tries: nat, removed: nat, q: Query, env: Env, busy: Locks)
    requires Valid(s) && IsQuery(q) && -1 <= i < |s.lists[ListOf(q)]|
    ensures var r := PullFrom(s, i, tries, removed, q, env, busy); Valid(r.s) && Fades(s, r.s) && r.changed >= removed
    decreases tries, i + 1
  {
    hide Valid, Decide, Carry, PassOne, Release, Holding, Fades;
    ValidShape(s);
    FadesSelf(s);
    if tries > 0 && i >= 0 {
      if s.lists[ListOf(q)][i].Crawler? {
        if !q.crawlBlocks { PullFades(s, i - 1, tries, removed, q, env, busy); }
      } else {
        ListedItem(s, ListOf(q), i);
        var a := s.lists[ListOf(q)][i].addr;
        if s.items[a].key in busy(tries) {
          PullFades(s, i - 1, tries - 1, removed, q, env, busy);
        } else {
          PullItemFades(s, i, tries, removed, q, env, busy, a);
        }
      }
    }
  }

  lemma {:induction false} PullItemFades(s: State, i: nat, tries: nat, removed: nat, q: Query, env: Env, busy: Locks,
                                         a: nat)
    requires Valid(s) && IsQuery(q) && |s.lists| == LISTS && AtItem(s, i, tries, q, busy, a)
    ensures var r := PullFrom(s, i, tries, removed, q, env, busy); Valid(r.s) && Fades(s, r.s) && r.changed >= removed
    decreases tries, i
  {
    hide Valid, Judge, PullFrom, Carry, PassOne, Release, Holding, Fades, SameHomes, Onward;
    ValidShape(s);
    var v := Judge(s, s.items[a], q, env);
    JudgedFits(s, s.items[a], q, env);
    JudgedSegment(s, s.items[a], q, env);
    if v.Reclaimed? || v.Requeued? {
      PullPasses(s, i, tries, removed, q, env, busy, a, v);
      var t := PassOne(s, a, v);
      StepFades(s, a, v, true);
      PassedIs(s, a, v);
      PullFades(t, Onward(i, v), tries - 1, removed + 1, q, env, busy);
      FadesTwice(s, t, PullFrom(t, Onward(i, v), tries - 1, removed + 1, q, env, busy).s);
    } else {
      PullStops(s, i, tries, removed, q, env, busy, a, v);
      StepFades(s, a, v, !q.returnItem);
    }
  }

  // ------------------------------------------------------------------ the first item it can lock

  /** The tries left when the walk comes from position j to position i past crawlers that do not
      block it and items locked elsewhere only. */
  function Arrives(s: State, j: int, i: nat, tries: nat, q: Query, busy: Locks): Option<nat>
    requires IsQuery(q) && |s.lists| == LISTS && j < |s.lists[ListOf(q)]|
    decreases j
  {
    if j < i || tries == 0 then None
    else if j == i then Some(tries)
    else match s.lists[ListOf(q)][j]
      case Crawler(_) => if q.crawlBlocks then None else Arrives(s, j - 1, i, tries, q, busy)
      case Item(b) =>
        if b in s.items && s.items[b].key in busy(tries) then Arrives(s, j - 1, i, tries - 1, q, busy) else None
  }

  /** Item a, at position i, is the first the walk can lock. */
  predicate First(s: State, q: Query, busy: Locks, i: nat, a: nat) {
    && IsQuery(q) && q.cls > 0 && |s.lists| == LISTS
    && var list := s.lists[ListOf(q)];
       && i < |list| && list[i] == Item(a) && a in s.items
       && var tries := Arrives(s, |list| - 1, i, TRIES, q, busy);
          tries.Some? && s.items[a].key !in busy(tries.value)
  }

  lemma {:induction false} ArrivesThere(s: State, j: int, i: nat, tries: nat, q: Query, env: Env, busy: Locks)
    requires Valid(s) && IsQuery(q) && -1 <= j < |s.lists[ListOf(q)]| && Arrives(s, j, i, tries, q, busy).Some?
    ensures var n := Arrives(s, j, i, tries, q, busy).value;
            n > 0 && i <= j && PullFrom(s, j, tries, 0, q, env, busy) == PullFrom(s, i, n, 0, q, env, busy)
    decreases j
  {
    hide Valid, Judge, Carry, PassOne, Release;
    ValidShape(s);
    if j > i {
      if s.lists[ListOf(q)][j].Crawler? {
        ArrivesThere(s, j - 1, i, tries, q, env, busy);
      } else {
        ListedItem(s, ListOf(q), j);
        ArrivesThere(s, j - 1, i, tries - 1, q, env, busy);
      }
    }
  }

  /** What the call does is what it does at that item. */
  lemma PulledAt(s: State, q: Query, env: Env, busy: Locks, i: nat, a: nat) returns (n: nat)
    requires Valid(s) && First(s, q, busy, i, a)
    ensures AtItem(s, i, n, q, busy, a) && PullTail(s, q, env, busy) == PullFrom(s, i, n, 0, q, env, busy)
  {
    hide Valid, PullFrom;
    ValidShape(s);
    ListedItem(s, ListOf(q), i);
    var last := |s.lists[ListOf(q)]| - 1;
    ArrivesThere(s, last, i, TRIES, q, env, busy);
    n := Arrives(s, last, i, TRIES, q, busy).value;
  }

  /** Expired before this second, or flushed. */
  predicate Outdated(it: ItemData, env: Env) {
    || 0 < it.exptime < env.now
    || (0 < env.oldestLive <= env.now && (it.time <= env.oldestLive || 0 < it.cas < env.oldestCas))
  }

  /** The list that is walked is over its share, or the item has not been asked for in a long time. */
  predicate Pushed(s: State, it: ItemData, q: Query, env: Env)
    requires IsQuery(q) && |s.bytes| == LISTS
  {
    var hot, warm := q.totalBytes * env.hotPct / 100, q.totalBytes * env.warmPct / 100;
    || s.bytes[ListOf(q)] > (if q.segment == WARM || hot == 0 then warm else hot)
    || (env.now - it.time) % 0x1_0000_0000 > q.maxAge
  }

  /** The segment that an item which is not outdated goes to, if any. */
  predicate GoesTo(s: State, it: ItemData, q: Query, env: Env, segment: nat)
    requires IsQuery(q) && |s.bytes| == LISTS
  {
    || (segment == COLD && q.segment in {HOT, WARM} && !it.active && Pushed(s, it, q, env))
    || (segment == WARM && q.segment == HOT && it.active)
    || (segment == WARM && q.segment == COLD && !q.evict && !q.returnItem && it.active && env.segmented)
  }

  /** The item is to be evicted. */
  predicate GoesOut(q: Query, env: Env) { q.segment == COLD && q.evict && env.evictToFree }

  /** The verdict by the rules above. */
  lemma Judged(s: State, it: ItemData, q: Query, env: Env)
    requires IsQuery(q) && |s.bytes| == LISTS
    ensures var v := Judge(s, it, q, env);
            && (v.Reclaimed? <==> Outdated(it, env))
            && (v.Requeued? <==> !Outdated(it, env) && q.segment == WARM && it.active)
            && (v.Evicted? <==> !Outdated(it, env) && GoesOut(q, env))
            && (forall x :: v == Moved(x) <==> !Outdated(it, env) && GoesTo(s, it, q, env, x))
  {
  }

  /** Neither linked, nor in the hash table, nor in any list. */
  ghost predicate OutOfCache(t: State, a: nat, key: Key) {
    && (a in t.items ==> !t.items[a].linked) && key !in t.table
    && forall l :: 0 <= l < |t.lists| ==> Item(a) !in t.lists[l]
  }

  /** At the head of a list, linked, without the active mark, and in no other list. */
  ghost predicate Heads(t: State, a: nat, l: nat) {
    && a in t.items && t.items[a].linked && t.items[a].lru == l && !t.items[a].active
    && l < |t.lists| && t.lists[l] != [] && t.lists[l][0] == Item(a)
    && forall m :: 0 <= m < |t.lists| && m != l ==> Item(a) !in t.lists[m]
  }

  lemma ListMembers(t: State, a: nat)
    requires Valid(t)
    ensures forall l :: 0 <= l < |t.lists| && Item(a) in t.lists[l] ==>
              a in t.items && t.items[a].linked && t.items[a].lru == l
  {
    forall l | 0 <= l < |t.lists| && Item(a) in t.lists[l] ensures Belongs(t.items, t.crawling, l, Item(a)) {}
  }

  lemma KeyMember(t: State, k: Key)
    requires Valid(t)
    ensures k in t.table ==>
              t.table[k] in t.items && t.items[t.table[k]].linked && t.items[t.table[k]].key == k
    ensures forall b :: b in t.items && t.items[b].linked && t.items[b].key == k ==> k in t.table && t.table[k] == b
  {
  }

  lemma UnlinkedIsOut(s: State, t: State, a: nat)
    requires Valid(s) && Valid(t) && Fades(s, t) && a in s.items && s.items[a].linked
    requires a in t.items ==> !t.items[a].linked
    ensures OutOfCache(t, a, s.items[a].key)
  {
    hide Valid;
    ListMembers(t, a);
    KeyMember(s, s.items[a].key);
    KeyMember(t, s.items[a].key);
  }

  lemma MovedHeads(s: State, a: nat, it: ItemData)
    requires Listed(s, a) && it.lru < LISTS && it.ntotal == s.items[a].ntotal
    requires Unlisted(UnlinkQ(s, a).(items := s.items[a := it]), a)
    ensures var t := Move(s, a, it); |t.lists| == LISTS && t.lists[it.lru] != [] && t.lists[it.lru][0] == Item(a)
  {
    hide Pos, Without;
  }

  lemma ActedHeads(s: State, a: nat, v: Verdict)
    requires Valid(s) && Holding(s, a) && s.items[a].linked && Fits(v) && (v.Moved? || v.Requeued?)
    ensures var t := Act(s, a, v);
            && a in t.items && t.items[a].lru < LISTS == |t.lists|
            && t.lists[t.items[a].lru] != [] && t.lists[t.items[a].lru][0] == Item(a)
  {
    hide Valid, Move, Listed, Unlisted, UnlinkQ, Rehomed, SameBut;
    ValidShape(s);
    var it := Rehomed(s.items[a], v);
    RehomedFits(s.items[a], v);
    MoveKeeps(s, a, it);
    SameSize(s.items[a], v);
    MovedHeads(s, a, it);
  }

  lemma SameSize(it: ItemData, v: Verdict)
    ensures Rehomed(it, v).ntotal == it.ntotal
  {
  }

  lemma CarriedHeads(s: State, a: nat, v: Verdict)
    requires Valid(s) && a in s.items && s.items[a].linked && Fits(v) && (v.Moved? || v.Requeued?)
    ensures var t := Carry(s, a, v);
            && a in t.items && t.items[a].lru < LISTS == |t.lists|
            && t.lists[t.items[a].lru] != [] && t.lists[t.items[a].lru][0] == Item(a)
  {
    hide Valid, Act;
    AcquireKeeps(s, a);
    ActedHeads(Acquire(s, a), a, v);
  }

  lemma OnlyThere(t: State, a: nat)
    requires Valid(t) && a in t.items
    ensures forall m :: 0 <= m < |t.lists| && m != t.items[a].lru ==> Item(a) !in t.lists[m]
  {
    hide Valid;
    ListMembers(t, a);
  }

  /** An outdated item is out of the cache afterwards, whatever the flags. */
  lemma OutdatedGoes(s: State, q: Query, env: Env, busy: Locks, i: nat, a: nat)
    requires Valid(s) && First(s, q, busy, i, a) && Outdated(s.items[a], env)
    ensures var r := PullTail(s, q, env, busy); OutOfCache(r.s, a, s.items[a].key) && r.changed > 0
  {
    hide Valid, Judge, PullFrom, PullTail, PassOne, Fades, OutOfCache, Onward, Carry, Release, Arrives;
    ValidShape(s);
    ListedItem(s, ListOf(q), i);
    var n := PulledAt(s, q, env, busy, i, a);
    Judged(s, s.items[a], q, env);
    PassedOutdated(s, i, n, q, env, busy, a);
  }

  lemma PassedOutdated(s: State, i: nat, n: nat, q: Query, env: Env, busy: Locks, a: nat)
    requires Valid(s) && IsQuery(q) && |s.lists| == LISTS && |s.bytes| == LISTS && AtItem(s, i, n, q, busy, a)
    requires Judge(s, s.items[a], q, env).Reclaimed?
    ensures var r := PullFrom(s, i, n, 0, q, env, busy); OutOfCache(r.s, a, s.items[a].key) && r.changed > 0
  {
    hide Valid, Judge, PullFrom, PassOne, Fades, OutOfCache, Onward, Carry, Release, Holding;
    var v := Reclaimed;
    PullPasses(s, i, n, 0, q, env, busy, a, v);
    var t := PassOne(s, a, v);
    StepFades(s, a, v, true);
    PassedIs(s, a, v);
    CarryRecord(s, a, v);
    ReleaseRecord(Carry(s, a, v), a);
    PullFades(t, Onward(i, v), n - 1, 1, q, env, busy);
    var u := PullFrom(t, Onward(i, v), n - 1, 1, q, env, busy).s;
    FadesTwice(s, t, u);
    NotLinkedStays(t, u, a);
    UnlinkedIsOut(s, u, a);
  }

  lemma NotLinkedStays(t: State, u: State, a: nat)
    requires Fades(t, u) && (a in t.items ==> !t.items[a].linked)
    ensures a in u.items ==> !u.items[a].linked
  {
  }

  /** An active item of WARM is requeued: it stays, and has lost its mark. */
  lemma ActiveStays(s: State, q: Query, env: Env, busy: Locks, i: nat, a: nat)
    requires Valid(s) && First(s, q, busy, i, a) && !Outdated(s.items[a], env) && q.segment == WARM && s.items[a].active
    ensures var r := PullTail(s, q, env, busy);
            a in r.s.items && r.s.items[a].linked && !r.s.items[a].active && r.changed > 0
  {
    hide Valid, Judge, PullFrom, PullTail, PassOne, Fades, Onward, Carry, Release, Arrives, Holding, PullOk;
    ValidShape(s);
    ListedItem(s, ListOf(q), i);
    var n := PulledAt(s, q, env, busy, i, a);
    Judged(s, s.items[a], q, env);
    var v := Requeued;
    PullPasses(s, i, n, 0, q, env, busy, a, v);
    StepFades(s, a, v, true);
    PassedIs(s, a, v);
    CarryRecord(s, a, v);
    ReleaseRecord(Carry(s, a, v), a);
    var t := PassOne(s, a, v);
    PullFades(t, Onward(i, v), n - 1, 1, q, env, busy);
    PullTailIsSafe(s, q, env, busy);
    StaysSame(s, PullTail(s, q, env, busy), q, env, busy, a);
    InactiveStays(t, PullTail(s, q, env, busy).s, a);
  }

  lemma StaysSame(s: State, r: Pulled, q: Query, env: Env, busy: Locks, a: nat)
    requires IsQuery(q) && PullOk(s, r, q, env, busy) && a in s.items && !Outdated(s.items[a], env) && q.segment == WARM
    ensures a in r.s.items && r.s.items[a].linked == s.items[a].linked
  {
    assert Fate(s, r.s, r.stopped, q, env, busy, a);
  }

  lemma InactiveStays(t: State, u: State, a: nat)
    requires Fades(t, u) && (a in t.items ==> !t.items[a].active)
    ensures a in u.items ==> !u.items[a].active
  {
  }

  /** An item that is not outdated, nor active in WARM, stops the walk: it is evicted from COLD when
      that is asked for and allowed, or it heads the list of the segment it goes to, and then it is
      the one item the call counts; or it stays where it is, and nothing is counted. */
  lemma StopsThere(s: State, q: Query, env: Env, busy: Locks, i: nat, a: nat)
    requires Valid(s) && First(s, q, busy, i, a) && !Outdated(s.items[a], env)
    requires !(q.segment == WARM && s.items[a].active)
    ensures |s.bytes| == LISTS
    ensures var r := PullTail(s, q, env, busy);
            && r.stopped == Some(a) && r.removed == r.changed
            && (GoesOut(q, env) ==> OutOfCache(r.s, a, s.items[a].key) && r.removed == 1)
            && (forall x :: GoesTo(s, s.items[a], q, env, x) ==> Heads(r.s, a, q.cls + x) && r.removed == 1)
            && (!GoesOut(q, env) && (forall x :: !GoesTo(s, s.items[a], q, env, x)) ==>
                  r.removed == 0 && r.s.lists == s.lists && r.s.table == s.table && (!q.returnItem ==> r.s == s))
  {
    hide Valid, Judge, PullFrom, PullTail, Arrives, OutOfCache, Heads, GoesTo, GoesOut, Outdated, Carry, Release,
         Holding;
    ValidShape(s);
    ListedItem(s, ListOf(q), i);
    var n := PulledAt(s, q, env, busy, i, a);
    Judged(s, s.items[a], q, env);
    var v := Judge(s, s.items[a], q, env);
    JudgedFits(s, s.items[a], q, env);
    JudgedSegment(s, s.items[a], q, env);
    PullStops(s, i, n, 0, q, env, busy, a, v);
    StopResult(s, a, v, !q.returnItem);
    assert ClassOf(s.items[a].lru) == q.cls by { ClassIs(q); }
  }

  lemma ClassIs(q: Query)
    requires IsQuery(q)
    ensures ClassOf(ListOf(q)) == q.cls
  {
  }

  lemma StopResult(s: State, a: nat, v: Verdict, release: bool)
    requires Valid(s) && a in s.items && s.items[a].linked && Fits(v) && (v.Moved? ==> v.segment % 64 == 0)
    requires !v.Reclaimed? && !v.Requeued?
    ensures Holding(Carry(s, a, v), a)
    ensures var t := if release then Release(Carry(s, a, v), a) else Carry(s, a, v);
            && (v.Evicted? ==> OutOfCache(t, a, s.items[a].key))
            && (v.Moved? ==> Heads(t, a, ClassOf(s.items[a].lru) + v.segment))
            && (v.Left? ==> t.lists == s.lists && t.table == s.table && (release ==> t == s))
  {
    hide Valid, Carry, Release, Fades, OutOfCache, Holding, Heads;
    StepFades(s, a, v, release);
    CarryRecord(s, a, v);
    var c := Carry(s, a, v);
    ReleaseLists(c, a);
    ReleaseRecord(c, a);
    var t := if release then Release(c, a) else c;
    match v
    case Evicted => UnlinkedIsOut(s, t, a);
    case Moved(x) => MovedResult(s, a, v, release);
    case Left => LeftResult(s, a);
  }

  lemma MovedResult(s: State, a: nat, v: Verdict, release: bool)
    requires Valid(s) && a in s.items && s.items[a].linked && Fits(v) && v.Moved? && v.segment % 64 == 0
    ensures Holding(Carry(s, a, v), a)
    ensures var t := if release then Release(Carry(s, a, v), a) else Carry(s, a, v);
            Heads(t, a, ClassOf(s.items[a].lru) + v.segment)
  {
    hide Valid, Carry, Release, Holding, AfterStep, SameItem;
    StepFades(s, a, v, release);
    CarryRecord(s, a, v);
    CarryFate(s, a, v);
    SettledFate(s, a, v);
    CarriedHeads(s, a, v);
    var c := Carry(s, a, v);
    ReleaseLists(c, a);
    ReleaseRecord(c, a);
    var t := if release then Release(c, a) else c;
    OnlyThere(t, a);
  }

  /** Taking a reference and giving it back changes nothing. */
  lemma LeftResult(s: State, a: nat)
    requires Valid(s) && a in s.items && s.items[a].linked
    ensures var c := Carry(s, a, Left);
            c.lists == s.lists && c.table == s.table && Holding(c, a) && Release(c, a) == s
  {
    AcquireKeeps(s, a);
    hide Valid, Act;
    ActedLeft(Acquire(s, a), a);
    AcquiredAndReleased(s, a);
  }

  lemma ActedLeft(s: State, a: nat)
    requires Valid(s) && Holding(s, a) && s.items[a].linked
    ensures Act(s, a, Left) == s
  {
  }

  lemma AcquiredAndReleased(s: State, a: nat)
    requires Valid(s) && a in s.items && a in s.held && Holding(Acquire(s, a), a)
    ensures Release(Acquire(s, a), a) == s
  {
    assert s.items[a].refcount > 0;
    hide Valid;
    assert Release(Acquire(s, a), a).items == s.items && Release(Acquire(s, a), a).held == s.held;
  }
}
