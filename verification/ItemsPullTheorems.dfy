/** What a call of lru_pull_tail may do to the cache. */
module ItemsPullTheorems {
  import opened Basics
  import opened LruList
  import opened Items
  import opened ItemsOps
  import opened ItemsPull

  /** The same item: only its place in the lists of its class, its active mark and its
      references may differ. */
  predicate SameItem(it: ItemData, it': ItemData) {
    && it' == it.(active := it'.active, lru := it'.lru, refcount := it'.refcount)
    && ClassOf(it'.lru) == ClassOf(it.lru)
  }

  /** Who held the item still does, and it is still the same key and size. */
  predicate Kept(s: State, t: State, a: nat) {
    a in s.items && a in s.held && s.held[a] > 0 ==>
      && a in t.items && a in t.held && t.held[a] >= s.held[a]
      && t.items[a].key == s.items[a].key && t.items[a].ntotal == s.items[a].ntotal
  }

  /** Nothing happened to the other items. */
  predicate OnlyAt(s: State, t: State, a: nat) {
    && t.items - {a} == s.items - {a} && t.held - {a} == s.held - {a}
    && t.crawling == s.crawling
  }

  lemma ReleaseOnlyAt(s: State, a: nat)
    requires Holding(s, a) && s.held.Keys == s.items.Keys
    ensures OnlyAt(s, Release(s, a), a)
    ensures a in Release(s, a).items <==> s.items[a].refcount > 1
    ensures s.held[a] > 1 && s.items[a].refcount >= s.held[a] ==> a in Release(s, a).items
    ensures a in Release(s, a).items ==>
              (Release(s, a).items[a] == s.items[a].(refcount := s.items[a].refcount - 1)
               && a in Release(s, a).held && Release(s, a).held[a] == s.held[a] - 1)
  {
  }

  lemma UnlinkOnlyAt(s: State, a: nat)
    requires Valid(s) && CanUnlink(s, a) && Holding(s, a) && s.items[a].linked
    ensures OnlyAt(s, UnlinkItem(s, a), a)
    ensures a in UnlinkItem(s, a).items && !UnlinkItem(s, a).items[a].linked
    ensures Kept(s, UnlinkItem(s, a), a)
  {
    HeldStays(s, a);
  }

  lemma RehomedSame(it: ItemData, v: Verdict)
    requires Fits(v) && (v.Moved? ==> v.segment % 64 == 0)
    ensures SameItem(it, Rehomed(it, v))
  {
  }

  lemma UpdateOnlyAt(s: State, t: State, a: nat, it: ItemData)
    requires a in s.items && t.items == s.items[a := it] && t.held == s.held && t.crawling == s.crawling
    ensures OnlyAt(s, t, a)
  {
  }

  /** The verdicts only ever touch the item itself. */
  lemma ActOnlyAt(s: State, a: nat, v: Verdict)
    requires Valid(s) && Holding(s, a) && s.items[a].linked && Fits(v)
    ensures OnlyAt(s, Act(s, a, v), a) && a in Act(s, a, v).items && Kept(s, Act(s, a, v), a)
    ensures !v.Reclaimed? && !v.Evicted? ==> Act(s, a, v).items[a] == Rehomed(s.items[a], v)
  {
    hide Valid, Listed, Unlisted, Move, UnlinkItem, UnlinkQ, SameBut, OnlyAt;
    ValidShape(s);
    match v
    case Reclaimed => UnlinkItemKeeps(s, a); UnlinkOnlyAt(s, a);
    case Evicted => UnlinkItemKeeps(s, a); UnlinkOnlyAt(s, a);
    case Left => UpdateOnlyAt(s, s, a, s.items[a]);
    case _ =>
      RehomedFits(s.items[a], v);
      MoveKeeps(s, a, Rehomed(s.items[a], v));
      UpdateOnlyAt(s, Move(s, a, Rehomed(s.items[a], v)), a, Rehomed(s.items[a], v));
  }

  /** What one item looks like after a step on it: gone, or there with the holders it had
      and extra ones. */
  predicate AfterStep(s: State, t: State, a: nat, extra: nat) {
    && a in s.items && a in s.held
    && OnlyAt(s, t, a)
    && t.held.Keys == t.items.Keys
    && (a in t.items ==> t.held[a] == s.held[a] + extra)
    && (extra > 0 ==> a in t.items)
    && Kept(s, t, a)
  }

  lemma OnlyAtTwice(s: State, t: State, u: State, a: nat)
    requires OnlyAt(s, t, a) && OnlyAt(t, u, a)
    ensures OnlyAt(s, u, a)
  {
  }

  lemma AcquireOnlyAt(s: State, a: nat)
    requires Valid(s) && a in s.items
    ensures a in s.held && OnlyAt(s, Acquire(s, a), a) && Acquire(s, a).items.Keys == s.items.Keys
    ensures var it := Acquire(s, a).items[a];
            it.lru < LISTS && it.linked == s.items[a].linked && SameItem(s.items[a], it) && it.refcount > 1
  {
  }

  lemma CarryFate(s: State, a: nat, v: Verdict)
    requires Valid(s) && a in s.items && s.items[a].linked && Fits(v) && (v.Moved? ==> v.segment % 64 == 0)
    ensures AfterStep(s, Carry(s, a, v), a, 1)
    ensures !v.Reclaimed? && !v.Evicted? ==> SameItem(s.items[a], Carry(s, a, v).items[a])
    ensures !v.Reclaimed? && !v.Evicted? ==> Carry(s, a, v).items[a].refcount > 1
  {
    hide Valid, Act, Rehomed, OnlyAt, Acquire;
    AcquireKeeps(s, a);
    AcquireOnlyAt(s, a);
    CarryKeeps(s, a, v);
    var s1 := Acquire(s, a);
    ActOnlyAt(s1, a, v);
    OnlyAtTwice(s, s1, Carry(s, a, v), a);
    RehomedSame(s1.items[a], v);
    RehomedFits(s1.items[a], v);
    ValidHeld(Carry(s, a, v));
  }

  lemma SettledFate(s: State, a: nat, v: Verdict)
    requires Valid(s) && a in s.items && s.items[a].linked && Fits(v) && (v.Moved? ==> v.segment % 64 == 0)
    ensures Holding(Carry(s, a, v), a) && Valid(Release(Carry(s, a, v), a))
    ensures var t := Release(Carry(s, a, v), a);
            && AfterStep(s, t, a, 0)
            && (!v.Reclaimed? && !v.Evicted? ==> a in t.items && SameItem(s.items[a], t.items[a]))
  {
    hide Valid, Carry, Release;
    CarryKeeps(s, a, v);
    CarryFate(s, a, v);
    ValidHeld(Carry(s, a, v));
    ReleaseOnlyAt(Carry(s, a, v), a);
    ReleaseKeeps(Carry(s, a, v), a);
    ValidHeld(Release(Carry(s, a, v), a));
  }

  lemma ValidHeld(s: State)
    requires Valid(s)
    ensures s.held.Keys == s.items.Keys && forall a :: a in s.items ==> s.items[a].refcount >= s.held[a]
  {
  }

  // -------------------------------------------------------------------------- the theorems

  /** Another thread holds the lock of the key all the time. */
  ghost predicate AlwaysLocked(busy: Locks, key: Key) {
    forall t :: key in busy(t)
  }

  /** What may have become of item b: it is the same item; or it had expired or been flushed,
      was linked and not locked all the time; or it is the one item an evicting walk of COLD
      stopped at. */
  ghost predicate Fate(s: State, t: State, stopped: Option<nat>, q: Query, env: Env, busy: Locks, b: nat) {
    b in s.items ==>
      (|| (b in t.items && SameItem(s.items[b], t.items[b]))
       || (s.items[b].linked && Expired(s.items[b], env) && !AlwaysLocked(busy, s.items[b].key))
       || (q.segment == COLD && q.evict && env.evictToFree && stopped == Some(b)))
  }

  /** Items outside the walked list, and items that stay locked by other threads, are not touched. */
  ghost predicate Untouched(s: State, t: State, l: nat, busy: Locks, b: nat) {
    b in s.items && (!s.items[b].linked || s.items[b].lru != l || AlwaysLocked(busy, s.items[b].key)) ==>
      b in t.items && t.items[b] == s.items[b]
  }

  /** Items somebody holds stay; and the holders of every item that is still allocated are
      those it had, except for the walk's own reference where it was asked to return the item
      it stopped at. */
  ghost predicate Holders(s: State, t: State, stopped: Option<nat>, q: Query) {
    && t.items.Keys <= s.items.Keys && t.held.Keys == t.items.Keys && t.held.Keys <= s.held.Keys
    && (forall b :: b in t.items ==>
          t.held[b] == s.held[b] + (if q.returnItem && stopped == Some(b) then 1 else 0))
    && (q.returnItem && stopped.Some? ==> stopped.value in t.items)
    && (forall b :: Kept(s, t, b))
  }

  ghost predicate PullOk(s: State, r: Pulled, q: Query, env: Env, busy: Locks)
    requires IsQuery(q)
  {
    && Valid(r.s)
    && Holders(s, r.s, r.stopped, q)
    && (forall b :: Fate(s, r.s, r.stopped, q, env, busy, b))
    && (forall b :: Untouched(s, r.s, ListOf(q), busy, b))
  }

  lemma NothingPulled(s: State, removed: nat, changed: nat, q: Query, env: Env, busy: Locks)
    requires Valid(s) && IsQuery(q)
    ensures PullOk(s, Pulled(s, removed, changed, None), q, env, busy)
  {
    hide Expired, Valid;
    ValidHeld(s);
  }

  lemma JudgedSegment(s: State, it: ItemData, q: Query, env: Env)
    requires IsQuery(q) && |s.bytes| == LISTS
    ensures Judge(s, it, q, env).Moved? ==> Judge(s, it, q, env).segment % 64 == 0
  {
  }

  lemma SelfSame(items: map<nat, ItemData>)
    ensures forall b :: b in items ==> SameItem(items[b], items[b])
  {
  }

  lemma OthersOk(s: State, t: State, a: nat, extra: nat)
    requires AfterStep(s, t, a, extra) && s.held.Keys == s.items.Keys
    ensures t.items.Keys <= s.items.Keys
    ensures forall b :: b in t.items && b != a ==> t.items[b] == s.items[b] && t.held[b] == s.held[b]
    ensures forall b :: b in s.items && b != a ==> b in t.items
  {
    forall b | b != a
      ensures b in t.items <==> b in s.items
      ensures b in t.items ==> t.items[b] == s.items[b] && b in s.held && t.held[b] == s.held[b]
    {
      assert b in t.items - {a} <==> b in s.items - {a};
      if b in t.items {
        assert (t.items - {a})[b] == (s.items - {a})[b];
        assert (t.held - {a})[b] == (s.held - {a})[b];
      }
    }
  }

  /** One step, at an item of the walked list that nobody else has locked. */
  lemma OneStep(s: State, t: State, a: nat, removed: nat, stopped: Option<nat>, q: Query, env: Env, busy: Locks)
    requires Valid(s) && Valid(t) && IsQuery(q) && a in s.items && s.items[a].linked
    requires s.items[a].lru == ListOf(q) && !AlwaysLocked(busy, s.items[a].key)
    requires AfterStep(s, t, a, if q.returnItem && stopped.Some? then 1 else 0)
    requires stopped == None || stopped == Some(a)
    requires Fate(s, t, stopped, q, env, busy, a)
    ensures PullOk(s, Pulled(t, removed, removed, stopped), q, env, busy)
  {
    hide Valid, Expired, ListOf, SameItem;
    ValidHeld(s);
    OthersOk(s, t, a, if q.returnItem && stopped.Some? then 1 else 0);
    SelfSame(s.items);
  }

  /** The walk stops at an item. */
  lemma StoppedOk(s: State, a: nat, removed: nat, q: Query, env: Env, busy: Locks)
    requires Valid(s) && IsQuery(q) && a in s.items && s.items[a].linked && s.items[a].lru == ListOf(q)
    requires !AlwaysLocked(busy, s.items[a].key) && !Judge(s, s.items[a], q, env).Reclaimed?
             && !Judge(s, s.items[a], q, env).Requeued?
    ensures Fits(Judge(s, s.items[a], q, env)) && Holding(Carry(s, a, Judge(s, s.items[a], q, env)), a)
    ensures var t := Carry(s, a, Judge(s, s.items[a], q, env));
            PullOk(s, Pulled(if q.returnItem then t else Release(t, a), removed, removed, Some(a)), q, env, busy)
  {
    var v := Judge(s, s.items[a], q, env);
    JudgedFits(s, s.items[a], q, env);
    JudgedSegment(s, s.items[a], q, env);
    hide Valid, Judge, Carry, Release, Expired, Holding, ListOf, SameItem, AfterStep, PullOk;
    CarryKeeps(s, a, v);
    CarryFate(s, a, v);
    SettledFate(s, a, v);
    var t := if q.returnItem then Carry(s, a, v) else Release(Carry(s, a, v), a);
    OneStep(s, t, a, removed, Some(a), q, env, busy);
  }

  /** The walk passes an item. */
  lemma PassedOk(s: State, a: nat, q: Query, env: Env, busy: Locks)
    requires Valid(s) && IsQuery(q) && a in s.items && s.items[a].linked && s.items[a].lru == ListOf(q)
    requires !AlwaysLocked(busy, s.items[a].key)
             && (Judge(s, s.items[a], q, env).Reclaimed? || Judge(s, s.items[a], q, env).Requeued?)
    ensures PullOk(s, Pulled(PassOne(s, a, Judge(s, s.items[a], q, env)), 0, 0, None), q, env, busy)
  {
    var v := Judge(s, s.items[a], q, env);
    JudgedFits(s, s.items[a], q, env);
    hide Valid, Judge, Carry, Release, Expired, Holding, ListOf, SameItem, AfterStep, PullOk;
    SettledFate(s, a, v);
    OneStep(s, PassOne(s, a, v), a, 0, None, q, env, busy);
  }

  /** Two walks in a row. */
  lemma WalkOn(s: State, t: State, r: Pulled, q: Query, env: Env, busy: Locks)
    requires IsQuery(q) && PullOk(s, Pulled(t, 0, 0, None), q, env, busy) && PullOk(t, r, q, env, busy)
    ensures PullOk(s, r, q, env, busy)
  {
    hide Valid, ListOf;
    forall b ensures Kept(s, r.s, b) { assert Kept(s, t, b) && Kept(t, r.s, b); }
    forall b ensures Fate(s, r.s, r.stopped, q, env, busy, b) && Untouched(s, r.s, ListOf(q), busy, b) {
      assert Fate(s, t, None, q, env, busy, b) && Fate(t, r.s, r.stopped, q, env, busy, b);
      assert Untouched(s, t, ListOf(q), busy, b) && Untouched(t, r.s, ListOf(q), busy, b);
    }
  }

  lemma {:induction false} PullFromOk(s: State, i: int, tries: nat, removed: nat, q: Query, env: Env, busy: Locks)
    requires Valid(s) && IsQuery(q) && -1 <= i < |s.lists[ListOf(q)]|
    ensures PullOk(s, PullFrom(s, i, tries, removed, q, env, busy), q, env, busy)
    ensures PullFrom(s, i, tries, removed, q, env, busy).removed <= removed + tries
    decreases tries, i + 1
  {
    hide Valid, PullOk, Decide, Carry, PassOne;
    ValidShape(s);
    var l := ListOf(q);
    NothingPulled(s, removed, removed, q, env, busy);
    NothingPulled(s, 0, removed, q, env, busy);
    if tries > 0 && i >= 0 {
      if s.lists[l][i].Crawler? {
        if !q.crawlBlocks { PullFromOk(s, i - 1, tries, removed, q, env, busy); }
      } else {
        ListedItem(s, l, i);
        var a := s.lists[l][i].addr;
        if s.items[a].key in busy(tries) {
          PullFromOk(s, i - 1, tries - 1, removed, q, env, busy);
        } else {
          var v := Judge(s, s.items[a], q, env);
          if v.Reclaimed? || v.Requeued? {
            PullPassOk(s, i, tries, removed, q, env, busy, a, v);
          } else {
            PullStopOk(s, i, tries, removed, q, env, busy, a, v);
          }
        }
      }
    }
  }

  predicate AtItem(s: State, i: nat, tries: nat, q: Query, busy: Locks, a: nat)
    requires IsQuery(q) && |s.lists| == LISTS
  {
    && tries > 0 && i < |s.lists[ListOf(q)]| && s.lists[ListOf(q)][i] == Item(a)
    && a in s.items && s.items[a].linked && s.items[a].lru == ListOf(q) && s.items[a].key !in busy(tries)
  }

  /** At an item it could lock the walk passes on, */
  lemma PullPasses(s: State, i: nat, tries: nat, removed: nat, q: Query, env: Env, busy: Locks, a: nat, v: Verdict)
    requires Valid(s) && IsQuery(q) && AtItem(s, i, tries, q, busy, a)
    requires v == Judge(s, s.items[a], q, env) && (v.Reclaimed? || v.Requeued?)
    ensures var t := PassOne(s, a, v);
            && Valid(t) && |t.lists| == LISTS && -1 <= Onward(i, v) < |t.lists[ListOf(q)]|
            && PullFrom(s, i, tries, removed, q, env, busy)
               == PullFrom(t, Onward(i, v), tries - 1, removed + 1, q, env, busy)
  {
    hide Valid, Judge, PassOne;
    ValidShape(s);
    PassOneKeeps(s, a, v);
    PassOneList(s, ListOf(q), i, v);
  }

  /** or stops. */
  lemma PullStops(s: State, i: nat, tries: nat, removed: nat, q: Query, env: Env, busy: Locks, a: nat, v: Verdict)
    requires Valid(s) && IsQuery(q) && AtItem(s, i, tries, q, busy, a)
    requires v == Judge(s, s.items[a], q, env) && !v.Reclaimed? && !v.Requeued?
    ensures Fits(v) && Holding(Carry(s, a, v), a)
    ensures PullFrom(s, i, tries, removed, q, env, busy)
            == Pulled(if q.returnItem then Carry(s, a, v) else Release(Carry(s, a, v), a),
                      removed + Count(v), removed + Count(v), Some(a))
  {
    hide Valid, Decide, Carry, Release, Holding, PassOne, Onward, Count;
    ValidShape(s);
    JudgedFits(s, s.items[a], q, env);
    CarryKeeps(s, a, v);
  }

  lemma PullStopOk(s: State, i: nat, tries: nat, removed: nat, q: Query, env: Env, busy: Locks, a: nat, v: Verdict)
    requires Valid(s) && IsQuery(q) && AtItem(s, i, tries, q, busy, a)
    requires v == Judge(s, s.items[a], q, env) && !v.Reclaimed? && !v.Requeued?
    ensures PullOk(s, PullFrom(s, i, tries, removed, q, env, busy), q, env, busy)
    ensures PullFrom(s, i, tries, removed, q, env, busy).removed <= removed + tries
  {
    hide Valid, Judge, PullOk, PullFrom, ListOf, Carry, Release, Holding;
    assert s.items[a].key !in busy(tries);
    PullStops(s, i, tries, removed, q, env, busy, a, v);
    StoppedOk(s, a, removed + Count(v), q, env, busy);
  }

  lemma {:induction false} PullPassOk(s: State, i: nat, tries: nat, removed: nat, q: Query, env: Env, busy: Locks,
                                      a: nat, v: Verdict)
    requires Valid(s) && IsQuery(q) && AtItem(s, i, tries, q, busy, a)
    requires v == Judge(s, s.items[a], q, env) && (v.Reclaimed? || v.Requeued?)
    ensures PullOk(s, PullFrom(s, i, tries, removed, q, env, busy), q, env, busy)
    ensures PullFrom(s, i, tries, removed, q, env, busy).removed <= removed + tries
    decreases tries, i
  {
    hide Valid, Judge, PassOne, PullOk, PullFrom, ListOf, Onward;
    assert s.items[a].key !in busy(tries);
    PullPasses(s, i, tries, removed, q, env, busy, a, v);
    var t := PassOne(s, a, v);
    PullFromOk(t, Onward(i, v), tries - 1, removed + 1, q, env, busy);
    PassedOk(s, a, q, env, busy);
    WalkOn(s, t, PullFrom(t, Onward(i, v), tries - 1, removed + 1, q, env, busy), q, env, busy);
  }

  /** A call of lru_pull_tail keeps the invariant, unlinks only expired or flushed items and
      at most one evicted one, leaves other lists and locked items alone, and handles at most
      five items. */
  lemma PullTailIsSafe(s: State, q: Query, env: Env, busy: Locks)
    requires Valid(s) && IsQuery(q)
    ensures PullOk(s, PullTail(s, q, env, busy), q, env, busy)
    ensures PullTail(s, q, env, busy).removed <= TRIES
  {
    assert |s.lists| == LISTS;
    hide Valid, PullOk, PullFrom;
    if q.cls == 0 {
      NothingPulled(s, 0, 0, q, env, busy);
    } else {
      PullFromOk(s, |s.lists[ListOf(q)]| - 1, TRIES, 0, q, env, busy);
    }
  }
}
