/** lru_pull_tail of memcached/items.c: the walk up from the tail of one LRU list that
    reclaims, moves, evicts or hands out an item. */
module ItemsPull {
  import opened Basics
  import opened Counting
  import opened LruList
  import opened Items
  import opened ItemsOps

  /** The arguments: slab class, segment, size and age limits, and the three flags. */
  datatype Query = Query(
    cls: nat, segment: nat, totalBytes: nat, maxAge: nat,
    evict: bool, crawlBlocks: bool, returnItem: bool)

  predicate IsQuery(q: Query) {
    q.cls < 64 && (q.segment == HOT || q.segment == WARM || q.segment == COLD || q.segment == TEMP)
  }

  const TRIES := 5

  /** The keys whose item lock another thread holds, by the tries that are left: the lock is
      tried anew at every visit. */
  type Locks = nat -> set<Key>

  /** The list that is walked. */
  function ListOf(q: Query): (l: nat)
    requires IsQuery(q)
    ensures l < LISTS
  {
    q.cls + q.segment
  }

  /** The test of lru_pull_tail; an item at its very expiry second is still kept. */
  predicate Expired(it: ItemData, env: Env) {
    (it.exptime != 0 && it.exptime < env.now) || Flushed(it, env)
  }

  /** The size limit of HOT and WARM; a HOT limit of zero falls back to WARM's. */
  function Limit(q: Query, env: Env): nat {
    var hot := q.totalBytes * env.hotPct / 100;
    if q.segment == HOT && hot != 0 then hot else q.totalBytes * env.warmPct / 100
  }

  /** What lru_pull_tail decides about an item it could lock. */
  datatype Verdict =
    | Reclaimed                 // expired or flushed: unlinked, and the walk goes on
    | Requeued                  // active in WARM: back to the head, and the walk goes on
    | Moved(segment: nat)       // stop: to the head of another segment
    | Evicted                   // stop: unlinked
    | Left                      // stop: nothing changes

  /** The verdict on an item, with the bytes that the list now counts. */
  function Decide(listBytes: int, it: ItemData, q: Query, env: Env): Verdict {
    if Expired(it, env) then Reclaimed
    else if q.segment == HOT || q.segment == WARM then
      if it.active then (if q.segment == WARM then Requeued else Moved(WARM))
      else if listBytes > Limit(q, env) || Minus32(env.now, it.time) > q.maxAge then Moved(COLD)
      else Left
    else if q.segment == COLD then
      if q.evict then (if env.evictToFree then Evicted else Left)
      else if q.returnItem then Left
      else if it.active && env.segmented then Moved(WARM)
      else Left
    else Left
  }

  function Judge(s: State, it: ItemData, q: Query, env: Env): Verdict
    requires IsQuery(q) && |s.bytes| == LISTS
  {
    Decide(s.bytes[ListOf(q)], it, q, env)
  }

  /** The item as a verdict that keeps it leaves it; whoever moves loses the active mark. */
  function Rehomed(it: ItemData, v: Verdict): ItemData {
    match v
    case Requeued => it.(active := false)
    case Moved(segment) => it.(active := false, lru := ClassOf(it.lru) + segment)
    case _ => it
  }

  predicate Fits(v: Verdict) { v.Moved? ==> v.segment <= TEMP }

  lemma RehomedFits(it: ItemData, v: Verdict)
    requires it.lru < LISTS && Fits(v)
    ensures Rehomed(it, v).lru < LISTS && Rehomed(it, v).refcount == it.refcount
    ensures SameBut(it, Rehomed(it, v).(lru := it.lru))
  {
  }

  /** Carry a verdict out on an item the walk holds. */
  function Act(s: State, a: nat, v: Verdict): State
    requires Valid(s) && Holding(s, a) && s.items[a].linked && Fits(v)
  {
    match v
    case Reclaimed => UnlinkItemKeeps(s, a); UnlinkItem(s, a)
    case Evicted => UnlinkItemKeeps(s, a); UnlinkItem(s, a)
    case Left => s
    case _ =>
      RehomedFits(s.items[a], v);
      MoveKeeps(s, a, Rehomed(s.items[a], v));
      Move(s, a, Rehomed(s.items[a], v))
  }

  lemma ActKeeps(s: State, a: nat, v: Verdict)
    requires Valid(s) && Holding(s, a) && s.items[a].linked && Fits(v)
    ensures var t := Act(s, a, v);
            Valid(t) && Holding(t, a) && t.items.Keys == s.items.Keys && t.held == s.held
  {
    hide Valid, Listed, Unlisted, Move, Rehomed, UnlinkItem, UnlinkQ, SameBut;
    ValidShape(s);
    match v
    case Reclaimed => UnlinkItemKeeps(s, a); HeldStays(s, a);
    case Evicted => UnlinkItemKeeps(s, a); HeldStays(s, a);
    case Left =>
    case _ =>
      RehomedFits(s.items[a], v);
      MoveKeeps(s, a, Rehomed(s.items[a], v));
  }

  /** The state after the verdict, with the walk's own reference still taken. */
  function Carry(s: State, a: nat, v: Verdict): State
    requires Valid(s) && a in s.items && s.items[a].linked && Fits(v)
  {
    AcquireKeeps(s, a);
    Act(Acquire(s, a), a, v)
  }

  lemma CarryKeeps(s: State, a: nat, v: Verdict)
    requires Valid(s) && a in s.items && s.items[a].linked && Fits(v)
    ensures var t := Carry(s, a, v);
            && Valid(t) && Holding(t, a) && t.items.Keys == s.items.Keys
            && a in s.held && t.held == s.held[a := s.held[a] + 1]
  {
    hide Valid, Act, Holding;
    AcquireKeeps(s, a);
    ActKeeps(Acquire(s, a), a, v);
  }

  /** What the walk ends with: the state, the count returned, the count of items that were
      unlinked or moved, and the item it stopped at. */
  datatype Pulled = Pulled(s: State, removed: nat, changed: nat, stopped: Option<nat>)

  function Count(v: Verdict): nat { if v.Left? then 0 else 1 }

  /** Where the walk goes on after the item at position i: a requeued item has moved the
      entry in front of it one place towards the tail. */
  function Onward(i: nat, v: Verdict): int {
    if v.Requeued? && i > 0 then i else i - 1
  }

  lemma JudgedFits(s: State, it: ItemData, q: Query, env: Env)
    requires IsQuery(q) && |s.bytes| == LISTS
    ensures Fits(Judge(s, it, q, env))
    ensures Judge(s, it, q, env).Requeued? ==> q.segment == WARM
    ensures Judge(s, it, q, env).Evicted? ==> q.segment == COLD && q.evict && env.evictToFree
    ensures Judge(s, it, q, env).Reclaimed? <==> Expired(it, env)
  {
  }

  /** One examined item that does not stop the walk. */
  function PassOne(s: State, a: nat, v: Verdict): State
    requires Valid(s) && a in s.items && s.items[a].linked && (v.Reclaimed? || v.Requeued?)
  {
    CarryKeeps(s, a, v);
    Release(Carry(s, a, v), a)
  }

  lemma PassOneKeeps(s: State, a: nat, v: Verdict)
    requires Valid(s) && a in s.items && s.items[a].linked && (v.Reclaimed? || v.Requeued?)
    ensures Valid(PassOne(s, a, v))
  {
    hide Valid, Release, Carry;
    CarryKeeps(s, a, v);
    ReleaseKeeps(Carry(s, a, v), a);
  }

  lemma ListedItem(s: State, l: nat, i: nat)
    requires Valid(s) && l < LISTS && i < |s.lists[l]| && s.lists[l][i].Item?
    ensures var a := s.lists[l][i].addr; a in s.items && s.items[a].linked && s.items[a].lru == l
  {
    assert Belongs(s.items, s.crawling, l, s.lists[l][i]);
  }

  /** The list an item is in, without it. */
  function Rest(s: State, a: nat): seq<Entry>
    requires Listed(s, a)
  {
    Without(s.lists[s.items[a].lru], Pos(s.lists[s.items[a].lru], Item(a)))
  }

  /** The list after an item the walk holds has been reclaimed or requeued. */
  lemma ActedList(s: State, a: nat, v: Verdict)
    requires Valid(s) && Holding(s, a) && s.items[a].linked && (v.Reclaimed? || v.Requeued?)
    ensures Listed(s, a)
    ensures Act(s, a, v).lists ==
            s.lists[s.items[a].lru := if v.Reclaimed? then Rest(s, a) else [Item(a)] + Rest(s, a)]
  {
    assert Listed(s, a);
    hide Valid, Pos, Without;
  }

  lemma ReleaseLists(s: State, a: nat)
    requires Holding(s, a)
    ensures Release(s, a).lists == s.lists
  {
  }

  lemma AcquiredRest(s: State, a: nat)
    requires Valid(s) && a in s.items && s.items[a].linked
    ensures a in s.held && Listed(s, a) && Listed(Acquire(s, a), a) && Rest(Acquire(s, a), a) == Rest(s, a)
  {
  }

  /** The list after an item of it has been reclaimed or requeued. */
  lemma PassedList(s: State, a: nat, v: Verdict)
    requires Valid(s) && a in s.items && s.items[a].linked && (v.Reclaimed? || v.Requeued?)
    ensures Listed(s, a)
    ensures PassOne(s, a, v).lists ==
            s.lists[s.items[a].lru := if v.Reclaimed? then Rest(s, a) else [Item(a)] + Rest(s, a)]
  {
    hide Valid, Act, Rest, Listed, Release;
    AcquiredRest(s, a);
    AcquireKeeps(s, a);
    ActedList(Acquire(s, a), a, v);
    CarryKeeps(s, a, v);
    ReleaseLists(Carry(s, a, v), a);
  }

  lemma RestAt(s: State, l: nat, i: nat)
    requires Valid(s) && l < LISTS && i < |s.lists[l]| && s.lists[l][i].Item?
    ensures |s.lists| == LISTS && Listed(s, s.lists[l][i].addr)
    ensures Rest(s, s.lists[l][i].addr) == Without(s.lists[l], i)
  {
    ListedItem(s, l, i);
    PosUnique(s.lists[l], i);
  }

  /** After an item has been passed, the entry that was in front of it is where Onward says. */
  lemma PassOneList(s: State, l: nat, i: nat, v: Verdict)
    requires Valid(s) && l < LISTS && i < |s.lists[l]| && s.lists[l][i].Item?
    requires v.Reclaimed? || v.Requeued?
    ensures var a := s.lists[l][i].addr; a in s.items && s.items[a].linked && s.items[a].lru == l
    ensures var t := PassOne(s, s.lists[l][i].addr, v);
            && |t.lists| == LISTS && At(t.lists[l], Onward(i, v)) == At(s.lists[l], i - 1)
            && Onward(i, v) < |t.lists[l]|
  {
    hide Valid, PassOne, Rest, Listed;
    ValidShape(s);
    ListedItem(s, l, i);
    var a := s.lists[l][i].addr;
    RestAt(s, l, i);
    PassedList(s, a, v);
  }

  /** The loop of lru_pull_tail, from position i with the given tries left. */
  function PullFrom(s: State, i: int, tries: nat, removed: nat, q: Query, env: Env, busy: Locks): Pulled
    requires Valid(s) && IsQuery(q) && -1 <= i < |s.lists[ListOf(q)]|
    decreases tries, i + 1
  {
    if tries == 0 || i < 0 then Pulled(s, removed, removed, None)
    else match s.lists[ListOf(q)][i]
      case Crawler(_) =>
        if q.crawlBlocks then Pulled(s, 0, removed, None) else PullFrom(s, i - 1, tries, removed, q, env, busy)
      case Item(a) =>
        ListedItem(s, ListOf(q), i);
        var it := s.items[a];
        if it.key in busy(tries) then PullFrom(s, i - 1, tries - 1, removed, q, env, busy)
        else
          var v := Judge(s, it, q, env);
          JudgedFits(s, it, q, env);
          if v.Reclaimed? || v.Requeued? then
            PassOneKeeps(s, a, v);
            PassOneList(s, ListOf(q), i, v);
            PullFrom(PassOne(s, a, v), Onward(i, v), tries - 1, removed + 1, q, env, busy)
          else
            CarryKeeps(s, a, v);
            Pulled(if q.returnItem then Carry(s, a, v) else Release(Carry(s, a, v), a),
                   removed + Count(v), removed + Count(v), Some(a))
  }

  /** lru_pull_tail. */
  function PullTail(s: State, q: Query, env: Env, busy: Locks): Pulled
    requires Valid(s) && IsQuery(q)
  {
    if q.cls == 0 then Pulled(s, 0, 0, None)
    else PullFrom(s, |s.lists[ListOf(q)]| - 1, TRIES, 0, q, env, busy)
  }

  /** The item handed to the caller in ret_it. */
  function Returned(q: Query, r: Pulled): Option<nat> {
    if q.segment == COLD && !q.evict && q.returnItem then r.stopped else None
  }
}
