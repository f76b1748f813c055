/** Every run of the item operations keeps the invariant of the cache, and no item is taken
    away from those who hold it. */
module ItemsRuns {
  import opened LruList
  import opened Items
  import opened ItemsOps
  import opened ItemsPull
  import opened ItemsPullTheorems

  datatype Event =
    | Allocating(a: nat, key: Key, ntotal: nat, cls: nat, exptime: nat)
    | Linking(a: nat, cas: nat)
    | Unlinking(a: nat)
    | Replacing(a: nat, b: nat, cas: nat)
    | Releasing(a: nat)
    | Fetching(key: Key, room: bool, doUpdate: bool)
    | Draining(a: nat)                      // the maintainer works off a bump buffer entry
    | Pulling(q: Query, busy: Locks)
    | CrawlStarts(l: nat)
    | CrawlSwings(l: nat)
    | CrawlEnds(l: nat)

  ghost predicate Enabled(s: State, e: Event)
    requires Valid(s)
  {
    match e
    case Allocating(a, _, _, cls, _) => a !in s.items && cls < 64
    case Linking(a, _) => a in s.items && !s.items[a].linked && s.items[a].key !in s.table
    case Unlinking(a) => a in s.items
    case Replacing(a, b, _) =>
      && a in s.items && b in s.items && b != a
      && s.items[a].linked && !s.items[b].linked && s.items[b].key == s.items[a].key
    case Releasing(a) => Holding(s, a)
    case Fetching(_, _, _) => true
    case Draining(a) => Holding(s, a)
    case Pulling(q, _) => IsQuery(q)
    case CrawlStarts(l) => l < LISTS && !s.crawling[l]
    case CrawlSwings(l) => l < LISTS && s.crawling[l] && CrawlOn(s, l) && Pos(s.lists[l], Crawler(l)) > 0
    case CrawlEnds(l) => l < LISTS && s.crawling[l]
  }

  /** lru_maintainer_bumps, one entry: update the item and give the buffer's reference back. */
  function Drain(s: State, a: nat, env: Env): State
    requires Valid(s) && Holding(s, a)
  {
    DrainKeeps(s, a, env);
    Release(UpdateItem(s, a, env), a)
  }

  lemma DrainKeeps(s: State, a: nat, env: Env)
    requires Valid(s) && Holding(s, a)
    ensures Holding(UpdateItem(s, a, env), a) && Valid(Release(UpdateItem(s, a, env), a))
  {
    hide UpdateItem;
    UpdateKeeps(s, a, env);
    ReleaseKeeps(UpdateItem(s, a, env), a);
  }

  predicate Crawls(e: Event) { e.CrawlStarts? || e.CrawlSwings? || e.CrawlEnds? }

  function ApplyCrawl(s: State, e: Event): State
    requires Valid(s) && Crawls(e) && Enabled(s, e)
  {
    match e
    case CrawlStarts(l) => StartCrawl(s, l)
    case CrawlSwings(l) => CrawlStep(s, l)
    case CrawlEnds(l) => EndCrawlKeeps(s, l); EndCrawl(s, l)
  }

  function Apply(s: State, e: Event, env: Env): State
    requires Valid(s) && Enabled(s, e)
  {
    match e
    case Allocating(a, key, ntotal, cls, exptime) => Allocate(s, a, key, ntotal, cls, exptime, env)
    case Linking(a, cas) => LinkItemKeeps(s, a, env.now, cas); LinkItem(s, a, env.now, cas)
    case Unlinking(a) => UnlinkItemKeeps(s, a); UnlinkItem(s, a)
    case Replacing(a, b, cas) => ReplaceItem(s, a, b, env.now, cas)
    case Releasing(a) => Release(s, a)
    case Fetching(key, room, doUpdate) => Get(s, key, room, doUpdate, env).0
    case Draining(a) => Drain(s, a, env)
    case Pulling(q, busy) => PullTail(s, q, env, busy).s
    case _ => ApplyCrawl(s, e)
  }

  lemma StepKeeps(s: State, e: Event, env: Env)
    requires Valid(s) && Enabled(s, e)
    ensures Valid(Apply(s, e, env))
  {
    hide Valid, PullTail, Get, LinkItem, UnlinkItem, Release, Allocate, StartCrawl, EndCrawl, CrawlStep, UpdateItem,
         CanLink, CanUnlink;
    match e
    case Allocating(a, key, ntotal, cls, exptime) => AllocateKeeps(s, a, key, ntotal, cls, exptime, env);
    case Linking(a, cas) => LinkItemKeeps(s, a, env.now, cas);
    case Unlinking(a) => UnlinkItemKeeps(s, a);
    case Replacing(a, b, cas) => ReplaceKeeps(s, a, b, env.now, cas);
    case Releasing(a) => ReleaseKeeps(s, a);
    case Fetching(key, room, doUpdate) => GetKeeps(s, key, room, doUpdate, env);
    case Draining(a) => DrainKeeps(s, a, env);
    case Pulling(q, busy) => PullTailIsSafe(s, q, env, busy);
    case CrawlStarts(l) => StartCrawlKeeps(s, l);
    case CrawlSwings(l) => CrawlStepKeeps(s, l);
    case CrawlEnds(l) => EndCrawlKeeps(s, l);
  }

  function Empty(): State {
    State(map[], seq(LISTS, _ => []), seq(LISTS, _ => false), seq(LISTS, _ => 0), seq(LISTS, _ => 0), 0, 0, map[],
          map[])
  }

  /** A step of the cache. What a step does to a state outside the invariant is left open. */
  ghost predicate IsStep(s: State, e: Event, env: Env, t: State) {
    Valid(s) ==> Enabled(s, e) && t == Apply(s, e, env)
  }

  ghost predicate IsRun(ss: seq<State>, es: seq<Event>, envs: seq<Env>) {
    && |ss| == |es| + 1 && |envs| == |es| && ss[0] == Empty()
    && forall k :: 0 <= k < |es| ==> IsStep(ss[k], es[k], envs[k], ss[k + 1])
  }

  /** Every reachable state: an item is linked exactly when it is in the hash table and in the
      one list it names, and all counts are exact. */
  lemma {:induction false} EveryRunIsSound(ss: seq<State>, es: seq<Event>, envs: seq<Env>, n: nat)
    requires IsRun(ss, es, envs) && n <= |es|
    ensures Valid(ss[n])
  {
    hide Apply, Valid;
    if n == 0 {
      EmptyIsValid(Empty());
    } else {
      EveryRunIsSound(ss, es, envs, n - 1);
      assert IsStep(ss[n - 1], es[n - 1], envs[n - 1], ss[n]);
      StepKeeps(ss[n - 1], es[n - 1], envs[n - 1]);
    }
  }

  // ------------------------------------------------------ nobody loses an item they hold

  lemma KeptTwice(s: State, t: State, u: State, a: nat)
    requires Kept(s, t, a) && Kept(t, u, a)
    ensures Kept(s, u, a)
  {
  }

  lemma UnlinkKeepsHeld(s: State, b: nat, a: nat)
    requires Valid(s) && b in s.items && CanUnlink(s, b)
    ensures Kept(s, UnlinkItem(s, b), a)
  {
    hide Listed, TableOk, SizesOk, Homes, Placed;
  }

  lemma LinkKeepsHeld(s: State, b: nat, now: nat, cas: nat, a: nat)
    requires CanLink(s, b)
    ensures Kept(s, LinkItem(s, b, now, cas), a)
  {
  }

  /** Taking a reference, anything that keeps held items, and giving the reference back. */
  lemma BorrowKeepsHeld(s: State, t: State, b: nat, a: nat)
    requires b in s.items && b in s.held && Kept(Acquire(s, b), t, a)
    requires Holding(t, b) && t.held.Keys == t.items.Keys && t.items[b].refcount >= t.held[b]
    ensures Kept(s, Release(t, b), a)
  {
    if a in s.items && a in s.held && s.held[a] > 0 { assert Acquire(s, b).held[a] >= s.held[a]; }
  }

  lemma ReclaimKeepsHeld(s: State, b: nat, a: nat)
    requires Valid(s) && b in s.items
    ensures Kept(s, Reclaim(s, b), a)
  {
    hide UnlinkItem, CanUnlink, Valid, Release, Kept;
    ReclaimKeeps(s, b);
    UnlinkKeepsHeld(Acquire(s, b), b, a);
    ValidHeld(UnlinkItem(Acquire(s, b), b));
    BorrowKeepsHeld(s, UnlinkItem(Acquire(s, b), b), b, a);
  }

  lemma SetKeepsHeld(s: State, t: State, b: nat, it: ItemData, a: nat)
    requires b in s.items && t.items == s.items[b := it] && t.held == s.held
    requires it.key == s.items[b].key && it.ntotal == s.items[b].ntotal
    ensures Kept(s, t, a)
  {
  }

  lemma UpdateKeepsHeld(s: State, b: nat, env: Env, a: nat)
    requires Valid(s) && b in s.items
    ensures Kept(s, UpdateItem(s, b, env), a)
  {
    var it := s.items[b];
    hide Valid, Move, Listed, Unlisted, Relinks, Updated, UnlinkQ, Kept;
    ValidShape(s);
    UpdatedFits(it, env);
    if it.linked && Relinks(it, env) { MoveKeeps(s, b, Updated(it, env)); }
    if it.linked {
      SetKeepsHeld(s, UpdateItem(s, b, env), b, Updated(it, env), a);
    } else {
      SetKeepsHeld(s, s, b, it, a);
    }
  }

  lemma BumpKeepsHeld(s: State, b: nat, room: bool, env: Env, a: nat)
    requires Valid(s) && b in s.items
    ensures Kept(s, Bump(s, b, room, env), a)
  {
    hide Valid, UpdateItem;
    if !env.segmented {
      SetKeeps(s, b, s.items[b].(fetched := true));
      UpdateKeepsHeld(s.(items := s.items[b := s.items[b].(fetched := true)]), b, env, a);
    }
  }

  lemma GetKeepsHeld(s: State, k: Key, room: bool, doUpdate: bool, env: Env, a: nat)
    requires Valid(s)
    ensures Kept(s, Get(s, k, room, doUpdate, env).0, a)
  {
    if k in s.table {
      var b := s.table[k];
      hide Valid, Reclaim, Bump, Gone;
      if Gone(s.items[b], env) {
        ReclaimKeepsHeld(s, b, a);
      } else {
        AcquireKeeps(s, b);
        if doUpdate {
          BumpKeepsHeld(Acquire(s, b), b, room, env, a);
          KeptTwice(s, Acquire(s, b), Bump(Acquire(s, b), b, room, env), a);
        }
      }
    }
  }

  lemma DrainKeepsHeld(s: State, b: nat, env: Env, a: nat)
    requires Valid(s) && Holding(s, b) && a != b
    ensures Kept(s, Drain(s, b, env), a)
  {
    hide UpdateItem;
    UpdateKeepsHeld(s, b, env, a);
    DrainKeeps(s, b, env);
    UpdateKeeps(s, b, env);
    hide Valid;
  }

  /** Whatever happens in the cache, an item stays allocated, with its key, its size and its
      holders, as long as the holder does not give it back. */
  lemma HeldItemsStay(s: State, e: Event, env: Env, a: nat)
    requires Valid(s) && Enabled(s, e) && e != Releasing(a) && e != Draining(a)
    ensures Kept(s, Apply(s, e, env), a)
  {
    hide PullTail, Get, LinkItem, UnlinkItem, Drain, CanLink, CanUnlink, Pos, Homes, Placed, TableOk, RefsOk, SizesOk;
    match e
    case Linking(b, cas) => LinkItemKeeps(s, b, env.now, cas); LinkKeepsHeld(s, b, env.now, cas, a);
    case Unlinking(b) => UnlinkItemKeeps(s, b); UnlinkKeepsHeld(s, b, a);
    case Replacing(b, c, cas) =>
      ReplaceKeeps(s, b, c, env.now, cas);
      UnlinkKeepsHeld(s, b, a);
      LinkKeepsHeld(UnlinkItem(s, b), c, env.now, cas, a);
      KeptTwice(s, UnlinkItem(s, b), ReplaceItem(s, b, c, env.now, cas), a);
    case Fetching(key, room, doUpdate) => GetKeepsHeld(s, key, room, doUpdate, env, a);
    case Draining(b) => DrainKeepsHeld(s, b, env, a);
    case Pulling(q, busy) => PullTailIsSafe(s, q, env, busy);
    case _ =>
  }

  lemma KeptSelf(s: State, a: nat)
    ensures Kept(s, s, a)
  {
  }

  /** In every run: from when somebody holds an item until they give it back, it is there, with its
      key, its size and all holders. */
  lemma {:induction false} HeldInRun(ss: seq<State>, es: seq<Event>, envs: seq<Env>, i: nat, j: nat, a: nat)
    requires IsRun(ss, es, envs) && i <= j <= |es|
    requires forall k :: i <= k < j ==> es[k] != Releasing(a) && es[k] != Draining(a)
    ensures Kept(ss[i], ss[j], a)
    decreases j
  {
    hide Valid, Apply, Enabled, Kept;
    if i == j {
      KeptSelf(ss[i], a);
    } else {
      HeldInRun(ss, es, envs, i, j - 1, a);
      EveryRunIsSound(ss, es, envs, j - 1);
      assert IsStep(ss[j - 1], es[j - 1], envs[j - 1], ss[j]);
      HeldItemsStay(ss[j - 1], es[j - 1], envs[j - 1], a);
      KeptTwice(ss[i], ss[j - 1], ss[j], a);
    }
  }
}
