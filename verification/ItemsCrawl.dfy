/** The crawler's walk of a list in whole runs of the cache: whatever the operations of items.c do
    to the list meanwhile, they do by linking entries at its head and unlinking entries. */
module ItemsCrawl {
  import opened Counting
  import opened LruList
  import opened Items
  import opened ItemsOps
  import opened ItemsPull
  import opened ItemsPullTheorems
  import opened ItemsPullOutcome
  import opened ItemsRuns
  import Crawl = LruCrawler

  // ------------------------------------------------------------------- changes of one list

  /** The steps, none of which is the crawler's own, lead from one list to the other. */
  ghost predicate Plays(list: seq<Entry>, list': seq<Entry>, c: Entry, steps: seq<Crawl.Step>)
    decreases |steps|
  {
    if steps == [] then list' == list
    else
      var w := Crawl.Walk(list, []);
      && !steps[0].Crawl? && Crawl.Enabled(w, c, steps[0])
      && Plays(Crawl.Apply(w, c, steps[0]).list, list', c, steps[1..])
  }

  /** No item is unlinked but these. */
  predicate Only(steps: seq<Crawl.Step>, moved: set<nat>) {
    forall k :: 0 <= k < |steps| && steps[k].Unlink? && steps[k].it.Item? ==> steps[k].it.addr in moved
  }

  /** From one list to the other by linking at the head, and unlinking these items only. */
  ghost predicate Shifts(list: seq<Entry>, list': seq<Entry>, c: Entry, moved: set<nat>) {
    exists steps :: Plays(list, list', c, steps) && Only(steps, moved)
  }

  lemma {:induction false} PlaysJoin(a: seq<Entry>, b: seq<Entry>, d: seq<Entry>, c: Entry, x: seq<Crawl.Step>,
                                     y: seq<Crawl.Step>)
    requires Plays(a, b, c, x) && Plays(b, d, c, y)
    ensures Plays(a, d, c, x + y)
    decreases |x|
  {
    hide Crawl.Apply, Crawl.Enabled;
    if x == [] {
      assert x + y == y;
    } else {
      assert (x + y)[1..] == x[1..] + y;
      PlaysJoin(Crawl.Apply(Crawl.Walk(a, []), c, x[0]).list, b, d, c, x[1..], y);
    }
  }

  lemma ShiftsTwice(a: seq<Entry>, b: seq<Entry>, d: seq<Entry>, c: Entry, m: set<nat>, n: set<nat>)
    requires Shifts(a, b, c, m) && Shifts(b, d, c, n)
    ensures Shifts(a, d, c, m + n)
  {
    var x :| Plays(a, b, c, x) && Only(x, m);
    var y :| Plays(b, d, c, y) && Only(y, n);
    PlaysJoin(a, b, d, c, x, y);
    assert Only(x + y, m + n);
  }

  lemma NoShift(list: seq<Entry>, c: Entry)
    ensures Shifts(list, list, c, {})
  {
    assert Plays(list, list, c, []) && Only([], {});
  }

  lemma Widen(list: seq<Entry>, list': seq<Entry>, c: Entry, m: set<nat>, n: set<nat>)
    requires Shifts(list, list', c, m) && m <= n
    ensures Shifts(list, list', c, n)
  {
    var steps :| Plays(list, list', c, steps) && Only(steps, m);
    assert Only(steps, n);
  }

  lemma LinkShifts(list: seq<Entry>, c: Entry, a: nat)
    requires c in list && Item(a) !in list
    ensures Shifts(list, [Item(a)] + list, c, {})
  {
    var steps := [Crawl.Link(Item(a))];
    assert steps[1..] == [];
    assert Plays(list, [Item(a)] + list, c, steps) && Only(steps, {});
  }

  lemma UnlinkShifts(list: seq<Entry>, c: Entry, a: nat)
    requires c in list && Item(a) in list && c != Item(a)
    ensures Shifts(list, Without(list, Pos(list, Item(a))), c, {a})
  {
    var steps := [Crawl.Unlink(Item(a))];
    assert steps[1..] == [];
    assert Plays(list, Without(list, Pos(list, Item(a))), c, steps) && Only(steps, {a});
  }

  lemma StepAccounts(list: seq<Entry>, c: Entry, step: Crawl.Step, visited: seq<Entry>, a: nat)
    requires Crawl.Enabled(Crawl.Walk(list, []), c, step) && !step.Crawl? && step != Crawl.Unlink(Item(a))
    requires Crawl.Accounted(Crawl.Walk(list, visited), c, Item(a))
    ensures var list' := Crawl.Apply(Crawl.Walk(list, []), c, step).list;
            Crawl.Accounted(Crawl.Walk(list', visited), c, Item(a))
  {
    var w := Crawl.Walk(list, visited);
    hide Crawl.Accounted;
    match step
    case Link(it) => Crawl.LinkAccounts(w, c, Item(a), it);
    case Unlink(it) => Crawl.UnlinkAccounts(w, c, Item(a), it);
  }

  lemma {:induction false} PlaysAccounts(list: seq<Entry>, list': seq<Entry>, c: Entry, steps: seq<Crawl.Step>,
                                         moved: set<nat>, visited: seq<Entry>, a: nat)
    requires Plays(list, list', c, steps) && Only(steps, moved) && a !in moved
    requires Crawl.Accounted(Crawl.Walk(list, visited), c, Item(a))
    ensures Crawl.Accounted(Crawl.Walk(list', visited), c, Item(a))
    decreases |steps|
  {
    hide Crawl.Accounted, Crawl.Apply, Crawl.Enabled;
    if steps != [] {
      StepAccounts(list, c, steps[0], visited, a);
      assert Only(steps[1..], moved);
      PlaysAccounts(Crawl.Apply(Crawl.Walk(list, []), c, steps[0]).list, list', c, steps[1..], moved, visited, a);
    }
  }

  /** Shifting a list leaves the crawler's account of the items that were not unlinked right. */
  lemma ShiftsAccounts(list: seq<Entry>, list': seq<Entry>, c: Entry, moved: set<nat>, visited: seq<Entry>, a: nat)
    requires Shifts(list, list', c, moved) && a !in moved
    requires Crawl.Accounted(Crawl.Walk(list, visited), c, Item(a))
    ensures Crawl.Accounted(Crawl.Walk(list', visited), c, Item(a))
  {
    var steps :| Plays(list, list', c, steps) && Only(steps, moved);
    PlaysAccounts(list, list', c, steps, moved, visited, a);
  }

  // ------------------------------------------------------------------------- the operations

  /** The crawler of list l is in its list, and items are in a list once. */
  lemma ListFacts(s: State, l: nat)
    requires Valid(s) && l < LISTS && s.crawling[l]
    ensures |s.lists| == |s.crawling| == LISTS && Crawler(l) in s.lists[l] && NoDup(s.lists[l])
  {
  }

  lemma LinkedShifts(s: State, a: nat, now: nat, cas: nat, l: nat)
    requires Valid(s) && CanLink(s, a) && l < LISTS && s.crawling[l]
    ensures |LinkItem(s, a, now, cas).lists| == LISTS
            && Shifts(s.lists[l], LinkItem(s, a, now, cas).lists[l], Crawler(l), {})
  {
    ListFacts(s, l);
    hide Valid, Shifts;
    NoShift(s.lists[l], Crawler(l));
    if s.items[a].lru == l { LinkShifts(s.lists[l], Crawler(l), a); }
  }

  lemma UnlinkedShifts(s: State, a: nat, l: nat)
    requires Valid(s) && CanUnlink(s, a) && l < LISTS && s.crawling[l]
    ensures var t := UnlinkItem(s, a);
            |t.lists| == LISTS && Shifts(s.lists[l], t.lists[l], Crawler(l), if s.items[a].linked then {a} else {})
  {
    ListFacts(s, l);
    hide Valid, Shifts, Pos, Without;
    NoShift(s.lists[l], Crawler(l));
    if s.items[a].linked {
      Widen(s.lists[l], s.lists[l], Crawler(l), {}, {a});
      if s.items[a].lru == l { UnlinkShifts(s.lists[l], Crawler(l), a); }
    }
  }

  /** An item is taken out of its list and linked at the head of the same list or another. */
  lemma MovedShifts(s: State, a: nat, it: ItemData, l: nat)
    requires Valid(s) && l < LISTS && s.crawling[l] && Listed(s, a) && it.lru < LISTS && it.ntotal == s.items[a].ntotal
    requires Unlisted(UnlinkQ(s, a).(items := s.items[a := it]), a)
    ensures |Move(s, a, it).lists| == LISTS && Shifts(s.lists[l], Move(s, a, it).lists[l], Crawler(l), {a})
  {
    ListFacts(s, l);
    var list, m := s.lists[l], s.items[a].lru;
    var rest := UnlinkQ(s, a).lists[l];
    hide Valid, Shifts, Pos;
    NoShift(list, Crawler(l));
    Widen(list, list, Crawler(l), {}, {a});
    if m == l {
      UnlinkShifts(list, Crawler(l), a);
      WithoutMembers(list, Pos(list, Item(a)));
    }
    hide Without;
    if it.lru == l {
      LinkShifts(rest, Crawler(l), a);
      ShiftsTwice(list, rest, [Item(a)] + rest, Crawler(l), {a}, {});
      assert {a} + {} == {a};
    }
  }

  // ------------------------------------------------------------- items that keep their place

  /** A linked item was unlinked, went to another list, or lost its active mark. */
  predicate Shaken(s: State, t: State, a: nat) {
    && a in s.items && s.items[a].linked
    && !(a in t.items && t.items[a].linked && t.items[a].lru == s.items[a].lru
         && (s.items[a].active ==> t.items[a].active))
  }

  /** The event is one that updates item a. */
  predicate Updates(s: State, e: Event, a: nat) {
    e == Draining(a) || (e.Fetching? && e.key in s.table && s.table[e.key] == a)
  }

  /** Item a is left where it is: it stays linked in its list with its active mark; without
      segments, where an update requeues, it is not updated either. */
  ghost predicate Rests(s: State, e: Event, env: Env, t: State, a: nat) {
    !Shaken(s, t, a) && (env.segmented || !Updates(s, e, a))
  }

  lemma ShakenStays(s: State, t: State, u: State, a: nat)
    requires Fades(s, t) && SameHomes(s, t) && Fades(t, u)
    requires Shaken(s, t, a) || Shaken(t, u, a)
    ensures Shaken(s, u, a)
  {
  }

  // --------------------------------------------------------------------------- lru_pull_tail

  lemma ActedShifts(s: State, a: nat, v: Verdict, l: nat)
    requires Valid(s) && Holding(s, a) && s.items[a].linked && Fits(v) && l < LISTS && s.crawling[l]
    ensures |Act(s, a, v).lists| == LISTS
    ensures Shifts(s.lists[l], Act(s, a, v).lists[l], Crawler(l), if v.Left? then {} else {a})
  {
    hide Valid, UnlinkItem, Move, CanUnlink, Shifts, Rehomed, Listed, Unlisted, UnlinkQ, SameBut;
    ListFacts(s, l);
    ValidShape(s);
    match v
    case Reclaimed => UnlinkItemKeeps(s, a); UnlinkedShifts(s, a, l);
    case Evicted => UnlinkItemKeeps(s, a); UnlinkedShifts(s, a, l);
    case Left => NoShift(s.lists[l], Crawler(l));
    case _ =>
      RehomedFits(s.items[a], v);
      MoveKeeps(s, a, Rehomed(s.items[a], v));
      RehomedSize(s.items[a], v);
      MovedShifts(s, a, Rehomed(s.items[a], v), l);
  }

  lemma RehomedSize(it: ItemData, v: Verdict)
    ensures Rehomed(it, v).ntotal == it.ntotal
  {
  }

  lemma CarriedShifts(s: State, a: nat, v: Verdict, l: nat)
    requires Valid(s) && a in s.items && s.items[a].linked && Fits(v) && l < LISTS && s.crawling[l]
    ensures |s.lists| == LISTS && |Carry(s, a, v).lists| == LISTS
    ensures Shifts(s.lists[l], Carry(s, a, v).lists[l], Crawler(l), if v.Left? then {} else {a})
  {
    ListFacts(s, l);
    AcquireKeeps(s, a);
    hide Valid, Act, Shifts;
    ActedShifts(Acquire(s, a), a, v, l);
  }

  /** What one item the walk passes, or stops at, means for list l and for the records. */
  lemma StepSeen(s: State, a: nat, v: Verdict, l: nat, release: bool)
    requires Valid(s) && a in s.items && s.items[a].linked && Fits(v) && l < LISTS && s.crawling[l]
    requires v.Moved? ==> v.segment % 64 == 0 && ClassOf(s.items[a].lru) + v.segment != s.items[a].lru
    requires v.Requeued? ==> s.items[a].active
    ensures |s.lists| == LISTS && Holding(Carry(s, a, v), a)
    ensures var t := if release then Release(Carry(s, a, v), a) else Carry(s, a, v);
            && |t.lists| == LISTS && Shifts(s.lists[l], t.lists[l], Crawler(l), if v.Left? then {} else {a})
            && Fades(s, t) && (!v.Moved? ==> SameHomes(s, t)) && (!v.Left? ==> Shaken(s, t, a))
  {
    hide Valid, Carry, Release, AfterStep, Shifts, Fades, SameHomes, SameItem, Holding;
    ListFacts(s, l);
    CarriedShifts(s, a, v, l);
    StepFades(s, a, v, release);
    CarryRecord(s, a, v);
    var t := Carry(s, a, v);
    ReleaseLists(t, a);
    ReleaseRecord(t, a);
  }

  lemma StepCrawling(s: State, a: nat, v: Verdict)
    requires Valid(s) && a in s.items && s.items[a].linked && (v.Reclaimed? || v.Requeued?)
    ensures PassOne(s, a, v).crawling == s.crawling
  {
    hide Valid, Carry, Release;
    SettledFate(s, a, v);
  }

  /** The walk from the tail, on any list l: it unlinks only items it shakes. */
  lemma {:induction false} PullShifts(s: State, i: int, tries: nat, removed: nat, q: Query, env: Env, busy: Locks,
                                      l: nat)
    returns (moved: set<nat>)
    requires Valid(s) && IsQuery(q) && -1 <= i < |s.lists[ListOf(q)]| && l < LISTS && s.crawling[l]
    ensures var t := PullFrom(s, i, tries, removed, q, env, busy).s;
            && |s.lists| == |t.lists| == LISTS && Fades(s, t) && Shifts(s.lists[l], t.lists[l], Crawler(l), moved)
            && forall a :: a in moved ==> Shaken(s, t, a)
    decreases tries, i + 1
  {
    hide Valid, Decide, Carry, PassOne, Release, Holding, Shifts, Fades, Shaken;
    ListFacts(s, l);
    var m := ListOf(q);
    moved := {};
    NoShift(s.lists[l], Crawler(l));
    FadesSelf(s);
    if tries > 0 && i >= 0 {
      if s.lists[m][i].Crawler? {
        if !q.crawlBlocks { moved := PullShifts(s, i - 1, tries, removed, q, env, busy, l); }
      } else {
        ListedItem(s, m, i);
        var a := s.lists[m][i].addr;
        if s.items[a].key in busy(tries) {
          moved := PullShifts(s, i - 1, tries - 1, removed, q, env, busy, l);
        } else {
          moved := PullItemShifts(s, i, tries, removed, q, env, busy, a, l);
        }
      }
    }
  }

  lemma {:induction false} PullItemShifts(s: State, i: nat, tries: nat, removed: nat, q: Query, env: Env, busy: Locks,
                                          a: nat, l: nat)
    returns (moved: set<nat>)
    requires Valid(s) && IsQuery(q) && AtItem(s, i, tries, q, busy, a) && l < LISTS && s.crawling[l]
    ensures var t := PullFrom(s, i, tries, removed, q, env, busy).s;
            && |s.lists| == |t.lists| == LISTS && Fades(s, t) && Shifts(s.lists[l], t.lists[l], Crawler(l), moved)
            && forall b :: b in moved ==> Shaken(s, t, b)
    decreases tries, i
  {
    hide Valid, Judge, PullFrom, Carry, PassOne, Release, Holding, Shifts, Fades, Shaken, SameHomes, Onward;
    ListFacts(s, l);
    ValidShape(s);
    var v := Judge(s, s.items[a], q, env);
    JudgedFits(s, s.items[a], q, env);
    JudgedMoves(s, s.items[a], q, env);
    if v.Reclaimed? || v.Requeued? {
      PullPasses(s, i, tries, removed, q, env, busy, a, v);
      var t := PassOne(s, a, v);
      StepSeen(s, a, v, l, true);
      PassedIs(s, a, v);
      StepCrawling(s, a, v);
      var later := PullShifts(t, Onward(i, v), tries - 1, removed + 1, q, env, busy, l);
      var u := PullFrom(t, Onward(i, v), tries - 1, removed + 1, q, env, busy).s;
      ShiftsTwice(s.lists[l], t.lists[l], u.lists[l], Crawler(l), {a}, later);
      FadesTwice(s, t, u);
      moved := {a} + later;
      forall b | b in moved ensures Shaken(s, u, b) { ShakenStays(s, t, u, b); }
    } else {
      PullStops(s, i, tries, removed, q, env, busy, a, v);
      StepSeen(s, a, v, l, !q.returnItem);
      moved := if v.Left? then {} else {a};
    }
  }

  // ----------------------------------------------------------------------------- all events

  lemma UpdateShifts(s: State, a: nat, env: Env, l: nat)
    requires Valid(s) && a in s.items && l < LISTS && s.crawling[l]
    ensures var t := UpdateItem(s, a, env);
            && |s.lists| == |t.lists| == LISTS && t.crawling == s.crawling
            && Shifts(s.lists[l], t.lists[l], Crawler(l),
                      if s.items[a].linked && Relinks(s.items[a], env) then {a} else {})
            && a in t.items && t.items[a].linked == s.items[a].linked
            && (s.items[a].linked && Relinks(s.items[a], env) && env.segmented ==> t.items[a].lru != s.items[a].lru)
  {
    hide Valid, Move, Listed, Unlisted, UnlinkQ, Shifts;
    ListFacts(s, l);
    ValidShape(s);
    var it := s.items[a];
    UpdatedFits(it, env);
    NoShift(s.lists[l], Crawler(l));
    if it.linked && Relinks(it, env) {
      MoveKeeps(s, a, Updated(it, env));
      MovedShifts(s, a, Updated(it, env), l);
    }
  }

  lemma ReclaimShifts(s: State, a: nat, l: nat)
    requires Valid(s) && a in s.items && s.items[a].linked && l < LISTS && s.crawling[l]
    ensures var t := Reclaim(s, a);
            |s.lists| == |t.lists| == LISTS && Shifts(s.lists[l], t.lists[l], Crawler(l), {a}) && Shaken(s, t, a)
  {
    hide Valid, UnlinkItem, CanUnlink, Release, Shifts, Holding;
    ListFacts(s, l);
    ReclaimKeeps(s, a);
    var s1 := Acquire(s, a);
    UnlinkedShifts(s1, a, l);
    UnlinkItemKeeps(s1, a);
    AcquiredIsHeld(s, a);
    UnlinkRecord(s1, a);
    ReleaseLists(UnlinkItem(s1, a), a);
    ReleaseRecord(UnlinkItem(s1, a), a);
  }

  lemma AcquiredIsHeld(s: State, a: nat)
    requires Valid(s) && a in s.items && a in s.held
    ensures Holding(Acquire(s, a), a)
  {
  }

  lemma TableItem(s: State, k: Key)
    requires Valid(s) && k in s.table
    ensures s.table[k] in s.items && s.items[s.table[k]].linked && s.table[k] in s.held
  {
  }

  /** do_item_bump without segments. */
  lemma BumpShifts(s: State, a: nat, room: bool, env: Env, l: nat)
    requires Valid(s) && a in s.items && l < LISTS && s.crawling[l]
    ensures var t := Bump(s, a, room, env);
            && |s.lists| == |t.lists| == LISTS
            && Shifts(s.lists[l], t.lists[l], Crawler(l), if env.segmented then {} else {a})
  {
    hide Valid, Shifts, UpdateItem, Relinks;
    ListFacts(s, l);
    NoShift(s.lists[l], Crawler(l));
    if !env.segmented {
      var it := s.items[a].(fetched := true);
      SetKeeps(s, a, it);
      var t := s.(items := s.items[a := it]);
      UpdateShifts(t, a, env, l);
      Widen(s.lists[l], UpdateItem(t, a, env).lists[l], Crawler(l),
            if it.linked && Relinks(it, env) then {a} else {}, {a});
    }
  }

  lemma GetShifts(s: State, k: Key, room: bool, doUpdate: bool, env: Env, l: nat) returns (moved: set<nat>)
    requires Valid(s) && l < LISTS && s.crawling[l]
    ensures var t := Get(s, k, room, doUpdate, env).0;
            && |s.lists| == |t.lists| == LISTS && Shifts(s.lists[l], t.lists[l], Crawler(l), moved)
            && forall a :: a in moved ==> Shaken(s, t, a) || (!env.segmented && k in s.table && s.table[k] == a)
  {
    hide Valid, Reclaim, Bump, Gone, Shifts, Shaken;
    ListFacts(s, l);
    NoShift(s.lists[l], Crawler(l));
    moved := {};
    if k in s.table {
      var a := s.table[k];
      TableItem(s, k);
      if Gone(s.items[a], env) {
        ReclaimShifts(s, a, l);
        moved := {a};
      } else {
        AcquireKeeps(s, a);
        if doUpdate {
          BumpShifts(Acquire(s, a), a, room, env, l);
          moved := if env.segmented then {} else {a};
        }
      }
    }
  }

  lemma DrainShifts(s: State, a: nat, env: Env, l: nat) returns (moved: set<nat>)
    requires Valid(s) && Holding(s, a) && l < LISTS && s.crawling[l]
    ensures var t := Drain(s, a, env);
            && |s.lists| == |t.lists| == LISTS && Shifts(s.lists[l], t.lists[l], Crawler(l), moved)
            && forall b :: b in moved ==> b == a && (Shaken(s, t, b) || !env.segmented)
  {
    hide Valid, UpdateItem, Release, Shifts, Relinks, Holding;
    HoldingIn(s, a);
    ListFacts(s, l);
    UpdateShifts(s, a, env, l);
    DrainKeeps(s, a, env);
    var t := UpdateItem(s, a, env);
    ReleaseLists(t, a);
    ReleaseRecord(t, a);
    moved := if s.items[a].linked && Relinks(s.items[a], env) then {a} else {};
  }

  lemma HoldingIn(s: State, a: nat)
    requires Holding(s, a)
    ensures a in s.items
  {
  }

  lemma ReplaceShifts(s: State, a: nat, b: nat, now: nat, cas: nat, l: nat)
    requires Valid(s) && Enabled(s, Replacing(a, b, cas)) && l < LISTS && s.crawling[l]
    ensures var t := ReplaceItem(s, a, b, now, cas);
            |s.lists| == |t.lists| == LISTS && Shifts(s.lists[l], t.lists[l], Crawler(l), {a}) && Shaken(s, t, a)
  {
    hide Valid, UnlinkItem, LinkItem, CanLink, CanUnlink, Shifts;
    ListFacts(s, l);
    ReplaceKeeps(s, a, b, now, cas);
    UnlinkItemKeeps(s, a);
    var t := UnlinkItem(s, a);
    UnlinkCrawling(s, a);
    UnlinkedShifts(s, a, l);
    LinkedShifts(t, b, now, cas, l);
    LinkRecords(t, b, now, cas, a);
    UnlinkForgets(s, a);
    ShiftsTwice(s.lists[l], t.lists[l], LinkItem(t, b, now, cas).lists[l], Crawler(l), {a}, {});
    assert {a} + {} == {a};
  }

  lemma UnlinkCrawling(s: State, a: nat)
    requires CanUnlink(s, a)
    ensures UnlinkItem(s, a).crawling == s.crawling
  {
  }

  lemma UnlinkForgets(s: State, a: nat)
    requires CanUnlink(s, a)
    ensures var t := UnlinkItem(s, a); a in t.items ==> !t.items[a].linked
  {
  }

  lemma LinkRecords(s: State, b: nat, now: nat, cas: nat, a: nat)
    requires CanLink(s, b) && a != b
    ensures var t := LinkItem(s, b, now, cas);
            (a in t.items <==> a in s.items) && (a in s.items ==> t.items[a] == s.items[a])
  {
  }

  predicate Walking(e: Event, l: nat) { Crawls(e) && e.l == l }

  /** Every event, apart from those of the crawler of list l itself, changes list l by linking at
      its head and unlinking items that do not rest. */
  lemma EventShifts(s: State, e: Event, env: Env, l: nat) returns (moved: set<nat>)
    requires Valid(s) && Enabled(s, e) && l < LISTS && s.crawling[l] && !Walking(e, l)
    ensures var t := Apply(s, e, env);
            && |s.lists| == |t.lists| == LISTS && Shifts(s.lists[l], t.lists[l], Crawler(l), moved)
            && forall a :: a in moved ==> !Rests(s, e, env, t, a)
  {
    hide Valid, PullFrom, Get, Drain, ReplaceItem, LinkItem, UnlinkItem, Release, CanLink, CanUnlink, Shifts, Holding,
      Shaken, Pos;
    ListFacts(s, l);
    NoShift(s.lists[l], Crawler(l));
    moved := {};
    match e
    case Linking(a, cas) =>
      LinkItemKeeps(s, a, env.now, cas);
      LinkedShifts(s, a, env.now, cas, l);
    case Unlinking(a) =>
      UnlinkItemKeeps(s, a);
      UnlinkedShifts(s, a, l);
      moved := if s.items[a].linked then {a} else {};
      if s.items[a].linked { UnlinkShakes(s, a); }
    case Replacing(a, b, cas) =>
      ReplaceShifts(s, a, b, env.now, cas, l);
      moved := {a};
    case Releasing(a) => ReleaseLists(s, a);
    case Fetching(key, room, doUpdate) => moved := GetShifts(s, key, room, doUpdate, env, l);
    case Draining(a) => moved := DrainShifts(s, a, env, l);
    case Pulling(q, busy) =>
      if q.cls > 0 { moved := PullShifts(s, |s.lists[ListOf(q)]| - 1, TRIES, 0, q, env, busy, l); }
    case _ =>
  }

  lemma UnlinkShakes(s: State, a: nat)
    requires CanUnlink(s, a) && s.items[a].linked
    ensures Shaken(s, UnlinkItem(s, a), a)
  {
  }

  // -------------------------------------------------------------------------- the whole walk

  /** The entries the crawler of list l was handed by the events from i up to n, in order. */
  ghost function Handed(ss: seq<State>, es: seq<Event>, i: nat, n: nat, l: nat): seq<Entry>
    requires i <= n <= |es| < |ss|
    decreases n
  {
    if i == n then []
    else
      Handed(ss, es, i, n - 1, l)
      + (if es[n - 1] == CrawlSwings(l) then [Front(ss[n - 1], l)] else [])
  }

  lemma HandedStep(ss: seq<State>, es: seq<Event>, i: nat, n: nat, l: nat)
    requires i <= n <= |es| < |ss|
    ensures i == n ==> Handed(ss, es, i, n, l) == []
    ensures i < n ==>
              Handed(ss, es, i, n, l) ==
              Handed(ss, es, i, n - 1, l) + (if es[n - 1] == CrawlSwings(l) then [Front(ss[n - 1], l)] else [])
  {
  }

  /** The entry in front of the crawler of list l. */
  ghost function Front(s: State, l: nat): Entry {
    if CrawlOn(s, l) && Pos(s.lists[l], Crawler(l)) > 0 then s.lists[l][Pos(s.lists[l], Crawler(l)) - 1] else Crawler(l)
  }

  /** The walk goes on: its crawler is in the list, and the items that rest are accounted for. */
  ghost predicate OnTheWay(s: State, l: nat, handed: seq<Entry>, a: nat) {
    && l < |s.lists| && l < |s.crawling| && s.crawling[l]
    && Crawl.Accounted(Crawl.Walk(s.lists[l], handed), Crawler(l), Item(a))
  }

  lemma SwingGoesOn(s: State, l: nat, handed: seq<Entry>, a: nat)
    requires Valid(s) && Enabled(s, CrawlSwings(l)) && OnTheWay(s, l, handed, a)
    ensures OnTheWay(CrawlStep(s, l), l, handed + [Front(s, l)], a)
  {
    hide Valid, Crawl.Accounted, Pos, Swapped;
    Crawl.CrawlAccounts(Crawl.Walk(s.lists[l], handed), Crawler(l), Item(a));
  }

  lemma StartIsOnTheWay(s: State, l: nat, a: nat)
    requires Valid(s) && Enabled(s, CrawlStarts(l))
    ensures OnTheWay(StartCrawl(s, l), l, [], a)
  {
    StartCrawlKeeps(s, l);
    var list := StartCrawl(s, l).lists[l];
    assert list[|list| - 1] == Crawler(l);
    PosUnique(list, |list| - 1);
  }

  lemma AccountedIn(list: seq<Entry>, c: Entry, handed: seq<Entry>, x: Entry)
    requires Crawl.Accounted(Crawl.Walk(list, handed), c, x)
    ensures c in list
  {
  }

  lemma StepGoesOn(s: State, e: Event, env: Env, l: nat, handed: seq<Entry>, a: nat)
    requires Valid(s) && Enabled(s, e) && OnTheWay(s, l, handed, a) && l < LISTS && e != CrawlEnds(l)
    requires Rests(s, e, env, Apply(s, e, env), a)
    ensures OnTheWay(Apply(s, e, env), l, handed + (if e == CrawlSwings(l) then [Front(s, l)] else []), a)
  {
    hide Valid, Crawl.Accounted, Shifts, Rests, Front, CrawlStep, Pos;
    if e == CrawlSwings(l) {
      SwingGoesOn(s, l, handed, a);
    } else {
      hide Apply;
      assert handed + [] == handed;
      var t := Apply(s, e, env);
      var moved := EventShifts(s, e, env, l);
      ShiftsAccounts(s.lists[l], t.lists[l], Crawler(l), moved, handed, a);
      AccountedIn(t.lists[l], Crawler(l), handed, Item(a));
      StepKeeps(s, e, env);
      ValidShape(t);
      OnlyItsCrawler(t, l, l);
    }
  }

  lemma {:induction false} RunGoesOn(ss: seq<State>, es: seq<Event>, envs: seq<Env>, i: nat, n: nat, l: nat, a: nat)
    requires IsRun(ss, es, envs) && i < n <= |es| && es[i] == CrawlStarts(l)
    requires forall k :: i < k < n ==> es[k] != CrawlEnds(l) && Rests(ss[k], es[k], envs[k], ss[k + 1], a)
    ensures OnTheWay(ss[n], l, Handed(ss, es, i + 1, n, l), a)
    decreases n
  {
    hide Valid, Apply, Enabled, OnTheWay, Rests, Handed, Front;
    var k := n - 1;
    HandedStep(ss, es, i + 1, n, l);
    EveryRunIsSound(ss, es, envs, k);
    assert IsStep(ss[k], es[k], envs[k], ss[n]);
    if k == i {
      StartRuns(ss[k], l, envs[k], a);
    } else {
      RunGoesOn(ss, es, envs, i, k, l, a);
      StartIsList(ss, es, envs, i, l);
      StepGoesOn(ss[k], es[k], envs[k], l, Handed(ss, es, i + 1, k, l), a);
    }
  }

  lemma StartRuns(s: State, l: nat, env: Env, a: nat)
    requires Valid(s) && Enabled(s, CrawlStarts(l))
    ensures OnTheWay(Apply(s, CrawlStarts(l), env), l, [], a)
  {
    hide Valid, OnTheWay;
    StartIsOnTheWay(s, l, a);
  }

  lemma StartIsList(ss: seq<State>, es: seq<Event>, envs: seq<Env>, i: nat, l: nat)
    requires IsRun(ss, es, envs) && i < |es| && es[i] == CrawlStarts(l)
    ensures l < LISTS
  {
    hide Valid, Apply;
    EveryRunIsSound(ss, es, envs, i);
    assert IsStep(ss[i], es[i], envs[i], ss[i + 1]);
  }

  /** In every run of the cache: while the crawler of a list is under way, whatever is linked,
      unlinked, fetched, bumped and pulled meanwhile, it hands out no item twice that rests on the
      way; and once it has reached the head it has handed out every such item of the list. */
  lemma WalkInRun(ss: seq<State>, es: seq<Event>, envs: seq<Env>, i: nat, n: nat, l: nat, a: nat)
    requires IsRun(ss, es, envs) && i < n <= |es| && es[i] == CrawlStarts(l)
    requires forall k :: i < k < n ==> es[k] != CrawlEnds(l) && Rests(ss[k], es[k], envs[k], ss[k + 1], a)
    ensures CrawlOn(ss[n], l)
    ensures var handed, list := Handed(ss, es, i + 1, n, l), ss[n].lists[l];
            && Crawl.Visits(handed, Item(a)) <= 1
            && (Item(a) in list && Pos(list, Crawler(l)) == 0 ==> Crawl.Visits(handed, Item(a)) == 1)
  {
    hide Valid, Rests, IsStep, Handed;
    RunGoesOn(ss, es, envs, i, n, l, a);
    EveryRunIsSound(ss, es, envs, n);
    ValidShape(ss[n]);
  }
}
