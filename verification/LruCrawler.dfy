/** The LRU crawler's walk of one list (memcached/crawler.c, memcached/items.c): it starts at
    the tail and swings past one entry a step, while other threads link and unlink items. */
module LruCrawler {
  import opened Counting
  import opened LruList

  /** The list, and the entries the crawler has been handed so far, in order. */
  datatype Walk = Walk(list: seq<Entry>, visited: seq<Entry>)

  datatype Step =
    | Crawl                // do_item_crawl_q handed out an entry
    | Link(it: Entry)      // another thread linked an item at the head
    | Unlink(it: Entry)    // another thread unlinked an item

  predicate Enabled(w: Walk, c: Entry, st: Step) {
    && c in w.list
    && match st
       case Crawl => Pos(w.list, c) > 0
       case Link(it) => it !in w.list
       case Unlink(it) => it in w.list && it != c
  }

  function Apply(w: Walk, c: Entry, st: Step): Walk
    requires Enabled(w, c, st)
  {
    match st
    case Crawl => var i := Pos(w.list, c); Walk(Swapped(w.list, i), w.visited + [w.list[i - 1]])
    case Link(it) => w.(list := [it] + w.list)
    case Unlink(it) => w.(list := Without(w.list, Pos(w.list, it)))
  }

  ghost predicate IsRun(ws: seq<Walk>, c: Entry, steps: seq<Step>) {
    && |ws| == |steps| + 1
    && forall k :: 0 <= k < |steps| ==> Enabled(ws[k], c, steps[k]) && ws[k + 1] == Apply(ws[k], c, steps[k])
  }

  /** How often an entry was handed out. */
  ghost function Visits(visited: seq<Entry>, x: Entry): nat {
    multiset(visited)[x]
  }

  /** Entries between the crawler and the tail have been handed out exactly once, those
      towards the head, and those not in the list, never. */
  ghost predicate Accounted(w: Walk, c: Entry, x: Entry) {
    && NoDup(w.list) && c in w.list
    && Visits(w.visited, x) == (if x in w.list && Pos(w.list, x) > Pos(w.list, c) then 1 else 0)
  }

  lemma CrawlAccounts(w: Walk, c: Entry, x: Entry)
    requires Enabled(w, c, Crawl) && Accounted(w, c, x) && x != c
    ensures Accounted(Apply(w, c, Crawl), c, x)
  {
    var i := Pos(w.list, c);
    var l := Swapped(w.list, i);
    SwappedMembers(w.list, i);
    PosUnique(l, i - 1);
    PosUnique(w.list, i - 1);
    assert l[i - 1] == c && l[i] == w.list[i - 1];
    PosUnique(l, i);
    if x in w.list && x != w.list[i - 1] {
      var j := Pos(w.list, x);
      assert l[j] == x;
      PosUnique(l, j);
    }
  }

  lemma LinkAccounts(w: Walk, c: Entry, x: Entry, it: Entry)
    requires Enabled(w, c, Link(it)) && Accounted(w, c, x)
    ensures Accounted(Apply(w, c, Link(it)), c, x)
  {
    var l := [it] + w.list;
    PushMembers(it, w.list);
    assert l[1..] == w.list;
  }

  lemma UnlinkAccounts(w: Walk, c: Entry, x: Entry, it: Entry)
    requires Enabled(w, c, Unlink(it)) && Accounted(w, c, x) && x != it
    ensures Accounted(Apply(w, c, Unlink(it)), c, x)
  {
    var k := Pos(w.list, it);
    var l := Without(w.list, k);
    WithoutMembers(w.list, k);
    PosAfterRemoval(w.list, k, c);
    if x in w.list { PosAfterRemoval(w.list, k, x); }
  }

  lemma PosAfterRemoval(list: seq<Entry>, k: nat, e: Entry)
    requires NoDup(list) && k < |list| && e in list && e != list[k]
    ensures e in Without(list, k)
    ensures Pos(Without(list, k), e) == Pos(list, e) - (if Pos(list, e) > k then 1 else 0)
  {
    WithoutMembers(list, k);
    var j := Pos(list, e);
    var j' := if j > k then j - 1 else j;
    assert Without(list, k)[j'] == e;
    PosUnique(Without(list, k), j');
  }

  lemma {:induction false} RunAccounts(ws: seq<Walk>, c: Entry, steps: seq<Step>, x: Entry, n: nat)
    requires IsRun(ws, c, steps) && n <= |steps|
    requires Accounted(ws[0], c, x) && x != c
    requires forall k :: 0 <= k < |steps| ==> steps[k] != Unlink(x)
    ensures Accounted(ws[n], c, x)
  {
    if n > 0 {
      RunAccounts(ws, c, steps, x, n - 1);
      assert Enabled(ws[n - 1], c, steps[n - 1]);
      match steps[n - 1]
      case Crawl => CrawlAccounts(ws[n - 1], c, x);
      case Link(it) => LinkAccounts(ws[n - 1], c, x, it);
      case Unlink(it) => UnlinkAccounts(ws[n - 1], c, x, it);
    }
  }

  /** Whatever other threads link and unlink meanwhile, when the crawler started at the tail
      has reached the head, every item in the list that was never unlinked on the way has
      been handed out exactly once: those present at the start and those linked during the
      walk alike. And no such item is handed out twice at any time before. */
  lemma WalkIsComplete(ws: seq<Walk>, c: Entry, steps: seq<Step>, start: seq<Entry>, x: Entry)
    requires IsRun(ws, c, steps) && NoDup(start) && c !in start
    requires ws[0] == Walk(start + [c], [])
    requires x != c && forall k :: 0 <= k < |steps| ==> steps[k] != Unlink(x)
    ensures var last := ws[|steps|];
            && c in last.list && Visits(last.visited, x) <= 1
            && (x in last.list && Pos(last.list, c) == 0 ==> Visits(last.visited, x) == 1)
  {
    var l := start + [c];
    PosUnique(l, |start|);
    assert l[|start|] == c;
    if x in l { assert Pos(l, x) != |start|; }
    RunAccounts(ws, c, steps, x, |steps|);
    var last := ws[|steps|];
    if x in last.list && Pos(last.list, c) == 0 {
      assert last.list[0] == c;
    }
  }

  /** The items, in order, without the crawler. */
  function Others(list: seq<Entry>, c: Entry): seq<Entry> {
    if list == [] then [] else (if list[0] == c then [] else [list[0]]) + Others(list[1..], c)
  }

  lemma {:induction false} OthersOfSum(a: seq<Entry>, b: seq<Entry>, c: Entry)
    ensures Others(a + b, c) == Others(a, c) + Others(b, c)
  {
    if a == [] { assert a + b == b; } else {
      assert (a + b)[1..] == a[1..] + b;
      OthersOfSum(a[1..], b, c);
    }
  }

  lemma OthersOfPair(x: Entry, c: Entry)
    ensures Others([x, c], c) == Others([c, x], c)
  {
    assert [x, c][1..] == [c] && [c, x][1..] == [x];
  }

  /** The crawler's step never changes the order of the items. */
  lemma CrawlKeepsOrder(list: seq<Entry>, i: nat)
    requires 0 < i < |list|
    ensures Others(Swapped(list, i), list[i]) == Others(list, list[i])
  {
    hide Others;
    var x, c, front, back := list[i - 1], list[i], list[..i - 1], list[i + 1..];
    assert list == front + [x, c] + back;
    assert Swapped(list, i) == front + [c, x] + back;
    OthersOfSum(front + [x, c], back, c);
    OthersOfSum(front, [x, c], c);
    OthersOfSum(front + [c, x], back, c);
    OthersOfSum(front, [c, x], c);
    OthersOfPair(x, c);
  }
}
