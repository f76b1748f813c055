/** Response objects of a worker thread (memcached/memcached.c, resp_allocate and resp_free):
    they are slots of bundles the size of a read buffer; bundles with a free slot stand in the
    thread's open list. */
module RespBundles {
  import opened Basics
  import opened Counting
  import opened LruList

  datatype Slot = Slot(bundle: nat, index: nat)
  /** The bundles of a thread: per bundle the reference count, where to look first, and which
      slots are free; and the pointers of the open list. */
  datatype Pool = Pool(
    refcount: map<nat, nat>, nextCheck: map<nat, nat>, free: map<nat, seq<bool>>,
    next: map<Entry, Link>, prev: map<Entry, Link>, open: Link)

  predicate InUse(p: Pool, s: Slot) {
    s.bundle in p.free && s.index < |p.free[s.bundle]| && !p.free[s.bundle][s.index]
  }

  // -------------------------------------------------------------------------- the invariant

  /** Every count is the number of slots in use. */
  predicate CountsOk(p: Pool, n: nat) {
    && p.refcount.Keys == p.nextCheck.Keys == p.free.Keys
    && (forall b :: b in p.free ==> |p.free[b]| == n && p.nextCheck[b] <= n)
    && (forall b :: b in p.free ==> p.refcount[b] + CountTrue(p.free[b]) == n)
  }

  /** The open list holds exactly the bundles that are not full. */
  ghost predicate Members(refcount: map<nat, nat>, n: nat, list: seq<Entry>) {
    && (forall e :: e in list ==> e.Item? && e.addr in refcount && refcount[e.addr] < n)
    && (forall b :: b in refcount && refcount[b] < n ==> Item(b) in list)
  }

  /** Full bundles point nowhere. */
  ghost predicate Loose(refcount: map<nat, nat>, n: nat, next: map<Entry, Link>, prev: map<Entry, Link>) {
    && (forall b :: b in refcount ==> Item(b) in next && Item(b) in prev)
    && (forall b :: b in refcount && refcount[b] == n ==> next[Item(b)] == Null && prev[Item(b)] == Null)
  }

  ghost predicate OpenOk(p: Pool, n: nat, list: seq<Entry>, tail: Link) {
    && Forms(Ptrs(p.next, p.prev, p.open, tail), list)
    && Members(p.refcount, n, list)
    && Loose(p.refcount, n, p.next, p.prev)
  }

  ghost predicate Valid(p: Pool, n: nat, list: seq<Entry>, tail: Link) {
    CountsOk(p, n) && OpenOk(p, n, list, tail)
  }

  // --------------------------------------------------------------------- taking a free slot

  /** The index looked at in round i of the search. */
  function Around(i: nat, start: nat, n: nat): (x: nat)
    requires i < n && start <= n
    ensures x < n
  {
    (i + start) % n
  }

  lemma TimesOrder(n: nat, q: int)
    requires n > 0
    ensures q <= 0 ==> n * q <= 0
    ensures q == 1 ==> n * q == n
    ensures q >= 2 ==> n * q >= 2 * n
  {
    if q >= 2 { assert n * q == n * (q - 2) + 2 * n; }
  }

  lemma AroundIs(i: nat, start: nat, n: nat)
    requires i < n && start <= n
    ensures Around(i, start, n) == if i + start < n then i + start else i + start - n
  {
    var q, r := (i + start) / n, (i + start) % n;
    TimesOrder(n, q);
    assert i + start == n * q + r;
  }

  /** The search of resp_allocate: from the place most likely to be free, once around. */
  method FindFree(free: seq<bool>, start: nat) returns (x: int)
    requires start <= |free|
    ensures x == -1 <==> forall j :: 0 <= j < |free| ==> !free[j]
    ensures x != -1 ==> 0 <= x < |free| && free[x]
  {
    hide Around;
    x := -1;
    for i := 0 to |free|
      invariant forall k: nat :: k < i ==> !free[Around(k, start, |free|)]
    {
      var y := Around(i, start, |free|);
      if free[y] { return y; }
    }
    forall j | 0 <= j < |free| ensures !free[j] {
      var k := if j >= start then j - start else j - start + |free|;
      AroundIs(k, start, |free|);
      assert Around(k, start, |free|) == j;
    }
  }

  // ------------------------------------------------------------------------------- the steps

  /** resp_allocate takes slot x of the head b of the open list; a bundle that is full now
      leaves the list. */
  function Take(p: Pool, n: nat, b: nat, x: nat): Pool
    requires b in p.refcount && b in p.free && x < |p.free[b]| && Item(b) in p.next
  {
    var p1 := p.(refcount := p.refcount[b := p.refcount[b] + 1], free := p.free[b := p.free[b][x := false]],
                 nextCheck := p.nextCheck[b := x + 1]);
    if p1.refcount[b] != n then p1
    else if p1.next[Item(b)] == Null then p1.(open := Null)
    else p1.(open := p1.next[Item(b)], prev := p1.prev[p1.next[Item(b)].entry := Null],
             next := p1.next[Item(b) := Null])
  }

  /** resp_allocate starts a new bundle and takes its first slot. */
  function Start(p: Pool, n: nat, b: nat): Pool
    requires n > 0
  {
    p.(refcount := p.refcount[b := 1], nextCheck := p.nextCheck[b := 1],
       free := p.free[b := [false] + seq(n - 1, _ => true)],
       next := p.next[Item(b) := Null], prev := p.prev[Item(b) := Null], open := To(Item(b)))
  }

  predicate Known(p: Pool, b: nat) {
    b in p.refcount && b in p.free && Item(b) in p.next && Item(b) in p.prev
  }

  /** In the open list, as resp_free tests it. */
  predicate Linked(p: Pool, b: nat)
    requires Known(p, b)
  {
    p.open == To(Item(b)) || p.prev[Item(b)] != Null || p.next[Item(b)] != Null
  }

  function Forget(p: Pool, b: nat): Pool {
    p.(refcount := p.refcount - {b}, nextCheck := p.nextCheck - {b}, free := p.free - {b})
  }

  /** resp_free. */
  function Give(p: Pool, b: nat, x: nat): Pool
    requires Known(p, b) && x < |p.free[b]| && p.refcount[b] > 0
  {
    var p1 := p.(free := p.free[b := p.free[b][x := true]], refcount := p.refcount[b := p.refcount[b] - 1]);
    if p1.refcount[b] == 0 then
      if p1.open == To(Item(b)) && p1.next[Item(b)] == Null then p1.(nextCheck := p1.nextCheck[b := 0])
      else
        var q := Unlink(Ptrs(p1.next, p1.prev, p1.open, Null), Item(b));
        Forget(p1.(next := q.next, prev := q.prev, open := q.head), b)
    else if Linked(p1, b) then p1
    else
      var q := LinkHead(Ptrs(p1.next, p1.prev, p1.open, Null), Item(b));
      p1.(next := q.next, prev := q.prev, open := q.head)
  }

  // ----------------------------------------------------------------- what the steps keep

  lemma {:induction false} CountTrues(n: nat)
    ensures CountTrue(seq(n, _ => true)) == n
  {
    if n > 0 {
      CountTrues(n - 1);
      assert seq(n, _ => true)[1..] == seq(n - 1, _ => true);
    }
  }

  lemma TakeCounts(p: Pool, n: nat, b: nat, x: nat)
    requires CountsOk(p, n) && b in p.free && x < n && p.free[b][x] && Item(b) in p.next
    ensures CountsOk(Take(p, n, b, x), n) && p.refcount[b] < n
  {
    CountUpdate(p.free[b], x, false);
    CountPositive(p.free[b], x);
    hide CountTrue;
  }

  lemma TakeSlots(p: Pool, n: nat, b: nat, x: nat)
    requires CountsOk(p, n) && b in p.free && x < n && Item(b) in p.next
    ensures forall s :: InUse(Take(p, n, b, x), s) <==> InUse(p, s) || s == Slot(b, x)
  {
  }

  lemma GiveCounts(p: Pool, n: nat, b: nat, x: nat)
    requires CountsOk(p, n) && Known(p, b) && InUse(p, Slot(b, x))
    ensures p.refcount[b] > 0 && CountsOk(Give(p, b, x), n)
  {
    CountUpdate(p.free[b], x, true);
    CountBound(p.free[b][x := true]);
    hide CountTrue, Unlink, LinkHead;
  }

  lemma GiveSlots(p: Pool, n: nat, b: nat, x: nat)
    requires CountsOk(p, n) && Known(p, b) && InUse(p, Slot(b, x)) && p.refcount[b] > 0
    ensures forall s :: InUse(Give(p, b, x), s) <==> InUse(p, s) && s != Slot(b, x)
  {
    hide Unlink, LinkHead, CountTrue;
    if p.refcount[b] == 1 {
      CountUpdate(p.free[b], x, true);
      var f := p.free[b][x := true];
      AllFree(f);
      assert forall i :: 0 <= i < n && i != x ==> p.free[b][i] == f[i];
    }
  }

  lemma {:induction false} CountBound(flags: seq<bool>)
    ensures CountTrue(flags) <= |flags|
  {
    if flags != [] { CountBound(flags[1..]); }
  }

  lemma {:induction false} AllFree(flags: seq<bool>)
    requires CountTrue(flags) == |flags|
    ensures forall i :: 0 <= i < |flags| ==> flags[i]
  {
    if flags != [] {
      CountBound(flags[1..]);
      AllFree(flags[1..]);
      forall i | 0 <= i < |flags| ensures flags[i] { if i > 0 { assert flags[i] == flags[1..][i - 1]; } }
    }
  }

  lemma StartCounts(p: Pool, n: nat, b: nat)
    requires CountsOk(p, n) && b !in p.free && n > 0
    ensures CountsOk(Start(p, n, b), n)
    ensures forall s :: InUse(Start(p, n, b), s) <==> InUse(p, s) || s == Slot(b, 0)
  {
    CountTrues(n - 1);
    var f := [false] + seq(n - 1, _ => true);
    assert f[1..] == seq(n - 1, _ => true) && CountTrue(f) == n - 1;
    hide CountTrue;
  }

  /** The pointer test of resp_free tells exactly the bundles of the open list. */
  lemma LinkedIsOpen(p: Pool, n: nat, list: seq<Entry>, tail: Link, b: nat)
    requires Valid(p, n, list, tail) && b in p.free
    ensures Known(p, b) && p.refcount[b] <= n
    ensures Linked(p, b) <==> Item(b) in list
    ensures Item(b) in list <==> p.refcount[b] < n
    ensures p.open == To(Item(b)) ==> p.prev[Item(b)] == Null
  {
    var q := Ptrs(p.next, p.prev, p.open, tail);
    assert p.open == At(list, 0);
    if Item(b) in list {
      var i := Pos(list, Item(b));
      assert Neighbours(q, list, i);
    }
    if |list| > 0 { assert Neighbours(q, list, 0); }
  }

  /** The tail after the head of the list has left. */
  function TailBehind(list: seq<Entry>, tail: Link): Link {
    if |list| <= 1 then Null else tail
  }

  /** The head of the list is full now and leaves. */
  lemma FullLeaves(p: Pool, t: Pool, n: nat, list: seq<Entry>, tail: Link, b: nat)
    requires OpenOk(p, n, list, tail) && |list| > 0 && list[0] == Item(b) && b in p.refcount && Item(b) in p.next
    requires t.open == p.next[Item(b)] && t.next == p.next[Item(b) := Null]
    requires t.prev == if p.next[Item(b)] == Null then p.prev else p.prev[p.next[Item(b)].entry := Null]
    ensures Forms(Ptrs(t.next, t.prev, t.open, TailBehind(list, tail)), list[1..])
  {
    hide Members, Loose;
    var q := Ptrs(p.next, p.prev, p.open, tail);
    assert Neighbours(q, list, 0);
    UnlinkForms(q, list, 0);
    assert Without(list, 0) == list[1..];
    if |list| > 1 { assert list[1] != list[0]; }
    var u := Unlink(q, Item(b));
    assert u.head == t.open && u.tail == TailBehind(list, tail) && u.next == p.next && u.prev == t.prev;
    forall x | x in list[1..] ensures x in p.next && x in p.prev && x != Item(b) {
      var i :| 0 <= i < |list[1..]| && list[1..][i] == x;
      assert Neighbours(q, list, i + 1) && list[i + 1] != list[0];
    }
    hide Forms, Unlink, Neighbours;
    OthersForm(u, Ptrs(t.next, t.prev, t.open, TailBehind(list, tail)), list[1..]);
  }

  lemma MembersWithout(refcount: map<nat, nat>, n: nat, list: seq<Entry>, i: nat)
    requires Members(refcount, n, list) && NoDup(list) && i < |list| && n > 0
    ensures list[i].Item? && Members(refcount[list[i].addr := n], n, Without(list, i))
    ensures Members(refcount - {list[i].addr}, n, Without(list, i))
  {
    WithoutMembers(list, i);
    assert list[i] in list;
  }

  lemma LooseHead(refcount: map<nat, nat>, n: nat, next: map<Entry, Link>, prev: map<Entry, Link>, b: nat, after: Link)
    requires Loose(refcount, n, next, prev) && b in refcount && prev[Item(b)] == Null
    ensures after == Null ==> Loose(refcount[b := n], n, next[Item(b) := Null], prev)
    ensures after != Null && (after.entry.Item? ==> after.entry.addr != b) ==>
              Loose(refcount[b := n], n, next[Item(b) := Null], prev[after.entry := Null])
  {
  }

  lemma StartOpen(p: Pool, n: nat, tail: Link, b: nat)
    requires Valid(p, n, [], tail) && b !in p.free && n > 1
    ensures OpenOk(Start(p, n, b), n, [Item(b)], To(Item(b)))
  {
  }

  lemma MembersKept(refcount: map<nat, nat>, n: nat, list: seq<Entry>, b: nat, c: nat)
    requires Members(refcount, n, list) && b in refcount && Item(b) in list && c < n
    ensures Members(refcount[b := c], n, list)
  {
  }

  lemma LooseKept(refcount: map<nat, nat>, n: nat, next: map<Entry, Link>, prev: map<Entry, Link>, b: nat, c: nat)
    requires Loose(refcount, n, next, prev) && b in refcount && c < n
    ensures Loose(refcount[b := c], n, next, prev)
  {
  }

  lemma HeadPointers(p: Pool, n: nat, list: seq<Entry>, tail: Link, b: nat)
    requires OpenOk(p, n, list, tail) && |list| > 0 && list[0] == Item(b)
    ensures b in p.refcount && p.refcount[b] < n && Item(b) in p.next && Item(b) in p.prev && Item(b) in list
    ensures p.open == To(Item(b)) && p.prev[Item(b)] == Null && p.next[Item(b)] != To(Item(b))
    ensures p.next[Item(b)] == Null <==> |list| == 1
  {
    assert Neighbours(Ptrs(p.next, p.prev, p.open, tail), list, 0);
    assert list[0] in list;
    if |list| > 1 { assert list[1] != list[0]; }
  }

  lemma TakeOpen(p: Pool, n: nat, list: seq<Entry>, tail: Link, b: nat, x: nat)
    requires Valid(p, n, list, tail) && |list| > 0 && list[0] == Item(b) && b in p.free && x < n && p.free[b][x]
    ensures Item(b) in p.next
    ensures if p.refcount[b] + 1 == n then OpenOk(Take(p, n, b, x), n, list[1..], TailBehind(list, tail))
            else OpenOk(Take(p, n, b, x), n, list, tail)
  {
    hide Members, Loose, Forms;
    HeadPointers(p, n, list, tail, b);
    var t := Take(p, n, b, x);
    if p.refcount[b] + 1 == n {
      assert p.next[Item(b)] == Null ==> p.next[Item(b) := Null] == p.next;
      FullLeaves(p, t, n, list, tail, b);
      OpenNoDup(p, n, list, tail);
      MembersWithout(p.refcount, n, list, 0);
      assert Without(list, 0) == list[1..];
      LooseHead(p.refcount, n, p.next, p.prev, b, p.next[Item(b)]);
    } else {
      MembersKept(p.refcount, n, list, b, p.refcount[b] + 1);
      LooseKept(p.refcount, n, p.next, p.prev, b, p.refcount[b] + 1);
    }
  }

  lemma OpenNoDup(p: Pool, n: nat, list: seq<Entry>, tail: Link)
    requires OpenOk(p, n, list, tail)
    ensures NoDup(list)
  {
  }

  // ----- giving a slot back

  /** The open list after resp_free. */
  ghost function ListAfter(p: Pool, n: nat, list: seq<Entry>, b: nat): seq<Entry>
    requires b in p.refcount && (p.refcount[b] != n ==> Item(b) in list)
  {
    if p.refcount[b] == n then [Item(b)] + list
    else if p.refcount[b] > 1 || |list| == 1 then list
    else Without(list, Pos(list, Item(b)))
  }

  lemma FullRejoins(p: Pool, n: nat, list: seq<Entry>, tail: Link, b: nat)
    requires OpenOk(p, n, list, tail) && b in p.refcount && p.refcount[b] == n > 1
    ensures var q := LinkHead(Ptrs(p.next, p.prev, p.open, tail), Item(b));
            var refcount := p.refcount[b := n - 1];
            && Forms(q, [Item(b)] + list) && Members(refcount, n, [Item(b)] + list)
               && Loose(refcount, n, q.next, q.prev)
  {
    assert Item(b) !in list;
    LinkHeadForms(Ptrs(p.next, p.prev, p.open, tail), list, Item(b));
    PushMembers(Item(b), list);
    if |list| > 0 { assert list[0] in list; }
    hide Forms;
  }

  /** Unlinking an entry touches only members of the list. */
  lemma LooseUnlinked(p: Pool, n: nat, list: seq<Entry>, tail: Link, b: nat)
    requires OpenOk(p, n, list, tail) && b in p.refcount && Item(b) in list
    ensures Item(b) in p.next && Item(b) in p.prev
    ensures var q := Unlink(Ptrs(p.next, p.prev, p.open, tail), Item(b)); Loose(p.refcount - {b}, n, q.next, q.prev)
  {
    var i := Pos(list, Item(b));
    assert Neighbours(Ptrs(p.next, p.prev, p.open, tail), list, i);
    assert i > 0 ==> list[i - 1] in list;
    assert i + 1 < |list| ==> list[i + 1] in list;
    hide Forms, Pos;
  }

  lemma EmptyLeaves(p: Pool, n: nat, list: seq<Entry>, tail: Link, b: nat)
    requires OpenOk(p, n, list, tail) && b in p.refcount && p.refcount[b] < n && Item(b) in list && n > 0
    ensures Item(b) in p.next && Item(b) in p.prev
    ensures var q := Unlink(Ptrs(p.next, p.prev, p.open, tail), Item(b));
            var list' := Without(list, Pos(list, Item(b)));
            && Forms(q, list') && Members(p.refcount - {b}, n, list') && Loose(p.refcount - {b}, n, q.next, q.prev)
  {
    hide Forms, Members, Loose, Without, Pos, Unlink;
    OpenNoDup(p, n, list, tail);
    UnlinkForms(Ptrs(p.next, p.prev, p.open, tail), list, Pos(list, Item(b)));
    MembersWithout(p.refcount, n, list, Pos(list, Item(b)));
    LooseUnlinked(p, n, list, tail, b);
  }

  /** Unlink and LinkHead do the same to the fields whether or not the tail is known. */
  lemma TailUnknown(q: Ptrs, it: Entry)
    requires it in q.next && it in q.prev
    ensures Unlink(q.(tail := Null), it) == Unlink(q, it).(tail := Unlink(q.(tail := Null), it).tail)
    ensures LinkHead(q.(tail := Null), it) == LinkHead(q, it).(tail := LinkHead(q.(tail := Null), it).tail)
  {
  }

  lemma GiveOpen(p: Pool, n: nat, list: seq<Entry>, tail: Link, b: nat, x: nat)
    requires Valid(p, n, list, tail) && InUse(p, Slot(b, x)) && n > 1
    ensures Known(p, b) && p.refcount[b] > 0 && (p.refcount[b] != n ==> Item(b) in list)
    ensures exists tail' :: OpenOk(Give(p, b, x), n, ListAfter(p, n, list, b), tail')
  {
    hide Members, Loose, Forms, Unlink, LinkHead, Without, Pos;
    LinkedIsOpen(p, n, list, tail, b);
    GiveCounts(p, n, b, x);
    var q := Ptrs(p.next, p.prev, p.open, tail);
    TailUnknown(q, Item(b));
    if p.refcount[b] == n {
      FullRejoins(p, n, list, tail, b);
      assert OpenOk(Give(p, b, x), n, ListAfter(p, n, list, b), LinkHead(q, Item(b)).tail);
    } else if p.refcount[b] > 1 {
      MembersKept(p.refcount, n, list, b, p.refcount[b] - 1);
      LooseKept(p.refcount, n, p.next, p.prev, b, p.refcount[b] - 1);
      assert OpenOk(Give(p, b, x), n, ListAfter(p, n, list, b), tail);
    } else {
      GiveLast(p, n, list, tail, b, x);
    }
  }

  /** The last slot in use of a bundle: the only open bundle is kept, others go. */
  lemma GiveLast(p: Pool, n: nat, list: seq<Entry>, tail: Link, b: nat, x: nat)
    requires Valid(p, n, list, tail) && InUse(p, Slot(b, x)) && n > 1
    requires Known(p, b) && p.refcount[b] == 1 && Item(b) in list
    ensures exists tail' :: OpenOk(Give(p, b, x), n, ListAfter(p, n, list, b), tail')
  {
    hide Members, Loose, Forms, Unlink, Without, Pos;
    var q := Ptrs(p.next, p.prev, p.open, tail);
    TailUnknown(q, Item(b));
    SoleOpen(p, n, list, tail, b);
    if |list| == 1 {
      MembersKept(p.refcount, n, list, b, 0);
      LooseKept(p.refcount, n, p.next, p.prev, b, 0);
      assert OpenOk(Give(p, b, x), n, ListAfter(p, n, list, b), tail);
    } else {
      EmptyLeaves(p, n, list, tail, b);
      assert p.refcount[b := 0] - {b} == p.refcount - {b};
      assert OpenOk(Give(p, b, x), n, ListAfter(p, n, list, b), Unlink(q, Item(b)).tail);
    }
  }

  lemma SoleOpen(p: Pool, n: nat, list: seq<Entry>, tail: Link, b: nat)
    requires OpenOk(p, n, list, tail) && b in p.refcount && Item(b) in list && Known(p, b)
    ensures |list| == 1 <==> p.open == To(Item(b)) && p.next[Item(b)] == Null
  {
    assert p.open == To(list[0]) && Neighbours(Ptrs(p.next, p.prev, p.open, tail), list, 0);
  }

  // ------------------------------------------------------------------------ bundles of one slot

  /** What resp_allocate asserts when its search finds nothing: there was no open bundle. */
  predicate SearchSucceeds(p: Pool) {
    p.open.To? ==> p.open.entry.Item? && p.open.entry.addr in p.free && CountTrue(p.free[p.open.entry.addr]) > 0
  }

  lemma ValidSearch(p: Pool, n: nat, list: seq<Entry>, tail: Link)
    requires Valid(p, n, list, tail)
    ensures SearchSucceeds(p)
  {
    if |list| > 0 { assert list[0] in list; }
  }

  /** A new bundle goes into the open list without a look at its size, so the next search
      succeeds if and only if a bundle has more than one slot. */
  lemma SlotsNeeded(p: Pool, n: nat, tail: Link, b: nat)
    requires Valid(p, n, [], tail) && b !in p.free && n > 0
    ensures SearchSucceeds(Start(p, n, b)) <==> n > 1
  {
    StartCounts(p, n, b);
    assert Start(p, n, b).refcount[b] == 1;
  }

  // --------------------------------------------------------------------------------- the thread

  class Thread {
    const n: nat
    var refcount: map<nat, nat>
    var nextCheck: map<nat, nat>
    var free: map<nat, seq<bool>>
    var next: map<Entry, Link>
    var prev: map<Entry, Link>
    var open: Link
    ghost var list: seq<Entry>
    ghost var tail: Link

    ghost function Abs(): Pool
      reads this
    {
      Pool(refcount, nextCheck, free, next, prev, open)
    }

    ghost predicate Ok()
      reads this
    {
      n > 1 && Valid(Abs(), n, list, tail)
    }

    constructor (slots: nat)
      requires slots > 1
      ensures Ok() && n == slots && forall s :: !InUse(Abs(), s)
    {
      n := slots;
      refcount, nextCheck, free := map[], map[], map[];
      next, prev, open := map[], map[], Null;
      list, tail := [], Null;
    }

    /** resp_allocate; chunk is a fresh read buffer, if the cache has one. */
    method Allocate(chunk: Option<nat>) returns (r: Option<Slot>)
      requires Ok() && (chunk.Some? ==> chunk.value !in free)
      modifies this
      ensures Ok()
      ensures r.Some? ==> !InUse(old(Abs()), r.value)
      ensures r.Some? ==> forall s :: InUse(Abs(), s) <==> InUse(old(Abs()), s) || s == r.value
      ensures r.None? <==> old(list) == [] && chunk.None?
      ensures r.None? ==> Abs() == old(Abs()) && forall b :: b in free ==> refcount[b] == n
    {
      hide Forms, Members, Loose, CountsOk, Take, Start;
      r := None;
      OpenFacts(Abs(), n, list, tail);
      if open != Null {
        var b := open.entry.addr;
        var x := FindFree(free[b], nextCheck[b]);
        SomeIsFree(Abs(), n, list, tail, b);
        assert x != -1;
        TakeFrom(b, x);
        return Some(Slot(b, x));
      }
      if chunk.Some? {
        StartBundle(chunk.value);
        r := Some(Slot(chunk.value, 0));
      } else {
        AllFull(Abs(), n, list, tail);
      }
    }

    /** A free slot of the first open bundle is given out; a bundle that is full now leaves the list. */
    method TakeFrom(b: nat, x: nat)
      requires Ok() && |list| > 0 && list[0] == Item(b) && b in free && x < |free[b]| && free[b][x]
      modifies this
      ensures Ok() && !InUse(old(Abs()), Slot(b, x))
      ensures forall s :: InUse(Abs(), s) <==> InUse(old(Abs()), s) || s == Slot(b, x)
      ensures b in refcount && list == if refcount[b] == n then old(list)[1..] else old(list)
    {
      hide Forms, Members, Loose, CountsOk, Take;
      OpenFacts(Abs(), n, list, tail);
      TakeOpen(Abs(), n, list, tail, b, x);
      TakeCounts(Abs(), n, b, x);
      TakeSlots(Abs(), n, b, x);
      TakeIs(Abs(), n, b, x);
      nextCheck := nextCheck[b := x + 1];
      refcount := refcount[b := refcount[b] + 1];
      free := free[b := free[b][x := false]];
      if refcount[b] == n {
        open := next[Item(b)];
        if next[Item(b)] != Null {
          prev := prev[next[Item(b)].entry := Null];
          next := next[Item(b) := Null];
        }
        list, tail := list[1..], TailBehind(list, tail);
      }
    }

    /** When no bundle is open, a new one is, and its first slot is given out. */
    method StartBundle(b: nat)
      requires Ok() && list == [] && b !in free
      modifies this
      ensures Ok() && list == [Item(b)]
      ensures forall s :: InUse(Abs(), s) <==> InUse(old(Abs()), s) || s == Slot(b, 0)
    {
      hide OpenOk, CountsOk, InUse;
      StartOpen(Abs(), n, tail, b);
      StartCounts(Abs(), n, b);
      nextCheck := nextCheck[b := 1];
      refcount := refcount[b := 1];
      free := free[b := seq(n, _ => true)];
      next, prev := next[Item(b) := Null], prev[Item(b) := Null];
      open := To(Item(b));
      free := free[b := free[b][0 := false]];
      assert free[b] == [false] + seq(n - 1, _ => true);
      assert Abs() == Start(old(Abs()), n, b);
      list, tail := [Item(b)], To(Item(b));
    }

    /** resp_free. */
    method Free(s: Slot)
      requires Ok() && InUse(Abs(), s)
      modifies this
      ensures Ok() && forall t :: InUse(Abs(), t) <==> InUse(old(Abs()), t) && t != s
    {
      hide Forms, Members, Loose, CountsOk, Give, ListAfter;
      var b, x := s.bundle, s.index;
      GiveOpen(Abs(), n, list, tail, b, x);
      GiveCounts(Abs(), n, b, x);
      GiveSlots(Abs(), n, b, x);
      LinkedIsOpen(Abs(), n, list, tail, b);
      GiveAtHead(Abs(), n, list, tail, b);
      ghost var list' := ListAfter(Abs(), n, list, b);
      ghost var tail' :| OpenOk(Give(Abs(), b, x), n, list', tail');
      GiveBack(b, x);
      list, tail := list', tail';
    }

    /** The body of resp_free, with the conditions it asserts. */
    method GiveBack(b: nat, x: nat)
      requires Known(Abs(), b) && x < |free[b]| && refcount[b] > 0
      requires refcount[b] == 1 ==> Linked(Abs(), b)
      requires open == To(Item(b)) ==> prev[Item(b)] == Null
      requires next[Item(b)] != To(Item(b)) && prev[Item(b)] != To(Item(b))
      modifies this`refcount, this`nextCheck, this`free, this`next, this`prev, this`open
      ensures Abs() == Give(old(Abs()), b, x)
    {
      var it := Item(b);
      free := free[b := free[b][x := true]];
      refcount := refcount[b := refcount[b] - 1];
      if refcount[b] == 0 {
        if open == To(it) && next[it] == Null {
          assert prev[it] == Null;
          nextCheck := nextCheck[b := 0];
        } else {
          assert next[it] != Null || prev[it] != Null || open == To(it);
          if open == To(it) { open := next[it]; }
          if next[it] != Null { prev := prev[next[it].entry := prev[it]]; }
          if prev[it] != Null { next := next[prev[it].entry := next[it]]; }
          refcount, nextCheck, free := refcount - {b}, nextCheck - {b}, free - {b};
        }
      } else if open == To(it) || prev[it] != Null || next[it] != Null {
      } else {
        prev := prev[it := Null];
        next := next[it := open];
        if next[it] != Null { prev := prev[next[it].entry := To(it)]; }
        open := To(it);
      }
    }
  }

  /** What Take writes. */
  lemma TakeIs(p: Pool, n: nat, b: nat, x: nat)
    requires b in p.refcount && b in p.free && x < |p.free[b]| && Item(b) in p.next
    ensures var t := Take(p, n, b, x);
            && t.refcount == p.refcount[b := p.refcount[b] + 1] && t.free == p.free[b := p.free[b][x := false]]
            && t.nextCheck == p.nextCheck[b := x + 1]
            && (p.refcount[b] + 1 != n ==> t.next == p.next && t.prev == p.prev && t.open == p.open)
            && (p.refcount[b] + 1 == n ==> t.open == p.next[Item(b)])
            && (p.refcount[b] + 1 == n && p.next[Item(b)] == Null ==> t.next == p.next && t.prev == p.prev)
            && (p.refcount[b] + 1 == n && p.next[Item(b)] != Null ==>
                  t.prev == p.prev[p.next[Item(b)].entry := Null] && t.next == p.next[Item(b) := Null])
  {
  }

  lemma OpenFacts(p: Pool, n: nat, list: seq<Entry>, tail: Link)
    requires Valid(p, n, list, tail)
    ensures p.open == Null <==> list == []
    ensures p.open != Null ==>
              && p.open.entry == list[0] && list[0].Item?
              && var b := list[0].addr; b in p.free && b in p.refcount && b in p.nextCheck && Item(b) in p.next
                                        && |p.free[b]| == n && p.nextCheck[b] <= n
  {
    if |list| > 0 { assert list[0] in list && Neighbours(Ptrs(p.next, p.prev, p.open, tail), list, 0); }
  }

  lemma SomeIsFree(p: Pool, n: nat, list: seq<Entry>, tail: Link, b: nat)
    requires Valid(p, n, list, tail) && Item(b) in list && b in p.free
    ensures exists x :: 0 <= x < |p.free[b]| && p.free[b][x]
  {
    if forall x :: 0 <= x < |p.free[b]| ==> !p.free[b][x] { CountNone(p.free[b]); }
  }

  lemma AllFull(p: Pool, n: nat, list: seq<Entry>, tail: Link)
    requires Valid(p, n, list, tail) && list == []
    ensures forall b :: b in p.free ==> b in p.refcount && p.refcount[b] == n
  {
  }

  lemma GiveAtHead(p: Pool, n: nat, list: seq<Entry>, tail: Link, b: nat)
    requires Valid(p, n, list, tail) && Known(p, b)
    ensures p.next[Item(b)] != To(Item(b)) && p.prev[Item(b)] != To(Item(b))
  {
    if Item(b) in list {
      var i := Pos(list, Item(b));
      assert Neighbours(Ptrs(p.next, p.prev, p.open, tail), list, i);
    }
  }
}
