/** The doubly linked LRU lists of memcached/items.c, pointer by pointer: linking at
    the head, unlinking, the tail operations of the LRU crawler, and the crawler's
    in-place walk from the tail to the head. */
module LruList {
  import opened Counting

  /** What an LRU list holds: items by address, and at most the crawler of the list. */
  datatype Entry = Item(addr: nat) | Crawler(lru: nat)

  /** A pointer to an entry. */
  datatype Link = Null | To(entry: Entry)

  /** The prev and next fields of all entries, and the head and tail of one list. */
  datatype Ptrs = Ptrs(next: map<Entry, Link>, prev: map<Entry, Link>, head: Link, tail: Link)

  /** The pointer to position i of a list, null outside it. */
  function At(list: seq<Entry>, i: int): Link {
    if 0 <= i < |list| then To(list[i]) else Null
  }

  predicate Neighbours(p: Ptrs, list: seq<Entry>, i: int)
    requires 0 <= i < |list|
  {
    list[i] in p.next && list[i] in p.prev && p.next[list[i]] == At(list, i + 1) && p.prev[list[i]] == At(list, i - 1)
  }

  /** The pointers form the list, head first. */
  ghost predicate Forms(p: Ptrs, list: seq<Entry>) {
    && NoDup(list)
    && p.head == At(list, 0) && p.tail == At(list, |list| - 1)
    && forall i :: 0 <= i < |list| ==> Neighbours(p, list, i)
  }

  /** Another list in the same memory: only its entries' fields matter. */
  lemma OthersForm(p: Ptrs, q: Ptrs, list: seq<Entry>)
    requires Forms(p, list) && q.head == p.head && q.tail == p.tail
    requires forall x :: x in list ==>
             (x in q.next && x in q.prev && (x in p.next ==> q.next[x] == p.next[x])
              && (x in p.prev ==> q.prev[x] == p.prev[x]))
    ensures Forms(q, list)
  {
    forall i | 0 <= i < |list| ensures Neighbours(q, list, i) {
      assert list[i] in list && Neighbours(p, list, i);
    }
  }

  // ---------------------------------------------------------------- linking at the head

  /** do_item_link_q. */
  function LinkHead(p: Ptrs, it: Entry): Ptrs {
    var p1 := p.(prev := p.prev[it := Null], next := p.next[it := p.head]);
    var p2 := if p1.next[it] != Null then p1.(prev := p1.prev[p1.next[it].entry := To(it)]) else p1;
    var p3 := p2.(head := To(it));
    if p3.tail == Null then p3.(tail := To(it)) else p3
  }

  lemma LinkHeadForms(p: Ptrs, list: seq<Entry>, it: Entry)
    requires Forms(p, list) && it !in list
    ensures Forms(LinkHead(p, it), [it] + list)
  {
    var q, l := LinkHead(p, it), [it] + list;
    PushMembers(it, list);
    forall i | 0 <= i < |l| ensures Neighbours(q, l, i) {
      if i > 0 {
        assert l[i] == list[i - 1] && Neighbours(p, list, i - 1);
        if i > 1 { assert list[i - 1] != list[0]; }
      }
    }
  }

  /** The position of an entry. */
  function Pos(list: seq<Entry>, e: Entry): (i: nat)
    requires e in list
    ensures i < |list| && list[i] == e
  {
    if list[0] == e then 0 else 1 + Pos(list[1..], e)
  }

  lemma PosUnique(list: seq<Entry>, i: nat)
    requires NoDup(list) && i < |list|
    ensures Pos(list, list[i]) == i
  {
    assert list[Pos(list, list[i])] == list[i];
  }

  // ------------------------------------------------------------------------ unlinking

  /** do_item_unlink_q and do_item_unlinktail_q; the item's own fields stay as they are. */
  function Unlink(p: Ptrs, it: Entry): Ptrs
    requires it in p.next && it in p.prev
  {
    var p1 := if p.head == To(it) then p.(head := p.next[it]) else p;
    var p2 := if p1.tail == To(it) then p1.(tail := p1.prev[it]) else p1;
    var p3 := if p2.next[it] != Null then p2.(prev := p2.prev[p2.next[it].entry := p2.prev[it]]) else p2;
    if p3.prev[it] != Null then p3.(next := p3.next[p3.prev[it].entry := p3.next[it]]) else p3
  }

  lemma UnlinkForms(p: Ptrs, list: seq<Entry>, i: nat)
    requires Forms(p, list) && i < |list|
    ensures list[i] in p.next && list[i] in p.prev
    ensures Forms(Unlink(p, list[i]), Without(list, i))
  {
    assert Neighbours(p, list, i);
    var q, l := Unlink(p, list[i]), Without(list, i);
    WithoutMembers(list, i);
    forall j | 0 <= j < |l| ensures Neighbours(q, l, j) {
      var j0 := if j < i then j else j + 1;
      assert l[j] == list[j0] && Neighbours(p, list, j0);
      assert i > 0 && j0 != i - 1 ==> list[j0] != list[i - 1];
      assert i + 1 < |list| && j0 != i + 1 ==> list[j0] != list[i + 1];
    }
  }

  // ------------------------------------------------------------- the crawler's own steps

  /** do_item_linktail_q. */
  function LinkTail(p: Ptrs, it: Entry): Ptrs {
    var p1 := p.(prev := p.prev[it := p.tail], next := p.next[it := Null]);
    var p2 := if p1.prev[it] != Null then p1.(next := p1.next[p1.prev[it].entry := To(it)]) else p1;
    var p3 := p2.(tail := To(it));
    if p3.head == Null then p3.(head := To(it)) else p3
  }

  lemma LinkTailForms(p: Ptrs, list: seq<Entry>, it: Entry)
    requires Forms(p, list) && it !in list
    ensures Forms(LinkTail(p, it), list + [it])
  {
    var q, l := LinkTail(p, it), list + [it];
    forall i | 0 <= i < |l| ensures Neighbours(q, l, i) {
      if i < |list| {
        assert l[i] == list[i] && Neighbours(p, list, i);
        if i < |list| - 1 { assert list[i] != list[|list| - 1]; }
      }
    }
  }

  /** do_item_crawl_q at the head: the crawler is taken off in front, its own next stays. */
  function PopHead(p: Ptrs, it: Entry): Ptrs
    requires it in p.next
  {
    if p.next[it] != Null then
      p.(head := p.next[it], prev := p.prev[p.next[it].entry := Null])
    else p
  }

  /** do_item_crawl_q elsewhere: the crawler swings in front of the entry before it. */
  function Swing(p: Ptrs, it: Entry): Ptrs
    requires it in p.next && it in p.prev && p.prev[it].To? && p.prev[it].entry != it
    requires p.prev[it].entry in p.prev && p.next[it] != To(it)
  {
    var before := p.prev[it].entry;
    var p1 := if p.head == To(before) then p.(head := To(it)) else p;
    var p2 := if p1.tail == To(it) then p1.(tail := To(before)) else p1;
    var p3 := if p2.next[it] != Null then
      p2.(next := p2.next[before := p2.next[it]], prev := p2.prev[p2.next[it].entry := To(before)])
    else p2.(next := p2.next[before := Null]);
    var p4 := p3.(next := p3.next[it := To(before)]);
    var p5 := p4.(prev := p4.prev[it := p4.prev[before]]);
    var p6 := p5.(prev := p5.prev[before := To(it)]);
    if p6.prev[it] != Null then p6.(next := p6.next[p6.prev[it].entry := To(it)]) else p6
  }

  /** The list with entry i moved one place towards the head. */
  function Swapped(list: seq<Entry>, i: nat): seq<Entry>
    requires 0 < i < |list|
  {
    list[i - 1 := list[i]][i := list[i - 1]]
  }

  lemma SwingForms(p: Ptrs, list: seq<Entry>, i: nat)
    requires Forms(p, list) && 0 < i < |list|
    ensures Neighbours(p, list, i) && Neighbours(p, list, i - 1)
    ensures p.prev[list[i]] == To(list[i - 1])
    ensures list[i - 1] != list[i] && p.next[list[i]] != To(list[i])
    ensures Forms(Swing(p, list[i]), Swapped(list, i))
    ensures Swing(p, list[i]).next[list[i]] == To(list[i - 1])
  {
    assert Neighbours(p, list, i) && Neighbours(p, list, i - 1);
    var q, l := Swing(p, list[i]), Swapped(list, i);
    SwappedMembers(list, i);
    forall j | 0 <= j < |l| ensures Neighbours(q, l, j) {
      var j0 := if j == i then i - 1 else if j == i - 1 then i else j;
      assert l[j] == list[j0] && Neighbours(p, list, j0);
      assert j0 != i ==> list[j0] != list[i];
      assert j0 != i - 1 ==> list[j0] != list[i - 1];
      assert i > 1 && j0 != i - 2 ==> list[j0] != list[i - 2];
      assert i + 1 < |list| && j0 != i + 1 ==> list[j0] != list[i + 1];
    }
  }

  lemma SwappedMembers(list: seq<Entry>, i: nat)
    requires 0 < i < |list| && NoDup(list)
    ensures NoDup(Swapped(list, i))
    ensures forall x :: x in Swapped(list, i) <==> x in list
  {
    var l := Swapped(list, i);
    forall x | x in list ensures x in l {
      var j :| 0 <= j < |list| && list[j] == x;
      assert l[if j == i then i - 1 else if j == i - 1 then i else j] == x;
    }
  }

  /** However the crawl ends, unlinking the crawler leaves the list of the other entries:
      from the tail or the middle directly, at the head after PopHead. */
  lemma CrawlEnds(p: Ptrs, list: seq<Entry>)
    requires Forms(p, list) && |list| > 0
    ensures list[0] in p.next && list[0] in PopHead(p, list[0]).next && list[0] in PopHead(p, list[0]).prev
    ensures Forms(Unlink(PopHead(p, list[0]), list[0]), list[1..])
  {
    assert Neighbours(p, list, 0);
    var popped := PopHead(p, list[0]);
    var q := Unlink(popped, list[0]);
    if |list| > 1 {
      forall j | 0 <= j < |list[1..]| ensures Neighbours(q, list[1..], j) {
        assert Neighbours(p, list, j + 1) && list[j + 1] != list[0];
        if j > 0 { assert list[j + 1] != list[1]; }
      }
    }
  }
}
