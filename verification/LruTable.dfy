/** All LRU lists together: they share the next and prev fields, so an operation on one list
    has to leave the others standing. */
module LruTable {
  import opened Counting
  import opened LruList

  /** The pointers as one list sees them. */
  function View(next: map<Entry, Link>, prev: map<Entry, Link>, heads: seq<Link>, tails: seq<Link>, l: nat): Ptrs
    requires l < |heads| == |tails|
  {
    Ptrs(next, prev, heads[l], tails[l])
  }

  ghost predicate AllForm(next: map<Entry, Link>, prev: map<Entry, Link>, heads: seq<Link>, tails: seq<Link>,
                          lists: seq<seq<Entry>>) {
    && |heads| == |tails| == |lists|
    && forall l :: 0 <= l < |lists| ==> Forms(View(next, prev, heads, tails, l), lists[l])
  }

  /** No entry is in two lists. */
  ghost predicate Apart(lists: seq<seq<Entry>>) {
    forall l, m, e :: 0 <= l < |lists| && 0 <= m < |lists| && l != m && e in lists[l] ==> e !in lists[m]
  }

  /** An entry that is in no list. */
  ghost predicate Nowhere(lists: seq<seq<Entry>>, e: Entry) {
    forall m :: 0 <= m < |lists| ==> e !in lists[m]
  }

  /** The pointers of all entries but those of a list and one more are as before. */
  ghost predicate AgreeOff(p: Ptrs, q: Ptrs, list: seq<Entry>, it: Entry) {
    && (forall x :: x in p.next && x !in list && x != it ==> x in q.next && q.next[x] == p.next[x])
    && (forall x :: x in p.prev && x !in list && x != it ==> x in q.prev && q.prev[x] == p.prev[x])
  }

  /** One list is redone, the others stand. */
  lemma Redone(next: map<Entry, Link>, prev: map<Entry, Link>, heads: seq<Link>, tails: seq<Link>,
               lists: seq<seq<Entry>>, l: nat, q: Ptrs, list: seq<Entry>, it: Entry)
    requires AllForm(next, prev, heads, tails, lists) && Apart(lists) && l < |lists|
    requires forall m :: 0 <= m < |lists| && m != l ==> it !in lists[m]
    requires AgreeOff(View(next, prev, heads, tails, l), q, lists[l], it) && Forms(q, list)
    ensures AllForm(q.next, q.prev, heads[l := q.head], tails[l := q.tail], lists[l := list])
  {
    var heads', tails', lists' := heads[l := q.head], tails[l := q.tail], lists[l := list];
    forall m | 0 <= m < |lists'| ensures Forms(View(q.next, q.prev, heads', tails', m), lists'[m]) {
      if m != l {
        var p := View(next, prev, heads, tails, m);
        forall x | x in lists[m] ensures x in next && x in prev && x !in lists[l] && x != it {
          var i :| 0 <= i < |lists[m]| && lists[m][i] == x;
          assert Neighbours(p, lists[m], i);
        }
        OthersForm(p, View(q.next, q.prev, heads', tails', m), lists[m]);
      }
    }
  }

  lemma LinkHeadAgrees(p: Ptrs, list: seq<Entry>, it: Entry)
    requires Forms(p, list)
    ensures AgreeOff(p, LinkHead(p, it), list, it)
  {
    if |list| > 0 { assert p.head == To(list[0]) && list[0] in list; }
  }

  lemma LinkTailAgrees(p: Ptrs, list: seq<Entry>, it: Entry)
    requires Forms(p, list)
    ensures AgreeOff(p, LinkTail(p, it), list, it)
  {
    if |list| > 0 { assert p.tail == To(list[|list| - 1]) && list[|list| - 1] in list; }
  }

  lemma UnlinkAgrees(p: Ptrs, list: seq<Entry>, i: nat)
    requires Forms(p, list) && i < |list|
    ensures Neighbours(p, list, i) && AgreeOff(p, Unlink(p, list[i]), list, list[i])
  {
    assert Neighbours(p, list, i);
    if i + 1 < |list| { assert list[i + 1] in list; }
    if i > 0 { assert list[i - 1] in list; }
  }

  lemma SwingAgrees(p: Ptrs, list: seq<Entry>, i: nat)
    requires Forms(p, list) && 0 < i < |list|
    ensures Neighbours(p, list, i) && Neighbours(p, list, i - 1)
    ensures p.prev[list[i]] == To(list[i - 1]) && list[i - 1] != list[i] && p.next[list[i]] != To(list[i])
    ensures AgreeOff(p, Swing(p, list[i]), list, list[i])
  {
    SwingForms(p, list, i);
    assert list[i - 1] in list;
    if i + 1 < |list| { assert list[i + 1] in list; }
    if i > 1 { assert list[i - 2] in list; }
  }

  lemma PopAgrees(p: Ptrs, list: seq<Entry>)
    requires Forms(p, list) && |list| > 0
    ensures list[0] in p.next && list[0] in PopHead(p, list[0]).next && list[0] in PopHead(p, list[0]).prev
    ensures AgreeOff(p, Unlink(PopHead(p, list[0]), list[0]), list, list[0])
  {
    CrawlEnds(p, list);
    assert Neighbours(p, list, 0);
    if |list| > 1 { assert list[1] in list && Neighbours(p, list, 1); }
  }

  /** Linking at the head of list l. */
  lemma LinkHeadAll(next: map<Entry, Link>, prev: map<Entry, Link>, heads: seq<Link>, tails: seq<Link>,
                    lists: seq<seq<Entry>>, l: nat, it: Entry)
    requires AllForm(next, prev, heads, tails, lists) && Apart(lists) && l < |lists| && Nowhere(lists, it)
    ensures var q := LinkHead(View(next, prev, heads, tails, l), it);
            var lists' := lists[l := [it] + lists[l]];
            AllForm(q.next, q.prev, heads[l := q.head], tails[l := q.tail], lists') && Apart(lists')
  {
    var p := View(next, prev, heads, tails, l);
    LinkHeadForms(p, lists[l], it);
    LinkHeadAgrees(p, lists[l], it);
    Redone(next, prev, heads, tails, lists, l, LinkHead(p, it), [it] + lists[l], it);
  }

  /** Linking at the tail of list l. */
  lemma LinkTailAll(next: map<Entry, Link>, prev: map<Entry, Link>, heads: seq<Link>, tails: seq<Link>,
                    lists: seq<seq<Entry>>, l: nat, it: Entry)
    requires AllForm(next, prev, heads, tails, lists) && Apart(lists) && l < |lists| && Nowhere(lists, it)
    ensures var q := LinkTail(View(next, prev, heads, tails, l), it);
            AllForm(q.next, q.prev, heads[l := q.head], tails[l := q.tail], lists[l := lists[l] + [it]])
  {
    var p := View(next, prev, heads, tails, l);
    LinkTailForms(p, lists[l], it);
    LinkTailAgrees(p, lists[l], it);
    Redone(next, prev, heads, tails, lists, l, LinkTail(p, it), lists[l] + [it], it);
  }

  /** Unlinking position i of list l. */
  lemma UnlinkAll(next: map<Entry, Link>, prev: map<Entry, Link>, heads: seq<Link>, tails: seq<Link>,
                  lists: seq<seq<Entry>>, l: nat, i: nat)
    requires AllForm(next, prev, heads, tails, lists) && Apart(lists) && l < |lists| && i < |lists[l]|
    ensures Neighbours(View(next, prev, heads, tails, l), lists[l], i)
    ensures var q := Unlink(View(next, prev, heads, tails, l), lists[l][i]);
            var lists' := lists[l := Without(lists[l], i)];
            && AllForm(q.next, q.prev, heads[l := q.head], tails[l := q.tail], lists')
            && Apart(lists') && Nowhere(lists', lists[l][i])
  {
    var p := View(next, prev, heads, tails, l);
    UnlinkForms(p, lists[l], i);
    UnlinkAgrees(p, lists[l], i);
    WithoutMembers(lists[l], i);
    Redone(next, prev, heads, tails, lists, l, Unlink(p, lists[l][i]), Without(lists[l], i), lists[l][i]);
  }

  /** Swinging position i of list l one place towards the head. */
  lemma SwingAll(next: map<Entry, Link>, prev: map<Entry, Link>, heads: seq<Link>, tails: seq<Link>,
                 lists: seq<seq<Entry>>, l: nat, i: nat)
    requires AllForm(next, prev, heads, tails, lists) && Apart(lists) && l < |lists| && 0 < i < |lists[l]|
    ensures var p := View(next, prev, heads, tails, l);
            && Neighbours(p, lists[l], i) && Neighbours(p, lists[l], i - 1)
            && lists[l][i - 1] != lists[l][i] && p.next[lists[l][i]] != To(lists[l][i])
            && var q := Swing(p, lists[l][i]);
               && AllForm(q.next, q.prev, heads[l := q.head], tails[l := q.tail], lists[l := Swapped(lists[l], i)])
               && lists[l][i] in q.next && q.next[lists[l][i]] == To(lists[l][i - 1])
  {
    var p := View(next, prev, heads, tails, l);
    SwingForms(p, lists[l], i);
    SwingAgrees(p, lists[l], i);
    Redone(next, prev, heads, tails, lists, l, Swing(p, lists[l][i]), Swapped(lists[l], i), lists[l][i]);
  }

  /** Taking the head of list l off, first in front and then for good. */
  lemma PopAll(next: map<Entry, Link>, prev: map<Entry, Link>, heads: seq<Link>, tails: seq<Link>,
               lists: seq<seq<Entry>>, l: nat)
    requires AllForm(next, prev, heads, tails, lists) && Apart(lists) && l < |lists| && |lists[l]| > 0
    ensures var p := View(next, prev, heads, tails, l); var c := lists[l][0];
            && Neighbours(p, lists[l], 0)
            && c in PopHead(p, c).next && c in PopHead(p, c).prev
            && var q := Unlink(PopHead(p, c), c);
               AllForm(q.next, q.prev, heads[l := q.head], tails[l := q.tail], lists[l := lists[l][1..]])
  {
    var p := View(next, prev, heads, tails, l);
    assert Neighbours(p, lists[l], 0);
    CrawlEnds(p, lists[l]);
    PopAgrees(p, lists[l]);
    Redone(next, prev, heads, tails, lists, l, Unlink(PopHead(p, lists[l][0]), lists[l][0]), lists[l][1..],
           lists[l][0]);
  }
}
