/** Singly linked lists that share one `next` field, as the pages, write buffers and IO objects of
    memcached/extstore.c are kept: what an operation on one list does to all of them. */
module NextLists {
  import opened Counting

  /** A pointer to an object, which is known by its number. */
  datatype Ptr = Nil | Ptr(id: nat)

  function PtrAt(list: seq<nat>, i: nat): Ptr {
    if i < |list| then Ptr(list[i]) else Nil
  }

  /** `head` starts the linked list of these objects. */
  ghost predicate Chained(next: map<nat, Ptr>, head: Ptr, list: seq<nat>) {
    && head == PtrAt(list, 0)
    && forall i :: 0 <= i < |list| ==> list[i] in next && next[list[i]] == PtrAt(list, i + 1)
  }

  ghost predicate AllChained(next: map<nat, Ptr>, heads: seq<Ptr>, lists: seq<seq<nat>>) {
    |heads| == |lists| && forall l :: 0 <= l < |lists| ==> Chained(next, heads[l], lists[l])
  }

  /** No object is in two lists, or twice in one. */
  ghost predicate Disjoint(lists: seq<seq<nat>>) {
    && (forall l :: 0 <= l < |lists| ==> NoDup(lists[l]))
    && (forall l, m, x :: 0 <= l < |lists| && 0 <= m < |lists| && l != m && x in lists[l] ==> x !in lists[m])
  }

  ghost predicate OnNoneOf(lists: seq<seq<nat>>, x: nat) {
    forall l :: 0 <= l < |lists| ==> x !in lists[l]
  }

  lemma StaysChained(next: map<nat, Ptr>, head: Ptr, list: seq<nat>, x: nat, link: Ptr)
    requires Chained(next, head, list) && x !in list
    ensures Chained(next[x := link], head, list)
  {
    forall i | 0 <= i < |list| ensures list[i] != x { assert list[i] in list; }
  }

  lemma HeadIs(next: map<nat, Ptr>, heads: seq<Ptr>, lists: seq<seq<nat>>, l: nat)
    requires AllChained(next, heads, lists) && l < |lists|
    ensures |heads| == |lists| && Chained(next, heads[l], lists[l]) && heads[l] == PtrAt(lists[l], 0)
  {
  }

  lemma ApartNoDup(lists: seq<seq<nat>>, l: nat)
    requires Disjoint(lists) && l < |lists|
    ensures NoDup(lists[l])
  {
  }

  lemma NextIs(next: map<nat, Ptr>, head: Ptr, list: seq<nat>, i: nat)
    requires Chained(next, head, list) && i < |list|
    ensures list[i] in next && next[list[i]] == PtrAt(list, i + 1)
  {
  }

  /** An object outside all lists may point anywhere. */
  lemma Retarget(next: map<nat, Ptr>, heads: seq<Ptr>, lists: seq<seq<nat>>, x: nat, link: Ptr)
    requires AllChained(next, heads, lists) && OnNoneOf(lists, x)
    ensures AllChained(next[x := link], heads, lists)
  {
    forall l | 0 <= l < |lists| ensures Chained(next[x := link], heads[l], lists[l]) {
      StaysChained(next, heads[l], lists[l], x, link);
    }
  }

  /** Taking the head off a list. */
  lemma Pop(next: map<nat, Ptr>, heads: seq<Ptr>, lists: seq<seq<nat>>, l: nat)
    requires AllChained(next, heads, lists) && Disjoint(lists) && l < |lists| && lists[l] != []
    ensures heads[l] == Ptr(lists[l][0]) && lists[l][0] in next
    ensures var lists' := lists[l := lists[l][1..]];
            AllChained(next, heads[l := next[lists[l][0]]], lists') && Disjoint(lists') && OnNoneOf(lists', lists[l][0])
  {
    var list := lists[l];
    var lists' := lists[l := list[1..]];
    assert Chained(next, heads[l], list);
    assert list == [list[0]] + list[1..];
    assert Chained(next, next[list[0]], list[1..]) by {
      forall i | 0 <= i < |list[1..]| ensures list[1..][i] in next && next[list[1..][i]] == PtrAt(list[1..], i + 1) {
        assert list[1..][i] == list[i + 1];
      }
    }
    assert list[0] in list;
    forall m | 0 <= m < |lists'| ensures list[0] !in lists'[m] {}
  }

  /** Putting an object in front of a list. */
  lemma Push(next: map<nat, Ptr>, heads: seq<Ptr>, lists: seq<seq<nat>>, l: nat, x: nat)
    requires AllChained(next, heads, lists) && Disjoint(lists) && l < |lists| && OnNoneOf(lists, x)
    ensures var lists' := lists[l := [x] + lists[l]];
            AllChained(next[x := heads[l]], heads[l := Ptr(x)], lists') && Disjoint(lists')
  {
    var next', heads', lists' := next[x := heads[l]], heads[l := Ptr(x)], lists[l := [x] + lists[l]];
    PushMembers(x, lists[l]);
    forall m | 0 <= m < |lists'| ensures Chained(next', heads'[m], lists'[m]) {
      StaysChained(next, heads[m], lists[m], x, heads[l]);
      if m == l { PushedChained(next', heads[l], lists[l], x); }
    }
  }

  lemma PushedChained(next: map<nat, Ptr>, head: Ptr, list: seq<nat>, x: nat)
    requires Chained(next, head, list) && x in next && next[x] == head
    ensures Chained(next, Ptr(x), [x] + list)
  {
    var l := [x] + list;
    forall i | 0 <= i < |l| ensures l[i] in next && next[l[i]] == PtrAt(l, i + 1) {
      if i > 0 { assert l[i] == list[i - 1]; }
    }
  }

  /** Unlinking an object that has another before it. */
  lemma Cut(next: map<nat, Ptr>, heads: seq<Ptr>, lists: seq<seq<nat>>, l: nat, i: nat)
    requires AllChained(next, heads, lists) && Disjoint(lists) && l < |lists| && 0 < i < |lists[l]|
    ensures lists[l][i] in next
    ensures var lists' := lists[l := Without(lists[l], i)];
            && AllChained(next[lists[l][i - 1] := next[lists[l][i]]], heads, lists')
            && Disjoint(lists') && OnNoneOf(lists', lists[l][i])
  {
    var list := lists[l];
    assert Chained(next, heads[l], list);
    var before, next' := list[i - 1], next[list[i - 1] := next[list[i]]];
    var lists' := lists[l := Without(list, i)];
    WithoutMembers(list, i);
    assert before in list && list[i] in list;
    CutChained(next, heads[l], list, i);
    forall m | 0 <= m < |lists'| ensures Chained(next', heads[m], lists'[m]) {
      if m != l { StaysChained(next, heads[m], lists[m], before, next[list[i]]); }
    }
  }

  /** Unlinking an object, which then points nowhere: the writes of a walk with a trailing pointer. */
  lemma UnlinkAt(next: map<nat, Ptr>, heads: seq<Ptr>, lists: seq<seq<nat>>, l: nat, i: nat)
    requires AllChained(next, heads, lists) && Disjoint(lists) && l < |lists| && i < |lists[l]|
    ensures lists[l][i] in next
    ensures var x := lists[l][i];
            var lists' := lists[l := Without(lists[l], i)];
            && (if i > 0 then AllChained(next[lists[l][i - 1] := next[x]][x := Nil], heads, lists')
                else AllChained(next[x := Nil], heads[l := next[x]], lists'))
            && Disjoint(lists') && OnNoneOf(lists', x)
  {
    var x := lists[l][i];
    var lists' := lists[l := Without(lists[l], i)];
    if i > 0 {
      Cut(next, heads, lists, l, i);
      Retarget(next[lists[l][i - 1] := next[x]], heads, lists', x, Nil);
    } else {
      Pop(next, heads, lists, l);
      assert Without(lists[l], 0) == lists[l][1..];
      Retarget(next, heads[l := next[x]], lists', x, Nil);
    }
  }

  lemma CutChained(next: map<nat, Ptr>, head: Ptr, list: seq<nat>, i: nat)
    requires Chained(next, head, list) && NoDup(list) && 0 < i < |list|
    ensures Chained(next[list[i - 1] := next[list[i]]], head, Without(list, i))
  {
    var r, next' := Without(list, i), next[list[i - 1] := next[list[i]]];
    forall j | 0 <= j < |r| ensures r[j] in next' && next'[r[j]] == PtrAt(r, j + 1) {
      var j0 := if j < i then j else j + 1;
      assert r[j] == list[j0] && (j0 != i - 1 ==> list[j0] != list[i - 1]);
    }
  }

  /** Putting list m at the end of list l. */
  lemma Join(next: map<nat, Ptr>, heads: seq<Ptr>, lists: seq<seq<nat>>, l: nat, m: nat)
    requires AllChained(next, heads, lists) && Disjoint(lists) && l < |lists| && m < |lists| && l != m && lists[l] != []
    ensures var list := lists[l];
            var lists' := lists[l := list + lists[m]][m := []];
            AllChained(next[list[|list| - 1] := heads[m]], heads[m := Nil], lists') && Disjoint(lists')
  {
    var list, more := lists[l], lists[m];
    var last := list[|list| - 1];
    var next', heads', lists' := next[last := heads[m]], heads[m := Nil], lists[l := list + more][m := []];
    assert last in list;
    JoinedChained(next, heads[l], list, heads[m], more);
    forall k | 0 <= k < |lists'| ensures Chained(next', heads'[k], lists'[k]) {
      if k != l && k != m { StaysChained(next, heads[k], lists[k], last, heads[m]); }
    }
    JoinApart(list, more);
  }

  /** Making list m the empty list l. */
  lemma TakeOver(next: map<nat, Ptr>, heads: seq<Ptr>, lists: seq<seq<nat>>, l: nat, m: nat)
    requires AllChained(next, heads, lists) && Disjoint(lists) && l < |lists| && m < |lists| && l != m && lists[l] == []
    ensures var lists' := lists[l := lists[m]][m := []];
            AllChained(next, heads[l := heads[m]][m := Nil], lists') && Disjoint(lists')
  {
    forall k | 0 <= k < |lists| ensures Chained(next, heads[k], lists[k]) {}
  }

  /** An empty list at the end does not matter. */
  lemma DropLast(next: map<nat, Ptr>, heads: seq<Ptr>, lists: seq<seq<nat>>)
    requires AllChained(next, heads, lists) && Disjoint(lists) && |lists| > 0
    ensures AllChained(next, heads[..|heads| - 1], lists[..|lists| - 1]) && Disjoint(lists[..|lists| - 1])
  {
  }

  lemma JoinApart(list: seq<nat>, more: seq<nat>)
    requires NoDup(list) && NoDup(more) && forall x :: x in list ==> x !in more
    ensures NoDup(list + more)
  {
    var l := list + more;
    forall i, j | 0 <= i < j < |l| ensures l[i] != l[j] {
      if i < |list| <= j { assert l[i] in list && l[j] == more[j - |list|]; }
    }
  }

  lemma JoinedChained(next: map<nat, Ptr>, head: Ptr, list: seq<nat>, rest: Ptr, more: seq<nat>)
    requires Chained(next, head, list) && Chained(next, rest, more) && list != [] && NoDup(list)
    requires list[|list| - 1] !in more
    ensures Chained(next[list[|list| - 1] := rest], head, list + more)
  {
    var l, next' := list + more, next[list[|list| - 1] := rest];
    forall i | 0 <= i < |l| ensures l[i] in next' && next'[l[i]] == PtrAt(l, i + 1) {
      if i < |list| - 1 {
        assert l[i] == list[i] && list[i] != list[|list| - 1];
      } else if i >= |list| {
        assert l[i] == more[i - |list|] && more[i - |list|] in more;
      }
    }
  }

  /** Taking the first n objects of list l off, as list m. */
  lemma Split(next: map<nat, Ptr>, heads: seq<Ptr>, lists: seq<seq<nat>>, l: nat, m: nat, n: nat)
    requires AllChained(next, heads, lists) && Disjoint(lists) && l < |lists| && m < |lists| && l != m
    requires 0 < n <= |lists[l]| && lists[m] == []
    ensures lists[l][n - 1] in next && next[lists[l][n - 1]] == PtrAt(lists[l], n)
    ensures var list := lists[l];
            var lists' := lists[l := list[n..]][m := list[..n]];
            AllChained(next[list[n - 1] := Nil], heads[l := PtrAt(list, n)][m := heads[l]], lists') && Disjoint(lists')
  {
    var list := lists[l];
    assert Chained(next, heads[l], list);
    var next', heads', lists' := next[list[n - 1] := Nil], heads[l := PtrAt(list, n)][m := heads[l]],
      lists[l := list[n..]][m := list[..n]];
    assert list == list[..n] + list[n..] && list[n - 1] in list;
    SplitChained(next, heads[l], list, n);
    forall k | 0 <= k < |lists'| ensures Chained(next', heads'[k], lists'[k]) {
      if k != l && k != m { StaysChained(next, heads[k], lists[k], list[n - 1], Nil); }
    }
    SplitApart(list, n);
  }

  lemma SplitChained(next: map<nat, Ptr>, head: Ptr, list: seq<nat>, n: nat)
    requires Chained(next, head, list) && NoDup(list) && 0 < n <= |list|
    ensures Chained(next[list[n - 1] := Nil], head, list[..n])
            && Chained(next[list[n - 1] := Nil], PtrAt(list, n), list[n..])
  {
    var next' := next[list[n - 1] := Nil];
    forall i | 0 <= i < n ensures list[..n][i] in next' && next'[list[..n][i]] == PtrAt(list[..n], i + 1) {
      assert i < n - 1 ==> list[i] != list[n - 1];
    }
    var r := list[n..];
    forall i | 0 <= i < |r| ensures r[i] in next' && next'[r[i]] == PtrAt(r, i + 1) {
      assert r[i] == list[n + i] && list[n + i] != list[n - 1];
    }
  }

  lemma SplitApart(list: seq<nat>, n: nat)
    requires NoDup(list) && n <= |list|
    ensures NoDup(list[..n]) && NoDup(list[n..]) && forall x :: x in list[..n] ==> x !in list[n..]
    ensures forall x :: x in list <==> x in list[..n] || x in list[n..]
  {
    assert list == list[..n] + list[n..];
  }

  // ------------------------------------------------- one list and two tables of lists

  /** The lists of an engine: a list by itself, and two tables of lists. */
  function Layout<T>(a: T, bs: seq<T>, cs: seq<T>): (r: seq<T>)
    ensures |r| == 1 + |bs| + |cs| && r[0] == a
    ensures forall i :: 0 <= i < |bs| ==> r[1 + i] == bs[i]
    ensures forall i :: 0 <= i < |cs| ==> r[1 + |bs| + i] == cs[i]
  {
    [a] + bs + cs
  }

  lemma LayoutFirst<T>(a: T, bs: seq<T>, cs: seq<T>, x: T)
    ensures |Layout(a, bs, cs)| == 1 + |bs| + |cs| && Layout(a, bs, cs)[0] == a
    ensures Layout(x, bs, cs) == Layout(a, bs, cs)[0 := x]
  {
  }

  lemma LayoutMiddle<T>(a: T, bs: seq<T>, cs: seq<T>, i: nat, x: T)
    requires i < |bs|
    ensures |Layout(a, bs, cs)| == 1 + |bs| + |cs| && Layout(a, bs, cs)[1 + i] == bs[i]
    ensures Layout(a, bs[i := x], cs) == Layout(a, bs, cs)[1 + i := x]
  {
  }

  lemma LayoutLast<T>(a: T, bs: seq<T>, cs: seq<T>, i: nat, x: T)
    requires i < |cs|
    ensures |Layout(a, bs, cs)| == 1 + |bs| + |cs| && Layout(a, bs, cs)[1 + |bs| + i] == cs[i]
    ensures Layout(a, bs, cs[i := x]) == Layout(a, bs, cs)[1 + |bs| + i := x]
  {
  }

  lemma LayoutBoth<T>(a: T, bs: seq<T>, cs: seq<T>, i: nat, x: T, y: T)
    requires i < |bs| == |cs|
    ensures Layout(a, bs[i := x], cs[i := y]) == Layout(a, bs, cs)[1 + i := x][1 + |bs| + i := y]
    ensures |Layout(a, bs, cs)| == 1 + |bs| + |cs| && Layout(a, bs, cs)[1 + i] == bs[i]
            && Layout(a, bs, cs)[1 + |bs| + i] == cs[i]
  {
    hide Layout;
    LayoutMiddle(a, bs, cs, i, x);
    LayoutLast(a, bs, cs, i, y);
    LayoutLast(a, bs[i := x], cs, i, y);
  }

  /** A list by itself, and two tables of empty ones. */
  lemma LayoutEmpty(next: map<nat, Ptr>, head: Ptr, list: seq<nat>, n: nat)
    requires Chained(next, head, list) && NoDup(list)
    ensures AllChained(next, Layout(head, seq(n, _ => Nil), seq(n, _ => Nil)),
                       Layout(list, seq(n, _ => []), seq(n, _ => [])))
    ensures Disjoint(Layout(list, seq(n, _ => []), seq(n, _ => [])))
  {
    var lists := Layout(list, seq(n, _ => []), seq(n, _ => []));
    forall l | 0 < l < |lists| ensures lists[l] == [] && Layout(head, seq(n, _ => Nil), seq(n, _ => Nil))[l] == Nil {}
  }
}
