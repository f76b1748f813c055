/** The item cache of memcached/items.c: reference counts, the hash table, the segmented LRU
    lists with their counters, and what every operation on them keeps. Each step below is
    one operation under the item's lock and the LRU lock. */
module Items {
  import opened Counting
  import opened LruList

  type Key = string

  const HOT := 0
  const WARM := 64
  const COLD := 128
  const TEMP := 192
  const LISTS := 256

  /** An item; lru is slabs_clsid, the slab class below 64 plus the segment. */
  datatype ItemData = ItemData(
    key: Key, ntotal: nat, lru: nat, linked: bool, active: bool, fetched: bool,
    refcount: nat, time: nat, exptime: nat, cas: nat)

  /** The cache. Addresses outside items are free slab chunks. held counts, for each item,
      the references of threads, connections and bump buffers: what refcount ought to hold
      beside the reference of the hash table. */
  datatype State = State(
    items: map<nat, ItemData>,
    lists: seq<seq<Entry>>,
    crawling: seq<bool>,
    sizes: seq<int>,
    bytes: seq<int>,
    currItems: int,
    currBytes: int,
    table: map<Key, nat>,
    held: map<nat, nat>)

  function ClassOf(lru: nat): (cls: nat)
    ensures cls < 64
  {
    lru % 64
  }

  function SegmentOf(lru: nat): nat { lru - lru % 64 }

  // ------------------------------------------------------------------------ the invariant

  predicate ShapeOk(s: State) {
    && |s.lists| == LISTS && |s.crawling| == LISTS && |s.sizes| == LISTS && |s.bytes| == LISTS
    && forall a :: a in s.items ==> s.items[a].lru < LISTS
  }

  ghost predicate NoDups(lists: seq<seq<Entry>>) {
    forall l :: 0 <= l < |lists| ==> NoDup(lists[l])
  }

  /** What may stand in list l. */
  predicate Belongs(items: map<nat, ItemData>, crawling: seq<bool>, l: nat, e: Entry)
    requires l < |crawling|
  {
    match e
    case Item(a) => a in items && items[a].linked && items[a].lru == l
    case Crawler(i) => i == l && crawling[l]
  }

  ghost predicate Homes(items: map<nat, ItemData>, lists: seq<seq<Entry>>, crawling: seq<bool>)
    requires |lists| == |crawling|
  {
    forall l, e :: 0 <= l < |lists| && e in lists[l] ==> Belongs(items, crawling, l, e)
  }

  /** Every linked item, and every running crawler, is in its list. */
  ghost predicate Placed(items: map<nat, ItemData>, lists: seq<seq<Entry>>, crawling: seq<bool>)
    requires |lists| == |crawling| && forall a :: a in items ==> items[a].lru < |lists|
  {
    && (forall a :: a in items && items[a].linked ==> Item(a) in lists[items[a].lru])
    && (forall l :: 0 <= l < |lists| && crawling[l] ==> Crawler(l) in lists[l])
  }

  ghost predicate TableOk(items: map<nat, ItemData>, table: map<Key, nat>) {
    && (forall a :: a in items && items[a].linked ==> items[a].key in table && table[items[a].key] == a)
    && (forall k :: k in table ==> table[k] in items && items[table[k]].linked && items[table[k]].key == k)
  }

  ghost predicate RefsOk(items: map<nat, ItemData>, held: map<nat, nat>) {
    && held.Keys == items.Keys
    && forall a :: a in items ==> items[a].refcount == held[a] + (if items[a].linked then 1 else 0)
  }

  /** Nothing without a reference stays allocated. */
  ghost predicate Live(items: map<nat, ItemData>) {
    forall a :: a in items ==> items[a].refcount > 0
  }

  function ItemsIn(list: seq<Entry>): int {
    if list == [] then 0 else (if list[0].Item? then 1 else 0) + ItemsIn(list[1..])
  }

  function Size(items: map<nat, ItemData>, e: Entry): int {
    if e.Item? && e.addr in items then items[e.addr].ntotal else 0
  }

  function BytesIn(items: map<nat, ItemData>, list: seq<Entry>): int {
    if list == [] then 0 else Size(items, list[0]) + BytesIn(items, list[1..])
  }

  predicate SizesOk(items: map<nat, ItemData>, lists: seq<seq<Entry>>, sizes: seq<int>, bytes: seq<int>)
    requires |lists| == |sizes| == |bytes|
  {
    && (forall l :: 0 <= l < |lists| ==> sizes[l] == ItemsIn(lists[l]))
    && (forall l :: 0 <= l < |lists| ==> bytes[l] == BytesIn(items, lists[l]))
  }

  predicate TotalsOk(sizes: seq<int>, bytes: seq<int>, currItems: int, currBytes: int) {
    currItems == Total(sizes) && currBytes == Total(bytes)
  }

  /** An item is linked exactly when it is in the hash table and in exactly one LRU list, the
      one its slabs_clsid names; its refcount is one for the link plus one per holder; and
      sizes, sizes_bytes, curr_items and curr_bytes are what the lists hold. */
  ghost predicate Sound(s: State) {
    && ShapeOk(s)
    && NoDups(s.lists)
    && Homes(s.items, s.lists, s.crawling)
    && Placed(s.items, s.lists, s.crawling)
    && TableOk(s.items, s.table)
    && RefsOk(s.items, s.held)
    && SizesOk(s.items, s.lists, s.sizes, s.bytes)
    && TotalsOk(s.sizes, s.bytes, s.currItems, s.currBytes)
  }

  /** Between operations, moreover, an item without references has been freed. */
  ghost predicate Valid(s: State) {
    Sound(s) && Live(s.items)
  }

  lemma ValidShape(s: State)
    requires Valid(s)
    ensures |s.lists| == |s.sizes| == |s.bytes| == |s.crawling| == LISTS
    ensures forall a :: a in s.items ==> s.items[a].lru < LISTS
  {
  }

  // ---------------------------------------------------------------------- list operations

  predicate Listed(s: State, a: nat) {
    && |s.lists| == |s.sizes| == |s.bytes| == LISTS
    && a in s.items && s.items[a].lru < LISTS && Item(a) in s.lists[s.items[a].lru]
  }

  predicate Unlisted(s: State, a: nat) {
    && |s.lists| == |s.sizes| == |s.bytes| == LISTS
    && a in s.items && s.items[a].lru < LISTS && Item(a) !in s.lists[s.items[a].lru]
  }

  /** do_item_link_q. */
  function LinkQ(s: State, a: nat): State
    requires Unlisted(s, a)
  {
    var it := s.items[a];
    s.(lists := s.lists[it.lru := [Item(a)] + s.lists[it.lru]],
       sizes := s.sizes[it.lru := s.sizes[it.lru] + 1],
       bytes := s.bytes[it.lru := s.bytes[it.lru] + it.ntotal])
  }

  /** do_item_unlink_q. */
  function UnlinkQ(s: State, a: nat): State
    requires Listed(s, a)
  {
    var it := s.items[a];
    s.(lists := s.lists[it.lru := Without(s.lists[it.lru], Pos(s.lists[it.lru], Item(a)))],
       sizes := s.sizes[it.lru := s.sizes[it.lru] - 1],
       bytes := s.bytes[it.lru := s.bytes[it.lru] - it.ntotal])
  }

  lemma {:induction false} ItemsInWithout(list: seq<Entry>, i: nat)
    requires i < |list|
    ensures ItemsIn(Without(list, i)) == ItemsIn(list) - (if list[i].Item? then 1 else 0)
  {
    if i == 0 { assert Without(list, 0) == list[1..]; } else {
      ItemsInWithout(list[1..], i - 1);
      assert Without(list, i)[1..] == Without(list[1..], i - 1);
    }
  }

  lemma {:induction false} BytesInWithout(items: map<nat, ItemData>, list: seq<Entry>, i: nat)
    requires i < |list|
    ensures BytesIn(items, Without(list, i)) == BytesIn(items, list) - Size(items, list[i])
  {
    if i == 0 { assert Without(list, 0) == list[1..]; } else {
      BytesInWithout(items, list[1..], i - 1);
      assert Without(list, i)[1..] == Without(list[1..], i - 1);
    }
  }

  lemma InPushed(items: map<nat, ItemData>, e: Entry, list: seq<Entry>)
    ensures ItemsIn([e] + list) == ItemsIn(list) + (if e.Item? then 1 else 0)
    ensures BytesIn(items, [e] + list) == BytesIn(items, list) + Size(items, e)
  {
    assert ([e] + list)[1..] == list;
  }

  lemma {:induction false} BytesInSame(items: map<nat, ItemData>, items': map<nat, ItemData>, list: seq<Entry>)
    requires forall e :: e in list ==> Size(items, e) == Size(items', e)
    ensures BytesIn(items, list) == BytesIn(items', list)
  {
    if list != [] { BytesInSame(items, items', list[1..]); }
  }

  /** Changing an item that is in no list, or keeping its size, keeps the counters. */
  lemma SizesKept(items: map<nat, ItemData>, items': map<nat, ItemData>, lists: seq<seq<Entry>>, sizes: seq<int>,
                  bytes: seq<int>)
    requires |lists| == |sizes| == |bytes| && SizesOk(items, lists, sizes, bytes)
    requires forall l, e :: 0 <= l < |lists| && e in lists[l] ==> Size(items, e) == Size(items', e)
    ensures SizesOk(items', lists, sizes, bytes)
  {
    forall l | 0 <= l < |lists| ensures bytes[l] == BytesIn(items', lists[l]) {
      BytesInSame(items, items', lists[l]);
    }
  }

  lemma LinkQSizes(s: State, a: nat)
    requires Unlisted(s, a) && SizesOk(s.items, s.lists, s.sizes, s.bytes)
    ensures var t := LinkQ(s, a); SizesOk(t.items, t.lists, t.sizes, t.bytes)
  {
    InPushed(s.items, Item(a), s.lists[s.items[a].lru]);
  }

  lemma UnlinkQSizes(s: State, a: nat)
    requires Listed(s, a) && SizesOk(s.items, s.lists, s.sizes, s.bytes)
    ensures var t := UnlinkQ(s, a); SizesOk(t.items, t.lists, t.sizes, t.bytes)
  {
    var list := s.lists[s.items[a].lru];
    ItemsInWithout(list, Pos(list, Item(a)));
    BytesInWithout(s.items, list, Pos(list, Item(a)));
  }

  lemma LinkQTotals(s: State, a: nat)
    requires Unlisted(s, a)
    ensures var t := LinkQ(s, a);
            Total(t.sizes) == Total(s.sizes) + 1 && Total(t.bytes) == Total(s.bytes) + s.items[a].ntotal
  {
    var it := s.items[a];
    TotalUpdate(s.sizes, it.lru, s.sizes[it.lru] + 1);
    TotalUpdate(s.bytes, it.lru, s.bytes[it.lru] + it.ntotal);
  }

  lemma UnlinkQTotals(s: State, a: nat)
    requires Listed(s, a)
    ensures var t := UnlinkQ(s, a);
            Total(t.sizes) == Total(s.sizes) - 1 && Total(t.bytes) == Total(s.bytes) - s.items[a].ntotal
  {
    var it := s.items[a];
    TotalUpdate(s.sizes, it.lru, s.sizes[it.lru] - 1);
    TotalUpdate(s.bytes, it.lru, s.bytes[it.lru] - it.ntotal);
  }

  // ----------------------------------------------------------------------- the operations

  /** The part of do_item_remove after the decrement: the last reference frees the item. */
  function Settle(s: State, a: nat): State
    requires a in s.items
  {
    if s.items[a].refcount == 0 then s.(items := s.items - {a}, held := s.held - {a}) else s
  }

  predicate Holding(s: State, a: nat) {
    a in s.items && a in s.held && s.held[a] > 0 && s.items[a].refcount > 0
  }

  /** do_item_remove by a holder of the item. */
  function Release(s: State, a: nat): State
    requires Holding(s, a)
  {
    Settle(s.(items := s.items[a := s.items[a].(refcount := s.items[a].refcount - 1)],
              held := s.held[a := s.held[a] - 1]), a)
  }

  /** refcount_incr by a new holder. */
  function Acquire(s: State, a: nat): State
    requires a in s.items && a in s.held
  {
    s.(items := s.items[a := s.items[a].(refcount := s.items[a].refcount + 1)],
       held := s.held[a := s.held[a] + 1])
  }

  predicate CanLink(s: State, a: nat) {
    Unlisted(s, a) && !s.items[a].linked && s.items[a].key !in s.table
  }

  /** do_item_link. */
  function LinkItem(s: State, a: nat, now: nat, cas: nat): State
    requires CanLink(s, a)
  {
    var it := s.items[a];
    var s1 := s.(items := s.items[a := it.(linked := true, time := now, cas := cas, refcount := it.refcount + 1)],
                 currItems := s.currItems + 1, currBytes := s.currBytes + it.ntotal,
                 table := s.table[it.key := a]);
    LinkQ(s1, a)
  }

  predicate CanUnlink(s: State, a: nat) {
    a in s.items && (s.items[a].linked ==> Listed(s, a) && s.items[a].refcount > 0)
  }

  /** do_item_unlink up to do_item_remove's test of the count. */
  function Detach(s: State, a: nat): State
    requires CanUnlink(s, a) && s.items[a].linked
  {
    var it := s.items[a];
    UnlinkQ(s.(items := s.items[a := it.(linked := false, refcount := it.refcount - 1)],
               currItems := s.currItems - 1, currBytes := s.currBytes - it.ntotal,
               table := s.table - {it.key}), a)
  }

  /** do_item_unlink. */
  function UnlinkItem(s: State, a: nat): State
    requires CanUnlink(s, a)
  {
    if s.items[a].linked then Settle(Detach(s, a), a) else s
  }

  /** do_item_unlink_q, a new slabs_clsid, and do_item_link_q. */
  function Move(s: State, a: nat, it: ItemData): State
    requires Listed(s, a) && it.lru < LISTS && it.ntotal == s.items[a].ntotal
    requires Unlisted(UnlinkQ(s, a).(items := s.items[a := it]), a)
  {
    LinkQ(UnlinkQ(s, a).(items := s.items[a := it]), a)
  }

  // -------------------------------------------------------------- what the operations keep

  /** Fields that no invariant speaks of. */
  predicate SameBut(it: ItemData, it': ItemData) {
    it'.key == it.key && it'.ntotal == it.ntotal && it'.lru == it.lru && it'.linked == it.linked
  }

  lemma TouchLists(items: map<nat, ItemData>, lists: seq<seq<Entry>>, crawling: seq<bool>, a: nat, it: ItemData)
    requires |lists| == |crawling| && forall b :: b in items ==> items[b].lru < |lists|
    requires Homes(items, lists, crawling) && Placed(items, lists, crawling) && a in items && SameBut(items[a], it)
    ensures Homes(items[a := it], lists, crawling) && Placed(items[a := it], lists, crawling)
  {
    forall l, e | 0 <= l < |lists| && e in lists[l] ensures Belongs(items[a := it], crawling, l, e) {
      assert Belongs(items, crawling, l, e);
    }
  }

  lemma TouchTable(items: map<nat, ItemData>, table: map<Key, nat>, a: nat, it: ItemData)
    requires TableOk(items, table) && a in items && items[a].key == it.key && items[a].linked == it.linked
    ensures TableOk(items[a := it], table)
  {
    var items' := items[a := it];
    assert forall b :: b in items' ==>
           b in items && items'[b].key == items[b].key && items'[b].linked == items[b].linked;
  }

  lemma TouchKeeps(s: State, a: nat, it: ItemData, h: nat)
    requires Sound(s) && a in s.items && SameBut(s.items[a], it)
    requires it.refcount == h + (if it.linked then 1 else 0)
    ensures Sound(s.(items := s.items[a := it], held := s.held[a := h]))
  {
    hide Homes, Placed, TableOk, SizesOk, TotalsOk, NoDups;
    TouchLists(s.items, s.lists, s.crawling, a, it);
    TouchTable(s.items, s.table, a, it);
    SizesKept(s.items, s.items[a := it], s.lists, s.sizes, s.bytes);
  }

  lemma FreeLists(items: map<nat, ItemData>, lists: seq<seq<Entry>>, crawling: seq<bool>, a: nat)
    requires |lists| == |crawling| && forall b :: b in items ==> items[b].lru < |lists|
    requires Homes(items, lists, crawling) && Placed(items, lists, crawling) && a in items && !items[a].linked
    ensures Homes(items - {a}, lists, crawling) && Placed(items - {a}, lists, crawling)
    ensures forall l :: 0 <= l < |lists| ==> Item(a) !in lists[l]
  {
    forall l, e | 0 <= l < |lists| && e in lists[l]
      ensures Belongs(items - {a}, crawling, l, e) && e != Item(a)
    {
      assert Belongs(items, crawling, l, e);
    }
  }

  lemma FreeKeeps(s: State, a: nat)
    requires Sound(s) && a in s.items && s.items[a].refcount == 0
    ensures Sound(s.(items := s.items - {a}, held := s.held - {a}))
    ensures forall l :: 0 <= l < LISTS ==> Item(a) !in s.lists[l]
  {
    hide Homes, Placed, SizesOk, TotalsOk, NoDups;
    FreeLists(s.items, s.lists, s.crawling, a);
    SizesKept(s.items, s.items - {a}, s.lists, s.sizes, s.bytes);
  }

  lemma SettleKeeps(s: State, a: nat)
    requires Sound(s) && a in s.items && forall b :: b in s.items && b != a ==> s.items[b].refcount > 0
    ensures Valid(Settle(s, a))
  {
    hide Sound;
    if s.items[a].refcount == 0 { FreeKeeps(s, a); }
  }

  lemma ReleaseKeeps(s: State, a: nat)
    requires Valid(s) && Holding(s, a)
    ensures Valid(Release(s, a))
  {
    hide Homes, Placed, TableOk, SizesOk, TotalsOk, NoDups, ShapeOk;
    var it := s.items[a].(refcount := s.items[a].refcount - 1);
    TouchKeeps(s, a, it, s.held[a] - 1);
    SettleKeeps(s.(items := s.items[a := it], held := s.held[a := s.held[a] - 1]), a);
  }

  lemma AcquireKeeps(s: State, a: nat)
    requires Valid(s) && a in s.items
    ensures a in s.held && Valid(Acquire(s, a)) && Holding(Acquire(s, a), a)
  {
    hide Homes, Placed, TableOk, SizesOk, TotalsOk, NoDups, ShapeOk;
    TouchKeeps(s, a, s.items[a].(refcount := s.items[a].refcount + 1), s.held[a] + 1);
  }

  // ----- linking

  /** One list changes; the others and their entries stay as they are. */
  lemma LinkLists(s: State, a: nat, items: map<nat, ItemData>)
    requires ShapeOk(s) && NoDups(s.lists) && Homes(s.items, s.lists, s.crawling)
             && Placed(s.items, s.lists, s.crawling)
    requires a in items && items[a].linked && items[a].lru < LISTS && items.Keys == s.items.Keys + {a}
    requires a in s.items ==> !s.items[a].linked
    requires forall b :: b in items && b != a ==> items[b] == s.items[b]
    ensures var l := items[a].lru; var lists := s.lists[l := [Item(a)] + s.lists[l]];
            && Item(a) !in s.lists[l]
            && NoDups(lists) && Homes(items, lists, s.crawling) && Placed(items, lists, s.crawling)
  {
    var l0 := items[a].lru;
    var lists := s.lists[l0 := [Item(a)] + s.lists[l0]];
    forall l, e | 0 <= l < |s.lists| && e in s.lists[l] ensures Belongs(items, s.crawling, l, e) && e != Item(a) {
      assert Belongs(s.items, s.crawling, l, e);
    }
    PushMembers(Item(a), s.lists[l0]);
  }

  lemma UnlinkLists(s: State, a: nat, it: ItemData)
    requires ShapeOk(s) && NoDups(s.lists) && Homes(s.items, s.lists, s.crawling)
             && Placed(s.items, s.lists, s.crawling)
    requires a in s.items && s.items[a].linked && !it.linked && it.lru < LISTS
    ensures Listed(s, a)
    ensures var l := s.items[a].lru; var lists := s.lists[l := Without(s.lists[l], Pos(s.lists[l], Item(a)))];
            && NoDups(lists) && Homes(s.items[a := it], lists, s.crawling)
            && Placed(s.items[a := it], lists, s.crawling)
            && forall m :: 0 <= m < LISTS ==> Item(a) !in lists[m]
  {
    var l0 := s.items[a].lru;
    WithoutMembers(s.lists[l0], Pos(s.lists[l0], Item(a)));
    var lists := s.lists[l0 := Without(s.lists[l0], Pos(s.lists[l0], Item(a)))];
    forall l, e | 0 <= l < |lists| && e in lists[l]
      ensures Belongs(s.items[a := it], s.crawling, l, e) && e != Item(a)
    {
      assert e in s.lists[l] && Belongs(s.items, s.crawling, l, e);
    }
  }

  lemma LinkTable(items: map<nat, ItemData>, table: map<Key, nat>, a: nat, it: ItemData)
    requires TableOk(items, table) && a in items && !items[a].linked && it.linked && it.key !in table
    ensures TableOk(items[a := it], table[it.key := a])
  {
    assert forall k :: k in table ==> table[k] != a;
  }

  lemma UnlinkTable(items: map<nat, ItemData>, table: map<Key, nat>, a: nat, it: ItemData)
    requires TableOk(items, table) && a in items && items[a].linked && !it.linked
    ensures TableOk(items[a := it], table - {items[a].key})
  {
    var items', table' := items[a := it], table - {items[a].key};
    forall b | b in items' && items'[b].linked ensures items'[b].key in table' && table'[items'[b].key] == b {
      assert b in items && table[items[b].key] == b;
    }
  }

  lemma LinkItemKeeps(s: State, a: nat, now: nat, cas: nat)
    requires Valid(s) && a in s.items && !s.items[a].linked && s.items[a].key !in s.table
    ensures CanLink(s, a) && Valid(LinkItem(s, a, now, cas))
  {
    hide Homes, Placed, TableOk, SizesOk, NoDups, Total, Pos;
    var it := s.items[a].(linked := true, time := now, cas := cas, refcount := s.items[a].refcount + 1);
    var s1 := s.(items := s.items[a := it], table := s.table[it.key := a],
                 currItems := s.currItems + 1, currBytes := s.currBytes + it.ntotal);
    LinkLists(s, a, s1.items);
    LinkTable(s.items, s.table, a, it);
    SizesKept(s.items, s1.items, s.lists, s.sizes, s.bytes);
    LinkQSizes(s1, a);
    LinkQTotals(s1, a);
  }

  lemma DetachKeeps(s: State, a: nat)
    requires Valid(s) && a in s.items && s.items[a].linked
    ensures CanUnlink(s, a) && Sound(Detach(s, a))
  {
    hide Homes, Placed, TableOk, SizesOk, NoDups, Total, Pos, Without;
    var it := s.items[a].(linked := false, refcount := s.items[a].refcount - 1);
    var s1 := s.(items := s.items[a := it], table := s.table - {it.key},
                 currItems := s.currItems - 1, currBytes := s.currBytes - it.ntotal);
    UnlinkLists(s, a, it);
    UnlinkTable(s.items, s.table, a, it);
    SizesKept(s.items, s1.items, s.lists, s.sizes, s.bytes);
    UnlinkQSizes(s1, a);
    UnlinkQTotals(s1, a);
  }

  lemma UnlinkItemKeeps(s: State, a: nat)
    requires Valid(s) && a in s.items
    ensures CanUnlink(s, a) && Valid(UnlinkItem(s, a))
  {
    hide Sound;
    if s.items[a].linked {
      DetachKeeps(s, a);
      SettleKeeps(Detach(s, a), a);
    }
  }

  lemma MoveLists(s: State, a: nat, it: ItemData)
    requires ShapeOk(s) && NoDups(s.lists) && Homes(s.items, s.lists, s.crawling)
             && Placed(s.items, s.lists, s.crawling)
    requires a in s.items && s.items[a].linked && it.linked && it.lru < LISTS && it.ntotal == s.items[a].ntotal
    ensures Listed(s, a) && Unlisted(UnlinkQ(s, a).(items := s.items[a := it]), a)
    ensures var t := Move(s, a, it);
            ShapeOk(t) && NoDups(t.lists) && Homes(t.items, t.lists, t.crawling) && Placed(t.items, t.lists, t.crawling)
  {
    hide Homes, Placed, NoDups, Pos, Without;
    UnlinkLists(s, a, it.(linked := false));
    var s1 := UnlinkQ(s, a).(items := s.items[a := it.(linked := false)]);
    assert s1.items[a := it] == s.items[a := it];
    LinkLists(s1, a, s.items[a := it]);
  }

  lemma MoveSizes(s: State, a: nat, it: ItemData)
    requires Listed(s, a) && it.lru < LISTS && it.ntotal == s.items[a].ntotal
    requires Unlisted(UnlinkQ(s, a).(items := s.items[a := it]), a)
    requires SizesOk(s.items, s.lists, s.sizes, s.bytes) && TotalsOk(s.sizes, s.bytes, s.currItems, s.currBytes)
    ensures var t := Move(s, a, it);
            SizesOk(t.items, t.lists, t.sizes, t.bytes) && TotalsOk(t.sizes, t.bytes, t.currItems, t.currBytes)
  {
    hide SizesOk, Total, Pos, Without;
    var s1 := UnlinkQ(s, a);
    UnlinkQSizes(s, a);
    UnlinkQTotals(s, a);
    var s2 := s1.(items := s.items[a := it]);
    SizesKept(s.items, s2.items, s1.lists, s1.sizes, s1.bytes);
    LinkQSizes(s2, a);
    LinkQTotals(s2, a);
  }

  lemma MoveKeeps(s: State, a: nat, it: ItemData)
    requires Valid(s) && a in s.items && s.items[a].linked && it.lru < LISTS
    requires SameBut(s.items[a], it.(lru := s.items[a].lru)) && it.refcount == s.items[a].refcount
    ensures Listed(s, a) && Unlisted(UnlinkQ(s, a).(items := s.items[a := it]), a)
    ensures Valid(Move(s, a, it))
    ensures var t := Move(s, a, it);
            t.held == s.held && t.items == s.items[a := it] && t.table == s.table && t.crawling == s.crawling
  {
    hide Homes, Placed, TableOk, SizesOk, TotalsOk, NoDups, Listed, Unlisted, ShapeOk;
    MoveLists(s, a, it);
    MoveSizes(s, a, it);
    TouchTable(s.items, s.table, a, it);
  }

  // ----- the empty cache

  lemma {:induction false} ZeroTotal(ns: seq<int>)
    requires forall i :: 0 <= i < |ns| ==> ns[i] == 0
    ensures Total(ns) == 0
  {
    if ns != [] { ZeroTotal(ns[1..]); }
  }

  lemma EmptyIsValid(s: State)
    requires s.items == map[] && s.table == map[] && s.held == map[] && s.currItems == 0 && s.currBytes == 0
    requires |s.lists| == |s.crawling| == |s.sizes| == |s.bytes| == LISTS
    requires forall l :: 0 <= l < LISTS ==> s.lists[l] == [] && !s.crawling[l] && s.sizes[l] == 0 && s.bytes[l] == 0
    ensures Valid(s)
  {
    ZeroTotal(s.sizes);
    ZeroTotal(s.bytes);
    hide Total;
  }
}
