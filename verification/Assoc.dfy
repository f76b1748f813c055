/** The item hash table (memcached/assoc.c).  While the table grows there are two
    live tables and a frontier that moves through the old one bucket by bucket;
    together they behave as one map at every moment. */
module Assoc {
  import opened Bits
  import opened Counting

  type Key = seq<char>

  /** An item in memory: its address and the key it was made for. */
  datatype Item = Item(address: nat, key: Key)

  /** An item pointer. */
  datatype Link = Null | To(item: Item)

  // ------------------------------------------------------------------ hash masks

  /** hv & hashmask(k): the low k bits. */
  function Mask(hv: nat, k: nat): nat {
    if k == 0 then 0 else hv % 2 + 2 * Mask(hv / 2, k - 1)
  }

  lemma {:induction false} MaskBound(hv: nat, k: nat)
    ensures Mask(hv, k) < Pow2(k)
  {
    if k > 0 { MaskBound(hv / 2, k - 1); }
  }

  /** One more bit of the hash: a bucket splits in two. */
  lemma {:induction false} MaskSplit(hv: nat, k: nat)
    ensures Mask(hv, k + 1) == Mask(hv, k) || Mask(hv, k + 1) == Mask(hv, k) + Pow2(k)
  {
    if k > 0 { MaskSplit(hv / 2, k - 1); }
  }

  // ------------------------------------------------------------- the table as chains

  /** Sizes, frontier and the chain of every bucket of both tables. */
  datatype Chains = Chains(power: nat, expanding: bool, frontier: nat,
                           primary: seq<seq<Item>>, older: seq<seq<Item>>)

  /** The test all operations start with: is the key still in the old table? */
  predicate InOlder(c: Chains, hv: nat) {
    c.expanding && c.power > 0 && Mask(hv, c.power - 1) >= c.frontier
  }

  ghost predicate Shape(c: Chains) {
    && |c.primary| == Pow2(c.power)
    && (c.expanding ==> c.power > 0 && |c.older| == Pow2(c.power - 1) && c.frontier < |c.older|)
    && (!c.expanding ==> c.older == [])
  }

  lemma InRange(c: Chains, hv: nat)
    requires Shape(c)
    ensures InOlder(c, hv) ==> Mask(hv, c.power - 1) < |c.older|
    ensures Mask(hv, c.power) < |c.primary|
  {
    MaskBound(hv, c.power);
    if c.power > 0 { MaskBound(hv, c.power - 1); }
  }

  /** The chain a key belongs to. */
  ghost function ChainFor(c: Chains, hv: nat): seq<Item>
    requires Shape(c)
  {
    InRange(c, hv);
    if InOlder(c, hv) then c.older[Mask(hv, c.power - 1)] else c.primary[Mask(hv, c.power)]
  }

  predicate KeysDistinct(chain: seq<Item>) {
    forall i, j :: 0 <= i < j < |chain| ==> chain[i].key != chain[j].key
  }

  /** Key k belongs to bucket b of the old table, or of the primary one. */
  predicate BelongsTo(c: Chains, hash: Key -> nat, k: Key, older: bool, b: nat) {
    InOlder(c, hash(k)) == older && b == Mask(hash(k), if older && c.power > 0 then c.power - 1 else c.power)
  }

  /** The items of a chain are the ones the map has for the keys that belong there. */
  ghost predicate ChainHolds(c: Chains, hash: Key -> nat, contents: map<Key, Item>, chain: seq<Item>, older: bool,
                             b: nat) {
    && KeysDistinct(chain)
    && (forall x :: x in chain ==> BelongsTo(c, hash, x.key, older, b) && x.key in contents && contents[x.key] == x)
    && (forall k :: k in contents && BelongsTo(c, hash, k, older, b) ==> contents[k] in chain)
  }

  /** The two tables together hold exactly the map. */
  ghost predicate Refines(c: Chains, hash: Key -> nat, contents: map<Key, Item>) {
    && Shape(c)
    && (forall k :: k in contents ==> contents[k].key == k)
    && (forall b :: 0 <= b < |c.primary| ==> ChainHolds(c, hash, contents, c.primary[b], false, b))
    && (forall b :: 0 <= b < |c.older| ==> ChainHolds(c, hash, contents, c.older[b], true, b))
  }

  /** assoc_find looks where the key is, if it is anywhere. */
  lemma FindAgrees(c: Chains, hash: Key -> nat, contents: map<Key, Item>, k: Key)
    requires Refines(c, hash, contents)
    ensures k in contents <==> exists x :: x in ChainFor(c, hash(k)) && x.key == k
    ensures k in contents ==> contents[k] in ChainFor(c, hash(k))
    ensures KeysDistinct(ChainFor(c, hash(k)))
    ensures forall x :: x in ChainFor(c, hash(k)) ==> x.key in contents && contents[x.key] == x
  {
    InRange(c, hash(k));
    var older := InOlder(c, hash(k));
    var b := Mask(hash(k), if older then c.power - 1 else c.power);
    assert ChainHolds(c, hash, contents, ChainFor(c, hash(k)), older, b);
    assert BelongsTo(c, hash, k, older, b);
  }

  function Put(c: Chains, hv: nat, chain: seq<Item>): (r: Chains)
    requires InOlder(c, hv) ==> Mask(hv, c.power - 1) < |c.older|
    requires Mask(hv, c.power) < |c.primary|
    ensures r == c.(primary := r.primary, older := r.older)
  {
    if InOlder(c, hv) then c.(older := c.older[Mask(hv, c.power - 1) := chain])
    else c.(primary := c.primary[Mask(hv, c.power) := chain])
  }

  /** A change of the chain of one key that tracks a change of the map at that key. */
  lemma PutRefines(c: Chains, hash: Key -> nat, contents: map<Key, Item>, k: Key, chain: seq<Item>,
                   contents': map<Key, Item>)
    requires Refines(c, hash, contents) && KeysDistinct(chain)
    requires forall q :: q != k ==>
               (q in contents <==> q in contents') && (q in contents ==> contents'[q] == contents[q])
    requires k in contents' ==> contents'[k].key == k
    requires forall x :: x in chain <==>
             (x in ChainFor(c, hash(k)) && x.key != k) || (k in contents' && x == contents'[k])
    ensures InOlder(c, hash(k)) ==> Mask(hash(k), c.power - 1) < |c.older|
    ensures Mask(hash(k), c.power) < |c.primary|
    ensures Refines(Put(c, hash(k), chain), hash, contents')
  {
    InRange(c, hash(k));
    FindAgrees(c, hash, contents, k);
    var hv := hash(k);
    var older := InOlder(c, hv);
    var home := Mask(hv, if older then c.power - 1 else c.power);
    var c' := Put(c, hv, chain);
    assert forall q, o, b: nat :: BelongsTo(c', hash, q, o, b) == BelongsTo(c, hash, q, o, b);
    forall b | 0 <= b < |c'.primary| ensures ChainHolds(c', hash, contents', c'.primary[b], false, b) {
      assert ChainHolds(c, hash, contents, c.primary[b], false, b);
    }
    forall b | 0 <= b < |c'.older| ensures ChainHolds(c', hash, contents', c'.older[b], true, b) {
      assert ChainHolds(c, hash, contents, c.older[b], true, b);
    }
  }

  // ------------------------------------------------------------------- growing

  /** assoc_expand: the table becomes the old one, the primary one is empty and twice as large. */
  function Expand(c: Chains): Chains {
    Chains(c.power + 1, true, 0, seq(Pow2(c.power + 1), b => []), c.primary)
  }

  lemma ExpandRefines(c: Chains, hash: Key -> nat, contents: map<Key, Item>)
    requires Refines(c, hash, contents) && !c.expanding
    ensures Refines(Expand(c), hash, contents)
  {
    var c' := Expand(c);
    forall b | 0 <= b < |c'.older| ensures ChainHolds(c', hash, contents, c'.older[b], true, b) {
      assert ChainHolds(c, hash, contents, c.primary[b], false, b);
      assert forall k :: BelongsTo(c', hash, k, true, b) == BelongsTo(c, hash, k, false, b);
    }
  }

  /** The migration loop: each item in turn goes to the front of its new bucket. */
  function PushAll(primary: seq<seq<Item>>, power: nat, hash: Key -> nat, chain: seq<Item>): (r: seq<seq<Item>>)
    requires |primary| == Pow2(power)
    ensures |r| == |primary|
    decreases |chain|
  {
    if chain == [] then primary
    else
      var b := Mask(hash(chain[0].key), power);
      MaskBound(hash(chain[0].key), power);
      PushAll(primary[b := [chain[0]] + primary[b]], power, hash, chain[1..])
  }

  /** Migration of the bucket at the frontier, and the end of the expansion. */
  function Migrate(c: Chains, hash: Key -> nat): Chains
    requires c.expanding && |c.primary| == Pow2(c.power) && c.frontier < |c.older|
  {
    var primary := PushAll(c.primary, c.power, hash, c.older[c.frontier]);
    if c.frontier + 1 == |c.older| then Chains(c.power, false, c.frontier + 1, primary, [])
    else Chains(c.power, true, c.frontier + 1, primary, c.older[c.frontier := []])
  }

  /** Migration puts each item of the chain in exactly the bucket of its longer hash. */
  lemma {:induction false} PushAllMembers(primary: seq<seq<Item>>, power: nat, hash: Key -> nat, chain: seq<Item>,
                                          b: nat, x: Item)
    requires |primary| == Pow2(power) && b < |primary|
    ensures x in PushAll(primary, power, hash, chain)[b] <==>
            x in primary[b] || (x in chain && Mask(hash(x.key), power) == b)
    decreases |chain|
  {
    if chain != [] {
      var y := chain[0];
      var home := Mask(hash(y.key), power);
      MaskBound(hash(y.key), power);
      PushAllMembers(primary[home := [y] + primary[home]], power, hash, chain[1..], b, x);
      assert x in chain <==> x == y || x in chain[1..];
    }
  }

  lemma {:induction false} PushAllDistinct(primary: seq<seq<Item>>, power: nat, hash: Key -> nat, chain: seq<Item>,
                                           b: nat)
    requires |primary| == Pow2(power) && b < |primary| && KeysDistinct(chain) && KeysDistinct(primary[b])
    requires forall i, j :: 0 <= i < |primary[b]| && 0 <= j < |chain| ==> primary[b][i].key != chain[j].key
    ensures KeysDistinct(PushAll(primary, power, hash, chain)[b])
    decreases |chain|
  {
    if chain != [] {
      var y := chain[0];
      var home := Mask(hash(y.key), power);
      MaskBound(hash(y.key), power);
      PushAllDistinct(primary[home := [y] + primary[home]], power, hash, chain[1..], b);
    }
  }

  /** Moving the frontier past a bucket moves exactly the keys of that bucket. */
  lemma FrontierMoves(c: Chains, hash: Key -> nat, k: Key)
    requires Shape(c) && c.expanding
    ensures InOlder(Migrate(c, hash), hash(k)) <==> InOlder(c, hash(k)) && Mask(hash(k), c.power - 1) != c.frontier
  {
    MaskBound(hash(k), c.power - 1);
  }

  lemma MigrateChain(c: Chains, hash: Key -> nat, contents: map<Key, Item>, b: nat)
    requires Refines(c, hash, contents) && c.expanding && b < |c.primary|
    ensures ChainHolds(Migrate(c, hash), hash, contents, Migrate(c, hash).primary[b], false, b)
  {
    var c', moved := Migrate(c, hash), c.older[c.frontier];
    var chain := PushAll(c.primary, c.power, hash, moved)[b];
    assert ChainHolds(c, hash, contents, c.primary[b], false, b);
    assert ChainHolds(c, hash, contents, moved, true, c.frontier);
    forall i, j | 0 <= i < |c.primary[b]| && 0 <= j < |moved| ensures c.primary[b][i].key != moved[j].key {
      assert c.primary[b][i] in c.primary[b] && moved[j] in moved;
    }
    PushAllDistinct(c.primary, c.power, hash, moved, b);
    forall x ensures x in chain <==> x in c.primary[b] || (x in moved && Mask(hash(x.key), c.power) == b) {
      PushAllMembers(c.primary, c.power, hash, moved, b, x);
    }
    forall x | x in chain ensures BelongsTo(c', hash, x.key, false, b) && x.key in contents && contents[x.key] == x {
      PushAllMembers(c.primary, c.power, hash, moved, b, x);
      FrontierMoves(c, hash, x.key);
    }
    forall k | k in contents && BelongsTo(c', hash, k, false, b) ensures contents[k] in chain {
      FrontierMoves(c, hash, k);
      if InOlder(c, hash(k)) {
        assert BelongsTo(c, hash, k, true, c.frontier);
      } else {
        assert BelongsTo(c, hash, k, false, b);
      }
    }
  }

  /** Migrating a bucket loses, duplicates and misplaces nothing. */
  lemma MigrateRefines(c: Chains, hash: Key -> nat, contents: map<Key, Item>)
    requires Refines(c, hash, contents) && c.expanding
    ensures Refines(Migrate(c, hash), hash, contents)
  {
    var c' := Migrate(c, hash);
    forall b | 0 <= b < |c'.primary| ensures ChainHolds(c', hash, contents, c'.primary[b], false, b) {
      MigrateChain(c, hash, contents, b);
    }
    forall b | 0 <= b < |c'.older| ensures ChainHolds(c', hash, contents, c'.older[b], true, b) {
      assert ChainHolds(c, hash, contents, c.older[b], true, b);
      forall k ensures BelongsTo(c', hash, k, true, b) == (b != c.frontier && BelongsTo(c, hash, k, true, b)) {
        FrontierMoves(c, hash, k);
      }
    }
  }

  /** An old bucket splits only into the bucket of the same number and its upper half. */
  lemma MigrateSplits(c: Chains, hash: Key -> nat, contents: map<Key, Item>, b: nat)
    requires Refines(c, hash, contents) && c.expanding && b < |c.primary|
    requires Migrate(c, hash).primary[b] != c.primary[b]
    ensures b == c.frontier || b == c.frontier + Pow2(c.power - 1)
  {
    var moved := c.older[c.frontier];
    assert ChainHolds(c, hash, contents, moved, true, c.frontier);
    if forall x :: x in moved ==> Mask(hash(x.key), c.power) != b {
      PushAllElsewhere(c.primary, c.power, hash, moved, b);
    } else {
      var x :| x in moved && Mask(hash(x.key), c.power) == b;
      MaskSplit(hash(x.key), c.power - 1);
    }
  }

  lemma {:induction false} PushAllElsewhere(primary: seq<seq<Item>>, power: nat, hash: Key -> nat, chain: seq<Item>,
                                            b: nat)
    requires |primary| == Pow2(power) && b < |primary|
    requires forall x :: x in chain ==> Mask(hash(x.key), power) != b
    ensures PushAll(primary, power, hash, chain)[b] == primary[b]
    decreases |chain|
  {
    if chain != [] {
      var y := chain[0];
      var home := Mask(hash(y.key), power);
      MaskBound(hash(y.key), power);
      PushAllElsewhere(primary[home := [y] + primary[home]], power, hash, chain[1..], b);
    }
  }

  // ----------------------------------------------------------------- the table in memory

  /** The pointer to the item at position i of a chain, null past its end. */
  function LinkAt(chain: seq<Item>, i: nat): Link {
    if i < |chain| then To(chain[i]) else Null
  }

  /** `head` starts the linked list whose items are `chain`. */
  ghost predicate Linked(hNext: map<Item, Link>, head: Link, chain: seq<Item>) {
    && head == LinkAt(chain, 0)
    && forall i :: 0 <= i < |chain| ==> chain[i] in hNext && hNext[chain[i]] == LinkAt(chain, i + 1)
  }

  ghost predicate AllLinked(hNext: map<Item, Link>, table: seq<Link>, chains: seq<seq<Item>>) {
    |table| == |chains| && forall b :: 0 <= b < |chains| ==> Linked(hNext, table[b], chains[b])
  }

  lemma StaysLinked(hNext: map<Item, Link>, head: Link, chain: seq<Item>, it: Item, link: Link)
    requires Linked(hNext, head, chain) && it !in chain
    ensures Linked(hNext[it := link], head, chain)
  {
    forall i | 0 <= i < |chain| ensures chain[i] != it { assert chain[i] in chain; }
  }

  lemma PushLinked(hNext: map<Item, Link>, head: Link, chain: seq<Item>, it: Item)
    requires Linked(hNext, head, chain) && it !in chain
    ensures Linked(hNext[it := head], To(it), [it] + chain)
  {
    var c := [it] + chain;
    StaysLinked(hNext, head, chain, it, head);
    forall i | 0 <= i < |c| ensures c[i] in hNext[it := head] && hNext[it := head][c[i]] == LinkAt(c, i + 1) {
      if i > 0 { assert c[i] == chain[i - 1]; }
    }
  }

  /** it->h_next = slot; slot = it. */
  lemma PushAllLinked(hNext: map<Item, Link>, table: seq<Link>, chains: seq<seq<Item>>, b: nat, it: Item)
    requires AllLinked(hNext, table, chains) && b < |table| && forall j :: 0 <= j < |chains| ==> it !in chains[j]
    ensures AllLinked(hNext[it := table[b]], table[b := To(it)], chains[b := [it] + chains[b]])
  {
    var hNext', table', chains' := hNext[it := table[b]], table[b := To(it)], chains[b := [it] + chains[b]];
    forall j | 0 <= j < |chains'| ensures Linked(hNext', table'[j], chains'[j]) {
      if j == b {
        PushLinked(hNext, table[b], chains[b], it);
      } else {
        StaysLinked(hNext, table[j], chains[j], it, table[b]);
      }
    }
  }

  lemma AllStayLinked(hNext: map<Item, Link>, table: seq<Link>, chains: seq<seq<Item>>, it: Item, link: Link)
    requires AllLinked(hNext, table, chains) && forall j :: 0 <= j < |chains| ==> it !in chains[j]
    ensures AllLinked(hNext[it := link], table, chains)
  {
    forall j | 0 <= j < |chains| ensures Linked(hNext[it := link], table[j], chains[j]) {
      StaysLinked(hNext, table[j], chains[j], it, link);
    }
  }

  lemma ChainRanges(c: Chains, hash: Key -> nat, contents: map<Key, Item>, hv: nat)
    requires Refines(c, hash, contents)
    ensures Shape(c) && Mask(hv, c.power) < |c.primary|
    ensures InOlder(c, hv) ==> Mask(hv, c.power - 1) < |c.older|
  {
    InRange(c, hv);
  }

  /** An item of a chain is in no other chain. */
  lemma InOneChain(c: Chains, hash: Key -> nat, contents: map<Key, Item>, it: Item)
    requires Refines(c, hash, contents)
    ensures forall b :: 0 <= b < |c.primary| && it in c.primary[b] ==>
              it.key in contents && contents[it.key] == it && !InOlder(c, hash(it.key))
                && b == Mask(hash(it.key), c.power)
    ensures forall b :: 0 <= b < |c.older| && it in c.older[b] ==>
              it.key in contents && contents[it.key] == it && InOlder(c, hash(it.key))
                && b == Mask(hash(it.key), c.power - 1)
  {
    forall b | 0 <= b < |c.primary| && it in c.primary[b]
      ensures it.key in contents && contents[it.key] == it && BelongsTo(c, hash, it.key, false, b)
    {
      assert ChainHolds(c, hash, contents, c.primary[b], false, b);
    }
    forall b | 0 <= b < |c.older| && it in c.older[b]
      ensures it.key in contents && contents[it.key] == it && BelongsTo(c, hash, it.key, true, b)
    {
      assert ChainHolds(c, hash, contents, c.older[b], true, b);
    }
  }

  lemma InsertRefines(c: Chains, hash: Key -> nat, contents: map<Key, Item>, it: Item)
    requires Refines(c, hash, contents) && it.key !in contents
    ensures InOlder(c, hash(it.key)) ==> Mask(hash(it.key), c.power - 1) < |c.older|
    ensures Mask(hash(it.key), c.power) < |c.primary|
    ensures Refines(Put(c, hash(it.key), [it] + ChainFor(c, hash(it.key))), hash, contents[it.key := it])
  {
    FindAgrees(c, hash, contents, it.key);
    var chain := ChainFor(c, hash(it.key));
    PushKeepsDistinct(chain, it, contents);
    PutRefines(c, hash, contents, it.key, [it] + chain, contents[it.key := it]);
  }

  lemma PushKeepsDistinct(chain: seq<Item>, it: Item, contents: map<Key, Item>)
    requires KeysDistinct(chain) && it.key !in contents && forall x :: x in chain ==> x.key in contents
    ensures KeysDistinct([it] + chain)
  {
    forall j | 0 <= j < |chain| ensures chain[j].key != it.key { assert chain[j] in chain; }
  }

  lemma WithoutDistinct(chain: seq<Item>, i: nat)
    requires KeysDistinct(chain) && i < |chain|
    ensures KeysDistinct(Without(chain, i))
    ensures forall x :: x in Without(chain, i) <==> x in chain && x.key != chain[i].key
  {
    var r := Without(chain, i);
    forall x ensures x in r <==> x in chain && x.key != chain[i].key {
      if x in chain && x.key != chain[i].key {
        var j :| 0 <= j < |chain| && chain[j] == x;
        assert r[if j < i then j else j - 1] == x;
      }
    }
  }

  /** A chain without the item of a key. */
  function Dropped(chain: seq<Item>, k: Key): seq<Item> {
    if chain == [] then []
    else if chain[0].key == k then chain[1..]
    else [chain[0]] + Dropped(chain[1..], k)
  }

  lemma {:induction false} WithoutDrops(chain: seq<Item>, i: nat)
    requires KeysDistinct(chain) && i < |chain|
    ensures Dropped(chain, chain[i].key) == Without(chain, i)
  {
    if i > 0 {
      WithoutDrops(chain[1..], i - 1);
      assert Without(chain, i) == [chain[0]] + Without(chain[1..], i - 1);
    }
  }

  lemma DeleteRefines(c: Chains, hash: Key -> nat, contents: map<Key, Item>, k: Key, i: nat)
    requires Refines(c, hash, contents) && i < |ChainFor(c, hash(k))| && ChainFor(c, hash(k))[i].key == k
    ensures InOlder(c, hash(k)) ==> Mask(hash(k), c.power - 1) < |c.older|
    ensures Mask(hash(k), c.power) < |c.primary|
    ensures Refines(Put(c, hash(k), Without(ChainFor(c, hash(k)), i)), hash, contents - {k})
  {
    FindAgrees(c, hash, contents, k);
    var chain := ChainFor(c, hash(k));
    WithoutDistinct(chain, i);
    PutRefines(c, hash, contents, k, Without(chain, i), contents - {k});
  }

  /** Taking the first item out of its list. */
  lemma UnlinkHead(hNext: map<Item, Link>, head: Link, chain: seq<Item>)
    requires Linked(hNext, head, chain) && |chain| > 0 && KeysDistinct(chain)
    ensures Linked(hNext[chain[0] := Null], LinkAt(chain, 1), chain[1..])
  {
    var r := chain[1..];
    forall j | 0 <= j < |r| ensures r[j] != chain[0] && r[j] in hNext && hNext[r[j]] == LinkAt(r, j + 1) {
      assert r[j] == chain[j + 1] && chain[0].key != chain[j + 1].key;
    }
  }

  /** Taking a later item out of its list. */
  lemma UnlinkInner(hNext: map<Item, Link>, head: Link, chain: seq<Item>, i: nat)
    requires Linked(hNext, head, chain) && 0 < i < |chain| && KeysDistinct(chain)
    ensures Linked(hNext[chain[i] := Null][chain[i - 1] := LinkAt(chain, i + 1)], head, chain[..i] + chain[i + 1..])
  {
    var r := chain[..i] + chain[i + 1..];
    var h := hNext[chain[i] := Null][chain[i - 1] := LinkAt(chain, i + 1)];
    forall j | 0 <= j < |r| ensures r[j] in h && h[r[j]] == LinkAt(r, j + 1) {
      if j < i - 1 {
        assert chain[j].key != chain[i - 1].key && chain[j].key != chain[i].key;
      } else if j >= i {
        assert r[j] == chain[j + 1] && chain[i - 1].key != chain[j + 1].key && chain[i].key != chain[j + 1].key;
      }
    }
  }

  lemma UnlinkAllLinked(hNext: map<Item, Link>, table: seq<Link>, chains: seq<seq<Item>>, b: nat, i: nat)
    requires AllLinked(hNext, table, chains) && b < |chains| && i < |chains[b]| && KeysDistinct(chains[b])
    requires forall j, x :: 0 <= j < |chains| && j != b && x in chains[b] ==> x !in chains[j]
    ensures var h, chain, chains' := hNext[chains[b][i] := Null], chains[b], chains[b := Without(chains[b], i)];
      if i == 0 then AllLinked(h, table[b := LinkAt(chain, 1)], chains')
      else AllLinked(h[chain[i - 1] := LinkAt(chain, i + 1)], table, chains')
  {
    var chain, chains' := chains[b], chains[b := Without(chains[b], i)];
    var h0 := hNext[chain[i] := Null];
    var h := if i == 0 then h0 else h0[chain[i - 1] := LinkAt(chain, i + 1)];
    var table' := if i == 0 then table[b := LinkAt(chain, 1)] else table;
    if i == 0 {
      UnlinkHead(hNext, table[b], chain);
      assert Without(chain, 0) == chain[1..];
    } else {
      UnlinkInner(hNext, table[b], chain, i);
    }
    forall j | 0 <= j < |chains'| ensures Linked(h, table'[j], chains'[j]) {
      if j != b {
        assert chain[i] in chain && chain[i] !in chains[j];
        StaysLinked(hNext, table[j], chains[j], chain[i], Null);
        if i > 0 {
          assert chain[i - 1] in chain && chain[i - 1] !in chains[j];
          StaysLinked(h0, table[j], chains[j], chain[i - 1], LinkAt(chain, i + 1));
        }
      }
    }
  }

  lemma NextInList(hNext: map<Item, Link>, head: Link, chain: seq<Item>, i: nat)
    requires Linked(hNext, head, chain) && i < |chain|
    ensures chain[i] in hNext && hNext[chain[i]] == LinkAt(chain, i + 1)
  {
  }

  /** h_next after assoc_delete: `it` is cut off, and what led to it leads past it. */
  function Rehooked(hNext: map<Item, Link>, it: Item, prev: Link): map<Item, Link>
    requires it in hNext
  {
    var h := hNext[it := Null];
    if prev == Null then h else h[prev.item := hNext[it]]
  }

  /** A table after assoc_delete: its slot changes if the item headed the slot's chain. */
  function Reslotted(table: seq<Link>, b: nat, headed: bool, link: Link): seq<Link>
    requires headed ==> b < |table|
  {
    if headed then table[b := link] else table
  }

  /** What the pointer writes of assoc_delete do to both tables. */
  lemma DeleteLinks(hNext: map<Item, Link>, c: Chains, hash: Key -> nat, contents: map<Key, Item>,
                    primary: seq<Link>, older: seq<Link>, hv: nat, i: nat)
    requires Refines(c, hash, contents) && AllLinked(hNext, primary, c.primary)
    requires c.expanding ==> AllLinked(hNext, older, c.older)
    requires i < |ChainFor(c, hv)|
    ensures InOlder(c, hv) ==> Mask(hv, c.power - 1) < |c.older| && c.expanding
    ensures Mask(hv, c.power) < |c.primary|
    ensures |primary| == |c.primary| && (c.expanding ==> |older| == |c.older| && c.power > 0)
    ensures var chain, c' := ChainFor(c, hv), Put(c, hv, Without(ChainFor(c, hv), i));
      && chain[i] in hNext
      && var prev, nxt := (if i == 0 then Null else To(chain[i - 1])), hNext[chain[i]];
      && var h := Rehooked(hNext, chain[i], prev);
      && AllLinked(h, Reslotted(primary, Mask(hv, c.power), prev == Null && !InOlder(c, hv), nxt), c'.primary)
      && (c.expanding ==>
            AllLinked(h, Reslotted(older, Mask(hv, c.power - 1), prev == Null && InOlder(c, hv), nxt), c'.older))
  {
    InRange(c, hv);
    var chain := ChainFor(c, hv);
    var isOlder := InOlder(c, hv);
    var home := Mask(hv, if isOlder then c.power - 1 else c.power);
    assert ChainHolds(c, hash, contents, chain, isOlder, home);
    forall x | x in chain
      ensures forall j :: 0 <= j < |c.primary| && (isOlder || j != home) ==> x !in c.primary[j]
      ensures forall j :: 0 <= j < |c.older| && (!isOlder || j != home) ==> x !in c.older[j]
    {
      InOneChain(c, hash, contents, x);
      assert BelongsTo(c, hash, x.key, isOlder, home);
    }
    assert Linked(hNext, if isOlder then older[home] else primary[home], chain);
    NextInList(hNext, if isOlder then older[home] else primary[home], chain, i);
    if isOlder {
      UnlinkAllLinked(hNext, older, c.older, home, i);
      TwoStayLinked(hNext, primary, c.primary, chain, i);
    } else {
      UnlinkAllLinked(hNext, primary, c.primary, home, i);
      if c.expanding { TwoStayLinked(hNext, older, c.older, chain, i); }
    }
  }

  lemma TwoStayLinked(hNext: map<Item, Link>, table: seq<Link>, chains: seq<seq<Item>>, chain: seq<Item>, i: nat)
    requires AllLinked(hNext, table, chains) && i < |chain|
    requires forall x, j :: x in chain && 0 <= j < |chains| ==> x !in chains[j]
    ensures var h0 := hNext[chain[i] := Null];
      AllLinked(if i == 0 then h0 else h0[chain[i - 1] := LinkAt(chain, i + 1)], table, chains)
  {
    assert chain[i] in chain;
    AllStayLinked(hNext, table, chains, chain[i], Null);
    if i > 0 {
      assert chain[i - 1] in chain;
      AllStayLinked(hNext[chain[i] := Null], table, chains, chain[i - 1], LinkAt(chain, i + 1));
    }
  }

  /** The items about to migrate are in no other chain. */
  lemma MovesApart(c: Chains, hash: Key -> nat, contents: map<Key, Item>)
    requires Refines(c, hash, contents) && c.expanding
    ensures KeysDistinct(c.older[c.frontier])
    ensures forall x, b :: x in c.older[c.frontier] && 0 <= b < |c.primary| ==> x !in c.primary[b]
    ensures forall x, b :: x in c.older[c.frontier] && 0 <= b < |c.older| && b != c.frontier ==> x !in c.older[b]
  {
    assert ChainHolds(c, hash, contents, c.older[c.frontier], true, c.frontier);
    forall x | x in c.older[c.frontier]
      ensures forall b :: 0 <= b < |c.primary| ==> x !in c.primary[b]
      ensures forall b :: 0 <= b < |c.older| && b != c.frontier ==> x !in c.older[b]
    {
      InOneChain(c, hash, contents, x);
    }
  }

  /** One turn of the migration loop. */
  lemma MigrateOne(hNext: map<Item, Link>, primary: seq<Link>, moved: seq<seq<Item>>, bucket: nat, rest: seq<Item>)
    requires AllLinked(hNext, primary, moved) && bucket < |primary| && rest != [] && KeysDistinct(rest)
    requires Linked(hNext, To(rest[0]), rest) && forall x, b :: x in rest && 0 <= b < |moved| ==> x !in moved[b]
    ensures var h, moved' := hNext[rest[0] := primary[bucket]], moved[bucket := [rest[0]] + moved[bucket]];
      && AllLinked(h, primary[bucket := To(rest[0])], moved')
      && Linked(h, LinkAt(rest, 1), rest[1..]) && KeysDistinct(rest[1..])
      && (forall x, b :: x in rest[1..] && 0 <= b < |moved'| ==> x !in moved'[b])
  {
    var y := rest[0];
    assert y in rest;
    PushAllLinked(hNext, primary, moved, bucket, y);
    UnlinkHead(hNext, To(y), rest);
    assert y !in rest[1..] by {
      forall j | 0 <= j < |rest[1..]| ensures rest[1..][j] != y { assert rest[0].key != rest[j + 1].key; }
    }
    StaysLinked(hNext[y := Null], LinkAt(rest, 1), rest[1..], y, primary[bucket]);
    assert hNext[y := Null][y := primary[bucket]] == hNext[y := primary[bucket]];
    var moved' := moved[bucket := [y] + moved[bucket]];
    forall x, b | x in rest[1..] && 0 <= b < |moved'| ensures x !in moved'[b] {
      assert x in rest && x !in moved[b];
    }
  }

  lemma PushAllStep(moved: seq<seq<Item>>, power: nat, hash: Key -> nat, rest: seq<Item>)
    requires |moved| == Pow2(power)
    ensures rest == [] ==> PushAll(moved, power, hash, rest) == moved
    ensures rest != [] ==> Mask(hash(rest[0].key), power) < |moved|
    ensures rest != [] ==>
      var b := Mask(hash(rest[0].key), power);
      PushAll(moved, power, hash, rest) == PushAll(moved[b := [rest[0]] + moved[b]], power, hash, rest[1..])
  {
    if rest != [] { MaskBound(hash(rest[0].key), power); }
  }

  /** The chain at the frontier, and all others. */
  lemma OthersLinked(hNext: map<Item, Link>, table: seq<Link>, chains: seq<seq<Item>>, b: nat)
    requires AllLinked(hNext, table, chains) && b < |chains|
    ensures b < |table| && Linked(hNext, table[b], chains[b]) && table[b] == LinkAt(chains[b], 0)
    ensures AllLinked(hNext, table[b := Null], chains[b := []])
  {
    var table', chains' := table[b := Null], chains[b := []];
    forall j | 0 <= j < |chains'| ensures Linked(hNext, table'[j], chains'[j]) {
      assert Linked(hNext, table[j], chains[j]);
    }
  }

  class Table {
    const hash: Key -> nat
    var power: nat
    var primary: array<Link>
    var older: array<Link>
    var expanding: bool
    var frontier: nat
    /** The h_next field of every item. */
    var hNext: map<Item, Link>
    ghost var chains: Chains
    ghost var contents: map<Key, Item>

    ghost predicate Valid()
      reads this, primary, older
    {
      && chains.power == power && chains.expanding == expanding && chains.frontier == frontier
      && (expanding ==> primary != older)
      && Refines(chains, hash, contents)
      && AllLinked(hNext, primary[..], chains.primary)
      && (expanding ==> AllLinked(hNext, older[..], chains.older))
    }

    constructor (hash: Key -> nat, power: nat)
      ensures Valid() && this.hash == hash && contents == map[] && !expanding && fresh(primary) && fresh(older)
    {
      this.hash := hash;
      this.power := power;
      primary := new Link[Pow2(power)](_ => Null);
      older := new Link[0];
      expanding, frontier, hNext := false, 0, map[];
      chains := Chains(power, false, 0, seq(Pow2(power), b => []), []);
      contents := map[];
    }

    /** The chain a key belongs to, and the pointer it starts with. */
    method Slot(hv: nat) returns (it: Link)
      requires Valid()
      ensures Shape(chains) && Linked(hNext, it, ChainFor(chains, hv))
    {
      ChainRanges(chains, hash, contents, hv);
      if expanding && Mask(hv, power - 1) >= frontier {
        it := older[Mask(hv, power - 1)];
        assert it == older[..][Mask(hv, power - 1)];
      } else {
        it := primary[Mask(hv, power)];
        assert it == primary[..][Mask(hv, power)];
      }
    }

    /** assoc_find. */
    method Find(k: Key) returns (r: Link)
      requires Valid()
      ensures r == if k in contents then To(contents[k]) else Null
    {
      hide Refines, AllLinked, Linked;
      var it := Slot(hash(k));
      ghost var chain := ChainFor(chains, hash(k));
      FindAgrees(chains, hash, contents, k);
      var prev;
      r, prev := Walk(it, k, chain);
    }

    /** The walk down a chain: the item with the key, and the one before it. */
    method Walk(head: Link, k: Key, ghost chain: seq<Item>) returns (it: Link, prev: Link)
      requires Linked(hNext, head, chain)
      ensures it.To? ==>
                && it.item.key == k
                && exists i :: 0 <= i < |chain| && it == To(chain[i]) &&
                               prev == (if i == 0 then Null else To(chain[i - 1]))
      ensures it.Null? ==> forall x :: x in chain ==> x.key != k
    {
      it, prev := head, Null;
      ghost var i := 0;
      while it != Null && it.item.key != k
        invariant 0 <= i <= |chain| && it == LinkAt(chain, i)
        invariant prev == (if i == 0 then Null else To(chain[i - 1]))
        invariant forall j :: 0 <= j < i ==> chain[j].key != k
        decreases |chain| - i
      {
        prev := it;
        it := hNext[it.item];
        i := i + 1;
      }
    }

    /** assoc_insert: the key must not be in the table. */
    method Insert(it: Item)
      requires Valid() && it.key !in contents
      modifies this`chains, this`contents, this`hNext, primary, older
      ensures Valid() && contents == old(contents)[it.key := it]
      ensures InOlder(old(chains), hash(it.key)) ==> Mask(hash(it.key), power - 1) < |old(chains).older|
      ensures Shape(old(chains)) && Mask(hash(it.key), power) < |old(chains).primary|
      ensures chains == Put(old(chains), hash(it.key), [it] + ChainFor(old(chains), hash(it.key)))
    {
      hide Refines, AllLinked;
      var hv := hash(it.key);
      ChainRanges(chains, hash, contents, hv);
      InsertRefines(chains, hash, contents, it);
      InOneChain(chains, hash, contents, it);
      SameLengths();
      ghost var h, pri, old0 := hNext, primary[..], older[..];
      if expanding && Mask(hv, power - 1) >= frontier {
        var b := Mask(hv, power - 1);
        hNext := hNext[it := older[b]];
        older[b] := To(it);
        PushAllLinked(h, old0, chains.older, b, it);
        AllStayLinked(h, pri, chains.primary, it, old0[b]);
        assert older[..] == old0[b := To(it)] && primary[..] == pri;
      } else {
        var b := Mask(hv, power);
        hNext := hNext[it := primary[b]];
        primary[b] := To(it);
        PushAllLinked(h, pri, chains.primary, b, it);
        assert primary[..] == pri[b := To(it)];
        if expanding {
          AllStayLinked(h, old0, chains.older, it, pri[b]);
          assert older[..] == old0;
        }
      }
      chains := Put(chains, hv, [it] + ChainFor(chains, hv));
      contents := contents[it.key := it];
    }

    /** assoc_delete: the callers do not delete what they cannot find. */
    method Delete(k: Key)
      requires Valid() && k in contents
      modifies this`chains, this`contents, this`hNext, primary, older
      ensures Valid() && contents == old(contents) - {k}
      ensures InOlder(old(chains), hash(k)) ==> Mask(hash(k), power - 1) < |old(chains).older|
      ensures Shape(old(chains)) && Mask(hash(k), power) < |old(chains).primary|
      ensures chains == Put(old(chains), hash(k), Dropped(ChainFor(old(chains), hash(k)), k))
    {
      hide Refines, AllLinked, Linked, Put, ChainFor, Shape, KeysDistinct, Without, Mask, Dropped;
      var hv := hash(k);
      ChainRanges(chains, hash, contents, hv);
      FindAgrees(chains, hash, contents, k);
      var head := Slot(hv);
      ghost var chain := ChainFor(chains, hv);
      var it, prev := Walk(head, k, chain);
      ghost var i :| 0 <= i < |chain| && it == To(chain[i]) && prev == (if i == 0 then Null else To(chain[i - 1]));
      DeleteRefines(chains, hash, contents, k, i);
      WithoutDrops(chain, i);
      Unhook(hv, it.item, prev, i);
      chains := Put(chains, hv, Without(chain, i));
      contents := contents - {k};
    }

    /** The pointer writes of assoc_delete: `prev` is null if the item heads its chain. Afterwards
        both tables link their chains, the item's chain without the item. */
    method Unhook(hv: nat, it: Item, prev: Link, ghost i: nat)
      requires Valid() && Shape(chains) && i < |ChainFor(chains, hv)| && it == ChainFor(chains, hv)[i]
      requires prev == if i == 0 then Null else To(ChainFor(chains, hv)[i - 1])
      modifies this`hNext, primary, older
      ensures InOlder(chains, hv) ==> Mask(hv, power - 1) < |chains.older|
      ensures Mask(hv, power) < |chains.primary|
      ensures var c := Put(chains, hv, Without(ChainFor(chains, hv), i));
              AllLinked(hNext, primary[..], c.primary) && (expanding ==> AllLinked(hNext, older[..], c.older))
    {
      hide Refines, AllLinked, Linked, Put, ChainFor, Without, Mask;
      SameLengths();
      DeleteLinks(hNext, chains, hash, contents, primary[..], older[..], hv, i);
      ghost var pri, old0 := primary[..], older[..];
      var nxt := hNext[it];
      hNext := hNext[it := Null];
      if prev != Null {
        hNext := hNext[prev.item := nxt];
      } else if expanding && Mask(hv, power - 1) >= frontier {
        older[Mask(hv, power - 1)] := nxt;
        assert older[..] == old0[Mask(hv, power - 1) := nxt] && primary[..] == pri;
      } else {
        primary[Mask(hv, power)] := nxt;
        assert primary[..] == pri[Mask(hv, power) := nxt] && (expanding ==> older[..] == old0);
      }
    }

    /** assoc_expand, called while no other thread runs; `ok` says whether memory was found. */
    method ExpandTable(ok: bool)
      requires Valid() && !expanding
      modifies this
      ensures Valid() && contents == old(contents) && hNext == old(hNext)
      ensures chains == if ok then Expand(old(chains)) else old(chains)
      ensures older == old(primary) && (if ok then fresh(primary) else primary == old(primary))
    {
      hide Refines;
      older := primary;
      if ok {
        ExpandRefines(chains, hash, contents);
        primary := new Link[Pow2(power + 1)](_ => Null);
        power := power + 1;
        expanding := true;
        frontier := 0;
        chains := Expand(chains);
      }
    }

    /** One round of assoc_maintenance_thread, with the lock of the bucket held. */
    method MigrateBucket()
      requires Valid() && Shape(chains) && expanding
      modifies this`hNext, this`frontier, this`expanding, this`chains, primary, older
      ensures Valid() && contents == old(contents) && chains == Migrate(old(chains), hash)
    {
      hide Refines, AllLinked, Linked, KeysDistinct, PushAll, Mask;
      SameLengths();
      MigrateRefines(chains, hash, contents);
      MovesApart(chains, hash, contents);
      ghost var all := chains.older[frontier];
      var it := older[frontier];
      OthersLinked(hNext, older[..], chains.older, frontier);
      ghost var rest, moved := all, chains.primary;
      while it != Null
        invariant chains == old(chains) && frontier == old(frontier) && expanding
        invariant older[..] == old(older[..])
        invariant |moved| == primary.Length == Pow2(power) && it == LinkAt(rest, 0)
        invariant PushAll(moved, power, hash, rest) == PushAll(chains.primary, power, hash, all)
        invariant Linked(hNext, it, rest) && AllLinked(hNext, primary[..], moved) && KeysDistinct(rest)
        invariant AllLinked(hNext, older[..][frontier := Null], chains.older[frontier := []])
        invariant forall x, b :: x in rest && 0 <= b < |moved| ==> x !in moved[b]
        invariant forall x, b :: x in rest && 0 <= b < |chains.older| && b != frontier ==> x !in chains.older[b]
        decreases |rest|
      {
        ghost var h, pri, x := hNext, primary[..], rest[0];
        MaskBound(hash(it.item.key), power);
        NextInList(h, it, rest, 0);
        var next := hNext[it.item];
        var bucket := Mask(hash(it.item.key), power);
        hNext := hNext[it.item := primary[bucket]];
        primary[bucket] := it;
        assert primary[..] == pri[bucket := To(x)];
        MigrateOne(h, pri, moved, bucket, rest);
        PushAllStep(moved, power, hash, rest);
        assert x in rest;
        AllStayLinked(h, older[..][frontier := Null], chains.older[frontier := []], x, pri[bucket]);
        moved := moved[bucket := [x] + moved[bucket]];
        assert forall y :: y in rest[1..] ==> y in rest;
        rest := rest[1..];
        it := next;
      }
      PushAllStep(moved, power, hash, rest);
      ghost var old0 := older[..];
      older[frontier] := Null;
      assert older[..] == old0[frontier := Null];
      frontier := frontier + 1;
      if frontier == older.Length {
        expanding := false;
      }
      chains := Migrate(chains, hash);
    }

    lemma SameLengths()
      requires Valid()
      ensures primary.Length == |chains.primary| && (expanding ==> older.Length == |chains.older|)
    {
    }
  }
}
