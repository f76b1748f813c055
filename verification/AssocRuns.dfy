/** assoc.c over whole runs: the growing table against a plain map, and the
    iterator that walks it while other threads change it. */
module AssocRuns {
  import opened Bits
  import opened Assoc
  import opened Counting

  // ------------------------------------------------------------------ against a map

  datatype Op = DoInsert(it: Item) | DoDelete(k: Key) | DoFind(k: Key) | DoExpand(ok: bool) | DoMigrate

  function PlainStep(m: map<Key, Item>, op: Op): map<Key, Item> {
    match op
    case DoInsert(it) => m[it.key := it]
    case DoDelete(k) => m - {k}
    case _ => m
  }

  /** What a plain map answers to the lookups of a run. */
  function PlainAnswers(m: map<Key, Item>, ops: seq<Op>): seq<Link>
    decreases |ops|
  {
    if ops == [] then []
    else
      (if ops[0].DoFind? then [if ops[0].k in m then To(m[ops[0].k]) else Null] else [])
      + PlainAnswers(PlainStep(m, ops[0]), ops[1..])
  }

  /** The callers insert only keys that are absent and delete only keys that are present. */
  predicate Legal(m: map<Key, Item>, ops: seq<Op>)
    decreases |ops|
  {
    ops == [] ||
    ((ops[0].DoInsert? ==> ops[0].it.key !in m) && (ops[0].DoDelete? ==> ops[0].k in m) &&
     Legal(PlainStep(m, ops[0]), ops[1..]))
  }

  method DoOp(t: Table, op: Op) returns (answer: seq<Link>)
    requires t.Valid() && Legal(t.contents, [op])
    modifies t, t.primary, t.older
    ensures t.Valid() && t.contents == PlainStep(old(t.contents), op)
    ensures answer == PlainAnswers(old(t.contents), [op])
    ensures fresh(t.primary) || t.primary == old(t.primary)
    ensures t.older == old(t.primary) || t.older == old(t.older)
  {
    hide Refines, AllLinked;
    answer := [];
    match op {
      case DoInsert(it) => t.Insert(it);
      case DoDelete(k) => t.Delete(k);
      case DoFind(k) =>
        var r := t.Find(k);
        answer := [r];
      case DoExpand(ok) =>
        if !t.expanding { t.ExpandTable(ok); }
      case DoMigrate =>
        if t.expanding { ShapeOf(t); t.MigrateBucket(); }
    }
  }

  /** Any run of insertions, deletions, lookups, starts of expansion and bucket
      migrations gives the answers a plain map gives. */
  method Run(t: Table, ops: seq<Op>) returns (answers: seq<Link>)
    requires t.Valid() && Legal(t.contents, ops)
    modifies t, t.primary, t.older
    ensures t.Valid() && answers == PlainAnswers(old(t.contents), ops)
  {
    hide Refines, AllLinked;
    answers := [];
    ghost var start := t.contents;
    var i := 0;
    assert ops[0..] == ops;
    while i < |ops|
      invariant 0 <= i <= |ops| && t.Valid() && Legal(t.contents, ops[i..])
      invariant fresh(t.primary) || t.primary == old(t.primary)
      invariant fresh(t.older) || t.older == old(t.primary) || t.older == old(t.older)
      invariant PlainAnswers(start, ops) == answers + PlainAnswers(t.contents, ops[i..])
    {
      ghost var m := t.contents;
      assert ops[i..][1..] == ops[i + 1..];
      assert Legal(PlainStep(m, ops[i]), []);
      var a := DoOp(t, ops[i]);
      OneAnswer(m, ops[i], ops[i + 1..]);
      assert [ops[i]] + ops[i + 1..] == ops[i..];
      assert (answers + a) + PlainAnswers(t.contents, ops[i + 1..])
             == answers + (a + PlainAnswers(t.contents, ops[i + 1..]));
      answers := answers + a;
      i := i + 1;
    }
  }

  lemma OneAnswer(m: map<Key, Item>, op: Op, rest: seq<Op>)
    ensures PlainAnswers(m, [op] + rest) == PlainAnswers(m, [op]) + PlainAnswers(PlainStep(m, op), rest)
  {
    assert ([op] + rest)[1..] == rest && [op][1..] == [];
  }

  lemma ShapeOf(t: Table)
    requires t.Valid()
    ensures Shape(t.chains)
  {
  }

  // ---------------------------------------------------------------------- the iterator

  /** A walk over the table: the bucket it is at, whether it holds that bucket's
      lock, and the items of the bucket still to be returned (from `next` on). */
  datatype Walk = Walk(chains: seq<seq<Item>>, bucket: nat, locked: bool, rest: seq<Item>)

  predicate Suffix(rest: seq<Item>, chain: seq<Item>) {
    |rest| <= |chain| && rest == chain[|chain| - |rest|..]
  }

  ghost predicate WalkOk(w: Walk, hash: Key -> nat, power: nat) {
    && |w.chains| == Pow2(power) && w.bucket <= |w.chains|
    && (forall b :: 0 <= b < |w.chains| ==> ChainAtHome(w.chains[b], hash, power, b))
    && (w.locked ==> w.bucket < |w.chains| && Suffix(w.rest, w.chains[w.bucket]))
  }

  ghost predicate ChainAtHome(chain: seq<Item>, hash: Key -> nat, power: nat, b: nat) {
    KeysDistinct(chain) && forall x :: x in chain ==> Mask(hash(x.key), power) == b
  }

  predicate HasKey(chain: seq<Item>, k: Key) {
    exists i :: 0 <= i < |chain| && chain[i].key == k
  }

  /** assoc_iterate: the new walk, whether there is more, and the item, if any. */
  function Iterate(w: Walk): (r: (Walk, bool, Link)) {
    if w.locked then
      if w.rest != [] then (w.(rest := w.rest[1..]), true, To(w.rest[0]))
      else (w.(bucket := w.bucket + 1, locked := false), true, Null)
    else if w.bucket < |w.chains| then
      var chain := w.chains[w.bucket];
      if chain != [] then (w.(locked := true, rest := chain[1..]), true, To(chain[0]))
      else (w.(bucket := w.bucket + 1), true, Null)
    else (w, false, Null)
  }

  /** What happens while a walk is under way: a call of assoc_iterate, or an insertion or a deletion
      by another thread or by the walker.  The lock the iterator holds excludes expansion. */
  datatype WalkOp = Iter | Ins(it: Item) | Del(k: Key)

  /** Insertions are of absent keys and deletions of present ones, as always.  Into the bucket whose
      lock the walk holds nothing is inserted, and from it only the walker deletes, and only what it
      was already given. */
  predicate Allowed(w: Walk, hash: Key -> nat, power: nat, op: WalkOp) {
    match op
    case Iter => true
    case Ins(it) =>
      var b := Mask(hash(it.key), power);
      b < |w.chains| && !HasKey(w.chains[b], it.key) && !(w.locked && b == w.bucket)
    case Del(k) =>
      var b := Mask(hash(k), power);
      b < |w.chains| && HasKey(w.chains[b], k) && !(w.locked && b == w.bucket && HasKey(w.rest, k))
  }

  function WalkAfter(w: Walk, hash: Key -> nat, power: nat, op: WalkOp): Walk
    requires Allowed(w, hash, power, op)
  {
    match op
    case Iter => Iterate(w).0
    case Ins(it) => var b := Mask(hash(it.key), power); w.(chains := w.chains[b := [it] + w.chains[b]])
    case Del(k) => var b := Mask(hash(k), power); w.(chains := w.chains[b := Dropped(w.chains[b], k)])
  }

  predicate AllowedRun(w: Walk, hash: Key -> nat, power: nat, ops: seq<WalkOp>)
    decreases |ops|
  {
    ops == [] || (Allowed(w, hash, power, ops[0])
                  && AllowedRun(WalkAfter(w, hash, power, ops[0]), hash, power, ops[1..]))
  }

  /** The walk after a run. */
  function WalkEnd(w: Walk, hash: Key -> nat, power: nat, ops: seq<WalkOp>): Walk
    requires AllowedRun(w, hash, power, ops)
    decreases |ops|
  {
    if ops == [] then w else WalkEnd(WalkAfter(w, hash, power, ops[0]), hash, power, ops[1..])
  }

  /** What assoc_iterate gave out in a run. */
  function Outs(w: Walk, hash: Key -> nat, power: nat, ops: seq<WalkOp>): seq<Link>
    requires AllowedRun(w, hash, power, ops)
    decreases |ops|
  {
    if ops == [] then []
    else (if ops[0].Iter? then [Iterate(w).2] else []) + Outs(WalkAfter(w, hash, power, ops[0]), hash, power, ops[1..])
  }

  function Times(outs: seq<Link>, x: Item): nat {
    if outs == [] then 0 else (if outs[0] == To(x) then 1 else 0) + Times(outs[1..], x)
  }

  // ----- what one step does

  lemma {:induction false} DroppedItems(chain: seq<Item>, k: Key)
    requires KeysDistinct(chain) && HasKey(chain, k)
    ensures KeysDistinct(Dropped(chain, k))
    ensures forall x :: x in Dropped(chain, k) <==> x in chain && x.key != k
  {
    var i :| 0 <= i < |chain| && chain[i].key == k;
    WithoutDrops(chain, i);
    WithoutDistinct(chain, i);
  }

  lemma DroppedSuffix(chain: seq<Item>, k: Key, rest: seq<Item>)
    requires KeysDistinct(chain) && HasKey(chain, k) && Suffix(rest, chain) && !HasKey(rest, k)
    ensures Suffix(rest, Dropped(chain, k))
  {
    hide KeysDistinct, Dropped, HasKey, Suffix, Without;
    var i := PlaceOf(chain, k);
    WithoutDrops(chain, i);
    SuffixHasKey(chain, rest, i);
    SuffixIs(chain, rest);
    WithoutKeepsSuffix(chain, i, |chain| - |rest|);
  }

  lemma PlaceOf(chain: seq<Item>, k: Key) returns (i: nat)
    requires HasKey(chain, k)
    ensures i < |chain| && chain[i].key == k
  {
    i :| 0 <= i < |chain| && chain[i].key == k;
  }

  lemma SuffixIs(chain: seq<Item>, rest: seq<Item>)
    requires Suffix(rest, chain)
    ensures |rest| <= |chain| && chain[|chain| - |rest|..] == rest
  {
  }

  lemma SuffixHasKey(chain: seq<Item>, rest: seq<Item>, i: nat)
    requires Suffix(rest, chain) && i < |chain|
    ensures i >= |chain| - |rest| ==> HasKey(rest, chain[i].key)
  {
    if i >= |chain| - |rest| { assert rest[i - (|chain| - |rest|)] == chain[i]; }
  }

  lemma WithoutKeepsSuffix(chain: seq<Item>, i: nat, d: nat)
    requires i < d <= |chain|
    ensures Suffix(chain[d..], Without(chain, i))
  {
    assert Without(chain, i)[d - 1..] == chain[d..];
  }

  /** Whatever is allowed keeps the table in order, and the walker's place in it. */
  lemma StepKeeps(w: Walk, hash: Key -> nat, power: nat, op: WalkOp)
    requires WalkOk(w, hash, power) && Allowed(w, hash, power, op)
    ensures WalkOk(WalkAfter(w, hash, power, op), hash, power)
  {
    hide Dropped, Mask;
    match op {
      case Iter =>
      case Ins(it) =>
        var b := Mask(hash(it.key), power);
        assert ChainAtHome(w.chains[b], hash, power, b);
        assert ChainAtHome([it] + w.chains[b], hash, power, b);
      case Del(k) =>
        var b := Mask(hash(k), power);
        assert ChainAtHome(w.chains[b], hash, power, b);
        DroppedItems(w.chains[b], k);
        if w.locked && b == w.bucket { DroppedSuffix(w.chains[b], k, w.rest); }
    }
  }

  /** How often x should have been returned by now, if it was in the table all along. */
  function Due(w: Walk, hash: Key -> nat, power: nat, x: Item): nat {
    var home := Mask(hash(x.key), power);
    if home < w.bucket || (home == w.bucket && w.locked && x !in w.rest) then 1 else 0
  }

  predicate Present(w: Walk, hash: Key -> nat, power: nat, x: Item) {
    var home := Mask(hash(x.key), power);
    home < |w.chains| && x in w.chains[home]
  }

  /** A call returns only what is in the table and was not returned; what is in the table and is
      passed over was returned. */
  lemma IterateKeeps(w: Walk, hash: Key -> nat, power: nat, x: Item)
    requires WalkOk(w, hash, power)
    ensures var w', out := Iterate(w).0, Iterate(w).2;
            && (out == To(x) ==>
                  Present(w, hash, power, x) && Due(w, hash, power, x) == 0 && Due(w', hash, power, x) == 1)
            && Due(w, hash, power, x) <= Due(w', hash, power, x)
            && (Present(w, hash, power, x) ==> (out == To(x) <==> Due(w, hash, power, x) < Due(w', hash, power, x)))
  {
    if w.locked && w.rest != [] {
      assert ChainAtHome(w.chains[w.bucket], hash, power, w.bucket);
      Head(w.rest);
      assert w.rest[0] in w.chains[w.bucket];
    } else if !w.locked && w.bucket < |w.chains| && w.chains[w.bucket] != [] {
      assert ChainAtHome(w.chains[w.bucket], hash, power, w.bucket);
      Head(w.chains[w.bucket]);
    }
  }

  lemma Head(s: seq<Item>)
    requires KeysDistinct(s) && s != []
    ensures KeysDistinct(s[1..]) && s[0] !in s[1..]
    ensures forall x :: x in s <==> x == s[0] || x in s[1..]
  {
    assert s == [s[0]] + s[1..];
  }

  lemma OthersKeep(w: Walk, hash: Key -> nat, power: nat, op: WalkOp, x: Item)
    requires WalkOk(w, hash, power) && Allowed(w, hash, power, op) && !op.Iter?
    ensures Due(WalkAfter(w, hash, power, op), hash, power, x) == Due(w, hash, power, x)
    ensures Present(w, hash, power, x) && op != Del(x.key) ==> Present(WalkAfter(w, hash, power, op), hash, power, x)
  {
    hide Dropped, Mask;
    if op.Del? {
      var b := Mask(hash(op.k), power);
      assert ChainAtHome(w.chains[b], hash, power, b);
      DroppedItems(w.chains[b], op.k);
    }
  }

  // ----- whole walks

  lemma {:induction false} ReturnedSoFar(w: Walk, hash: Key -> nat, power: nat, ops: seq<WalkOp>, x: Item)
    requires WalkOk(w, hash, power) && AllowedRun(w, hash, power, ops)
    ensures WalkOk(WalkEnd(w, hash, power, ops), hash, power)
    ensures Due(w, hash, power, x) + Times(Outs(w, hash, power, ops), x)
            <= Due(WalkEnd(w, hash, power, ops), hash, power, x)
    ensures Present(w, hash, power, x) && Del(x.key) !in ops ==>
              Due(w, hash, power, x) + Times(Outs(w, hash, power, ops), x)
                == Due(WalkEnd(w, hash, power, ops), hash, power, x)
    decreases |ops|
  {
    hide WalkOk, Allowed, WalkAfter, Present, Due, Iterate;
    if ops != [] {
      var w' := WalkAfter(w, hash, power, ops[0]);
      StepKeeps(w, hash, power, ops[0]);
      ReturnedSoFar(w', hash, power, ops[1..], x);
      StepCounts(w, hash, power, ops[0], x);
      var first := if ops[0].Iter? then [Iterate(w).2] else [];
      TimesOfFirst(first, Outs(w', hash, power, ops[1..]), x);
      assert ops[0] in ops && forall op :: op in ops[1..] ==> op in ops;
    }
  }

  lemma StepCounts(w: Walk, hash: Key -> nat, power: nat, op: WalkOp, x: Item)
    requires WalkOk(w, hash, power) && Allowed(w, hash, power, op)
    ensures var w', t := WalkAfter(w, hash, power, op), if op.Iter? && Iterate(w).2 == To(x) then 1 else 0;
            && Due(w, hash, power, x) + t <= Due(w', hash, power, x)
            && (Present(w, hash, power, x) && op != Del(x.key) ==>
                  Due(w, hash, power, x) + t == Due(w', hash, power, x) && Present(w', hash, power, x))
  {
    hide WalkOk, Allowed, Due, Mask;
    if op.Iter? { IterateKeeps(w, hash, power, x); } else { OthersKeep(w, hash, power, op, x); }
    DueIsBit(w, hash, power, x);
    DueIsBit(WalkAfter(w, hash, power, op), hash, power, x);
  }

  lemma DueIsBit(w: Walk, hash: Key -> nat, power: nat, x: Item)
    ensures Due(w, hash, power, x) <= 1
  {
  }

  lemma TimesOfFirst(first: seq<Link>, rest: seq<Link>, x: Item)
    requires |first| <= 1
    ensures Times(first + rest, x) == (if first == [To(x)] then 1 else 0) + Times(rest, x)
  {
    if first != [] { assert (first + rest)[1..] == rest; } else { assert first + rest == rest; }
  }

  /** Whatever is inserted and deleted on the way, no item is returned twice; and when the iterator
      says it is done, every item that was in the table at the start and was not deleted has been
      returned exactly once. */
  lemma ReturnedExactlyOnce(w: Walk, hash: Key -> nat, power: nat, ops: seq<WalkOp>, x: Item)
    requires WalkOk(w, hash, power) && w.bucket == 0 && !w.locked && AllowedRun(w, hash, power, ops)
    ensures Times(Outs(w, hash, power, ops), x) <= 1
    ensures !Iterate(WalkEnd(w, hash, power, ops)).1 && Present(w, hash, power, x) && Del(x.key) !in ops ==>
              Times(Outs(w, hash, power, ops), x) == 1
  {
    ReturnedSoFar(w, hash, power, ops, x);
    MaskBound(hash(x.key), power);
  }

  /** Holding the item lock of a bucket keeps all keys of that bucket from other threads: the locks
      are chosen by fewer bits of the hash than the buckets. */
  lemma {:induction false} OneLock(hv: nat, lockPower: nat, power: nat)
    requires lockPower <= power
    ensures Mask(Mask(hv, power), lockPower) == Mask(hv, lockPower)
  {
    if lockPower > 0 { OneLock(hv / 2, lockPower - 1, power - 1); }
  }

  // ----- the iterator in memory

  lemma SuffixLinked(hNext: map<Item, Link>, head: Link, chain: seq<Item>, rest: seq<Item>)
    requires Linked(hNext, head, chain) && Suffix(rest, chain) && rest != []
    ensures rest[0] in hNext && hNext[rest[0]] == LinkAt(rest, 1)
    ensures Suffix(rest[1..], chain) && LinkAt(rest, 1) == LinkAt(rest[1..], 0)
  {
    var d := |chain| - |rest|;
    assert chain[d] == rest[0];
  }

  /** struct assoc_iterator. */
  class Cursor {
    var bucket: nat
    var it: Link
    var next: Link
    var locked: bool
    ghost var rest: seq<Item>

    constructor ()
      ensures bucket == 0 && !locked
    {
      bucket, locked, it, next, rest := 0, false, Null, Null, [];
    }

    ghost predicate On(t: Table)
      reads this, t, t.primary, t.older
    {
      && t.Valid() && !t.expanding && bucket <= |t.chains.primary|
      && (locked ==> bucket < |t.chains.primary| && Suffix(rest, t.chains.primary[bucket]) && next == LinkAt(rest, 0))
    }

    ghost function Abs(t: Table): Walk
      reads this, t
    {
      Walk(t.chains.primary, bucket, locked, rest)
    }

    lemma AbsOk(t: Table)
      requires On(t)
      ensures WalkOk(Abs(t), t.hash, t.power)
      ensures forall k :: Mask(t.hash(k), t.power) < |t.chains.primary| &&
                (k in t.contents <==> HasKey(t.chains.primary[Mask(t.hash(k), t.power)], k))
      ensures forall x :: Present(Abs(t), t.hash, t.power, x) <==> x.key in t.contents && t.contents[x.key] == x
    {
      hide AllLinked, Mask;
      forall b | 0 <= b < |t.chains.primary| ensures ChainAtHome(t.chains.primary[b], t.hash, t.power, b) {
        assert ChainHolds(t.chains, t.hash, t.contents, t.chains.primary[b], false, b);
      }
      forall k
        ensures var b := Mask(t.hash(k), t.power);
                b < |t.chains.primary| && (k in t.contents <==> HasKey(t.chains.primary[b], k))
      {
        InRange(t.chains, t.hash(k));
        FindAgrees(t.chains, t.hash, t.contents, k);
      }
      forall x ensures Present(Abs(t), t.hash, t.power, x) <==> x.key in t.contents && t.contents[x.key] == x {
        InRange(t.chains, t.hash(x.key));
        FindAgrees(t.chains, t.hash, t.contents, x.key);
      }
    }

    /** assoc_iterate: takes the step of the walk. */
    method Advance(t: Table) returns (more: bool, item: Link)
      requires On(t)
      modifies this
      ensures On(t)
      ensures (Abs(t), more, item) == Iterate(old(Abs(t)))
    {
      hide Refines;
      t.SameLengths();
      item := Null;
      if locked {
        if next != Null {
          assert Linked(t.hNext, t.primary[..][bucket], t.chains.primary[bucket]);
          SuffixLinked(t.hNext, t.primary[bucket], t.chains.primary[bucket], rest);
          it := next;
          next := t.hNext[it.item];
          item := it;
          rest := rest[1..];
        } else {
          bucket := bucket + 1;
          locked := false;
        }
        more := true;
        return;
      }
      more := bucket != t.primary.Length;
      if more {
        it := t.primary[bucket];
        ghost var chain := t.chains.primary[bucket];
        assert Linked(t.hNext, t.primary[..][bucket], chain);
        if it != Null {
          SuffixLinked(t.hNext, it, chain, chain);
          locked := true;
          next := t.hNext[it.item];
          item := it;
          rest := chain[1..];
        } else {
          bucket := bucket + 1;
        }
      }
    }

    /** One step of a walk on the table in memory. The walker's saved `next` stays right because
        what it was given may go, but nothing from `next` on. */
    method Step(t: Table, op: WalkOp) returns (out: seq<Link>)
      requires On(t) && Allowed(Abs(t), t.hash, t.power, op)
      modifies this, t, t.primary, t.older
      ensures On(t) && t.primary == old(t.primary) && t.older == old(t.older)
      ensures t.power == old(t.power) && Abs(t) == WalkAfter(old(Abs(t)), t.hash, old(t.power), op)
      ensures out == if op.Iter? then [Iterate(old(Abs(t))).2] else []
    {
      hide Refines, AllLinked, Dropped, Mask;
      AbsOk(t);
      StepKeeps(Abs(t), t.hash, t.power, op);
      match op
      case Iter =>
        var more, item := Advance(t);
        out := [item];
      case Ins(it) =>
        t.Insert(it);
        out := [];
      case Del(k) =>
        t.Delete(k);
        out := [];
    }

    /** A whole walk, with insertions and deletions in between: no item is returned twice, and once
        the iterator has nothing more, every item that was in the table at the start and was not
        deleted has been returned. */
    method WalkAll(t: Table, ops: seq<WalkOp>) returns (outs: seq<Link>)
      requires On(t) && bucket == 0 && !locked && AllowedRun(Abs(t), t.hash, t.power, ops)
      modifies this, t, t.primary, t.older
      ensures On(t) && outs == Outs(old(Abs(t)), t.hash, old(t.power), ops)
      ensures forall x :: Times(outs, x) <= 1
      ensures !Iterate(Abs(t)).1 ==>
                forall x: Item :: x.key in old(t.contents) && old(t.contents)[x.key] == x && Del(x.key) !in ops ==>
                  Times(outs, x) == 1
    {
      hide Refines, AllLinked, WalkAfter, Allowed, Iterate, On, Present, WalkOk;
      ghost var w, power := Abs(t), t.power;
      AbsOk(t);
      outs := [];
      var todo := ops;
      while todo != []
        invariant On(t) && t.primary == old(t.primary) && t.older == old(t.older) && t.power == power
        invariant AllowedRun(Abs(t), t.hash, power, todo)
        invariant outs + Outs(Abs(t), t.hash, power, todo) == Outs(w, t.hash, power, ops)
        invariant WalkEnd(Abs(t), t.hash, power, todo) == WalkEnd(w, t.hash, power, ops)
        decreases |todo|
      {
        var out := Step(t, todo[0]);
        todo := todo[1..];
        assert (outs + out) + Outs(Abs(t), t.hash, power, todo) == outs + (out + Outs(Abs(t), t.hash, power, todo));
        outs := outs + out;
      }
      assert outs + [] == outs;
      forall x: Item ensures Times(outs, x) <= 1
               ensures !Iterate(Abs(t)).1 && Present(w, t.hash, power, x) && Del(x.key) !in ops ==> Times(outs, x) == 1
      {
        ReturnedExactlyOnce(w, t.hash, power, ops, x);
      }
    }
  }
}
