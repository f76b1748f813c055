/** The consistent hash ring of servers (include/hash_ring.hpp, include/consistent_hash_map.hpp):
    each server thread stands at many places of the ring, and a key belongs to the first place
    clockwise from its hash. */
module HashRing {
  import opened Basics
  import opened Counting

  /** A server thread; two are the same when address and thread number agree. */
  datatype Server = Server(ip: string, tid: nat)

  /** A place of the ring. */
  datatype Node = Node(hash: nat, server: Server)

  /** The ring is an ordered map: its nodes by increasing hash. */
  predicate Sorted(nodes: seq<Node>) {
    forall i, j :: 0 <= i < j < |nodes| ==> nodes[i].hash < nodes[j].hash
  }

  // ----------------------------------------------------------------------- the ordered map

  /** map::lower_bound. */
  function LowerBound(nodes: seq<Node>, h: nat): (i: nat)
    requires Sorted(nodes)
    ensures i <= |nodes|
    ensures forall j :: 0 <= j < i ==> nodes[j].hash < h
    ensures forall j :: i <= j < |nodes| ==> nodes[j].hash >= h
  {
    if nodes == [] || nodes[0].hash >= h then 0 else 1 + LowerBound(nodes[1..], h)
  }

  /** map::insert: a hash that is taken keeps its node. */
  function Put(nodes: seq<Node>, n: Node): seq<Node>
    requires Sorted(nodes)
  {
    var i := LowerBound(nodes, n.hash);
    if i < |nodes| && nodes[i].hash == n.hash then nodes else nodes[..i] + [n] + nodes[i..]
  }

  /** map::erase by key. */
  function Erase(nodes: seq<Node>, h: nat): seq<Node>
    requires Sorted(nodes)
  {
    var i := LowerBound(nodes, h);
    if i < |nodes| && nodes[i].hash == h then nodes[..i] + nodes[i + 1..] else nodes
  }

  lemma PutNodes(nodes: seq<Node>, n: Node)
    requires Sorted(nodes)
    ensures Sorted(Put(nodes, n))
    ensures exists m :: m in Put(nodes, n) && m.hash == n.hash
    ensures forall m :: m in nodes ==> m in Put(nodes, n)
    ensures forall m :: m in Put(nodes, n) ==> m in nodes || m == n
  {
    var i := LowerBound(nodes, n.hash);
    if i < |nodes| && nodes[i].hash == n.hash { assert nodes[i] in nodes; }
  }

  lemma OneNode(nodes: seq<Node>, m: Node, n: Node)
    requires Sorted(nodes) && m in nodes && n in nodes
    ensures m.hash == n.hash ==> m == n
  {
    var i :| 0 <= i < |nodes| && nodes[i] == m;
    var j :| 0 <= j < |nodes| && nodes[j] == n;
  }

  lemma NoSuchNode(nodes: seq<Node>, h: nat, m: Node)
    requires Sorted(nodes) && m in nodes
    ensures var i := LowerBound(nodes, h); m.hash == h ==> i < |nodes| && nodes[i].hash == h
  {
    var j :| 0 <= j < |nodes| && nodes[j] == m;
  }

  lemma EraseNodes(nodes: seq<Node>, h: nat)
    requires Sorted(nodes)
    ensures Sorted(Erase(nodes, h))
    ensures forall m :: m in Erase(nodes, h) <==> m in nodes && m.hash != h
  {
    var i := LowerBound(nodes, h);
    forall m | m in nodes ensures m.hash == h ==> i < |nodes| && nodes[i].hash == h { NoSuchNode(nodes, h, m); }
    if i < |nodes| && nodes[i].hash == h {
      assert Erase(nodes, h) == Without(nodes, i);
      assert Sorted(Without(nodes, i));
      hide LowerBound, Sorted, Without;
      WithoutMembers(nodes, i);
      forall m | m in nodes ensures m.hash == h <==> m == nodes[i] { OneNode(nodes, m, nodes[i]); }
    }
  }

  /** An ordered map is determined by what it holds. */
  lemma {:induction false} SortedUnique(a: seq<Node>, b: seq<Node>)
    requires Sorted(a) && Sorted(b) && forall m :: m in a <==> m in b
    ensures a == b
  {
    if a == [] {
      if b != [] { HasMember(b); }
    } else {
      assert a[0] in b;
      assert b[0] in a;
      var i :| 0 <= i < |b| && b[i] == a[0];
      var j :| 0 <= j < |a| && a[j] == b[0];
      assert a[0] == b[0];
      forall m ensures m in a[1..] <==> m in b[1..] {
        Tail(a, m);
        Tail(b, m);
      }
      SortedUnique(a[1..], b[1..]);
    }
  }

  lemma HasMember(b: seq<Node>)
    requires b != []
    ensures exists m :: m in b
  {
    assert b[0] in b;
  }

  lemma Tail(a: seq<Node>, m: Node)
    requires Sorted(a) && a != []
    ensures m in a[1..] <==> m in a && m != a[0]
  {
    if m in a && m != a[0] {
      var i :| 0 <= i < |a| && a[i] == m;
      assert a[1..][i - 1] == m;
    }
  }

  // ------------------------------------------------------------------------- owners of keys

  /** find: the place responsible for a hash. */
  function FindPos(nodes: seq<Node>, h: nat): (i: nat)
    requires Sorted(nodes) && nodes != []
    ensures i < |nodes|
  {
    var i := LowerBound(nodes, h);
    if i == |nodes| then 0 else i
  }

  function Owner(nodes: seq<Node>, h: nat): Server
    requires Sorted(nodes) && nodes != []
  {
    nodes[FindPos(nodes, h)].server
  }

  /** The place clockwise after place i. */
  function Next(i: nat, n: nat): nat {
    if i + 1 == n then 0 else i + 1
  }

  /** find_predecessor of a node in the ring: in spite of its name, the place after it. */
  function After(nodes: seq<Node>, h: nat): Server
    requires Sorted(nodes) && LowerBound(nodes, h) < |nodes|
  {
    nodes[Next(LowerBound(nodes, h), |nodes|)].server
  }

  lemma AfterIs(nodes: seq<Node>, h: nat)
    requires Sorted(nodes) && LowerBound(nodes, h) < |nodes|
    ensures After(nodes, h) == nodes[Next(LowerBound(nodes, h), |nodes|)].server
  {
  }

  /** The place clockwise before place i, which the name of find_predecessor promises. */
  function Before(i: nat, n: nat): int {
    if i == 0 then n - 1 else i - 1
  }

  /** find_predecessor gives the place before a node exactly if the ring has at most two nodes. */
  lemma PredecessorIsNext(nodes: seq<Node>, i: nat)
    requires Sorted(nodes) && i < |nodes|
    ensures LowerBound(nodes, nodes[i].hash) == i && After(nodes, nodes[i].hash) == nodes[Next(i, |nodes|)].server
    ensures nodes[Next(i, |nodes|)] == nodes[Before(i, |nodes|)] <==> |nodes| <= 2
  {
    LowerBoundAt(nodes, i);
  }

  /** Going clockwise from h, one comes to j before k. */
  predicate Closer(h: nat, j: nat, k: nat) {
    if (j >= h) == (k >= h) then j < k else j >= h
  }

  /** The place t steps clockwise from place i. */
  function Steps(i: nat, t: nat, n: nat): (j: nat)
    requires i < n && t < n
    ensures j < n
  {
    if i + t < n then i + t else i + t - n
  }

  /** From the place responsible for h on, the places come in clockwise order. */
  lemma StepsAreOrdered(nodes: seq<Node>, h: nat, s: nat, t: nat)
    requires Sorted(nodes) && s < t < |nodes|
    ensures var i := FindPos(nodes, h);
            Closer(h, nodes[Steps(i, s, |nodes|)].hash, nodes[Steps(i, t, |nodes|)].hash)
  {
  }

  /** The owner is nearest of all. */
  lemma OwnerIsNearest(nodes: seq<Node>, h: nat, m: Node)
    requires Sorted(nodes) && m in nodes
    ensures var o := nodes[FindPos(nodes, h)]; m == o || Closer(h, o.hash, m.hash)
  {
    var j :| 0 <= j < |nodes| && nodes[j] == m;
    var i := FindPos(nodes, h);
    if j != i { StepsAreOrdered(nodes, h, 0, if j > i then j - i else j - i + |nodes|); }
  }

  /** And nothing else is. */
  lemma NearestIsOwner(nodes: seq<Node>, h: nat, o: Node)
    requires Sorted(nodes) && o in nodes && forall m :: m in nodes && m != o ==> Closer(h, o.hash, m.hash)
    ensures Owner(nodes, h) == o.server
  {
    OwnerIsNearest(nodes, h, o);
    assert nodes[FindPos(nodes, h)] in nodes;
  }

  // ------------------------------------------------------------------- members and the ring

  /** The ring of a set of members: every member stands at its v places, and nothing else. */
  ghost predicate RingOf(nodes: seq<Node>, members: set<Server>, hash: (Server, nat) -> nat, v: nat) {
    && Sorted(nodes)
    && (forall m :: m in nodes ==> m.server in members && exists k :: 0 <= k < v && m.hash == hash(m.server, k))
    && (forall s, k :: s in members && 0 <= k < v ==> Node(hash(s, k), s) in nodes)
  }

  /** The least a ring keeps, even when places of two servers fall together: each node is a place of
      a member. */
  ghost predicate Sound(nodes: seq<Node>, members: set<Server>, hash: (Server, nat) -> nat, v: nat) {
    && Sorted(nodes)
    && forall m :: m in nodes ==> m.server in members && exists k :: 0 <= k < v && m.hash == hash(m.server, k)
  }

  /** No place of s falls together with one of a member. */
  ghost predicate NoClash(s: Server, members: set<Server>, hash: (Server, nat) -> nat, v: nat) {
    forall t, k, l :: t in members && 0 <= k < v && 0 <= l < v ==> hash(s, k) != hash(t, l)
  }

  /** The ring depends on the members only, not on the order in which they came and went. */
  lemma RingIsCanonical(a: seq<Node>, b: seq<Node>, members: set<Server>, hash: (Server, nat) -> nat, v: nat)
    requires RingOf(a, members, hash, v) && RingOf(b, members, hash, v)
    ensures a == b
  {
    forall m ensures m in a <==> m in b {
      if m in a {
        var k :| 0 <= k < v && m.hash == hash(m.server, k);
        assert Node(hash(m.server, k), m.server) in b;
      }
      if m in b {
        var k :| 0 <= k < v && m.hash == hash(m.server, k);
        assert Node(hash(m.server, k), m.server) in a;
      }
    }
    SortedUnique(a, b);
  }

  /** How two rings that differ in one server hang together. */
  lemma OthersStay(big: seq<Node>, small: seq<Node>, members: set<Server>, s: Server, hash: (Server, nat) -> nat,
                   v: nat)
    requires s !in members && RingOf(big, members + {s}, hash, v) && RingOf(small, members, hash, v)
    ensures forall m :: m in small <==> m in big && m.server != s
  {
    forall m ensures m in small <==> m in big && m.server != s {
      if m in big && m.server != s {
        var k :| 0 <= k < v && m.hash == hash(m.server, k);
        assert Node(hash(m.server, k), m.server) in small;
      }
      if m in small {
        var k :| 0 <= k < v && m.hash == hash(m.server, k);
        assert Node(hash(m.server, k), m.server) in big;
      }
    }
  }

  /** A server that joins or leaves moves only keys to or from itself. */
  lemma OnlyItsKeysMove(big: seq<Node>, small: seq<Node>, members: set<Server>, s: Server, hash: (Server, nat) -> nat,
                        v: nat, h: nat)
    requires s !in members && RingOf(big, members + {s}, hash, v) && RingOf(small, members, hash, v) && small != []
    ensures big != [] && (Owner(big, h) == s || Owner(big, h) == Owner(small, h))
  {
    OthersStay(big, small, members, s, hash, v);
    assert small[0] in big;
    var o := big[FindPos(big, h)];
    if o.server != s {
      forall m | m in small && m != o ensures Closer(h, o.hash, m.hash) { OwnerIsNearest(big, h, m); }
      NearestIsOwner(small, h, o);
    }
  }

  /** The servers right behind the places of s: get_partition_range_changed_threads. */
  ghost predicate IsChangedThreads(threads: seq<Server>, nodes: seq<Node>, s: Server, hash: (Server, nat) -> nat,
                                   v: nat)
    requires Sorted(nodes) && forall k :: 0 <= k < v ==> LowerBound(nodes, hash(s, k)) < |nodes|
  {
    forall t :: t in threads <==> exists k :: 0 <= k < v && t == After(nodes, hash(s, k))
  }

  /** The first place, t steps or more from place i, that is not of server s, when there is one. */
  lemma {:induction false} FirstOther(nodes: seq<Node>, i: nat, s: Server, t: nat, j: nat) returns (u: nat)
    requires i < |nodes| && t <= j < |nodes| && nodes[Steps(i, j, |nodes|)].server != s
    ensures t <= u <= j && nodes[Steps(i, u, |nodes|)].server != s
    ensures forall w :: t <= w < u ==> nodes[Steps(i, w, |nodes|)].server == s
    decreases j - t
  {
    if nodes[Steps(i, t, |nodes|)].server != s { u := t; } else { u := FirstOther(nodes, i, s, t + 1, j); }
  }

  lemma PlaceOf(nodes: seq<Node>, h: nat, m: Node) returns (t: nat)
    requires Sorted(nodes) && m in nodes
    ensures t < |nodes| && nodes[Steps(FindPos(nodes, h), t, |nodes|)] == m
  {
    var j :| 0 <= j < |nodes| && nodes[j] == m;
    var i := FindPos(nodes, h);
    t := if j >= i then j - i else j - i + |nodes|;
  }

  /** The owner without s is u steps on, when everything before is of s. */
  lemma OwnerBehind(big: seq<Node>, small: seq<Node>, s: Server, h: nat, u: nat)
    requires Sorted(big) && Sorted(small) && u < |big| && forall m :: m in small <==> m in big && m.server != s
    requires big[Steps(FindPos(big, h), u, |big|)].server != s
    requires forall w :: 0 <= w < u ==> big[Steps(FindPos(big, h), w, |big|)].server == s
    ensures small != [] && Owner(small, h) == big[Steps(FindPos(big, h), u, |big|)].server
  {
    hide Steps, FindPos, Closer;
    var o := big[Steps(FindPos(big, h), u, |big|)];
    assert o in small;
    forall m | m in small && m != o ensures Closer(h, o.hash, m.hash) {
      var t := PlaceOf(big, h, m);
      StepsAreOrdered(big, h, u, t);
    }
    NearestIsOwner(small, h, o);
  }

  /** The place after a place of s is right behind it. */
  lemma RightBehind(nodes: seq<Node>, i: nat, u: nat)
    requires Sorted(nodes) && i < |nodes| && 0 < u < |nodes|
    ensures var last := nodes[Steps(i, u - 1, |nodes|)];
            LowerBound(nodes, last.hash) < |nodes| && After(nodes, last.hash) == nodes[Steps(i, u, |nodes|)].server
  {
    LowerBoundAt(nodes, Steps(i, u - 1, |nodes|));
  }

  /** When s is in the ring with others, every key it owns would without it belong to a thread
      right behind one of its places: those are the threads the ring names as affected. */
  lemma MovedKeysAreListed(big: seq<Node>, small: seq<Node>, members: set<Server>, s: Server,
                           hash: (Server, nat) -> nat, v: nat,
                           threads: seq<Server>, h: nat)
    requires s !in members && RingOf(big, members + {s}, hash, v) && RingOf(small, members, hash, v) && small != []
    requires forall k :: 0 <= k < v ==> LowerBound(big, hash(s, k)) < |big|
    requires IsChangedThreads(threads, big, s, hash, v) && big != [] && Owner(big, h) == s
    ensures Owner(small, h) in threads
  {
    OthersStay(big, small, members, s, hash, v);
    assert small[0] in small;
    var i := FindPos(big, h);
    var j := PlaceOf(big, h, small[0]);
    var u := FirstOther(big, i, s, 0, j);
    assert Steps(i, 0, |big|) == i;
    OwnerBehind(big, small, s, h, u);
    RightBehind(big, i, u);
    hide Steps, FindPos, Owner, After;
    var last := big[Steps(i, u - 1, |big|)];
    assert last in big && last.server == s;
    var k :| 0 <= k < v && last.hash == hash(s, k);
    assert After(big, hash(s, k)) in threads;
  }

  lemma {:induction false} LowerBoundAt(nodes: seq<Node>, i: nat)
    requires Sorted(nodes) && i < |nodes|
    ensures LowerBound(nodes, nodes[i].hash) == i
  {
    if i > 0 { LowerBoundAt(nodes[1..], i - 1); }
  }

  // --------------------------------------------------------------------- joining and leaving

  /** The first k places of s were put into a ring. */
  ghost predicate Joined(was: seq<Node>, nodes: seq<Node>, s: Server, k: nat, hash: (Server, nat) -> nat) {
    && Sorted(nodes) && (forall m :: m in was ==> m in nodes)
    && (forall m :: m in nodes ==> m in was || (m.server == s && exists j :: 0 <= j < k && m.hash == hash(s, j)))
    && forall j :: 0 <= j < k ==> Occupied(nodes, hash(s, j))
  }

  ghost predicate Occupied(nodes: seq<Node>, h: nat) {
    exists m :: m in nodes && m.hash == h
  }

  lemma JoinedMore(was: seq<Node>, nodes: seq<Node>, s: Server, k: nat, hash: (Server, nat) -> nat)
    requires Joined(was, nodes, s, k, hash)
    ensures Joined(was, Put(nodes, Node(hash(s, k), s)), s, k + 1, hash)
  {
    var n := Node(hash(s, k), s);
    var more := Put(nodes, n);
    PutNodes(nodes, n);
    forall j | 0 <= j < k + 1 ensures Occupied(more, hash(s, j)) {
      if j < k { assert Occupied(nodes, hash(s, j)); }
    }
  }

  /** A server that joins has all its places exactly if none is taken, and only then is the ring
      that of its members. */
  lemma JoinedRing(was: seq<Node>, nodes: seq<Node>, members: set<Server>, s: Server, hash: (Server, nat) -> nat,
                   v: nat)
    requires Sound(was, members, hash, v) && s !in members && Joined(was, nodes, s, v, hash)
    ensures Sound(nodes, members + {s}, hash, v)
    ensures RingOf(nodes, members + {s}, hash, v) <==> RingOf(was, members, hash, v) && NoClash(s, members, hash, v)
  {
    if RingOf(nodes, members + {s}, hash, v) {
      forall t, l | t in members && 0 <= l < v ensures Node(hash(t, l), t) in was {
        assert Node(hash(t, l), t) in nodes;
      }
      forall t, k, l | t in members && 0 <= k < v && 0 <= l < v ensures hash(s, k) != hash(t, l) {
        OneNode(nodes, Node(hash(s, k), s), Node(hash(t, l), t));
      }
    }
    if RingOf(was, members, hash, v) && NoClash(s, members, hash, v) {
      forall k | 0 <= k < v ensures Node(hash(s, k), s) in nodes {
        assert Occupied(nodes, hash(s, k));
        var m :| m in nodes && m.hash == hash(s, k);
        assert m == Node(hash(s, k), m.server);
      }
    }
  }

  /** The first k places of s were erased from a ring. */
  ghost predicate Departed(was: seq<Node>, nodes: seq<Node>, s: Server, k: nat, hash: (Server, nat) -> nat) {
    Sorted(nodes) && forall m :: m in nodes <==> m in was && !Within(m.hash, s, k, hash)
  }

  predicate Within(h: nat, s: Server, k: nat, hash: (Server, nat) -> nat) {
    exists j :: 0 <= j < k && h == hash(s, j)
  }

  lemma LeftMore(was: seq<Node>, nodes: seq<Node>, s: Server, k: nat, hash: (Server, nat) -> nat)
    requires Departed(was, nodes, s, k, hash)
    ensures Departed(was, Erase(nodes, hash(s, k)), s, k + 1, hash)
  {
    var less := Erase(nodes, hash(s, k));
    EraseNodes(nodes, hash(s, k));
    forall m ensures m in less <==> m in was && !Within(m.hash, s, k + 1, hash) {
      assert Within(m.hash, s, k + 1, hash) <==> Within(m.hash, s, k, hash) || m.hash == hash(s, k);
    }
  }

  /** These members stand at all their places. */
  ghost predicate AllPlaced(nodes: seq<Node>, members: set<Server>, hash: (Server, nat) -> nat, v: nat) {
    forall t, l :: t in members && 0 <= l < v ==> Node(hash(t, l), t) in nodes
  }

  /** Erasing goes by hash: a server that leaves, whether it was a member or not, takes with it
      every node at one of its places. So the ring it leaves is whole exactly if the others had all
      their places and shared none with it. */
  lemma LeftRing(was: seq<Node>, nodes: seq<Node>, members: set<Server>, s: Server, hash: (Server, nat) -> nat, v: nat)
    requires Sound(was, members, hash, v) && Departed(was, nodes, s, v, hash)
    ensures Sound(nodes, members - {s}, hash, v)
    ensures s !in members && NoClash(s, members, hash, v) ==> nodes == was
    ensures RingOf(nodes, members - {s}, hash, v) <==>
            AllPlaced(was, members - {s}, hash, v) && NoClash(s, members - {s}, hash, v)
  {
    if s !in members && NoClash(s, members, hash, v) {
      forall m ensures m in was <==> m in nodes {}
      SortedUnique(was, nodes);
    }
    if RingOf(nodes, members - {s}, hash, v) {
      forall t, k, l | t in members - {s} && 0 <= k < v && 0 <= l < v ensures hash(s, k) != hash(t, l) {
        assert Node(hash(t, l), t) in nodes;
        assert !Within(hash(t, l), s, v, hash);
      }
    }
  }

  /** In a whole ring no two members share a place. */
  lemma WholeIsApart(nodes: seq<Node>, members: set<Server>, s: Server, hash: (Server, nat) -> nat, v: nat)
    requires RingOf(nodes, members, hash, v) && s in members
    ensures AllPlaced(nodes, members - {s}, hash, v) && NoClash(s, members - {s}, hash, v)
  {
    forall t, k, l | t in members - {s} && 0 <= k < v && 0 <= l < v ensures hash(s, k) != hash(t, l) {
      OneNode(nodes, Node(hash(s, k), s), Node(hash(t, l), t));
    }
  }

  /** A server that joins a whole ring and leaves again leaves it whole exactly if it shares no place
      with a member. */
  lemma JoinedAndLeft(was: seq<Node>, mid: seq<Node>, nodes: seq<Node>, members: set<Server>, s: Server,
                      hash: (Server, nat) -> nat, v: nat)
    requires RingOf(was, members, hash, v) && s !in members
    requires Joined(was, mid, s, v, hash) && Departed(mid, nodes, s, v, hash)
    ensures RingOf(nodes, members, hash, v) <==> NoClash(s, members, hash, v)
  {
    JoinedRing(was, mid, members, s, hash, v);
    assert members + {s} - {s} == members;
    LeftRing(mid, nodes, members + {s}, s, hash, v);
  }

  /** And if it does, a member loses its place: here its only one. */
  lemma LeavingTakesAnother(a: Server, b: Server)
    requires a != b
    ensures var hash := (_: Server, k: nat) => k;
            var was, v := [Node(0, a)], 1;
            RingOf(was, {a}, hash, v) && Joined(was, was, b, v, hash) && Departed(was, [], b, v, hash)
              && !RingOf([], {a}, hash, v)
  {
    var hash := (_: Server, k: nat) => k;
    var was := [Node(0, a)];
    assert Node(hash(a, 0), a) in was;
    assert Occupied(was, hash(b, 0));
    assert Within(0, b, 1, hash);
    assert a in {a} && Node(hash(a, 0), a) !in [];
  }

  // ------------------------------------------------------------------------------- replicas

  /** The walk of responsible_global, t places long: each new server is noted once. */
  function Collect(nodes: seq<Node>, pos: nat, t: nat, found: seq<Server>): seq<Server>
    requires pos < |nodes|
    decreases t
  {
    if t == 0 then found
    else
      var s := nodes[pos].server;
      Collect(nodes, Next(pos, |nodes|), t - 1, if s in found then found else found + [s])
  }

  lemma {:induction false} ListCovers(threads: seq<Server>, members: set<Server>)
    requires NoDup(threads)
    ensures (forall m :: m in members ==> m in threads) ==> |threads| >= |members|
    ensures (forall m :: m in threads ==> m in members) ==> |threads| <= |members|
    decreases |threads|
  {
    if threads == [] {
      if members != {} { var m :| m in members; }
    } else {
      var s := threads[0];
      assert s in threads && threads == [s] + threads[1..];
      ListCovers(threads[1..], members - {s});
    }
  }

  /** However far the walk goes, it finds no more servers than there are: with a larger
      replication factor responsible_global would not come to an end. */
  lemma {:induction false} CollectIsBounded(nodes: seq<Node>, pos: nat, t: nat, found: seq<Server>,
                                            members: set<Server>)
    requires pos < |nodes| && NoDup(found) && (forall m :: m in nodes ==> m.server in members)
             && forall s :: s in found ==> s in members
    ensures |Collect(nodes, pos, t, found)| <= |members|
    decreases t
  {
    if t == 0 {
      ListCovers(found, members);
    } else {
      assert nodes[pos] in nodes;
      var s := nodes[pos].server;
      CollectIsBounded(nodes, Next(pos, |nodes|), t - 1, if s in found then found else found + [s], members);
    }
  }

  /** One more place on. */
  lemma {:induction false} CollectOneMore(nodes: seq<Node>, pos: nat, t: nat, found: seq<Server>)
    requires pos < |nodes| && t < |nodes|
    ensures var p, s := Collect(nodes, pos, t, found), nodes[Steps(pos, t, |nodes|)].server;
            Collect(nodes, pos, t + 1, found) == if s in p then p else p + [s]
    decreases t
  {
    if t > 0 {
      var s := nodes[pos].server;
      CollectOneMore(nodes, Next(pos, |nodes|), t - 1, if s in found then found else found + [s]);
    }
  }

  lemma CollectNone(nodes: seq<Node>, pos: nat)
    requires pos < |nodes|
    ensures Collect(nodes, pos, 0, []) == []
  {
  }

  lemma StepNext(i: nat, t: nat, n: nat)
    requires i < n && t < n
    ensures Steps(i, 0, n) == i
    ensures Next(Steps(i, t, n), n) == if t + 1 < n then Steps(i, t + 1, n) else i
  {
  }

  lemma RingFacts(nodes: seq<Node>, members: set<Server>, hash: (Server, nat) -> nat, v: nat)
    requires RingOf(nodes, members, hash, v)
    ensures Sorted(nodes) && forall i :: 0 <= i < |nodes| ==> nodes[i].server in members
  {
  }

  /** Once around, every member has been found. */
  lemma AllCollected(nodes: seq<Node>, members: set<Server>, hash: (Server, nat) -> nat, v: nat, start: nat,
                     threads: seq<Server>)
    requires RingOf(nodes, members, hash, v) && v > 0 && start < |nodes| && NoDup(threads)
    requires forall w :: 0 <= w < |nodes| ==> nodes[Steps(start, w, |nodes|)].server in threads
    ensures |threads| >= |members|
  {
    forall m | m in members ensures m in threads {
      var n := Node(hash(m, 0), m);
      assert n in nodes;
      var j :| 0 <= j < |nodes| && nodes[j] == n;
      var w := if j >= start then j - start else j - start + |nodes|;
      assert Steps(start, w, |nodes|) == j;
    }
    ListCovers(threads, members);
  }

  lemma JoinedNone(nodes: seq<Node>, s: Server, hash: (Server, nat) -> nat)
    requires Sorted(nodes)
    ensures Joined(nodes, nodes, s, 0, hash)
  {
  }

  lemma JoinedKeeps(was: seq<Node>, nodes: seq<Node>, s: Server, k: nat, hash: (Server, nat) -> nat)
    requires Joined(was, nodes, s, k, hash)
    ensures forall m :: m in was ==> m in nodes
  {
  }

  lemma LeftNone(nodes: seq<Node>, s: Server, hash: (Server, nat) -> nat)
    requires Sorted(nodes)
    ensures Departed(nodes, nodes, s, 0, hash)
  {
  }

  lemma DepartedNodes(was: seq<Node>, nodes: seq<Node>, s: Server, k: nat, hash: (Server, nat) -> nat)
    requires Departed(was, nodes, s, k, hash)
    ensures forall m :: m in nodes <==> m in was && !Within(m.hash, s, k, hash)
  {
  }

  lemma SoundSorted(nodes: seq<Node>, members: set<Server>, hash: (Server, nat) -> nat, v: nat)
    requires Sound(nodes, members, hash, v)
    ensures Sorted(nodes)
  {
  }

  lemma MembersFound(nodes: seq<Node>, members: set<Server>, s: Server, hash: (Server, nat) -> nat, v: nat)
    requires RingOf(nodes, members, hash, v) && s in members
    ensures forall k :: 0 <= k < v ==> LowerBound(nodes, hash(s, k)) < |nodes|
  {
    forall k | 0 <= k < v ensures LowerBound(nodes, hash(s, k)) < |nodes| {
      var j :| 0 <= j < |nodes| && nodes[j] == Node(hash(s, k), s);
      LowerBoundAt(nodes, j);
    }
  }

  // -------------------------------------------------------------------------------- the ring

  class Ring {
    const hash: (Server, nat) -> nat
    const v: nat
    var nodes: seq<Node>
    var members: set<Server>
    var joinCount: map<string, int>

    ghost predicate Valid()
      reads this
    {
      Sound(nodes, members, hash, v)
    }

    /** Every member stands at all its places. */
    ghost predicate Whole()
      reads this
    {
      RingOf(nodes, members, hash, v)
    }

    constructor (hash: (Server, nat) -> nat, v: nat)
      ensures Valid() && Whole() && this.hash == hash && this.v == v && members == {} && joinCount == map[]
    {
      this.hash, this.v := hash, v;
      nodes, members, joinCount := [], {}, map[];
    }

    /** HashRing::insert. A count that is not there reads as zero, and is then there. A new server
        leaves the ring whole exactly if none of its places is taken. */
    method Insert(s: Server, count: int) returns (r: bool)
      requires Valid()
      modifies this
      ensures Valid() && members == old(members) + {s}
      ensures Whole() <==> old(Whole()) && (s in old(members) || NoClash(s, old(members), hash, v))
      ensures r <==> s !in old(members) || (if s.ip in old(joinCount) then old(joinCount)[s.ip] else 0) < count
      ensures r ==> joinCount == old(joinCount)[s.ip := count]
      ensures !r ==> joinCount == old(joinCount)[s.ip := if s.ip in old(joinCount) then old(joinCount)[s.ip] else 0]
      ensures s in old(members) ==> nodes == old(nodes)
      ensures forall m :: m in old(nodes) ==> m in nodes
    {
      hide RingOf, Sound, NoClash, Joined;
      SoundSorted(nodes, members, hash, v);
      if s in members {
        assert members == members + {s};
        if s.ip !in joinCount { joinCount := joinCount[s.ip := 0]; }
        if joinCount[s.ip] < count {
          joinCount := joinCount[s.ip := count];
          assert joinCount == old(joinCount)[s.ip := count];
          return true;
        }
        return false;
      }
      members := members + {s};
      joinCount := joinCount[s.ip := count];
      JoinedNone(nodes, s, hash);
      for k := 0 to v
        invariant Joined(old(nodes), nodes, s, k, hash) && Sorted(nodes)
        invariant members == old(members) + {s} && joinCount == old(joinCount)[s.ip := count]
      {
        JoinedMore(old(nodes), nodes, s, k, hash);
        PutNodes(nodes, Node(hash(s, k), s));
        nodes := Put(nodes, Node(hash(s, k), s));
      }
      JoinedRing(old(nodes), nodes, old(members), s, hash, v);
      JoinedKeeps(old(nodes), nodes, s, v, hash);
      r := true;
    }

    /** HashRing::remove. A node goes exactly if its hash is a place of the server, whoever stands
        there. */
    method Remove(s: Server)
      requires Valid()
      modifies this
      ensures Valid() && members == old(members) - {s} && joinCount == old(joinCount) - {s.ip}
      ensures forall m :: m in nodes <==> m in old(nodes) && !Within(m.hash, s, v, hash)
      ensures Whole() <==> AllPlaced(old(nodes), members, hash, v) && NoClash(s, members, hash, v)
      ensures old(Whole()) && s in old(members) ==> Whole()
      ensures s !in old(members) && NoClash(s, old(members), hash, v) ==> nodes == old(nodes)
    {
      hide RingOf, Sound, NoClash, Departed, AllPlaced, Within;
      SoundSorted(nodes, members, hash, v);
      LeftNone(nodes, s, hash);
      for k := 0 to v
        invariant Departed(old(nodes), nodes, s, k, hash) && Sorted(nodes) && members == old(members)
                  && joinCount == old(joinCount)
      {
        LeftMore(old(nodes), nodes, s, k, hash);
        EraseNodes(nodes, hash(s, k));
        nodes := Erase(nodes, hash(s, k));
      }
      members := members - {s};
      joinCount := joinCount - {s.ip};
      LeftRing(old(nodes), nodes, old(members), s, hash, v);
      DepartedNodes(old(nodes), nodes, s, v, hash);
      if old(Whole()) && s in old(members) { WholeIsApart(old(nodes), old(members), s, hash, v); }
    }

    /** ConsistentHashMap::find. */
    method Find(h: nat) returns (r: Option<Server>)
      requires Valid()
      ensures nodes == [] ==> r == None
      ensures nodes != [] ==> r == Some(Owner(nodes, h))
    {
      if nodes == [] { return None; }
      var i := LowerBound(nodes, h);
      if i == |nodes| { i := 0; }
      r := Some(nodes[i].server);
    }

    /** get_partition_range_changed_threads of a member. */
    method ChangedThreads(s: Server) returns (threads: seq<Server>)
      requires Whole() && s in members
      ensures forall k :: 0 <= k < v ==> LowerBound(nodes, hash(s, k)) < |nodes|
      ensures IsChangedThreads(threads, nodes, s, hash, v) && NoDup(threads)
    {
      hide RingOf, Sorted, After;
      threads := [];
      RingFacts(nodes, members, hash, v);
      MembersFound(nodes, members, s, hash, v);
      for k := 0 to v
        invariant NoDup(threads)
        invariant forall t :: t in threads <==> exists j :: 0 <= j < k && t == After(nodes, hash(s, j))
      {
        var i := LowerBound(nodes, hash(s, k));
        var t := nodes[Next(i, |nodes|)].server;
        AfterIs(nodes, hash(s, k));
        if t !in threads { threads := threads + [t]; }
      }
    }

    /** responsible_global: the first rep servers clockwise from the hash of a key. */
    method ResponsibleGlobal(h: nat, rep: nat) returns (threads: seq<Server>)
      requires Whole() && v > 0 && (nodes != [] ==> rep <= |members|)
      ensures nodes == [] ==> threads == []
      ensures nodes != [] ==> |threads| == rep && NoDup(threads) && (forall t :: t in threads ==> t in members)
      ensures nodes != [] ==> exists t :: threads == Collect(nodes, FindPos(nodes, h), t, [])
      ensures nodes != [] && rep > 0 ==> threads[0] == Owner(nodes, h)
    {
      hide RingOf, Collect, Steps, Next, Sorted;
      threads := [];
      if nodes == [] { return; }
      RingFacts(nodes, members, hash, v);
      var start := FindPos(nodes, h);
      StepNext(start, 0, |nodes|);
      CollectNone(nodes, start);
      var pos, i := start, 0;
      ghost var t: nat := 0;
      while i < rep
        invariant pos < |nodes| && i == |threads| <= rep && NoDup(threads) && t <= |nodes|
        invariant pos == if t < |nodes| then Steps(start, t, |nodes|) else start
        invariant forall w :: 0 <= w < t ==> nodes[Steps(start, w, |nodes|)].server in threads
        invariant forall s :: s in threads ==> s in members
        invariant Collect(nodes, start, t, []) == threads
        invariant (t > 0 ==> i > 0) && (i > 0 ==> threads[0] == nodes[start].server)
        decreases |nodes| - t
      {
        if t == |nodes| { AllCollected(nodes, members, hash, v, start, threads); }
        CollectOneMore(nodes, start, t, []);
        StepNext(start, t, |nodes|);
        var s := nodes[pos].server;
        if s !in threads {
          threads := threads + [s];
          i := i + 1;
        }
        pos := Next(pos, |nodes|);
        t := t + 1;
      }
    }
  }

  /** A new server joins and leaves again: the ring is whole afterwards, and what it was, exactly if
      the server shares no place with a member. */
  method JoinAndLeave(ring: Ring, s: Server, count: int)
    requires ring.Whole() && s !in ring.members
    modifies ring
    ensures ring.members == old(ring.members)
    ensures ring.Whole() <==> NoClash(s, old(ring.members), ring.hash, ring.v)
    ensures ring.Whole() ==> ring.nodes == old(ring.nodes)
  {
    hide RingOf, Sound, NoClash, AllPlaced, Within;
    WholeFacts(ring.nodes, ring.members, ring.hash, ring.v);
    var joined := ring.Insert(s, count);
    PlacedStay(old(ring.nodes), ring.nodes, old(ring.members), ring.hash, ring.v);
    ring.Remove(s);
    assert old(ring.members) + {s} - {s} == old(ring.members);
    if ring.Whole() { RingIsCanonical(ring.nodes, old(ring.nodes), ring.members, ring.hash, ring.v); }
  }

  lemma WholeFacts(nodes: seq<Node>, members: set<Server>, hash: (Server, nat) -> nat, v: nat)
    requires RingOf(nodes, members, hash, v)
    ensures Sound(nodes, members, hash, v) && AllPlaced(nodes, members, hash, v)
  {
  }

  lemma PlacedStay(was: seq<Node>, nodes: seq<Node>, members: set<Server>, hash: (Server, nat) -> nat, v: nat)
    requires AllPlaced(was, members, hash, v) && forall m :: m in was ==> m in nodes
    ensures AllPlaced(nodes, members, hash, v)
  {
  }
}
