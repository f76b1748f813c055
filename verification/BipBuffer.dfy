/** The bip buffer of memcached/bipbuffer.c: a byte queue in one array, whose contents are at
    most two stretches, region A and, in front of it, region B. */
module BipBuffer {

  /** The indices: A is [aStart, aEnd), B is [0, bEnd). */
  datatype Bip = Bip(size: nat, aStart: int, aEnd: int, bEnd: int, bInuse: bool)

  /** B lies in front of A; there is no B without an A, and an empty A lies at the start. */
  predicate Valid(b: Bip) {
    && 0 <= b.bEnd <= b.aStart <= b.aEnd <= b.size
    && (!b.bInuse ==> b.bEnd == 0)
    && (b.aStart == b.aEnd ==> b.aStart == 0 && !b.bInuse)
  }

  /** What is queued, oldest first. */
  function Queue<T>(b: Bip, data: seq<T>): seq<T>
    requires Valid(b) && |data| == b.size
  {
    data[b.aStart..b.aEnd] + data[..b.bEnd]
  }

  /** bipbuf_unused. */
  function Unused(b: Bip): int {
    if b.bInuse then b.aStart - b.bEnd else b.size - b.aEnd
  }

  /** Where the next bytes go. */
  function Position(b: Bip): int {
    if b.bInuse then b.bEnd else b.aEnd
  }

  /** __check_for_switch_to_b. */
  function Switch(b: Bip): Bip {
    if b.size - b.aEnd < b.aStart - b.bEnd then b.(bInuse := true) else b
  }

  /** bipbuf_push when there is room. */
  function Pushed(b: Bip, n: nat): Bip {
    Switch(if b.bInuse then b.(bEnd := b.bEnd + n) else b.(aEnd := b.aEnd + n))
  }

  /** bipbuf_poll past its two tests. */
  function Polled(b: Bip, n: nat): Bip {
    var b1 := b.(aStart := b.aStart + n);
    Switch(
      if b1.aStart != b1.aEnd then b1
      else if b1.bInuse then b1.(aStart := 0, aEnd := b1.bEnd, bEnd := 0, bInuse := false)
      else b1.(aStart := 0, aEnd := 0))
  }

  // ------------------------------------------------------------------------ a queue of bytes

  /** The same array outside the n places at the write position. */
  ghost predicate WrittenAt<T>(b: Bip, data: seq<T>, data': seq<T>, n: nat) {
    && |data'| == |data|
    && forall i :: 0 <= i < |data| && !(Position(b) <= i < Position(b) + n) ==> data'[i] == data[i]
  }

  /** Writing where bipbuf_request says changes nothing that is queued, */
  lemma WritingIsFree<T>(b: Bip, data: seq<T>, data': seq<T>, n: nat)
    requires Valid(b) && |data| == b.size && n <= Unused(b) && WrittenAt(b, data, data', n)
    ensures 0 <= Position(b) && Position(b) + n <= b.size
    ensures Queue(b, data') == Queue(b, data)
  {
    assert data'[b.aStart..b.aEnd] == data[b.aStart..b.aEnd];
    assert data'[..b.bEnd] == data[..b.bEnd];
  }

  /** and pushing appends what was written there. */
  lemma PushAppends<T>(b: Bip, data: seq<T>, n: nat)
    requires Valid(b) && |data| == b.size && n <= Unused(b)
    ensures Valid(Pushed(b, n))
    ensures Queue(Pushed(b, n), data) == Queue(b, data) + data[Position(b)..Position(b) + n]
  {
  }

  /** Polling no more than region A holds takes exactly that from the front; and only then:
      a larger poll that passes the size test leaves the indices crossed. */
  lemma PollDequeues<T>(b: Bip, data: seq<T>, n: nat)
    requires Valid(b) && |data| == b.size && b.aStart < b.aEnd && b.aStart + n <= b.size
    ensures Valid(Polled(b, n)) && n <= |Queue(b, data)| && Queue(Polled(b, n), data) == Queue(b, data)[n..]
            <==> n <= b.aEnd - b.aStart
  {
    if n <= b.aEnd - b.aStart {
      assert Queue(b, data)[n..] == data[b.aStart + n..b.aEnd] + data[..b.bEnd];
    }
  }

  /** For every size and start of A there is a poll that crosses the indices, as soon as the
      array goes on behind A. */
  lemma PollTooMuch(b: Bip)
    requires Valid(b) && b.aStart < b.aEnd < b.size
    ensures var n := b.aEnd - b.aStart + 1; b.aStart + n <= b.size && !Valid(Polled(b, n))
  {
  }

  /** A granted request covers everything that is pushed under it, piece by piece: each piece
      fits as long as the pieces together do not exceed the request. */
  lemma {:induction false} RequestCoversPushes(b: Bip, n: nat, pieces: seq<nat>)
    requires Valid(b) && n <= Unused(b) && Total(pieces) <= n
    ensures AllFit(b, pieces)
    decreases |pieces|
  {
    if pieces != [] {
      assert pieces[0] <= n;
      RequestCoversPushes(Pushed(b, pieces[0]), n - pieces[0], pieces[1..]);
    }
  }

  function Total(pieces: seq<nat>): nat {
    if pieces == [] then 0 else pieces[0] + Total(pieces[1..])
  }

  predicate AllFit(b: Bip, pieces: seq<nat>)
    decreases |pieces|
  {
    pieces == [] || (pieces[0] <= Unused(b) && AllFit(Pushed(b, pieces[0]), pieces[1..]))
  }

  // ------------------------------------------------- one producer, one consumer, any schedule

  /** The buffer, all bytes ever pushed and polled, and what the consumer last peeked at. */
  datatype State<T> = State(b: Bip, data: seq<T>, pushed: seq<T>, polled: seq<T>, seen: seq<T>)

  datatype Event<T> =
    | Offer(bytes: seq<T>)   // bipbuf_offer, or a request, the writes and a push
    | PeekAll                // bipbuf_peek_all
    | Poll(n: nat)           // bipbuf_poll of no more than was peeked at

  predicate Enabled<T>(s: State<T>, e: Event<T>) {
    e.Poll? ==> e.n <= |s.seen|
  }

  /** The array with bytes put at the write position. */
  function Filled<T>(b: Bip, data: seq<T>, bytes: seq<T>): seq<T>
    requires Valid(b) && |data| == b.size && |bytes| <= Unused(b)
  {
    data[..Position(b)] + bytes + data[Position(b) + |bytes|..]
  }

  function Apply<T>(s: State<T>, e: Event<T>): State<T>
    requires Valid(s.b) && |s.data| == s.b.size && Enabled(s, e)
  {
    match e
    case Offer(bytes) =>
      if |bytes| <= Unused(s.b) then
        s.(b := Pushed(s.b, |bytes|), data := Filled(s.b, s.data, bytes), pushed := s.pushed + bytes)
      else s
    case PeekAll => s.(seen := s.data[s.b.aStart..s.b.aEnd])
    case Poll(n) =>
      if s.b.aStart == s.b.aEnd || s.b.size < s.b.aStart + n then s
      else s.(b := Polled(s.b, n), polled := s.polled + s.seen[..n], seen := [])
  }

  /** First in, first out; and what was peeked at still stands at the start of A. */
  ghost predicate Sound<T>(s: State<T>) {
    && Valid(s.b) && |s.data| == s.b.size
    && s.pushed == s.polled + Queue(s.b, s.data)
    && |s.seen| <= s.b.aEnd - s.b.aStart
    && s.data[s.b.aStart..s.b.aStart + |s.seen|] == s.seen
  }

  lemma OfferSound<T>(s: State<T>, bytes: seq<T>)
    requires Sound(s) && |bytes| <= Unused(s.b)
    ensures Sound(Apply(s, Offer(bytes)))
  {
    hide Pushed, Filled, Queue, WrittenAt, Position;
    var data' := Filled(s.b, s.data, bytes);
    FilledWrites(s.b, s.data, bytes);
    WritingIsFree(s.b, s.data, data', |bytes|);
    PushAppends(s.b, data', |bytes|);
    PushKeepsStart(s.b, |bytes|);
    FrontOfSlice(data', s.b.aStart, s.b.aEnd, |s.seen|);
    FrontOfSlice(s.data, s.b.aStart, s.b.aEnd, |s.seen|);
    assert s.polled + (Queue(s.b, s.data) + bytes) == (s.polled + Queue(s.b, s.data)) + bytes;
  }

  lemma FrontOfSlice<T>(s: seq<T>, i: nat, j: nat, n: nat)
    requires i <= j <= |s| && n <= j - i
    ensures s[i..j][..n] == s[i..i + n]
  {
  }

  /** The front of the queue is the start of region A. */
  lemma QueueFront<T>(b: Bip, data: seq<T>, n: nat)
    requires Valid(b) && |data| == b.size && n <= b.aEnd - b.aStart
    ensures n <= |Queue(b, data)| && Queue(b, data)[..n] == data[b.aStart..b.aStart + n]
  {
  }

  lemma FilledWrites<T>(b: Bip, data: seq<T>, bytes: seq<T>)
    requires Valid(b) && |data| == b.size && |bytes| <= Unused(b)
    ensures var data' := Filled(b, data, bytes);
            && WrittenAt(b, data, data', |bytes|)
            && 0 <= Position(b) && Position(b) + |bytes| <= b.size && data'[Position(b)..Position(b) + |bytes|] == bytes
            && data'[b.aStart..b.aEnd] == data[b.aStart..b.aEnd]
  {
  }

  lemma PushKeepsStart(b: Bip, n: nat)
    ensures Pushed(b, n).aStart == b.aStart && Pushed(b, n).aEnd >= b.aEnd && Pushed(b, n).size == b.size
  {
  }

  lemma PollSound<T>(s: State<T>, n: nat)
    requires Sound(s) && n <= |s.seen| && s.b.aStart < s.b.aEnd
    ensures Sound(Apply(s, Poll(n)))
  {
    hide Polled, Queue;
    PollDequeues(s.b, s.data, n);
    QueueFront(s.b, s.data, n);
    FrontOfSlice(s.data, s.b.aStart, s.b.aStart + |s.seen|, n);
    PollKeepsSize(s.b, n);
    var q := Queue(s.b, s.data);
    assert q == q[..n] + q[n..];
    assert s.polled + (q[..n] + q[n..]) == (s.polled + q[..n]) + q[n..];
  }

  lemma PollKeepsSize(b: Bip, n: nat)
    ensures Polled(b, n).size == b.size
  {
  }

  ghost predicate IsRun<T(!new)>(ss: seq<State<T>>, es: seq<Event<T>>) {
    && |ss| == |es| + 1
    && ss[0].b == Bip(|ss[0].data|, 0, 0, 0, false) && ss[0].pushed == ss[0].polled == ss[0].seen == []
    && forall k :: 0 <= k < |es| ==> IsStep(ss[k], es[k], ss[k + 1])
  }

  ghost predicate IsStep<T(!new)>(s: State<T>, e: Event<T>, t: State<T>) {
    Valid(s.b) && |s.data| == s.b.size ==> Enabled(s, e) && t == Apply(s, e)
  }

  /** Whatever the schedule, the bytes polled so far followed by the queue are the bytes pushed,
      in order. */
  lemma {:induction false} EveryRunIsFifo<T(!new)>(ss: seq<State<T>>, es: seq<Event<T>>, n: nat)
    requires IsRun(ss, es) && n <= |es|
    ensures Sound(ss[n])
  {
    if n > 0 {
      EveryRunIsFifo(ss, es, n - 1);
      var s, e := ss[n - 1], es[n - 1];
      assert IsStep(s, e, ss[n]);
      hide Pushed, Polled, Filled, Queue;
      match e
      case Offer(bytes) => if |bytes| <= Unused(s.b) { OfferSound(s, bytes); }
      case PeekAll =>
      case Poll(k) => if s.b.aStart < s.b.aEnd { PollSound(s, k); }
    }
  }

  // ----------------------------------------------------------------------- the buffer itself

  class Buffer<T(0)> {
    const size: nat
    const data: array<T>
    var aStart: int
    var aEnd: int
    var bEnd: int
    var bInuse: bool

    ghost function Indices(): Bip
      reads this
    {
      Bip(size, aStart, aEnd, bEnd, bInuse)
    }

    ghost predicate Ok()
      reads this
    {
      data.Length == size && Valid(Indices())
    }

    ghost function Contents(): seq<T>
      requires Ok()
      reads this, data
    {
      Queue(Indices(), data[..])
    }

    /** bipbuf_new and bipbuf_init. */
    constructor (n: nat)
      ensures Ok() && fresh(data) && size == n && Contents() == []
    {
      size := n;
      data := new T[n];
      aStart, aEnd, bEnd, bInuse := 0, 0, 0, false;
    }

    /** bipbuf_unused. */
    method UnusedBytes() returns (n: int)
      requires Ok()
      ensures n == Unused(Indices()) && 0 <= n <= size - |Contents()|
    {
      if bInuse { n := aStart - bEnd; } else { n := size - aEnd; }
    }

    /** bipbuf_used. */
    method UsedBytes() returns (n: int)
      requires Ok()
      ensures n == |Contents()|
    {
      n := (aEnd - aStart) + bEnd;
    }

    /** bipbuf_is_empty. */
    method IsEmpty() returns (r: bool)
      requires Ok()
      ensures r <==> Contents() == []
      ensures r <==> aStart == aEnd
    {
      r := aStart == aEnd;
    }

    /** bipbuf_request: where n bytes may be written, or -1. */
    method Request(n: nat) returns (at: int)
      requires Ok()
      ensures n > Unused(Indices()) ==> at == -1
      ensures n <= Unused(Indices()) ==> at == Position(Indices()) && 0 <= at && at + n <= data.Length
    {
      var unused := UnusedBytes();
      if unused < n { return -1; }
      if bInuse { at := bEnd; } else { at := aEnd; }
    }

    /** __check_for_switch_to_b. */
    method CheckForSwitch()
      modifies this`bInuse
      ensures Indices() == Switch(old(Indices()))
    {
      if size - aEnd < aStart - bEnd { bInuse := true; }
    }

    /** bipbuf_push: what was written at the requested place joins the queue. */
    method Push(n: nat) returns (r: nat)
      requires Ok()
      modifies this`aEnd, this`bEnd, this`bInuse
      ensures Ok() && r == (if n <= Unused(old(Indices())) then n else 0)
      ensures n > Unused(old(Indices())) ==> Indices() == old(Indices())
      ensures n <= Unused(old(Indices())) ==>
                (&& Indices() == Pushed(old(Indices()), n)
                 && 0 <= Position(old(Indices())) && Position(old(Indices())) + n <= data.Length
                 && Contents() == old(Contents()) + data[Position(old(Indices()))..Position(old(Indices())) + n])
    {
      hide Queue, Switch;
      var unused := UnusedBytes();
      if unused < n { return 0; }
      PushAppends(Indices(), data[..], n);
      WritingIsFree(Indices(), data[..], data[..], n);
      assert data[..][Position(Indices())..Position(Indices()) + n]
             == data[Position(Indices())..Position(Indices()) + n];
      if bInuse { bEnd := bEnd + n; } else { aEnd := aEnd + n; }
      CheckForSwitch();
      r := n;
    }

    /** bipbuf_offer: append the bytes, or nothing at all. */
    method OfferBytes(bytes: seq<T>) returns (r: nat)
      requires Ok()
      modifies this`aEnd, this`bEnd, this`bInuse, data
      ensures Ok() && r == (if |bytes| <= Unused(old(Indices())) then |bytes| else 0)
      ensures Contents() == if |bytes| <= Unused(old(Indices())) then old(Contents()) + bytes else old(Contents())
    {
      hide Queue, Pushed, Unused, Position, Valid;
      var at := Request(|bytes|);
      if at < 0 { return 0; }
      ghost var before := data[..];
      forall i | 0 <= i < |bytes| { data[at + i] := bytes[i]; }
      WritingIsFree(Indices(), before, data[..], |bytes|);
      assert data[at..at + |bytes|] == bytes;
      r := Push(|bytes|);
    }

    lemma FrontIsPeeked(n: nat)
      requires Ok() && n <= aEnd - aStart
      ensures n <= |Contents()| && data[aStart..aStart + n] == Contents()[..n]
    {
      QueueFront(Indices(), data[..], n);
      assert data[..][aStart..aStart + n] == data[aStart..aStart + n];
    }

    /** bipbuf_peek: the start of A, though A may hold fewer bytes than asked for. */
    method Peek(n: nat) returns (at: int)
      requires Ok()
      ensures at == if Contents() == [] || size < aStart + n then -1 else aStart
      ensures at >= 0 && n <= aEnd - aStart ==>
              at + n <= data.Length && n <= |Contents()| && data[at..at + n] == Contents()[..n]
    {
      hide Queue;
      if size < aStart + n { return -1; }
      var empty := IsEmpty();
      if empty { return -1; }
      at := aStart;
      if n <= aEnd - aStart { FrontIsPeeked(n); }
    }

    /** bipbuf_peek_all: all of A, which is the front of the queue. */
    method PeekAllBytes() returns (at: int, n: nat)
      requires Ok()
      ensures at < 0 <==> Contents() == []
      ensures at >= 0 ==>
                && n > 0 && at == aStart && at + n == aEnd <= data.Length
                && n <= |Contents()| && data[at..at + n] == Contents()[..n]
    {
      hide Queue;
      var empty := IsEmpty();
      if empty { return -1, 0; }
      at, n := aStart, aEnd - aStart;
      FrontIsPeeked(n);
    }

    /** bipbuf_poll. */
    method PollBytes(n: nat) returns (at: int)
      requires Ok()
      modifies this`aStart, this`aEnd, this`bEnd, this`bInuse
      ensures at == if old(Contents()) == [] || size < old(aStart) + n then -1 else old(aStart)
      ensures Indices() == if at == -1 then old(Indices()) else Polled(old(Indices()), n)
      ensures at >= 0 && n <= old(aEnd - aStart) ==>
                (&& Ok() && n <= |old(Contents())| && at + n <= data.Length
                 && data[at..at + n] == old(Contents())[..n] && Contents() == old(Contents())[n..])
    {
      hide Queue, Switch;
      var empty := IsEmpty();
      if empty { return -1; }
      if size < aStart + n { return -1; }
      PollDequeues(Indices(), data[..], n);
      if n <= aEnd - aStart { FrontIsPeeked(n); }
      at := aStart;
      aStart := aStart + n;
      if aStart == aEnd {
        if bInuse {
          aStart := 0;
          aEnd := bEnd;
          bEnd, bInuse := 0, false;
        } else {
          aStart, aEnd := 0, 0;
        }
      }
      CheckForSwitch();
    }
  }
}
