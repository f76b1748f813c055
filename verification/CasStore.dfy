/** Storing with unique ids (memcached/memcached.c, do_store_item and do_add_delta): every
    change of a value draws a new id, and a compare-and-set succeeds only on the value whose
    id the client has seen. */
module CasStore {
  import opened Basics
  import Copy = ChunkCopy

  type Key = string
  type Value = seq<Byte>

  /** A linked item. */
  datatype Entry = Entry(value: Value, cas: nat, exptime: nat, stale: bool, tokenSent: bool, chunked: bool)

  /** The hash table and the id counter. drawn remembers what each id was drawn for. */
  datatype State = State(table: map<Key, Entry>, casId: nat, drawn: map<nat, (Key, Value)>)

  datatype Comm = Add | Set | Replace | Append | Prepend | Cas

  datatype Stored = NotStored | IsStored | Exists | NotFound

  /** A storage command; cas 0 means none; room says whether append and prepend get memory, and
      chunked whether what is stored is in chunks. */
  datatype Request = Request(comm: Comm, key: Key, value: Value, cas: nat, setStale: bool, exptime: nat, chunked: bool,
                             room: bool)

  // --------------------------------------------------------------------------- the commands

  /** do_item_link and do_item_replace: the item is linked under a new id. */
  function Link(s: State, key: Key, e: Entry): State {
    State(s.table[key := e.(cas := s.casId + 1)], s.casId + 1, s.drawn[s.casId + 1 := (key, e.value)])
  }

  function Fresh(r: Request): Entry { Entry(r.value, 0, r.exptime, false, false, r.chunked) }

  /** do_store_item. */
  function StoreItem(s: State, r: Request): (State, Stored) {
    if r.key in s.table then
      var old' := s.table[r.key];
      match r.comm
      case Add => (s, NotStored)
      case Cas =>
        if r.cas != 0 && r.cas == old'.cas then (Link(s, r.key, Fresh(r)), IsStored)
        else if r.cas != 0 && r.setStale && r.cas < old'.cas then
          (Link(s, r.key, Fresh(r).(exptime := old'.exptime, stale := true, tokenSent := old'.tokenSent)), IsStored)
        else (s, Exists)
      case Append =>
        if r.cas != 0 && r.cas != old'.cas then (s, Exists)
        else if !r.room then (s, NotStored)
        else (Link(s, r.key, Fresh(r).(value := old'.value + r.value, exptime := old'.exptime)), IsStored)
      case Prepend =>
        if r.cas != 0 && r.cas != old'.cas then (s, Exists)
        else if !r.room then (s, NotStored)
        else (Link(s, r.key, Fresh(r).(value := r.value + old'.value, exptime := old'.exptime)), IsStored)
      case _ => (Link(s, r.key, Fresh(r)), IsStored)
    else
      match r.comm
      case Add => (Link(s, r.key, Fresh(r)), IsStored)
      case Set => (Link(s, r.key, Fresh(r)), IsStored)
      case Cas => (s, NotFound)
      case _ => (s, NotStored)
  }

  /** When a command is carried out. */
  predicate Accepts(s: State, r: Request) {
    match r.comm
    case Set => true
    case Add => r.key !in s.table
    case Replace => r.key in s.table
    case Cas => r.key in s.table && (SameId(s, r) || Older(s, r))
    case _ => r.key in s.table && (r.cas == 0 || SameId(s, r)) && r.room
  }

  predicate SameId(s: State, r: Request)
    requires r.key in s.table
  {
    r.cas != 0 && r.cas == s.table[r.key].cas
  }

  /** The id is that of an older value, and the command may set a stale one. */
  predicate Older(s: State, r: Request)
    requires r.key in s.table
  {
    r.cas != 0 && r.setStale && r.cas < s.table[r.key].cas
  }

  predicate Extends(r: Request) { r.comm == Append || r.comm == Prepend }

  /** The value under the key after a command was carried out. */
  predicate Holds(s: State, r: Request, v: Value) {
    if Extends(r) && r.key in s.table then
      var was := s.table[r.key].value;
      if r.comm == Append then was <= v && v[|was|..] == r.value
      else r.value <= v && v[|r.value|..] == was
    else v == r.value
  }

  /** do_store_item from the client's side: when a command is carried out, what it answers
      otherwise, and what the table holds. Only the one key changes, and only then. */
  ghost predicate StoreDone(s: State, t: State, r: Request, stored: Stored) {
    && (stored == IsStored <==> Accepts(s, r))
    && (stored == NotFound <==> r.comm == Cas && r.key !in s.table)
    && (stored == Exists <==>
          && r.key in s.table
          && ((r.comm == Cas && !Accepts(s, r)) || (Extends(r) && r.cas != 0 && !SameId(s, r))))
    && (stored != IsStored ==> t == s)
    && (stored == IsStored ==>
          && t.table.Keys == s.table.Keys + {r.key} && t.table[r.key].cas > s.casId
          && (forall k :: k in s.table && k != r.key ==> t.table[k] == s.table[k])
          && Holds(s, r, t.table[r.key].value) && t.table[r.key].chunked == r.chunked
          && var stale := r.comm == Cas && !SameId(s, r);
             && t.table[r.key].exptime == (if stale || Extends(r) then s.table[r.key].exptime else r.exptime)
             && t.table[r.key].stale == stale
             && t.table[r.key].tokenSent == (stale && s.table[r.key].tokenSent))
  }

  lemma StoreIsDone(s: State, r: Request)
    ensures var (t, stored) := StoreItem(s, r); StoreDone(s, t, r, stored)
  {
    hide Holds;
    HoldsNew(s, r);
    if Extends(r) && r.key in s.table { HoldsSum(s, r); }
  }

  lemma HoldsNew(s: State, r: Request)
    ensures !Extends(r) || r.key !in s.table ==> Holds(s, r, r.value)
  {
  }

  lemma HoldsSum(s: State, r: Request)
    requires Extends(r) && r.key in s.table
    ensures var was := s.table[r.key].value;
            && (r.comm == Append ==> Holds(s, r, was + r.value))
            && (r.comm == Prepend ==> Holds(s, r, r.value + was))
  {
  }

  // ---------------------------------------------------------------------------- the numbers

  const WORD: nat := 0x1_0000_0000_0000_0000

  type Word64 = x: int | 0 <= x < 0x1_0000_0000_0000_0000

  const MINUS: Byte := '-' as int
  const PLUS: Byte := '+' as int
  const BLANK: Byte := ' ' as int

  predicate IsDigit(c: Byte) { '0' as int <= c <= '9' as int }

  predicate IsSpace(c: Byte) { c == BLANK || '\t' as int <= c <= '\r' as int }

  predicate AllDigits(t: Value) { forall i :: 0 <= i < |t| ==> IsDigit(t[i]) }

  predicate AllSpaces(t: Value) { forall i :: 0 <= i < |t| ==> IsSpace(t[i]) }

  function Digit(d: nat): (c: Byte)
    requires d < 10
    ensures IsDigit(c)
  {
    '0' as int + d
  }

  /** itoa_u64: the decimal digits. */
  function Render(n: nat): (t: Value)
    ensures |t| > 0 && AllDigits(t)
  {
    if n < 10 then [Digit(n)] else Render(n / 10) + [Digit(n % 10)]
  }

  /** The number that a string of digits denotes. */
  function Number(t: Value): nat
    requires AllDigits(t)
  {
    if t == [] then 0 else 10 * Number(t[..|t| - 1]) + (t[|t| - 1] - '0' as int)
  }

  function Pow10(k: nat): nat { if k == 0 then 1 else 10 * Pow10(k - 1) }

  /** The digits in front count for as many powers of ten as there are digits behind them. */
  lemma {:induction false} NumberOfSum(a: Value, b: Value)
    requires AllDigits(a) && AllDigits(b)
    ensures AllDigits(a + b) && Number(a + b) == Number(a) * Pow10(|b|) + Number(b)
    decreases |b|
  {
    if b == [] {
      assert a + b == a;
    } else {
      var n := |b| - 1;
      NumberOfSum(a, b[..n]);
      assert (a + b)[..|a + b| - 1] == a + b[..n];
      assert 10 * (Number(a) * Pow10(n)) == Number(a) * Pow10(n + 1);
    }
  }

  lemma {:induction false} RenderedNumber(n: nat)
    ensures Number(Render(n)) == n
  {
    var t := Render(n);
    if n < 10 {
      assert t[..0] == [];
    } else {
      RenderedNumber(n / 10);
      assert t[..|t| - 1] == Render(n / 10);
    }
  }

  /** The length of the leading digits. */
  function Digits(t: Value): (k: nat)
    ensures k <= |t| && AllDigits(t[..k]) && (k < |t| ==> !IsDigit(t[k]))
  {
    if t == [] || !IsDigit(t[0]) then 0
    else
      var k := Digits(t[1..]);
      assert t[..k + 1] == [t[0]] + t[1..][..k];
      k + 1
  }

  /** The length of the leading blanks. */
  function Blanks(t: Value): (k: nat)
    ensures k <= |t| && AllSpaces(t[..k]) && (k < |t| ==> !IsSpace(t[k]))
  {
    if t == [] || !IsSpace(t[0]) then 0
    else
      var k := Blanks(t[1..]);
      assert t[..k + 1] == [t[0]] + t[1..][..k];
      k + 1
  }

  /** The value of digits behind a sign; a negative number wraps around, and is refused when the
      result has the top bit set. */
  function Signed(minus: bool, m: nat, minusSeen: bool): Option<nat> {
    if m >= WORD then None
    else
      var n := if minus && m > 0 then WORD - m else m;
      if n >= WORD / 2 && minusSeen then None else Some(n)
  }

  /** safe_strtoull; the line end follows the value. */
  function Parse(t: Value): Option<nat> {
    var w := Blanks(t);
    var sign := if w < |t| && (t[w] == MINUS || t[w] == PLUS) then 1 else 0;
    var k := Digits(t[w + sign..]);
    var end := w + sign + k;
    if k == 0 || (end < |t| && !IsSpace(t[end])) then None
    else Signed(sign == 1 && t[w] == MINUS, Number(t[w + sign..][..k]), MINUS in t)
  }

  /** What a number looks like: blanks, perhaps a sign, digits, and then nothing or a blank. */
  ghost predicate Looks(t: Value, blanks: Value, sign: Value, digits: Value, tail: Value) {
    && t == blanks + sign + digits + tail
    && AllSpaces(blanks) && (sign == [] || sign == [PLUS] || sign == [MINUS])
    && digits != [] && AllDigits(digits) && (tail == [] || IsSpace(tail[0]))
  }

  lemma {:induction false} DigitsEnd(t: Value, k: nat)
    requires k <= |t| && (forall i :: 0 <= i < k ==> IsDigit(t[i])) && (k < |t| ==> !IsDigit(t[k]))
    ensures Digits(t) == k
  {
    if k > 0 { DigitsEnd(t[1..], k - 1); }
  }

  lemma {:induction false} BlanksEnd(t: Value, k: nat)
    requires k <= |t| && (forall i :: 0 <= i < k ==> IsSpace(t[i])) && (k < |t| ==> !IsSpace(t[k]))
    ensures Blanks(t) == k
  {
    if k > 0 { BlanksEnd(t[1..], k - 1); }
  }

  /** Where the parts stand. */
  lemma PartsAt(t: Value, blanks: Value, sign: Value, digits: Value, tail: Value)
    requires Looks(t, blanks, sign, digits, tail)
    ensures var w, d := |blanks|, |sign|;
            && w + d + |digits| <= |t| && (forall i :: 0 <= i < w ==> IsSpace(t[i]))
            && t[w] == (if d == 1 then sign[0] else digits[0]) && t[w + d..] == digits + tail
            && (w + d + |digits| < |t| <==> tail != [])
            && (w + d + |digits| < |t| ==> t[w + d + |digits|] == tail[0])
  {
    forall i | 0 <= i < |blanks| ensures IsSpace(t[i]) { assert t[i] == blanks[i]; }
  }

  lemma ParseIs(t: Value, blanks: Value, sign: Value, digits: Value, tail: Value)
    requires Looks(t, blanks, sign, digits, tail)
    ensures Parse(t) == Signed(sign == [MINUS], Number(digits), MINUS in t)
  {
    PartsAt(t, blanks, sign, digits, tail);
    assert digits != [] && AllDigits(digits) && (tail != [] ==> !IsDigit(tail[0]));
    assert sign == [] || sign == [PLUS] || sign == [MINUS];
    hide Number, Digits, Blanks, Signed, Looks;
    BlanksEnd(t, |blanks|);
    DigitsEnd(digits + tail, |digits|);
    assert (digits + tail)[..|digits|] == digits;
  }

  /** A text that looks like a number is read as the number: the digits, 2^64 less them behind a
      minus sign, and nothing if that is too large or, with a minus sign, 2^63 or more. */
  lemma ParseReads(t: Value, blanks: Value, sign: Value, digits: Value, tail: Value)
    requires Looks(t, blanks, sign, digits, tail)
    ensures var m := Number(digits);
            && (m >= WORD ==> Parse(t) == None)
            && (m < WORD && sign != [MINUS] ==> Parse(t) == if m >= WORD / 2 && MINUS in t then None else Some(m))
            && (sign == [MINUS] && 0 < m < WORD ==> Parse(t) == if m <= WORD / 2 then None else Some(WORD - m))
            && (sign == [MINUS] && m == 0 ==> Parse(t) == Some(0))
  {
    ParseIs(t, blanks, sign, digits, tail);
    PartsAt(t, blanks, sign, digits, tail);
    hide Number, Parse, AllDigits, AllSpaces;
    assert sign == [MINUS] ==> t[|blanks|] == MINUS;
  }

  /** And nothing else is read as a number. */
  lemma OnlyNumbersParse(t: Value) returns (blanks: Value, sign: Value, digits: Value, tail: Value)
    requires Parse(t).Some?
    ensures Looks(t, blanks, sign, digits, tail)
  {
    hide Number, Digits, Blanks, Signed;
    DigitsAre(t[Blanks(t)..]);
    var w := Blanks(t);
    BlanksAre(t);
    var d := if w < |t| && (t[w] == MINUS || t[w] == PLUS) then 1 else 0;
    var u := t[w + d..];
    DigitsAre(u);
    var k := Digits(u);
    blanks, sign, digits, tail := t[..w], t[w..w + d], u[..k], u[k..];
    assert t == blanks + sign + digits + tail;
    assert |tail| > 0 ==> tail[0] == t[w + d + k];
  }

  lemma DigitsAre(t: Value)
    ensures var k := Digits(t); k <= |t| && AllDigits(t[..k]) && (k < |t| ==> !IsDigit(t[k]))
  {
  }

  lemma BlanksAre(t: Value)
    ensures var k := Blanks(t); k <= |t| && AllSpaces(t[..k]) && (k < |t| ==> !IsSpace(t[k]))
  {
  }

  function Spaces(n: nat): (t: Value)
    ensures |t| == n && forall i :: 0 <= i < n ==> t[i] == BLANK
  {
    seq(n, _ => BLANK)
  }

  /** Digits padded with blanks read back as the number. */
  lemma PaddedParses(n: nat, pad: nat)
    requires n < WORD
    ensures Parse(Render(n) + Spaces(pad)) == Some(n)
  {
    hide Parse, Render, Number;
    var d, t := Render(n), Render(n) + Spaces(pad);
    RenderedDigits(n);
    RenderedNumber(n);
    assert t == [] + [] + d + Spaces(pad);
    assert MINUS !in t;
    ParseReads(t, [], [], d, Spaces(pad));
  }

  lemma RenderedDigits(n: nat)
    ensures Render(n) != [] && AllDigits(Render(n))
  {
  }

  /** The 64-bit arithmetic of incr, which wraps, and decr, which stops at zero. */
  function AddDelta(value: nat, incr: bool, delta: Word64): (r: nat)
    requires value < WORD
    ensures r < WORD
  {
    if incr then (value + delta) % WORD else if delta > value then 0 else value - delta
  }

  datatype Delta = Ok(number: nat) | NonNumeric | OutOfMemory | Missing | Mismatch

  lemma ParsedBound(t: Value)
    ensures Parse(t).Some? ==> Parse(t).value < WORD
  {
    hide Number, Blanks, Digits;
  }

  /** do_add_delta; alone says that nobody else holds the item, room that there is memory for
      a new one. */
  function DeltaItem(s: State, key: Key, incr: bool, delta: Word64, cas: nat, alone: bool, room: bool): (State, Delta) {
    if key !in s.table then (s, Missing)
    else
      var it := s.table[key];
      if it.value == [] || it.chunked then (s, NonNumeric)
      else if cas != 0 && it.cas != cas then (s, Mismatch)
      else match Parse(it.value)
        case None => (s, NonNumeric)
        case Some(n) =>
          ParsedBound(it.value);
          var r := AddDelta(n, incr, delta);
          var t := Render(r);
          if |t| <= |it.value| && alone then
            (Link(s, key, it.(value := t + Spaces(|it.value| - |t|))), Ok(r))
          else if !room then (s, OutOfMemory)
          else (Link(s, key, it.(value := t, stale := false, tokenSent := false)), Ok(r))
  }

  /** Whether it was written in place or anew, the value reads as the number returned. */
  lemma DeltaReadsBack(s: State, key: Key, incr: bool, delta: Word64, cas: nat, alone: bool, room: bool)
    ensures var (t, d) := DeltaItem(s, key, incr, delta, cas, alone, room);
            d.Ok? ==> key in t.table && d.number < WORD && Parse(t.table[key].value) == Some(d.number)
  {
    hide Parse, Render;
    if key in s.table {
      var it := s.table[key];
      ParsedBound(it.value);
      if Parse(it.value).Some? {
        var r := AddDelta(Parse(it.value).value, incr, delta);
        PaddedParses(r, 0);
        assert Render(r) + Spaces(0) == Render(r);
        if |Render(r)| <= |it.value| { PaddedParses(r, |it.value| - |Render(r)|); }
      }
    }
  }

  /** The number after incr, which wraps at 2^64, or decr, which stops at zero. */
  predicate Counts(n: nat, incr: bool, delta: nat, r: nat) {
    if incr then r == n + delta < WORD || r + WORD == n + delta
    else r + delta == n || (r == 0 && n < delta)
  }

  /** What a delta needs: a number, in one piece, with the id if one is given, and memory unless the
      new digits fit where the old ones were and nobody else looks at them. */
  ghost predicate Deltas(s: State, key: Key, cas: nat) {
    && key in s.table && !s.table[key].chunked && (cas == 0 || s.table[key].cas == cas)
    && Parse(s.table[key].value).Some?
  }

  /** do_add_delta from what the text read as to the number and the text: incr adds modulo 2^64, decr
      subtracts down to zero. Written in place the text keeps its length, otherwise it is the digits;
      and where it fails nothing changes. */
  ghost predicate DeltaDone(s: State, t: State, key: Key, incr: bool, delta: nat, cas: nat, alone: bool, room: bool,
                            d: Delta)
  {
    && (d == Missing <==> key !in s.table)
    && (d == Mismatch <==> key in s.table && s.table[key].value != [] && !s.table[key].chunked
                           && cas != 0 && s.table[key].cas != cas)
    && (d.Ok? || d == OutOfMemory <==> Deltas(s, key, cas))
    && (d == OutOfMemory ==> !room)
    && (!d.Ok? ==> t == s)
    && (d.Ok? ==>
          && Counts(Parse(s.table[key].value).value, incr, delta, d.number) && d.number < WORD
          && t.table.Keys == s.table.Keys && t.table[key].cas > s.casId
          && Parse(t.table[key].value) == Some(d.number) && t.table[key].exptime == s.table[key].exptime
          && (|t.table[key].value| == |s.table[key].value| || t.table[key].value == Render(d.number))
          && (room || (alone && |t.table[key].value| == |s.table[key].value|))
          && forall k :: k in s.table && k != key ==> t.table[k] == s.table[k])
  }

  lemma DeltaIsDone(s: State, key: Key, incr: bool, delta: Word64, cas: nat, alone: bool, room: bool)
    ensures var (t, d) := DeltaItem(s, key, incr, delta, cas, alone, room);
            DeltaDone(s, t, key, incr, delta, cas, alone, room, d)
  {
    hide Parse, Render;
    EmptyIsNoNumber();
    DeltaReadsBack(s, key, incr, delta, cas, alone, room);
    if key in s.table {
      var it := s.table[key];
      ParsedBound(it.value);
      if Parse(it.value).Some? {
        WrapsOnce(Parse(it.value).value, delta);
      }
    }
  }

  lemma EmptyIsNoNumber()
    ensures Parse([]) == None
  {
  }

  lemma WrapsOnce(n: nat, delta: Word64)
    requires n < WORD
    ensures (n + delta) % WORD == if n + delta < WORD then n + delta else n + delta - WORD
  {
  }

  /** A decrement undoes an increment exactly when the increment did not wrap. */
  lemma DeltaUndone(n: nat, delta: nat)
    requires n < WORD && delta < WORD
    ensures AddDelta(AddDelta(n, true, delta), false, delta) == n <==> n + delta < WORD
  {
    if n + delta >= WORD { assert (n + delta) % WORD == n + delta - WORD; }
  }

  // ------------------------------------------------------------------------------- all runs

  datatype Event =
    | Storing(r: Request)
    | Deltaing(key: Key, incr: bool, delta: Word64, cas: nat, alone: bool, room: bool)
    | Touching(key: Key, exptime: nat, stale: bool, tokenSent: bool)    // everything but the value
    | Removing(key: Key)                                                // deleted, expired, flushed or evicted

  function Apply(s: State, e: Event): State {
    match e
    case Storing(r) => StoreItem(s, r).0
    case Deltaing(key, incr, delta, cas, alone, room) => DeltaItem(s, key, incr, delta, cas, alone, room).0
    case Touching(key, exptime, stale, tokenSent) =>
      if key in s.table then
        s.(table := s.table[key := s.table[key].(exptime := exptime, stale := stale, tokenSent := tokenSent)])
      else s
    case Removing(key) => s.(table := s.table - {key})
  }

  /** The ids of linked items were drawn for what the items hold, and none is above the
      counter. */
  ghost predicate Valid(s: State) {
    && (forall c :: c in s.drawn ==> 0 < c <= s.casId)
    && (forall k :: k in s.table ==> s.table[k].cas in s.drawn && s.drawn[s.table[k].cas] == (k, s.table[k].value))
  }

  predicate SameValue(e: Entry, f: Entry) { e.value == f.value && e.cas == f.cas }

  /** Whatever a step links it links under an id no item ever had, and every other item in
      the table keeps value and id. Ids keep what they were drawn for. */
  ghost predicate IdsGrow(s: State, t: State) {
    && s.casId <= t.casId
    && (forall c :: c in s.drawn ==> c in t.drawn && t.drawn[c] == s.drawn[c])
    && (forall k :: k in t.table && (k !in s.table || !SameValue(t.table[k], s.table[k])) ==> t.table[k].cas > s.casId)
  }

  lemma LinkGrows(s: State, key: Key, e: Entry)
    requires Valid(s)
    ensures Valid(Link(s, key, e)) && IdsGrow(s, Link(s, key, e))
  {
  }

  lemma Unchanged(s: State)
    ensures IdsGrow(s, s)
  {
  }

  lemma StepGrows(s: State, e: Event)
    requires Valid(s)
    ensures Valid(Apply(s, e)) && IdsGrow(s, Apply(s, e))
  {
    hide Parse, Render;
    var t := Apply(s, e);
    if (e.Storing? || e.Deltaing?) && t != s {
      assert exists key, entry :: t == Link(s, key, entry) by {
        if e.Storing? {
          assert t == Link(s, e.r.key, t.table[e.r.key]);
        } else {
          assert t == Link(s, e.key, t.table[e.key]);
        }
      }
      var key, entry :| t == Link(s, key, entry);
      hide Link, Apply;
      LinkGrows(s, key, entry);
    }
  }

  ghost predicate IsRun(ss: seq<State>, es: seq<Event>) {
    && |ss| == |es| + 1 && ss[0] == State(map[], 0, map[])
    && forall i :: 0 <= i < |es| ==> ss[i + 1] == Apply(ss[i], es[i])
  }

  lemma {:induction false} RunGrows(ss: seq<State>, es: seq<Event>, i: nat, j: nat)
    requires IsRun(ss, es) && i <= j <= |es|
    ensures Valid(ss[i]) && Valid(ss[j]) && ss[i].casId <= ss[j].casId
    ensures forall c :: c in ss[i].drawn ==> c in ss[j].drawn && ss[j].drawn[c] == ss[i].drawn[c]
    decreases j
  {
    hide Apply;
    if i < j {
      RunGrows(ss, es, i, j - 1);
      StepGrows(ss[j - 1], es[j - 1]);
    } else if j > 0 {
      RunGrows(ss, es, j - 1, j - 1);
      StepGrows(ss[j - 1], es[j - 1]);
    }
  }

  /** At any time all linked items have different ids. */
  lemma IdsAreUnique(ss: seq<State>, es: seq<Event>, i: nat, k: Key, l: Key)
    requires IsRun(ss, es) && i <= |es| && k in ss[i].table && l in ss[i].table && k != l
    ensures ss[i].table[k].cas != ss[i].table[l].cas && ss[i].table[k].cas > 0
  {
    RunGrows(ss, es, i, i);
  }

  /** Under a key the id only ever grows, and it is the same only if the value was never
      changed, nor the item removed, in between. */
  lemma {:induction false} IdTellsChange(ss: seq<State>, es: seq<Event>, i: nat, j: nat, k: Key)
    requires IsRun(ss, es) && i <= j <= |es| && k in ss[i].table && k in ss[j].table
    ensures ss[j].table[k].cas >= ss[i].table[k].cas
    ensures ss[j].table[k].cas == ss[i].table[k].cas ==>
              forall m :: i <= m <= j ==> k in ss[m].table && SameValue(ss[m].table[k], ss[i].table[k])
    decreases j
  {
    hide Apply;
    if i < j {
      RunGrows(ss, es, i, j - 1);
      StepGrows(ss[j - 1], es[j - 1]);
      if k in ss[j - 1].table && SameValue(ss[j].table[k], ss[j - 1].table[k]) {
        IdTellsChange(ss, es, i, j - 1, k);
      }
    }
  }

  /** Compare and set loses no update: when a client has read the value of a key with its id
      and its later cas command with that id is stored, then no one changed, removed or stored
      the key in between. (A command that may set stale values is the exception.) */
  lemma CasLosesNoUpdate(ss: seq<State>, es: seq<Event>, i: nat, j: nat, k: Key, r: Request)
    requires IsRun(ss, es) && i <= j < |es| && k in ss[i].table
    requires es[j] == Storing(r) && r.comm == Cas && r.key == k && r.cas == ss[i].table[k].cas
    requires StoreItem(ss[j], r).1 == IsStored && !r.setStale
    ensures forall m :: i <= m <= j ==> k in ss[m].table && SameValue(ss[m].table[k], ss[i].table[k])
    ensures k in ss[j + 1].table && ss[j + 1].table[k].value == r.value && ss[j + 1].table[k].cas > r.cas
  {
    RunGrows(ss, es, i, j);
    IdTellsChange(ss, es, i, j, k);
  }

  // ---------------------------------------------------------------------------- the commands

  datatype CasResult = CasNone | CasMatch | CasBadVal | CasStale

  /** An item in memory: its value and the line end, in one piece or in chunks. */
  datatype Item = Item(data: Copy.Source, cas: nat, exptime: nat, stale: bool, tokenSent: bool)

  /** The value of an item. */
  function Text(data: Copy.Source): Value {
    var b := Copy.SourceBytes(data);
    if |b| >= 2 then b[..|b| - 2] else []
  }

  function EntryOf(it: Item): Entry {
    Entry(Text(it.data), it.cas, it.exptime, it.stale, it.tokenSent, it.data.Chunks?)
  }

  predicate ItemOk(data: Copy.Source) { Copy.Ends(Copy.SourceBytes(data)) }

  /** What an append or a prepend gets: an item or none; an item in one piece or the chain of its
      chunks; and further chunks, as far as they are granted. */
  datatype Memory = Memory(alloc: bool, chain: seq<Copy.Chunk>, grants: nat -> bool, largest: nat)

  /** An item in one piece holds what was in one piece before. */
  predicate MemoryOk(mem: Memory, first: Copy.Source, second: Copy.Source) {
    mem.alloc ==>
      if mem.chain == [] then first.Whole? && second.Whole?
      else Copy.ChainOk(mem.chain) && Copy.Value(mem.chain) == [] && mem.largest > 0
  }

  /** All chunks that both values need are granted. */
  ghost predicate Enough(mem: Memory, first: Copy.Source, second: Copy.Source)
    requires MemoryOk(mem, first, second)
  {
    mem.alloc &&
    (mem.chain != [] ==>
       var room, len := Copy.Room(mem.chain), |Text(first)|;
       room >= 0 &&
       forall k :: 0 <= k < Copy.Needs(room, len, mem.largest) +
                            Copy.Needs(Copy.RoomAfter(room, len), |Text(second)| + 2, mem.largest) ==>
         mem.grants(k))
  }

  lemma {:induction false} FlatOfSum(a: seq<seq<Byte>>, b: seq<seq<Byte>>)
    ensures Copy.Flat(a + b) == Copy.Flat(a) + Copy.Flat(b)
    decreases |a|
  {
    if a == [] {
      assert a + b == b;
    } else {
      assert (a + b)[1..] == a[1..] + b;
      FlatOfSum(a[1..], b);
    }
  }

  function Pieces(chain: seq<Copy.Chunk>): seq<seq<Byte>> {
    seq(|chain|, i requires 0 <= i < |chain| => chain[i].data)
  }

  lemma {:induction false} PiecesAreValue(chain: seq<Copy.Chunk>)
    ensures Copy.Flat(Pieces(chain)) == Copy.Value(chain)
  {
    if chain != [] {
      var n := |chain| - 1;
      PiecesAreValue(chain[..n]);
      assert Pieces(chain) == Pieces(chain[..n]) + [chain[n].data];
      FlatOfSum(Pieces(chain[..n]), [chain[n].data]);
      assert [chain[n].data][1..] == [];
    }
  }

  lemma TextOfSum(data: Copy.Source, a: Value, b: Value)
    requires Copy.SourceBytes(data) == a + b + Copy.CRLF
    ensures ItemOk(data) && Text(data) == a + b
  {
  }

  lemma TextIsBody(data: Copy.Source)
    requires ItemOk(data)
    ensures Text(data) == Copy.Body(Copy.SourceBytes(data)) && |Text(data)| + 2 == |Copy.SourceBytes(data)|
  {
  }

  /** _store_item_copy_data into a new item, with the allocation: one value, then the other. */
  method Join(first: Copy.Source, second: Copy.Source, mem: Memory) returns (ok: bool, data: Copy.Source)
    requires ItemOk(first) && ItemOk(second) && MemoryOk(mem, first, second)
    ensures ok <==> Enough(mem, first, second)
    ensures ok ==> ItemOk(data) && Text(data) == Text(first) + Text(second) && (data.Chunks? <==> mem.chain != [])
  {
    hide Text, Copy.Needs, Copy.RoomAfter, Copy.ChainOk, Copy.Value;
    TextIsBody(first);
    TextIsBody(second);
    data := first;
    if !mem.alloc { return false, data; }
    if mem.chain == [] {
      var to := new Byte[|first.data| + |second.data| - 2];
      Copy.JoinWhole(to, first.data, second.data);
      data := Copy.Whole(to[..]);
      ok := true;
    } else {
      var target := new Copy.Target(mem.chain, mem.grants, mem.largest);
      ok := Copy.JoinChunked(target, first, second);
      PiecesAreValue(target.chain);
      data := Copy.Chunks(Pieces(target.chain));
    }
    if ok { TextOfSum(data, Text(first), Text(second)); }
  }

  function Entries(table: map<Key, Item>): map<Key, Entry> {
    map k | k in table :: EntryOf(table[k])
  }

  predicate AllOk(table: map<Key, Item>) { forall k :: k in table ==> ItemOk(table[k].data) }

  lemma EntriesOf(table: map<Key, Item>, key: Key, it: Item)
    requires AllOk(table) && ItemOk(it.data)
    ensures Entries(table[key := it]) == Entries(table)[key := EntryOf(it)] && AllOk(table[key := it])
  {
    hide ItemOk, Text;
  }

  class Store {
    var table: map<Key, Item>
    var casId: nat
    ghost var drawn: map<nat, (Key, Value)>

    ghost function Abs(): State
      reads this
    {
      State(Entries(table), casId, drawn)
    }

    ghost predicate Sound()
      reads this
    {
      Valid(Abs()) && AllOk(table)
    }

    constructor ()
      ensures Sound() && Abs() == State(map[], 0, map[])
    {
      table, casId, drawn := map[], 0, map[];
      new;
      assert Abs() == State(map[], 0, map[]);
    }

    /** get_cas_id: an id that no item has or ever had. */
    method GetCasId() returns (id: nat)
      requires Sound()
      modifies this`casId
      ensures Sound() && id == casId && (forall c :: c in drawn ==> 0 < c < id)
              && forall k :: k in table ==> table[k].cas < id
      ensures id == old(casId) + 1
    {
      assert forall k :: k in table ==> k in Abs().table && Abs().table[k].cas == table[k].cas;
      casId := casId + 1;
      id := casId;
      assert Abs() == old(Abs()).(casId := id);
    }

    /** do_item_link, and do_item_replace where the key is there. */
    method LinkEntry(key: Key, it: Item)
      requires Sound() && ItemOk(it.data)
      modifies this
      ensures Sound() && IdsGrow(old(Abs()), Abs())
      ensures key in table && table[key] == it.(cas := table[key].cas)
              && forall k :: k in old(table) ==> table[key].cas > old(table)[k].cas
      ensures Abs() == Link(old(Abs()), key, EntryOf(it))
    {
      hide Text, ItemOk, Valid, IdsGrow, Entries, AllOk;
      ghost var s := Abs();
      LinkGrows(s, key, EntryOf(it));
      var id := GetCasId();
      EntriesOf(table, key, it.(cas := id));
      table := table[key := it.(cas := id)];
      drawn := drawn[id := (key, Text(it.data))];
    }

    /** The command as the specification has it. */
    ghost function RequestOf(comm: Comm, key: Key, it: Item, setStale: bool, mem: Memory): Request
      reads this
    {
      Request(comm, key, Text(it.data), it.cas, setStale, it.exptime,
              if comm == Append || comm == Prepend then mem.chain != [] else it.data.Chunks?,
              Enlarges(comm, key, it, mem) && Enough(mem, First(comm, key, it), Second(comm, key, it)))
    }

    ghost predicate Enlarges(comm: Comm, key: Key, it: Item, mem: Memory)
      reads this
    {
      && (comm == Append || comm == Prepend) && key in table
      && MemoryOk(mem, First(comm, key, it), Second(comm, key, it))
    }

    /** The old value comes first for append, the new one for prepend. */
    ghost function First(comm: Comm, key: Key, it: Item): Copy.Source
      reads this
      requires key in table
    {
      if comm == Append then table[key].data else it.data
    }

    ghost function Second(comm: Comm, key: Key, it: Item): Copy.Source
      reads this
      requires key in table
    {
      if comm == Append then it.data else table[key].data
    }

    /** do_store_item; it is the item sent, with the id the client gave. */
    method DoStoreItem(comm: Comm, key: Key, it: Item, setStale: bool, mem: Memory) returns (stored: Stored)
      requires Sound() && ItemOk(it.data) && !it.stale && !it.tokenSent
      requires (comm == Append || comm == Prepend) && key in table ==> Enlarges(comm, key, it, mem)
      modifies this
      ensures Sound() && IdsGrow(old(Abs()), Abs())
      ensures StoreDone(old(Abs()), Abs(), old(RequestOf(comm, key, it, setStale, mem)), stored)
      ensures (Abs(), stored) == StoreItem(old(Abs()), old(RequestOf(comm, key, it, setStale, mem)))
    {
      hide Text, ItemOk, Valid, IdsGrow, Enough, MemoryOk, StoreDone;
      ghost var s, r := Abs(), RequestOf(comm, key, it, setStale, mem);
      StoreIsDone(s, r);
      Unchanged(s);
      stored := NotStored;
      var doStore := false;
      var new_it := it.(cas := 0);
      if key in table {
        var old_it := table[key];
        var casRes := if it.cas == 0 then CasNone
                      else if it.cas == old_it.cas then CasMatch
                      else if setStale && it.cas < old_it.cas then CasStale
                      else CasBadVal;
        match comm
        case Add =>
        case Cas =>
          if casRes.CasMatch? {
            doStore := true;
          } else if casRes.CasStale? {
            new_it := new_it.(exptime := old_it.exptime, stale := true);
            if old_it.tokenSent { new_it := new_it.(tokenSent := true); }
            doStore := true;
          } else {
            stored := Exists;
          }
        case Append =>
          if casRes != CasNone && casRes != CasMatch {
            stored := Exists;
          } else {
            var data;
            doStore, data := Join(old_it.data, it.data, mem);
            new_it := new_it.(data := data, exptime := old_it.exptime);
          }
        case Prepend =>
          if casRes != CasNone && casRes != CasMatch {
            stored := Exists;
          } else {
            var data;
            doStore, data := Join(it.data, old_it.data, mem);
            new_it := new_it.(data := data, exptime := old_it.exptime);
          }
        case Replace => doStore := true;
        case Set => doStore := true;
      } else {
        match comm
        case Add => doStore := true;
        case Set => doStore := true;
        case Cas => stored := NotFound;
        case _ =>
      }
      if doStore {
        LinkEntry(key, new_it);
        stored := IsStored;
      }
    }

    /** do_add_delta. */
    method DoAddDelta(key: Key, incr: bool, delta: Word64, cas: nat, alone: bool, room: bool) returns (d: Delta)
      requires Sound()
      modifies this
      ensures Sound() && IdsGrow(old(Abs()), Abs())
      ensures DeltaDone(old(Abs()), Abs(), key, incr, delta, cas, alone, room, d)
      ensures (Abs(), d) == DeltaItem(old(Abs()), key, incr, delta, cas, alone, room)
    {
      hide Parse, Render, Valid, IdsGrow, Text, ItemOk, DeltaDone;
      ghost var s := Abs();
      DeltaIsDone(s, key, incr, delta, cas, alone, room);
      Unchanged(s);
      if key !in table { return Missing; }
      var it := table[key];
      TextIsBody(it.data);
      if |Copy.SourceBytes(it.data)| <= 2 || it.data.Chunks? { return NonNumeric; }
      if cas != 0 && it.cas != cas { return Mismatch; }
      var parsed := Parse(Text(it.data));
      if parsed.None? { return NonNumeric; }
      ParsedBound(Text(it.data));
      var value := parsed.value;
      if incr {
        value := (value + delta) % WORD;
      } else {
        if delta > value { value := 0; } else { value := value - delta; }
      }
      var buf := Render(value);
      var length := |Copy.SourceBytes(it.data)| - 2;
      if |buf| <= length && alone {
        var data := NumberItem(buf, Spaces(length - |buf|));
        LinkEntry(key, it.(data := data));
      } else {
        if !room { return OutOfMemory; }
        var data := NumberItem(buf, []);
        assert buf + [] == buf;
        LinkEntry(key, it.(data := data, stale := false, tokenSent := false));
      }
      d := Ok(value);
    }
  }

  /** Digits, blanks and the line end. */
  function NumberItem(digits: Value, blanks: Value): (data: Copy.Source)
    ensures ItemOk(data) && Text(data) == digits + blanks && data.Whole?
  {
    TextOfSum(Copy.Whole(digits + blanks + Copy.CRLF), digits, blanks);
    Copy.Whole(digits + blanks + Copy.CRLF)
  }
}
