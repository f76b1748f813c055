/** Base64 (memcached/base64.c), the encoding of section 5.2 of RFC 1341 without line breaks,
    and its decoder, which memcached also runs in place on keys. */
module Base64 {
  import opened Basics

  const PAD: Byte := 61       // '='
  const INVALID: Byte := 128

  // ------------------------------------------------------------------------------ the alphabet

  /** base64_table: A to Z, a to z, 0 to 9, + and /. */
  function Symbol(v: int): (c: Byte)
    requires 0 <= v < 64
  {
    if v < 26 then 65 + v
    else if v < 52 then 97 + (v - 26)
    else if v < 62 then 48 + (v - 52)
    else if v == 62 then 43
    else 47
  }

  /** dtable: the value of a symbol, 0 for the pad, 128 for anything else. */
  function Number(c: Byte): (v: Byte)
    ensures v < 64 || v == INVALID
  {
    if 65 <= c < 91 then c - 65
    else if 97 <= c < 123 then c - 97 + 26
    else if 48 <= c < 58 then c - 48 + 52
    else if c == 43 then 62
    else if c == 47 then 63
    else if c == PAD then 0
    else INVALID
  }

  /** The decoding table inverts the encoding table. */
  lemma SymbolNumber(v: int)
    requires 0 <= v < 64
    ensures Number(Symbol(v)) == v && Symbol(v) != PAD
  {
  }

  /** n characters from c on. */
  function From(c: char, n: nat): (r: seq<int>)
    ensures |r| == n
  {
    seq(n, i => c as int + i)
  }

  /** The alphabet of section 5.2 of RFC 1341. */
  function Alphabet(): seq<int> { From('A', 26) + From('a', 26) + From('0', 10) + ['+' as int, '/' as int] }

  lemma SymbolIsLetter(v: int)
    requires 0 <= v < 64
    ensures |Alphabet()| == 64 && Symbol(v) == Alphabet()[v]
  {
  }

  /** A byte is read as a value exactly if it is a letter of the alphabet, or as 0 if it is a pad. */
  lemma NumberIsPlace(c: Byte)
    ensures c == PAD ==> Number(c) == 0
    ensures c != PAD ==> (Number(c) < 64 <==> c in Alphabet())
    ensures c != PAD && Number(c) < 64 ==> Alphabet()[Number(c)] == c
  {
    if c != PAD && Number(c) < 64 { SymbolIsLetter(Number(c)); }
    forall v | 0 <= v < 64 ensures Number(Symbol(v)) == v && Symbol(v) == Alphabet()[v] {
      SymbolNumber(v);
      SymbolIsLetter(v);
    }
  }

  // -------------------------------------------------------------------------------- the encoder

  function EncodeThree(a: Byte, b: Byte, c: Byte): seq<Byte> {
    [Symbol(a / 4), Symbol(a % 4 * 16 + b / 16), Symbol(b % 16 * 4 + c / 64), Symbol(c % 64)]
  }

  function EncodeLast(s: seq<Byte>): seq<Byte>
    requires 0 < |s| < 3
  {
    if |s| == 1 then [Symbol(s[0] / 4), Symbol(s[0] % 4 * 16), PAD, PAD]
    else [Symbol(s[0] / 4), Symbol(s[0] % 4 * 16 + s[1] / 16), Symbol(s[1] % 16 * 4), PAD]
  }

  function Encode(s: seq<Byte>): (r: seq<Byte>)
    ensures |r| == (|s| + 2) / 3 * 4
  {
    if s == [] then []
    else if |s| < 3 then EncodeLast(s)
    else EncodeThree(s[0], s[1], s[2]) + Encode(s[3..])
  }

  /** Three bytes as one number of 24 bits. */
  function Joined(a: Byte, b: Byte, c: Byte): nat { 0x1_0000 * a + 0x100 * b + c }

  /** The letters of a group are the base-64 digits of the 24 bits, most significant first. */
  lemma GroupIsDigits(a: Byte, b: Byte, c: Byte) returns (d: seq<int>)
    ensures |d| == 4 && forall i :: 0 <= i < 4 ==> 0 <= d[i] < 64
    ensures Joined(a, b, c) == 0x4_0000 * d[0] + 0x1000 * d[1] + 0x40 * d[2] + d[3]
    ensures EncodeThree(a, b, c) == [Symbol(d[0]), Symbol(d[1]), Symbol(d[2]), Symbol(d[3])]
  {
    d := [a / 4, a % 4 * 16 + b / 16, b % 16 * 4 + c / 64, c % 64];
  }

  lemma LastIs(s: seq<Byte>)
    requires 0 < |s| < 3
    ensures |s| == 2 ==> EncodeLast(s) == EncodeThree(s[0], s[1], 0)[..3] + [PAD]
    ensures |s| == 1 ==> EncodeLast(s) == EncodeThree(s[0], 0, 0)[..2] + [PAD, PAD]
  {
    hide Symbol;
  }

  lemma EncodedIs(s: seq<Byte>)
    requires s != []
    ensures |Encode(s)| == (|s| + 2) / 3 * 4
    ensures |s| < 3 ==> Encode(s) == EncodeLast(s) == Encode(s)[..4]
    ensures |s| >= 3 ==> var e := EncodeThree(s[0], s[1], s[2]);
                         |e| == 4 && Encode(s) == e + Encode(s[3..]) && Encode(s)[..4] == e
  {
    hide Symbol;
  }

  /** Every group of the encoding is that of its three bytes; the last, if bytes are missing, that of
      the bytes with zeros behind them, with a pad for each byte that is missing. */
  lemma {:induction false} GroupAt(s: seq<Byte>, g: nat)
    requires 3 * g < |s|
    ensures |Encode(s)| == (|s| + 2) / 3 * 4 && 4 * g + 4 <= |Encode(s)|
    ensures var e := Encode(s)[4 * g..4 * g + 4];
            && (3 * g + 3 <= |s| ==> e == EncodeThree(s[3 * g], s[3 * g + 1], s[3 * g + 2]))
            && (3 * g + 2 == |s| ==> e == EncodeThree(s[3 * g], s[3 * g + 1], 0)[..3] + [PAD])
            && (3 * g + 1 == |s| ==> e == EncodeThree(s[3 * g], 0, 0)[..2] + [PAD, PAD])
    decreases g
  {
    EncodedIs(s);
    hide Encode, EncodeThree, EncodeLast;
    if g == 0 {
      if |s| < 3 { LastIs(s); }
    } else {
      GroupAt(s[3..], g - 1);
      var e, f := Encode(s), Encode(s[3..]);
      assert e[4 * g..4 * g + 4] == f[4 * g - 4..4 * g];
    }
  }

  // -------------------------------------------------------------------------------- the decoder

  /** The symbols and pads; the decoder skips everything else. */
  function Valid(s: seq<Byte>): seq<Byte> {
    if s == [] then []
    else if Number(s[0]) != INVALID then [s[0]] + Valid(s[1..])
    else Valid(s[1..])
  }

  function Pads(q: seq<Byte>): nat {
    if q == [] then 0 else (if q[0] == PAD then 1 else 0) + Pads(q[1..])
  }

  /** Three bytes out of four symbols, cut to a byte as the source cuts them. */
  function DecodeFour(q: seq<Byte>): (r: seq<Byte>)
    requires |q| == 4
    ensures |r| == 3
  {
    var v0, v1, v2, v3 := Number(q[0]), Number(q[1]), Number(q[2]), Number(q[3]);
    [(v0 * 4 + v1 / 16) % 256, (v1 % 16 * 16 + v2 / 4) % 256, (v2 % 4 * 64 + v3) % 256]
  }

  /** The main loop, over whole groups of four: the first group with pads is the last, and more
      than two pads in it are a failure. */
  function DecodeGroups(s: seq<Byte>): Option<seq<Byte>>
    requires |s| % 4 == 0
  {
    if s == [] then Some([])
    else
      var q := s[..4];
      if Pads(q) > 2 then None
      else if Pads(q) > 0 then Some(DecodeFour(q)[..3 - Pads(q)])
      else match DecodeGroups(s[4..])
        case None => None
        case Some(r) => Some(DecodeFour(q) + r)
  }

  /** base64_decode; the source returns length 0 for a failure. */
  function Decode(s: seq<Byte>): Option<seq<Byte>> {
    var v := Valid(s);
    if v == [] || |v| % 4 != 0 then None else DecodeGroups(v)
  }

  // ------------------------------------------------------------------------------ the round trip

  lemma {:induction false} AllValid(s: seq<Byte>)
    requires forall i :: 0 <= i < |s| ==> Number(s[i]) != INVALID
    ensures Valid(s) == s
  {
    if s != [] { AllValid(s[1..]); }
  }

  /** Packing and unpacking two fields of a number. */
  lemma Packed(x: nat, y: nat, z: nat)
    ensures y < 16 ==> (x * 16 + y) / 16 == x && (x * 16 + y) % 16 == y
    ensures z < 4 ==> (x * 4 + z) / 4 == x && (x * 4 + z) % 4 == z
  {
  }

  /** The six-bit groups of three bytes give the bytes back. */
  lemma Regrouped(a: Byte, b: Byte, c: Byte)
    ensures var v0, v1, v2, v3 := a / 4, a % 4 * 16 + b / 16, b % 16 * 4 + c / 64, c % 64;
            v0 * 4 + v1 / 16 == a && v1 % 16 * 16 + v2 / 4 == b && v2 % 4 * 64 + v3 == c
  {
    Packed(a % 4, b / 16, 0);
    Packed(b % 16, 0, c / 64);
  }

  lemma PadsOfFour(q: seq<Byte>)
    requires |q| == 4
    ensures Pads(q) == (if q[0] == PAD then 1 else 0) + (if q[1] == PAD then 1 else 0)
                     + (if q[2] == PAD then 1 else 0) + (if q[3] == PAD then 1 else 0)
  {
    assert q[1..][1..] == q[2..] && q[2..][1..] == q[3..] && q[3..][1..] == [];
    assert Pads(q[3..]) == if q[3] == PAD then 1 else 0;
    assert Pads(q[2..]) == (if q[2] == PAD then 1 else 0) + Pads(q[3..]);
  }

  lemma FourNumbers(q: seq<Byte>, a: Byte, b: Byte, c: Byte)
    requires |q| == 4 && Number(q[0]) == a / 4 && Number(q[1]) == a % 4 * 16 + b / 16
    requires Number(q[2]) == b % 16 * 4 + c / 64 && Number(q[3]) == c % 64
    ensures DecodeFour(q) == [a, b, c]
  {
    hide Number;
    Regrouped(a, b, c);
  }

  lemma ThreeBack(a: Byte, b: Byte, c: Byte)
    ensures DecodeFour(EncodeThree(a, b, c)) == [a, b, c] && Pads(EncodeThree(a, b, c)) == 0
    ensures forall i :: 0 <= i < 4 ==> Number(EncodeThree(a, b, c)[i]) != INVALID
  {
    hide Symbol, Number, Pads, DecodeFour;
    SymbolNumber(a / 4);
    SymbolNumber(a % 4 * 16 + b / 16);
    SymbolNumber(b % 16 * 4 + c / 64);
    SymbolNumber(c % 64);
    PadsOfFour(EncodeThree(a, b, c));
    FourNumbers(EncodeThree(a, b, c), a, b, c);
  }

  lemma LastBack(s: seq<Byte>)
    requires 0 < |s| < 3
    ensures var q := EncodeLast(s); Pads(q) == 3 - |s| && DecodeFour(q)[..|s|] == s
    ensures forall i :: 0 <= i < 4 ==> Number(EncodeLast(s)[i]) != INVALID
  {
    hide Symbol, Number, Pads, DecodeFour;
    var a, b := s[0], if |s| == 1 then 0 else s[1];
    SymbolNumber(a / 4);
    SymbolNumber(a % 4 * 16 + b / 16);
    SymbolNumber(b % 16 * 4);
    PadNumber();
    PadsOfFour(EncodeLast(s));
    FourNumbers(EncodeLast(s), a, b, 0);
  }

  lemma PadNumber()
    ensures Number(PAD) == 0
  {
  }

  /** One group in front of others. */
  lemma DecodeStep(q: seq<Byte>, rest: seq<Byte>)
    requires |q| == 4 && |rest| % 4 == 0
    ensures |q + rest| % 4 == 0
    ensures Pads(q) == 0 ==> DecodeGroups(q + rest) == Before(DecodeFour(q), DecodeGroups(rest))
    ensures 0 < Pads(q) <= 2 ==> DecodeGroups(q + rest) == Some(DecodeFour(q)[..3 - Pads(q)])
    ensures Pads(q) > 2 ==> DecodeGroups(q + rest) == None
  {
    hide Pads, DecodeFour;
    assert (q + rest)[..4] == q && (q + rest)[4..] == rest;
  }

  predicate NoneInvalid(s: seq<Byte>) {
    forall i :: 0 <= i < |s| ==> Number(s[i]) != INVALID
  }

  lemma JoinedValid(a: seq<Byte>, b: seq<Byte>)
    requires NoneInvalid(a) && NoneInvalid(b)
    ensures NoneInvalid(a + b)
  {
  }

  lemma {:induction false} GroupsBack(s: seq<Byte>)
    ensures |Encode(s)| % 4 == 0 && DecodeGroups(Encode(s)) == Some(s) && NoneInvalid(Encode(s))
  {
    hide Encode, EncodeThree, EncodeLast, DecodeFour, DecodeGroups, Pads, Number;
    EncodeStep(s, 0);
    assert s[0..] == s;
    if s == [] {
      DecodedNone();
    } else if |s| < 3 {
      LastBack(s);
      DecodeStep(Encode(s), []);
      assert Encode(s) + [] == Encode(s);
    } else {
      var q := EncodeThree(s[0], s[1], s[2]);
      ThreeBack(s[0], s[1], s[2]);
      GroupsBack(s[3..]);
      DecodeStep(q, Encode(s[3..]));
      JoinedValid(q, Encode(s[3..]));
      assert s == [s[0], s[1], s[2]] + s[3..];
    }
  }

  lemma DecodedNone()
    ensures DecodeGroups([]) == Some([])
  {
  }

  /** Decoding inverts encoding, on everything but the empty string. */
  lemma DecodeInvertsEncode(s: seq<Byte>)
    ensures Decode(Encode(s)) == Some(s) <==> s != []
  {
    GroupsBack(s);
    AllValid(Encode(s));
  }

  // ------------------------------------------------------------------------- the encoder's loop

  const SIZE_MAX_1 := 0x1_0000_0000_0000_0000

  /** The room base64_encode asks for, in 64-bit arithmetic. */
  function EncodeBound(len: nat): nat {
    var o := (len * 4 % SIZE_MAX_1 / 3 + 4) % SIZE_MAX_1;
    (o + o / 72 + 1) % SIZE_MAX_1
  }

  /** Where the multiplication wraps, the length check of the source notices; where it does not,
      the bound covers the output and its terminator. */
  lemma BoundSuffices(len: nat)
    requires len < SIZE_MAX_1
    ensures len * 4 >= SIZE_MAX_1 ==> EncodeBound(len) < len
    ensures len * 4 < SIZE_MAX_1 ==> EncodeBound(len) >= len && (len + 2) / 3 * 4 + 1 <= EncodeBound(len)
  {
    var k := if len * 4 < SIZE_MAX_1 then 0 else if len * 4 < 2 * SIZE_MAX_1 then 1
      else if len * 4 < 3 * SIZE_MAX_1 then 2 else 3;
    var x := len * 4 - k * SIZE_MAX_1;
    Wraps(len * 4, k);
    RoomFor(x);
    hide EncodeBound;
    if k == 0 { assert (len + 2) / 3 * 3 <= len + 2; }
  }

  lemma Wraps(n: nat, k: nat)
    requires k * SIZE_MAX_1 <= n < (k + 1) * SIZE_MAX_1
    ensures n % SIZE_MAX_1 == n - k * SIZE_MAX_1
  {
  }

  /** A third more, and a little. */
  lemma RoomFor(x: nat)
    requires x < SIZE_MAX_1
    ensures var o := x / 3 + 4; var r := o + o / 72 + 1;
            o % SIZE_MAX_1 == o && r % SIZE_MAX_1 == r && 216 * r <= 73 * x + 1092 && 3 * r >= x + 13
  {
    var o := x / 3 + 4;
    assert 3 * o <= x + 12 && 72 * (o / 72) <= o;
  }

  method WriteFour(out: array<Byte>, n: nat, q: seq<Byte>)
    requires |q| == 4 && n + 4 <= out.Length
    modifies out
    ensures out[..n + 4] == old(out[..n]) + q
  {
    out[n], out[n + 1], out[n + 2], out[n + 3] := q[0], q[1], q[2], q[3];
  }

  /** base64_encode; 0 for a failure, else the length without the terminator. */
  method EncodeInto(src: seq<Byte>, out: array<Byte>) returns (n: nat)
    requires |src| < SIZE_MAX_1
    modifies out
    ensures |src| * 4 >= SIZE_MAX_1 || EncodeBound(|src|) > out.Length ==> n == 0 && out[..] == old(out[..])
    ensures |src| * 4 < SIZE_MAX_1 && EncodeBound(|src|) <= out.Length ==>
              n == |Encode(src)| < out.Length && out[..n] == Encode(src) && out[n] == 0
  {
    hide Encode, EncodeThree, EncodeLast, EncodeBound, Symbol;
    BoundSuffices(|src|);
    var olen := EncodeBound(|src|);
    if olen < |src| { return 0; }
    if olen > out.Length { return 0; }
    var p := 0;
    n := 0;
    while |src| - p >= 3
      invariant 0 <= p <= |src| && n + |Encode(src[p..])| == |Encode(src)| < out.Length
      invariant out[..n] + Encode(src[p..]) == Encode(src)
    {
      EncodeStep(src, p);
      var q := EncodeThree(src[p], src[p + 1], src[p + 2]);
      assert out[..n] + (q + Encode(src[p + 3..])) == (out[..n] + q) + Encode(src[p + 3..]);
      WriteFour(out, n, q);
      n := n + 4;
      p := p + 3;
    }
    EncodeStep(src, p);
    if |src| - p > 0 {
      WriteFour(out, n, EncodeLast(src[p..]));
      n := n + 4;
    }
    out[n] := 0;
  }

  lemma EncodeStep(s: seq<Byte>, p: nat)
    requires p <= |s|
    ensures |s| - p >= 3 ==>
              |EncodeThree(s[p], s[p + 1], s[p + 2])| == 4
              && Encode(s[p..]) == EncodeThree(s[p], s[p + 1], s[p + 2]) + Encode(s[p + 3..])
    ensures 0 < |s| - p < 3 ==> Encode(s[p..]) == EncodeLast(s[p..]) && |EncodeLast(s[p..])| == 4
    ensures p == |s| ==> Encode(s[p..]) == []
  {
    if |s| - p >= 3 { assert s[p..][3..] == s[p + 3..]; }
  }

  // ------------------------------------------------------------------------- the decoder's loop

  lemma ValidStep(s: seq<Byte>, i: nat)
    requires i < |s|
    ensures Valid(s[i..]) == (if Number(s[i]) != INVALID then [s[i]] else []) + Valid(s[i + 1..])
  {
    assert s[i..][1..] == s[i + 1..];
  }

  lemma ValidNone(s: seq<Byte>)
    ensures Valid(s[|s|..]) == []
  {
  }

  /** The first pass of base64_decode. */
  method CountValid(src: array<Byte>, len: nat) returns (count: nat)
    requires len <= src.Length
    ensures count == |Valid(src[..len])|
  {
    hide Valid, Number;
    var s := src[..len];
    count := 0;
    assert s[0..] == s;
    for i := 0 to len
      invariant count + |Valid(s[i..])| == |Valid(s)|
    {
      ValidStep(s, i);
      if Number(src[i]) != INVALID { count := count + 1; }
    }
    ValidNone(s);
  }

  /** Decoded bytes put in front of what the rest decodes to. */
  function Before(done: seq<Byte>, rest: Option<seq<Byte>>): Option<seq<Byte>> {
    match rest
    case None => None
    case Some(r) => Some(done + r)
  }

  lemma GroupStep(done: seq<Byte>, q: seq<Byte>, rest: seq<Byte>)
    requires |q| == 4 && |rest| % 4 == 0
    ensures Pads(q) == 0 ==>
              Before(done, DecodeGroups(q + rest)) == Before(done + DecodeFour(q), DecodeGroups(rest))
    ensures 0 < Pads(q) <= 2 ==> Before(done, DecodeGroups(q + rest)) == Some(done + DecodeFour(q)[..3 - Pads(q)])
    ensures Pads(q) > 2 ==> Before(done, DecodeGroups(q + rest)) == None
  {
    hide DecodeGroups, DecodeFour, Pads;
    DecodeStep(q, rest);
    if Pads(q) == 0 && DecodeGroups(rest).Some? {
      assert done + (DecodeFour(q) + DecodeGroups(rest).value) == (done + DecodeFour(q)) + DecodeGroups(rest).value;
    }
  }

  method WriteThree(out: array<Byte>, n: nat, t: seq<Byte>)
    requires |t| == 3 && n + 3 <= out.Length
    modifies out
    ensures out[..n + 3] == old(out[..n]) + t
    ensures forall j :: n + 3 <= j < out.Length ==> out[j] == old(out[j])
  {
    out[n], out[n + 1], out[n + 2] := t[0], t[1], t[2];
  }

  /** What the second pass has done at position i: pos bytes are out, block is pending, and the
      positions written lie behind those still to be read. */
  ghost predicate Decoding(s: seq<Byte>, i: nat, out: seq<Byte>, pos: nat, block: seq<Byte>) {
    && i <= |s| && pos <= |out| && |block| < 4 && Pads(block) <= |block|
    && |Valid(s)| % 4 == 0 && (|block| + |Valid(s[i..])|) % 4 == 0
    && |Valid(s)| == |block| + |Valid(s[i..])| + pos / 3 * 4 && pos % 3 == 0 && pos / 3 * 4 + |block| <= i
    && DecodeGroups(Valid(s)) == Before(out[..pos], DecodeGroups(block + Valid(s[i..])))
  }

  lemma {:induction false} PadsOfMore(q: seq<Byte>, c: Byte)
    ensures Pads(q + [c]) == Pads(q) + (if c == PAD then 1 else 0) && Pads(q) <= |q|
  {
    if q == [] {
      assert q + [c] == [c] && [c][1..] == [];
    } else {
      assert (q + [c])[1..] == q[1..] + [c];
      PadsOfMore(q[1..], c);
    }
  }

  lemma PassInvalid(s: seq<Byte>, i: nat, out: seq<Byte>, pos: nat, block: seq<Byte>)
    requires Decoding(s, i, out, pos, block) && i < |s| && Number(s[i]) == INVALID
    ensures Decoding(s, i + 1, out, pos, block)
  {
    hide Valid, DecodeGroups, Number, Pads;
    ValidStep(s, i);
    assert [] + Valid(s[i + 1..]) == Valid(s[i + 1..]);
  }

  lemma TakeSymbol(s: seq<Byte>, i: nat, out: seq<Byte>, pos: nat, block: seq<Byte>)
    requires Decoding(s, i, out, pos, block) && i < |s| && Number(s[i]) != INVALID && |block| < 3
    ensures Decoding(s, i + 1, out, pos, block + [s[i]])
  {
    hide Valid, DecodeGroups, Number, Pads;
    ValidStep(s, i);
    PadsOfMore(block, s[i]);
    assert block + ([s[i]] + Valid(s[i + 1..])) == (block + [s[i]]) + Valid(s[i + 1..]);
  }

  /** The fourth symbol of a group: its bytes fit in front of what is still to be read. */
  lemma FourthSymbol(s: seq<Byte>, i: nat, out: seq<Byte>, pos: nat, block: seq<Byte>)
    requires Decoding(s, i, out, pos, block) && i < |s| && Number(s[i]) != INVALID && |block| == 3
    ensures |Valid(s)| % 4 == 0 && pos <= |out| && pos + 3 <= i + 1 && pos + 3 <= |Valid(s)| / 4 * 3 && pos % 3 == 0
            && (pos + 3) / 3 * 4 <= i + 1
    ensures |Valid(s[i + 1..])| % 4 == 0 && |Valid(s)| == |Valid(s[i + 1..])| + (pos + 3) / 3 * 4
    ensures DecodeGroups(Valid(s)) == Before(out[..pos], DecodeGroups((block + [s[i]]) + Valid(s[i + 1..])))
  {
    hide Valid, DecodeGroups, Number, Pads;
    ValidStep(s, i);
    assert block + ([s[i]] + Valid(s[i + 1..])) == (block + [s[i]]) + Valid(s[i + 1..]);
  }

  /** What a complete group makes of the whole result. */
  lemma GroupDone(s: seq<Byte>, i: nat, out: seq<Byte>, pos: nat, block: seq<Byte>)
    requires Decoding(s, i, out, pos, block) && i < |s| && Number(s[i]) != INVALID && |block| == 3
    ensures |Valid(s)| % 4 == 0 && pos <= |out| && pos + 3 <= i + 1 && pos + 3 <= |Valid(s)| / 4 * 3 && pos % 3 == 0
            && (pos + 3) / 3 * 4 <= i + 1
    ensures |Valid(s[i + 1..])| % 4 == 0 && |Valid(s)| == |Valid(s[i + 1..])| + (pos + 3) / 3 * 4
    ensures var q := block + [s[i]];
            DecodeGroups(Valid(s)) == if Pads(q) > 2 then None
                                      else if Pads(q) > 0 then Some(out[..pos] + DecodeFour(q)[..3 - Pads(q)])
                                      else Before(out[..pos] + DecodeFour(q), DecodeGroups(Valid(s[i + 1..])))
  {
    hide Valid, DecodeGroups, Number, Pads, DecodeFour, Decoding, Before;
    FourthSymbol(s, i, out, pos, block);
    GroupStep(out[..pos], block + [s[i]], Valid(s[i + 1..]));
  }

  lemma NextGroup(s: seq<Byte>, i: nat, out: seq<Byte>, pos: nat)
    requires i <= |s| && pos <= |out| && pos % 3 == 0 && pos / 3 * 4 <= i
    requires |Valid(s)| % 4 == 0 && |Valid(s[i..])| % 4 == 0 && |Valid(s)| == |Valid(s[i..])| + pos / 3 * 4
    requires DecodeGroups(Valid(s)) == Before(out[..pos], DecodeGroups(Valid(s[i..])))
    ensures Decoding(s, i, out, pos, [])
  {
    hide Valid, DecodeGroups;
    assert [] + Valid(s[i..]) == Valid(s[i..]);
  }

  /** base64_decode; 0 for a failure. The output may be the input: no byte is overwritten before
      it has been read. */
  method DecodeInto(src: array<Byte>, len: nat, out: array<Byte>, outLen: nat) returns (n: nat)
    requires len <= src.Length && outLen <= out.Length
    modifies out
    ensures var d, need := Decode(old(src[..len])), |Valid(old(src[..len]))| / 4 * 3;
            if d.None? || need > outLen then n == 0 else n == |d.value| <= out.Length && out[..n] == d.value
  {
    hide Valid, DecodeGroups, Number, Pads, DecodeFour, Decoding, Before;
    var count := CountValid(src, len);
    if count == 0 || count % 4 != 0 { return 0; }
    if count / 4 * 3 > outLen { return 0; }
    ghost var s := src[..len];
    var pos, block, pad: nat := 0, [], 0;
    assert s[0..] == s;
    StartDecoding(s, out[..]);
    for i := 0 to len
      invariant pos <= out.Length && Decoding(s, i, out[..], pos, block) && pad == Pads(block) && |block| < 4
      invariant forall j :: i <= j < len ==> src[j] == s[j]
    {
      if Number(src[i]) == INVALID {
        PassInvalid(s, i, out[..], pos, block);
        continue;
      }
      PadsOfMore(block, src[i]);
      if src[i] == PAD { pad := pad + 1; }
      var q := block + [src[i]];
      if |q| < 4 {
        TakeSymbol(s, i, out[..], pos, block);
        block := q;
        continue;
      }
      GroupDone(s, i, out[..], pos, block);
      assert out[..][..pos] == out[..pos];
      WriteThree(out, pos, DecodeFour(q));
      if pad > 0 {
        if pad > 2 { return 0; }
        return pos + 3 - pad;
      }
      pos, block := pos + 3, [];
      assert out[..][..pos] == out[..pos];
      NextGroup(s, i + 1, out[..], pos);
      PadsOfNone();
    }
    EndDecoding(s, out[..], pos, block);
    n := pos;
  }

  lemma StartDecoding(s: seq<Byte>, out: seq<Byte>)
    requires |Valid(s)| % 4 == 0
    ensures Decoding(s, 0, out, 0, []) && Pads([]) == 0
  {
    hide Valid, DecodeGroups;
    assert s[0..] == s && [] + Valid(s) == Valid(s) && out[..0] == [];
    assert DecodeGroups(Valid(s)).Some? ==> [] + DecodeGroups(Valid(s)).value == DecodeGroups(Valid(s)).value;
  }

  lemma PadsOfNone()
    ensures Pads([]) == 0
  {
  }

  lemma EndDecoding(s: seq<Byte>, out: seq<Byte>, pos: nat, block: seq<Byte>)
    requires Decoding(s, |s|, out, pos, block) && pos <= |out|
    ensures |Valid(s)| % 4 == 0 && DecodeGroups(Valid(s)) == Some(out[..pos])
  {
    ValidNone(s);
    assert block + Valid(s[|s|..]) == [];
    assert out[..pos] + [] == out[..pos];
  }
}
