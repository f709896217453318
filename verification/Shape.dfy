/** The field scheme shared by every MUS payload.

    A payload struct is a sequence of fields, each written by one append and read by one
    read of the primitive codec. `Shape` is the syntax of such layouts, `Encode` and
    `Decode` say what the append and the read of each field kind do, and the laws are
    proved once for all layouts: a round trip exactly when every text respects its
    reader's limit, stability under more input, and rejection of every cut. */
module Shape {
  import opened Mus

  datatype Shape =
    | Unit
    | Flag                 // one byte, non-zero is true
    | Uint64               // varint
    | Uint32               // varint, truncated to 32 bits by the reader
    | Int64                // varint of the two's complement
    | Text(limit: nat)     // ReadString with that limit
    | Blob                 // varint length and that many bytes, no limit
    | List(elem: Shape)    // varint count and the elements
    | Pair(fst: Shape, snd: Shape)

  datatype Value =
    | VUnit
    | VFlag(b: bool)
    | VInt(n: int)
    | VBytes(data: bytes)
    | VList(items: seq<Value>)
    | VPair(fst: Value, snd: Value)

  /** v is a value of the Go type behind sh. */
  predicate Typed(sh: Shape, v: Value)
    decreases sh, 0
  {
    match sh
    case Unit => v.VUnit?
    case Flag => v.VFlag?
    case Uint64 => v.VInt? && 0 <= v.n < TWO_64
    case Uint32 => v.VInt? && 0 <= v.n < 0x1_0000_0000
    case Int64 => v.VInt? && -0x8000_0000_0000_0000 <= v.n < 0x8000_0000_0000_0000
    case Text(_) => v.VBytes? && |v.data| < TWO_64
    case Blob => v.VBytes? && |v.data| < TWO_64
    case List(elem) => v.VList? && |v.items| < TWO_64 && TypedAll(elem, v.items)
    case Pair(a, b) => v.VPair? && Typed(a, v.fst) && Typed(b, v.snd)
  }

  predicate TypedAll(elem: Shape, vs: seq<Value>)
    decreases elem, |vs| + 1
  {
    vs == [] || (Typed(elem, vs[0]) && TypedAll(elem, vs[1..]))
  }

  /** Every text of v respects the limit its reader applies. */
  predicate Fits(sh: Shape, v: Value)
    requires Typed(sh, v)
    decreases sh, 0
  {
    match sh
    case Text(limit) => |v.data| <= limit
    case List(elem) => FitsAll(elem, v.items)
    case Pair(a, b) => Fits(a, v.fst) && Fits(b, v.snd)
    case _ => true
  }

  predicate FitsAll(elem: Shape, vs: seq<Value>)
    requires TypedAll(elem, vs)
    decreases elem, |vs| + 1
  {
    vs == [] || (Fits(elem, vs[0]) && FitsAll(elem, vs[1..]))
  }

  /** `uint64(x)` of a signed x and `int(v)` of an unsigned v. */
  function ToUnsigned(x: int64): uint64
  {
    x % TWO_64
  }

  function ToSigned(v: uint64): int64
  {
    if v < 0x8000_0000_0000_0000 then v else v - TWO_64
  }

  // ---- Encode and decode ----------------------------------------------------

  function Encode(sh: Shape, v: Value): bytes
    requires Typed(sh, v)
    decreases sh, 0
  {
    match sh
    case Unit => []
    case Flag => if v.b then [1] else [0]
    case Uint64 => EncodeVarint(v.n)
    case Uint32 => EncodeVarint(v.n)
    case Int64 => EncodeVarint(ToUnsigned(v.n))
    case Text(_) => EncodeString(v.data)
    case Blob => EncodeString(v.data)
    case List(elem) => EncodeVarint(|v.items|) + EncodeAll(elem, v.items)
    case Pair(a, b) => Encode(a, v.fst) + Encode(b, v.snd)
  }

  function EncodeAll(elem: Shape, vs: seq<Value>): bytes
    requires TypedAll(elem, vs)
    decreases elem, |vs| + 1
  {
    if vs == [] then [] else Encode(elem, vs[0]) + EncodeAll(elem, vs[1..])
  }

  function MapParsed<T, U>(p: Parsed<T>, f: T -> U): Parsed<U>
  {
    if p.Fail? then Fail(p.error, p.rest) else Parsed(f(p.value), p.rest)
  }

  function DecodeBlob(s: bytes): Parsed<bytes>
  {
    var n := DecodeVarint(s);
    if n.Fail? then Fail(n.error, n.rest) else TakeFull(n.rest, n.value)
  }

  function Decode(sh: Shape, s: bytes): Parsed<Value>
    decreases sh, 0
  {
    match sh
    case Unit => Parsed(VUnit, s)
    case Flag => MapParsed(TakeFull(s, 1), (b: bytes) => VFlag(b != [0]))
    case Uint64 => MapParsed(DecodeVarint(s), (n: uint64) => VInt(n))
    case Uint32 => MapParsed(DecodeVarint(s), (n: uint64) => VInt(n % 0x1_0000_0000))
    case Int64 => MapParsed(DecodeVarint(s), (n: uint64) => VInt(ToSigned(n)))
    case Text(limit) => MapParsed(DecodeString(s, limit), (b: bytes) => VBytes(b))
    case Blob => MapParsed(DecodeBlob(s), (b: bytes) => VBytes(b))
    case List(elem) =>
      var n := DecodeVarint(s);
      if n.Fail? then Fail(n.error, n.rest)
      else MapParsed(DecodeAll(elem, n.value, n.rest), (vs: seq<Value>) => VList(vs))
    case Pair(a, b) =>
      var p := Decode(a, s);
      if p.Fail? then p
      else MapParsed(Decode(b, p.rest), (v: Value) => VPair(p.value, v))
  }

  function DecodeAll(elem: Shape, n: nat, s: bytes): Parsed<seq<Value>>
    decreases elem, n + 1
  {
    if n == 0 then Parsed([], s)
    else
      var p := Decode(elem, s);
      if p.Fail? then Fail(p.error, p.rest)
      else MapParsed(DecodeAll(elem, n - 1, p.rest), (vs: seq<Value>) => [p.value] + vs)
  }

  // ---- Laws -----------------------------------------------------------------

  lemma SignedRoundTrip(x: int64)
    ensures ToSigned(ToUnsigned(x)) == x
  {
    if x < 0 {
      assert x + TWO_64 == ToUnsigned(x);
    }
  }

  /** Decoding an encoding followed by anything gives back the value and exactly what
      followed, if and only if every text respects its limit; otherwise the reader
      refuses the first text that does not. */
  lemma {:induction false} RoundTripIff(sh: Shape, v: Value, rest: bytes)
    requires Typed(sh, v)
    ensures var p := Decode(sh, Encode(sh, v) + rest);
            if Fits(sh, v) then p == Parsed(v, rest) else p.Fail? && p.error == StringTooLong
    decreases sh, 0
  {
    match sh
    case Unit =>
      assert [] + rest == rest;
    case Flag =>
    case Uint64 => VarintRoundTrip(v.n, rest);
    case Uint32 => VarintRoundTrip(v.n, rest);
    case Int64 =>
      VarintRoundTrip(ToUnsigned(v.n), rest);
      SignedRoundTrip(v.n);
    case Text(limit) => StringRoundTrip(v.data, limit, rest);
    case Blob => BlobRoundTrip(v.data, rest);
    case List(elem) => ListRoundTrip(elem, v, rest);
    case Pair(a, b) =>
      assert Encode(sh, v) + rest == Encode(a, v.fst) + (Encode(b, v.snd) + rest);
      RoundTripIff(a, v.fst, Encode(b, v.snd) + rest);
      RoundTripIff(b, v.snd, rest);
  }

  lemma BlobRoundTrip(b: bytes, rest: bytes)
    requires |b| < TWO_64
    ensures DecodeBlob(EncodeString(b) + rest) == Parsed(b, rest)
  {
    VarintRoundTrip(|b|, b + rest);
    assert EncodeString(b) + rest == EncodeVarint(|b|) + (b + rest);
    assert (b + rest)[..|b|] == b;
    assert (b + rest)[|b|..] == rest;
  }

  lemma ListRoundTrip(elem: Shape, v: Value, rest: bytes)
    requires Typed(List(elem), v)
    ensures var p := Decode(List(elem), Encode(List(elem), v) + rest);
            if Fits(List(elem), v) then p == Parsed(v, rest) else p.Fail? && p.error == StringTooLong
    decreases elem, |v.items| + 2
  {
    var tail := EncodeAll(elem, v.items) + rest;
    assert Encode(List(elem), v) + rest == EncodeVarint(|v.items|) + tail;
    VarintRoundTrip(|v.items|, tail);
    RoundTripAll(elem, v.items, rest);
  }

  lemma {:induction false} RoundTripAll(elem: Shape, vs: seq<Value>, rest: bytes)
    requires TypedAll(elem, vs)
    ensures var p := DecodeAll(elem, |vs|, EncodeAll(elem, vs) + rest);
            if FitsAll(elem, vs) then p == Parsed(vs, rest) else p.Fail? && p.error == StringTooLong
    decreases elem, |vs| + 1
  {
    if vs == [] {
      assert [] + rest == rest;
    } else {
      var tail := EncodeAll(elem, vs[1..]) + rest;
      assert EncodeAll(elem, vs) + rest == Encode(elem, vs[0]) + tail;
      RoundTripIff(elem, vs[0], tail);
      RoundTripAll(elem, vs[1..], rest);
      assert vs == [vs[0]] + vs[1..];
    }
  }

  /** What a reader accepts it accepts with the same value in front of any further input:
      no payload is a proper prefix of another one of its layout. */
  lemma {:induction false} DecodeExtend(sh: Shape, s: bytes, t: bytes)
    requires Decode(sh, s).Parsed?
    ensures Decode(sh, s + t) == Parsed(Decode(sh, s).value, Decode(sh, s).rest + t)
    decreases sh, 0
  {
    match sh
    case Unit =>
    case Flag => assert (s + t)[..1] == s[..1] && (s + t)[1..] == s[1..] + t;
    case Uint64 => VarintExtend(s, t);
    case Uint32 => VarintExtend(s, t);
    case Int64 => VarintExtend(s, t);
    case Text(limit) => StringExtend(s, limit, t);
    case Blob =>
      VarintExtend(s, t);
      var n := DecodeVarint(s);
      assert (n.rest + t)[..n.value] == n.rest[..n.value];
      assert (n.rest + t)[n.value..] == n.rest[n.value..] + t;
    case List(elem) =>
      VarintExtend(s, t);
      DecodeAllExtend(elem, DecodeVarint(s).value, DecodeVarint(s).rest, t);
    case Pair(a, b) =>
      DecodeExtend(a, s, t);
      DecodeExtend(b, Decode(a, s).rest, t);
  }

  lemma {:induction false} DecodeAllExtend(elem: Shape, n: nat, s: bytes, t: bytes)
    requires DecodeAll(elem, n, s).Parsed?
    ensures DecodeAll(elem, n, s + t) == Parsed(DecodeAll(elem, n, s).value, DecodeAll(elem, n, s).rest + t)
    decreases elem, n + 1
  {
    if n > 0 {
      DecodeExtend(elem, s, t);
      DecodeAllExtend(elem, n - 1, Decode(elem, s).rest, t);
    }
  }

  /** The layouts without a raw byte field: their readers report every cut as
      `UnexpectedEOF`. A `Flag` or `Blob` field read at the very end reports `EOF`. */
  predicate Prefixed(sh: Shape)
  {
    match sh
    case Flag => false
    case Blob => false
    case List(elem) => Prefixed(elem)
    case Pair(a, b) => Prefixed(a) && Prefixed(b)
    case _ => true
  }

  predicate CutError(sh: Shape, e: ReadError)
  {
    e == UnexpectedEOF || (e == EOF && !Prefixed(sh))
  }

  /** Cutting an encoding anywhere makes its reader fail for want of input. */
  lemma {:induction false} DecodeCut(sh: Shape, v: Value, n: nat)
    requires Typed(sh, v) && Fits(sh, v)
    requires n < |Encode(sh, v)|
    ensures var p := Decode(sh, Encode(sh, v)[..n]); p.Fail? && CutError(sh, p.error)
    decreases sh, 0
  {
    match sh
    case Flag =>
    case Uint64 => VarintCut(v.n, n);
    case Uint32 => VarintCut(v.n, n);
    case Int64 => VarintCut(ToUnsigned(v.n), n);
    case Text(limit) => StringCut(v.data, limit, n);
    case Blob => BlobCut(v.data, n);
    case List(elem) => ListCut(elem, v, n);
    case Pair(a, b) =>
      var e := Encode(a, v.fst);
      if n < |e| {
        assert Encode(sh, v)[..n] == e[..n];
        DecodeCut(a, v.fst, n);
      } else {
        var tail := Encode(b, v.snd)[..n - |e|];
        assert Encode(sh, v)[..n] == e + tail;
        RoundTripIff(a, v.fst, tail);
        DecodeCut(b, v.snd, n - |e|);
      }
  }

  lemma BlobCut(b: bytes, n: nat)
    requires |b| < TWO_64 && n < |EncodeString(b)|
    ensures var p := DecodeBlob(EncodeString(b)[..n]); p.Fail? && CutError(Blob, p.error)
  {
    var e := EncodeVarint(|b|);
    if n < |e| {
      assert EncodeString(b)[..n] == e[..n];
      VarintCut(|b|, n);
    } else {
      assert EncodeString(b)[..n] == e + b[..n - |e|];
      VarintRoundTrip(|b|, b[..n - |e|]);
    }
  }

  lemma ListCut(elem: Shape, v: Value, n: nat)
    requires Typed(List(elem), v) && Fits(List(elem), v)
    requires n < |Encode(List(elem), v)|
    ensures var p := Decode(List(elem), Encode(List(elem), v)[..n]); p.Fail? && CutError(elem, p.error)
    decreases elem, |v.items| + 2
  {
    var e := EncodeVarint(|v.items|);
    if n < |e| {
      assert Encode(List(elem), v)[..n] == e[..n];
      VarintCut(|v.items|, n);
    } else {
      var tail := EncodeAll(elem, v.items)[..n - |e|];
      assert Encode(List(elem), v)[..n] == e + tail;
      VarintRoundTrip(|v.items|, tail);
      DecodeAllCut(elem, v.items, n - |e|);
    }
  }

  lemma {:induction false} DecodeAllCut(elem: Shape, vs: seq<Value>, n: nat)
    requires TypedAll(elem, vs)
    requires FitsAll(elem, vs)
    requires n < |EncodeAll(elem, vs)|
    ensures var p := DecodeAll(elem, |vs|, EncodeAll(elem, vs)[..n]); p.Fail? && CutError(elem, p.error)
    decreases elem, |vs| + 1
  {
    var e := Encode(elem, vs[0]);
    if n < |e| {
      assert EncodeAll(elem, vs)[..n] == e[..n];
      DecodeCut(elem, vs[0], n);
    } else {
      var tail := EncodeAll(elem, vs[1..])[..n - |e|];
      assert EncodeAll(elem, vs)[..n] == e + tail;
      RoundTripIff(elem, vs[0], tail);
      DecodeAllCut(elem, vs[1..], n - |e|);
    }
  }

  /** Whatever is accepted is a fitting value of the type, and writing it again takes no
      more bytes than were read. */
  lemma {:induction false} DecodeSound(sh: Shape, s: bytes)
    requires Decode(sh, s).Parsed?
    ensures var p := Decode(sh, s);
            |p.rest| <= |s|
            && Typed(sh, p.value) && Fits(sh, p.value)
            && |Encode(sh, p.value)| <= |s| - |p.rest|
    decreases sh, 0
  {
    match sh
    case Unit =>
    case Flag =>
    case Uint64 => Shorter(s, DecodeVarint(s).value);
    case Uint32 => Shorter(s, DecodeVarint(s).value % 0x1_0000_0000);
    case Int64 =>
      assert ToUnsigned(ToSigned(DecodeVarint(s).value)) == DecodeVarint(s).value;
      Shorter(s, DecodeVarint(s).value);
    case Text(limit) => Shorter(s, DecodeVarint(s).value);
    case Blob => Shorter(s, DecodeVarint(s).value);
    case List(elem) =>
      var n := DecodeVarint(s);
      Shorter(s, n.value);
      DecodeAllSound(elem, n.value, n.rest);
    case Pair(a, b) =>
      DecodeSound(a, s);
      DecodeSound(b, Decode(a, s).rest);
  }

  lemma Shorter(s: bytes, v: nat)
    requires DecodeVarint(s).Parsed? && v <= DecodeVarint(s).value
    ensures |EncodeVarint(v)| <= |s| - |DecodeVarint(s).rest|
  {
    var k := |s| - |DecodeVarint(s).rest|;
    AcceptedNotShorter(s);
    VarintLenIsLength(DecodeVarint(s).value);
    EncodeLength(DecodeVarint(s).value, k);
    EncodeLength(v, k);
  }

  lemma {:induction false} DecodeAllSound(elem: Shape, n: nat, s: bytes)
    requires DecodeAll(elem, n, s).Parsed?
    ensures var p := DecodeAll(elem, n, s);
            |p.rest| <= |s| && |p.value| == n
            && TypedAll(elem, p.value) && FitsAll(elem, p.value)
            && |EncodeAll(elem, p.value)| <= |s| - |p.rest|
    decreases elem, n + 1
  {
    if n > 0 {
      DecodeSound(elem, s);
      var r := Decode(elem, s).rest;
      DecodeAllSound(elem, n - 1, r);
      assert DecodeAll(elem, n, s).value[1..] == DecodeAll(elem, n - 1, r).value;
    }
  }

  // ---- The append and read loops --------------------------------------------

  /** What the emitted and hand-written `MarshalMUS` methods do for a layout. */
  method Marshal(b: bytes, sh: Shape, v: Value) returns (r: bytes)
    requires Typed(sh, v)
    ensures r == b + Encode(sh, v)
    decreases sh, 0
  {
    match sh
    case Unit => r := b;
    case Flag => r := if v.b then b + [1] else b + [0];
    case Uint64 => r := AppendVarint(b, v.n);
    case Uint32 => r := AppendVarint(b, v.n);
    case Int64 => r := AppendVarint(b, ToUnsigned(v.n));
    case Text(_) => r := AppendString(b, v.data);
    case Blob => r := AppendString(b, v.data);
    case List(elem) =>
      r := AppendVarint(b, |v.items|);
      r := MarshalAll(r, elem, v.items);
    case Pair(a, c) =>
      r := Marshal(b, a, v.fst);
      r := Marshal(r, c, v.snd);
  }

  method MarshalAll(b: bytes, elem: Shape, vs: seq<Value>) returns (r: bytes)
    requires TypedAll(elem, vs)
    ensures r == b + EncodeAll(elem, vs)
    decreases elem, 1
  {
    r := b;
    for i := 0 to |vs|
      invariant TypedAll(elem, vs[i..])
      invariant b + EncodeAll(elem, vs) == r + EncodeAll(elem, vs[i..])
    {
      ghost var tail := EncodeAll(elem, vs[i + 1..]);
      assert vs[i..][1..] == vs[i + 1..];
      assert r + (Encode(elem, vs[i]) + tail) == (r + Encode(elem, vs[i])) + tail;
      r := Marshal(r, elem, vs[i]);
    }
  }

  /** What the `UnmarshalMUS` methods do for a layout: fields in order, the first error
      returned. */
  method Unmarshal(r: Reader, sh: Shape) returns (p: Parsed<Value>)
    modifies r
    ensures p == Decode(sh, old(r.data)) && r.data == p.rest
    decreases sh, 0
  {
    match sh
    case Unit => p := Parsed(VUnit, r.data);
    case Flag =>
      var buf := r.ReadFull(1);
      p := if buf.Fail? then Fail(buf.error, buf.rest) else Parsed(VFlag(buf.value[0] != 0), buf.rest);
    case Uint64 =>
      var n := ReadVarintByte(r);
      p := if n.Fail? then Fail(n.error, n.rest) else Parsed(VInt(n.value), n.rest);
    case Uint32 =>
      var n := ReadVarintByte(r);
      p := if n.Fail? then Fail(n.error, n.rest) else Parsed(VInt(n.value % 0x1_0000_0000), n.rest);
    case Int64 =>
      var n := ReadVarintByte(r);
      p := if n.Fail? then Fail(n.error, n.rest) else Parsed(VInt(ToSigned(n.value)), n.rest);
    case Text(limit) =>
      var t := ReadString(r, limit);
      p := if t.Fail? then Fail(t.error, t.rest) else Parsed(VBytes(t.value), t.rest);
    case Blob =>
      var n := ReadVarintByte(r);
      if n.Fail? {
        return Fail(n.error, n.rest);
      }
      var t := r.ReadFull(n.value);
      p := if t.Fail? then Fail(t.error, t.rest) else Parsed(VBytes(t.value), t.rest);
    case List(elem) =>
      var n := ReadVarintByte(r);
      if n.Fail? {
        return Fail(n.error, n.rest);
      }
      var vs := UnmarshalAll(r, elem, n.value);
      p := if vs.Fail? then Fail(vs.error, vs.rest) else Parsed(VList(vs.value), vs.rest);
    case Pair(a, b) =>
      var first := Unmarshal(r, a);
      if first.Fail? {
        return first;
      }
      var second := Unmarshal(r, b);
      p := if second.Fail? then second else Parsed(VPair(first.value, second.value), second.rest);
  }

  method UnmarshalAll(r: Reader, elem: Shape, n: nat) returns (p: Parsed<seq<Value>>)
    modifies r
    ensures p == DecodeAll(elem, n, old(r.data)) && r.data == p.rest
    decreases elem, 1
  {
    ghost var all := DecodeAll(elem, n, r.data);
    var vs: seq<Value> := [];
    PrependNone(all);
    for i := 0 to n
      invariant Prepend(vs, DecodeAll(elem, n - i, r.data)) == all
    {
      ghost var before := r.data;
      var v := Unmarshal(r, elem);
      PrependStep(vs, elem, n - i, before);
      if v.Fail? {
        return Fail(v.error, v.rest);
      }
      vs := vs + [v.value];
    }
    assert all == Parsed(vs + [], r.data);
    assert vs + [] == vs;
    p := Parsed(vs, r.data);
  }

  ghost function Prepend(vs: seq<Value>, p: Parsed<seq<Value>>): Parsed<seq<Value>>
  {
    if p.Fail? then p else Parsed(vs + p.value, p.rest)
  }

  lemma PrependNone(p: Parsed<seq<Value>>)
    ensures Prepend([], p) == p
  {
    if p.Parsed? { assert [] + p.value == p.value; }
  }

  lemma PrependStep(vs: seq<Value>, elem: Shape, n: nat, s: bytes)
    requires n > 0
    ensures var p := Decode(elem, s);
            Prepend(vs, DecodeAll(elem, n, s)) ==
            if p.Fail? then Fail(p.error, p.rest)
            else Prepend(vs + [p.value], DecodeAll(elem, n - 1, p.rest))
  {
    var p := Decode(elem, s);
    if p.Parsed? {
      var q := DecodeAll(elem, n - 1, p.rest);
      if q.Parsed? {
        assert vs + ([p.value] + q.value) == (vs + [p.value]) + q.value;
      }
    }
  }
}
