/** The primitive wire codec: LEB128 varints and length-prefixed strings.

    A varint is specified by what it means (`LebValue` of the bytes up to and including
    the first one below 0x80, reduced modulo 2^64); the two reader loops and the append
    loop of the package are proved against that meaning. */
module Mus {

  type byte = x: int | 0 <= x < 0x100
  type bytes = seq<byte>
  type uint32 = x: int | 0 <= x < 0x1_0000_0000
  type uint64 = x: int | 0 <= x < 0x1_0000_0000_0000_0000
  type int64 = x: int | -0x8000_0000_0000_0000 <= x < 0x8000_0000_0000_0000

  const TWO_64: nat := 0x1_0000_0000_0000_0000
  const MAX_PAYLOAD_BYTES: nat := 4 * 1024 * 1024

  /** `EOF` is a stream that ends before the first byte asked for, `UnexpectedEOF` one
      that ends inside the item. */
  datatype ReadError = EOF | UnexpectedEOF | VarintOverflow | StringTooLong

  /** The outcome of reading one item: its value or an error, and in both cases the bytes
      that are left in the stream. */
  datatype Parsed<+T> =
    | Parsed(value: T, rest: bytes)
    | Fail(error: ReadError, rest: bytes)

  /** An `io.Reader` over the bytes that remain before the end of the stream. */
  class Reader {
    var data: bytes

    constructor (data: bytes)
      ensures this.data == data
    {
      this.data := data;
    }

    method ReadByte() returns (p: Parsed<byte>)
      modifies this
      ensures p == if old(data) == [] then Fail(EOF, []) else Parsed(old(data)[0], old(data)[1..])
      ensures data == p.rest
    {
      if data == [] {
        return Fail(EOF, []);
      }
      p := Parsed(data[0], data[1..]);
      data := data[1..];
    }

    /** `io.ReadFull` with a buffer of n bytes. */
    method ReadFull(n: nat) returns (p: Parsed<bytes>)
      modifies this
      ensures p == TakeFull(old(data), n)
      ensures data == p.rest
    {
      p := TakeFull(data, n);
      data := p.rest;
    }
  }

  function TakeFull(s: bytes, n: nat): (p: Parsed<bytes>)
  {
    if n <= |s| then Parsed(s[..n], s[n..])
    else if s == [] then Fail(EOF, [])
    else Fail(UnexpectedEOF, [])
  }

  // ---- Varint: meaning ------------------------------------------------------

  function Pow128(k: nat): (p: nat)
    ensures p > 0
  {
    if k == 0 then 1 else 128 * Pow128(k - 1)
  }

  /** d << 7k, before anything is cut off. */
  function ShiftLeft(d: nat, k: nat): nat
  {
    if k == 0 then d else 128 * ShiftLeft(d, k - 1)
  }

  /** The little-endian base-128 number carried by the low seven bits of each byte. */
  function LebValue(s: bytes): nat
  {
    if s == [] then 0 else s[0] % 128 + 128 * LebValue(s[1..])
  }

  /** How many bytes at the front of s carry the continuation bit. */
  function Continued(s: bytes): (k: nat)
    ensures k <= |s|
  {
    if s == [] || s[0] < 0x80 then 0 else 1 + Continued(s[1..])
  }

  function DecodeVarint(s: bytes): Parsed<uint64>
  {
    var k := Continued(s);
    if k >= 10 then Fail(VarintOverflow, s[10..])
    else if k == |s| then Fail(UnexpectedEOF, [])
    else Parsed(LebValue(s[..k + 1]) % TWO_64, s[k + 1..])
  }

  function EncodeVarint(v: nat): (b: bytes)
    ensures |b| > 0
  {
    if v < 0x80 then [v] else [v % 128 + 128] + EncodeVarint(v / 128)
  }

  /** `bits.Len64`. */
  function BitLen(v: nat): nat
  {
    if v == 0 then 0 else 1 + BitLen(v / 2)
  }

  function VarintLen(v: nat): nat
  {
    if v == 0 then 1 else (BitLen(v) + 6) / 7
  }

  // ---- Varint: the loops ----------------------------------------------------

  method AppendVarint(b: bytes, v: uint64) returns (r: bytes)
    ensures r == b + EncodeVarint(v)
  {
    r := b;
    var w := v;
    while w >= 0x80
      invariant 0 <= w
      invariant r + EncodeVarint(w) == b + EncodeVarint(v)
    {
      assert r + EncodeVarint(w) == r + [w % 128 + 128] + EncodeVarint(w / 128);
      r := r + [w % 128 + 128];
      w := w / 128;
    }
    r := r + [w];
  }

  /** `result | (b & 0x7F) << 7i` in 64-bit arithmetic. The accumulated result lies below
      bit 7i, so the disjunction is a sum; the shift drops whatever leaves 64 bits. */
  function OrShifted(result: nat, b: byte, i: nat): uint64
    requires i < 10 && result < Pow128(i)
  {
    Add64(result, ShiftLeft(b % 128, i))
  }

  function Add64(a: nat, b: nat): uint64
  {
    (a + b % TWO_64) % TWO_64
  }

  lemma Pow128Ten()
    ensures Pow128(9) == 0x8000_0000_0000_0000
    ensures Pow128(10) == 64 * TWO_64
  {
    assert Pow128(3) == 2097152;
    assert Pow128(6) == 128 * (128 * (128 * Pow128(3)));
    assert Pow128(9) == 128 * (128 * (128 * Pow128(6)));
  }

  lemma ShiftLeftNine(d: nat)
    ensures ShiftLeft(d, 9) == 0x8000_0000_0000_0000 * d
  {
    var s1 := ShiftLeft(d, 1);
    assert s1 == 128 * ShiftLeft(d, 0);
    var s3 := 128 * (128 * s1);
    var s5 := 128 * (128 * s3);
    var s7 := 128 * (128 * s5);
    assert ShiftLeft(d, 2) == 128 * s1;
    assert ShiftLeft(d, 3) == s3;
    assert ShiftLeft(d, 4) == 128 * s3;
    assert ShiftLeft(d, 5) == s5;
    assert ShiftLeft(d, 6) == 128 * s5;
    assert ShiftLeft(d, 7) == s7;
    assert ShiftLeft(d, 8) == 128 * s7;
    assert ShiftLeft(d, 9) == 128 * (128 * s7);
  }

  lemma {:induction false} Pow128Monotone(i: nat, j: nat)
    requires i <= j
    ensures Pow128(i) <= Pow128(j)
    decreases j
  {
    if i < j { Pow128Monotone(i, j - 1); }
  }

  lemma {:induction false} LebAppend(s: bytes, b: byte)
    ensures LebValue(s + [b]) == LebValue(s) + ShiftLeft(b % 128, |s|)
  {
    if s == [] {
      assert s + [b] == [b];
    } else {
      LebAppend(s[1..], b);
      assert (s + [b])[1..] == s[1..] + [b];
    }
  }

  lemma {:induction false} LebBound(s: bytes)
    ensures LebValue(s) < Pow128(|s|)
  {
    if s != [] { LebBound(s[1..]); }
  }

  /** The machine step agrees with the meaning: or-ing in byte i extends `LebValue`. */
  lemma OrShiftedIsLeb(s: bytes, b: byte)
    requires |s| < 10 && LebValue(s) < Pow128(|s|)
    ensures OrShifted(LebValue(s), b, |s|) == LebValue(s + [b]) % TWO_64
  {
    var shifted := ShiftLeft(b % 128, |s|);
    ModAdd(LebValue(s), shifted);
    LebAppend(s, b);
  }

  lemma NineDigitsFit(s: bytes)
    requires |s| <= 9
    ensures LebValue(s) < TWO_64
  {
    LebBound(s);
    Pow128Monotone(|s|, 9);
    Pow128Ten();
  }

  lemma ModAdd(a: nat, b: nat)
    ensures Add64(a, b) == (a + b) % TWO_64
  {
    assert a + b == (a + b % TWO_64) + (b / TWO_64) * TWO_64;
    ModShift(a + b % TWO_64, b / TWO_64);
  }

  lemma ModShift(x: int, k: int)
    ensures (x + k * TWO_64) % TWO_64 == x % TWO_64
  {
    var q, r := x / TWO_64, x % TWO_64;
    assert x + k * TWO_64 == (q + k) * TWO_64 + r;
    DivModUnique(x + k * TWO_64, q + k, r);
  }

  lemma DivModUnique(x: int, q: int, r: int)
    requires x == q * TWO_64 + r && 0 <= r < TWO_64
    ensures x % TWO_64 == r
  {
  }

  lemma {:induction false} ContinuedFrom(s: bytes, i: nat)
    requires i <= Continued(s)
    ensures Continued(s) == i + Continued(s[i..])
    ensures forall k :: 0 <= k < i ==> s[k] >= 0x80
  {
    if i > 0 {
      ContinuedFrom(s[1..], i - 1);
      assert s[1..][i - 1..] == s[i..];
      assert forall k :: 1 <= k < i ==> s[k] == s[1..][k - 1];
    } else {
      assert s[0..] == s;
    }
  }

  /** One round of a reader loop that has seen i continuation bytes. */
  lemma ReaderRound(s: bytes, i: nat)
    requires i <= Continued(s) && i < 10
    ensures i == |s| ==> DecodeVarint(s) == Fail(UnexpectedEOF, [])
    ensures LebValue(s[..i]) < Pow128(i)
    ensures i < |s| && s[i] < 0x80 ==>
              DecodeVarint(s) == Parsed(OrShifted(LebValue(s[..i]), s[i], i), s[i + 1..])
    ensures i < |s| && s[i] >= 0x80 ==> i + 1 <= Continued(s)
    ensures i < 9 && i < |s| ==> OrShifted(LebValue(s[..i]), s[i], i) == LebValue(s[..i + 1])
  {
    hide LebValue, Pow128, OrShifted;
    ContinuedFrom(s, i);
    LebBound(s[..i]);
    if i < |s| {
      assert s[..i] + [s[i]] == s[..i + 1];
      OrShiftedIsLeb(s[..i], s[i]);
      if i < 9 { NineDigitsFit(s[..i + 1]); }
    }
  }

  /** The reader for an `io.ByteReader`. */
  method ReadVarintByte(r: Reader) returns (p: Parsed<uint64>)
    modifies r
    ensures p == DecodeVarint(old(r.data))
    ensures r.data == p.rest
  {
    ghost var s := r.data;
    var result: uint64 := 0;
    for i := 0 to 10
      invariant i <= Continued(s) && r.data == s[i..]
      invariant i <= 9 ==> result == LebValue(s[..i])
    {
      ReaderRound(s, i);
      var b := r.ReadByte();
      if b.Fail? {
        return Fail(UnexpectedEOF, []);
      }
      result := OrShifted(result, b.value, i);
      if b.value < 0x80 {
        return Parsed(result, r.data);
      }
    }
    p := Fail(VarintOverflow, r.data);
  }

  /** The reader for a plain `io.Reader`, one `ReadFull` of a single byte at a time. */
  method ReadVarintSlow(r: Reader) returns (p: Parsed<uint64>)
    modifies r
    ensures p == DecodeVarint(old(r.data))
    ensures r.data == p.rest
  {
    ghost var s := r.data;
    var result: uint64 := 0;
    for i := 0 to 10
      invariant i <= Continued(s) && r.data == s[i..]
      invariant i <= 9 ==> result == LebValue(s[..i])
    {
      ReaderRound(s, i);
      var buf := r.ReadFull(1);
      if buf.Fail? {
        return Fail(UnexpectedEOF, []); // a one-byte buffer is empty or full
      }
      var b := buf.value[0];
      result := OrShifted(result, b, i);
      if b < 0x80 {
        return Parsed(result, r.data);
      }
    }
    p := Fail(VarintOverflow, r.data);
  }

  // ---- Varint: laws ---------------------------------------------------------

  lemma {:induction false} EncodeMeaning(v: nat, rest: bytes)
    ensures LebValue(EncodeVarint(v)) == v
    ensures Continued(EncodeVarint(v) + rest) == |EncodeVarint(v)| - 1
    ensures Continued(EncodeVarint(v)) == |EncodeVarint(v)| - 1
  {
    var e := EncodeVarint(v);
    if v >= 0x80 {
      EncodeMeaning(v / 128, rest);
      assert e[1..] == EncodeVarint(v / 128);
      assert (e + rest)[1..] == EncodeVarint(v / 128) + rest;
    }
  }

  lemma {:induction false} EncodeLength(v: nat, k: nat)
    requires k > 0
    ensures |EncodeVarint(v)| <= k <==> v < Pow128(k)
  {
    if v >= 0x80 {
      if k > 1 {
        EncodeLength(v / 128, k - 1);
        assert v < 128 * Pow128(k - 1) <==> v / 128 < Pow128(k - 1);
      } else {
        assert Pow128(1) == 128;
      }
    } else {
      Pow128Monotone(1, k);
      assert Pow128(1) == 128;
    }
  }

  /** Reading back an appended varint gives the value and exactly the bytes behind it. */
  lemma VarintRoundTrip(v: uint64, rest: bytes)
    ensures DecodeVarint(EncodeVarint(v) + rest) == Parsed(v, rest)
    ensures |EncodeVarint(v)| <= 10
  {
    var e := EncodeVarint(v);
    AtMostTen(v);
    EncodeMeaning(v, rest);
    assert (e + rest)[..|e|] == e;
    assert (e + rest)[|e|..] == rest;
  }

  lemma AtMostTen(v: uint64)
    ensures |EncodeVarint(v)| <= 10
  {
    Pow128Ten();
    EncodeLength(v, 10);
  }

  /** The closed formula gives the number of bytes the loop appends. */
  lemma {:induction false} VarintLenIsLength(v: nat)
    ensures |EncodeVarint(v)| == VarintLen(v)
  {
    if v >= 0x80 {
      VarintLenIsLength(v / 128);
      BitLenShift7(v);
    } else {
      BitLenBelow(v, 7);
    }
  }

  lemma BitLenShift7(v: nat)
    requires v >= 128
    ensures BitLen(v) == 7 + BitLen(v / 128)
  {
    var a := v / 2;
    var b := a / 2;
    var c := b / 2;
    var d := c / 2;
    var e := d / 2;
    var f := e / 2;
    assert BitLen(v) == 1 + BitLen(a);
    assert BitLen(a) == 1 + BitLen(b);
    assert BitLen(b) == 1 + BitLen(c);
    assert BitLen(c) == 1 + BitLen(d);
    assert BitLen(d) == 1 + BitLen(e);
    assert BitLen(e) == 1 + BitLen(f);
    assert BitLen(f) == 1 + BitLen(f / 2);
    assert f / 2 == v / 128;
  }

  lemma {:induction false} BitLenBelow(v: nat, k: nat)
    requires k == 7 ==> v < 128
    requires k == 6 ==> v < 64
    requires k == 5 ==> v < 32
    requires k == 4 ==> v < 16
    requires k == 3 ==> v < 8
    requires k == 2 ==> v < 4
    requires k == 1 ==> v < 2
    requires k == 0 ==> v == 0
    requires k <= 7
    ensures BitLen(v) <= k
    decreases k
  {
    if v > 0 { BitLenBelow(v / 2, k - 1); }
  }

  /** An accepted encoding is never shorter than the canonical one of the value it
      decodes to, and it takes at most ten bytes. */
  lemma AcceptedNotShorter(s: bytes)
    requires DecodeVarint(s).Parsed?
    ensures var p := DecodeVarint(s);
            |p.rest| < |s| <= |p.rest| + 10
            && VarintLen(p.value) <= |s| - |p.rest|
  {
    var p := DecodeVarint(s);
    var k := Continued(s);
    LebBound(s[..k + 1]);
    EncodeLength(p.value, k + 1);
    VarintLenIsLength(p.value);
  }

  /** Which accepted encodings are the ones `AppendVarint` writes: those of minimal length,
      except that a tenth byte carries only one bit. */
  lemma CanonicalIff(s: bytes)
    requires DecodeVarint(s).Parsed?
    ensures var p := DecodeVarint(s);
            var k := |s| - |p.rest|;
            s[..k] == EncodeVarint(p.value) <==>
            (k == VarintLen(p.value) && (k == 10 ==> s[9] <= 1))
  {
    var p := DecodeVarint(s);
    var k := Continued(s) + 1;
    var e := s[..k];
    ContinuedStops(s);
    if k == 10 && s[9] > 1 {
      LastByte(e);
      EncodeMeaning(p.value, []);
    } else {
      assert p.value == LebValue(e) by {
        if k < 10 { NineDigitsFit(e); } else { LastByte(e); }
      }
      ContinuedFrom(s, k - 1);
      MinimalIsCanonical(e);
    }
  }

  lemma MinimalIsCanonical(e: bytes)
    requires |e| > 0 && e[|e| - 1] < 0x80
    requires forall i :: 0 <= i < |e| - 1 ==> e[i] >= 0x80
    ensures e == EncodeVarint(LebValue(e)) <==> |e| == VarintLen(LebValue(e))
  {
    VarintLenIsLength(LebValue(e));
    if |e| == |EncodeVarint(LebValue(e))| {
      AllContinued(e);
      Injective(e, LebValue(e));
    }
  }

  /** A tenth byte above 1 pushes the value out of 64 bits, a smaller one never does. */
  lemma LastByte(e: bytes)
    requires |e| > 0 && e[|e| - 1] < 0x80
    ensures |e| == 10 ==> (LebValue(e) < TWO_64 <==> e[9] <= 1)
  {
    if |e| == 10 {
      LebAppend(e[..9], e[9]);
      LebBound(e[..9]);
      assert e[..9] + [e[9]] == e;
      Pow128Ten();
      ShiftLeftNine(e[9] % 128);
    }
  }

  lemma {:induction false} AllContinued(e: bytes)
    requires |e| > 0 && forall i :: 0 <= i < |e| - 1 ==> e[i] >= 0x80
    ensures Continued(e) >= |e| - 1
  {
    if |e| > 1 { AllContinued(e[1..]); }
  }

  lemma {:induction false} ContinuedStops(s: bytes)
    requires Continued(s) < |s|
    ensures s[Continued(s)] < 0x80
  {
    if s[0] >= 0x80 { ContinuedStops(s[1..]); }
  }

  lemma {:induction false} Injective(e: bytes, v: nat)
    requires |e| > 0 && |e| == |EncodeVarint(v)| && LebValue(e) == v
    requires Continued(e) >= |e| - 1
    ensures e[|e| - 1] < 0x80 ==> e == EncodeVarint(v)
  {
    if |e| > 1 {
      assert v % 128 == e[0] % 128 && v / 128 == LebValue(e[1..]);
      Injective(e[1..], v / 128);
      assert e == [e[0]] + e[1..];
    } else if e[0] < 0x80 {
      assert LebValue(e[1..]) == 0;
    }
  }

  lemma {:induction false} ContinuedPrefix(s: bytes, t: bytes)
    ensures Continued(s) < |s| ==> Continued(s + t) == Continued(s)
    ensures Continued(s) == |s| ==> Continued(s + t) >= |s|
  {
    if s == [] {
    } else {
      assert (s + t)[1..] == s[1..] + t;
      ContinuedPrefix(s[1..], t);
    }
  }

  /** More bytes behind an accepted varint change nothing but the rest. */
  lemma VarintExtend(s: bytes, t: bytes)
    requires DecodeVarint(s).Parsed?
    ensures DecodeVarint(s + t) == Parsed(DecodeVarint(s).value, DecodeVarint(s).rest + t)
  {
    ContinuedPrefix(s, t);
    var k := Continued(s);
    assert (s + t)[..k + 1] == s[..k + 1];
    assert (s + t)[k + 1..] == s[k + 1..] + t;
  }

  /** The two ways a varint fails: ten bytes that all want another one, or fewer and no more. */
  lemma VarintFailsIff(s: bytes)
    ensures var p := DecodeVarint(s);
            && (p.Fail? && p.error == VarintOverflow <==> |s| >= 10 && forall i :: 0 <= i < 10 ==> s[i] >= 0x80)
            && (p.Fail? && p.error == UnexpectedEOF <==> |s| < 10 && forall i :: 0 <= i < |s| ==> s[i] >= 0x80)
            && (p.Fail? ==> p.error == VarintOverflow || p.error == UnexpectedEOF)
            && (p.Fail? && p.error == VarintOverflow ==> p.rest == s[10..])
  {
    var k := Continued(s);
    ContinuedFrom(s, k);
    if k < |s| { ContinuedStops(s); }
  }

  /** A varint cut short is reported as such. */
  lemma VarintCut(v: uint64, n: nat)
    requires n < |EncodeVarint(v)|
    ensures DecodeVarint(EncodeVarint(v)[..n]) == Fail(UnexpectedEOF, [])
  {
    var e := EncodeVarint(v);
    EncodeMeaning(v, []);
    VarintRoundTrip(v, []);
    assert e[..n] + e[n..] == e;
    ContinuedPrefix(e[..n], e[n..]);
  }

  // ---- String ---------------------------------------------------------------

  function EncodeString(s: bytes): bytes
  {
    EncodeVarint(|s|) + s
  }

  function DecodeString(s: bytes, maxLen: nat): Parsed<bytes>
  {
    var n := DecodeVarint(s);
    if n.Fail? then Fail(n.error, n.rest)
    else if n.value > maxLen then Fail(StringTooLong, n.rest)
    else if n.value <= |n.rest| then Parsed(n.rest[..n.value], n.rest[n.value..])
    else Fail(UnexpectedEOF, [])
  }

  method AppendString(b: bytes, s: bytes) returns (r: bytes)
    requires |s| < TWO_64
    ensures r == b + EncodeString(s)
  {
    r := AppendVarint(b, |s|);
    r := r + s;
  }

  method ReadString(r: Reader, maxLen: nat) returns (p: Parsed<bytes>)
    modifies r
    ensures p == DecodeString(old(r.data), maxLen)
    ensures r.data == p.rest
  {
    var n := ReadVarintByte(r);
    if n.Fail? {
      return Fail(n.error, n.rest);
    }
    if n.value > maxLen {
      return Fail(StringTooLong, n.rest);
    }
    if n.value == 0 {
      return Parsed([], n.rest);
    }
    p := r.ReadFull(n.value);
    if p.Fail? && (p.error == EOF || p.error == UnexpectedEOF) {
      p := Fail(UnexpectedEOF, p.rest);
    }
  }

  /** A string survives the wire exactly when it respects the reader's limit. */
  lemma StringRoundTrip(s: bytes, maxLen: nat, rest: bytes)
    requires |s| < TWO_64
    ensures DecodeString(EncodeString(s) + rest, maxLen) ==
            if |s| <= maxLen then Parsed(s, rest) else Fail(StringTooLong, s + rest)
  {
    VarintRoundTrip(|s|, s + rest);
    assert EncodeString(s) + rest == EncodeVarint(|s|) + (s + rest);
    assert (s + rest)[..|s|] == s;
    assert (s + rest)[|s|..] == rest;
  }

  lemma StringExtend(s: bytes, maxLen: nat, t: bytes)
    requires DecodeString(s, maxLen).Parsed?
    ensures DecodeString(s + t, maxLen)
            == Parsed(DecodeString(s, maxLen).value, DecodeString(s, maxLen).rest + t)
  {
    VarintExtend(s, t);
    var n := DecodeVarint(s);
    assert (n.rest + t)[..n.value] == n.rest[..n.value];
    assert (n.rest + t)[n.value..] == n.rest[n.value..] + t;
  }

  lemma StringCut(s: bytes, maxLen: nat, n: nat)
    requires |s| <= maxLen && |s| < TWO_64
    requires n < |EncodeString(s)|
    ensures DecodeString(EncodeString(s)[..n], maxLen) == Fail(UnexpectedEOF, [])
  {
    var e := EncodeVarint(|s|);
    if n < |e| {
      assert EncodeString(s)[..n] == e[..n];
      VarintCut(|s|, n);
    } else {
      assert EncodeString(s)[..n] == e + s[..n - |e|];
      VarintRoundTrip(|s|, s[..n - |e|]);
    }
  }
}
