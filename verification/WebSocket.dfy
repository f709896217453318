/** The hand-written WebSocket transport to the browser: masked text frames out, frames in. */
module WebSocket {
  import opened Mus

  type Key = k: bytes | |k| == 4 witness [0, 0, 0, 0]

  const ZERO_KEY: Key := [0, 0, 0, 0]
  const TWO_32: nat := 0x1_0000_0000

  /** The outcome of `Recv`. A length with its top bit set turns negative, and making the
      buffer panics. */
  datatype Received = Message(payload: bytes, rest: bytes) | Broken(error: ReadError) | Panicked

  // ---- Masking --------------------------------------------------------------

  function Pow2(n: nat): (p: nat)
    ensures p > 0
  {
    if n == 0 then 1 else 2 * Pow2(n - 1)
  }

  /** Exclusive or, bit by bit, of n-bit numbers. */
  function XorBits(n: nat, a: nat, b: nat): (x: nat)
    ensures x < Pow2(n)
  {
    if n == 0 then 0 else (a + b) % 2 + 2 * XorBits(n - 1, a / 2, b / 2)
  }

  function Xor(a: byte, b: byte): byte
  {
    assert Pow2(8) == 0x100 by { assert Pow2(4) == 16; }
    XorBits(8, a, b)
  }

  lemma XorCancels(a: byte, k: byte)
    ensures Xor(Xor(a, k), k) == a
  {
    assert Pow2(8) == 0x100 by { assert Pow2(4) == 16; }
    hide XorBits;
    XorBitsCancels(8, a, k);
  }

  lemma {:induction false} XorBitsCancels(n: nat, a: nat, k: nat)
    requires a < Pow2(n)
    ensures XorBits(n, XorBits(n, a, k), k) == a
  {
    if n > 0 {
      XorBitsCancels(n - 1, a / 2, k / 2);
      Digits((a + k) % 2, XorBits(n - 1, a / 2, k / 2));
      Parity(a, k, XorBits(n - 1, a / 2, k / 2));
    }
  }

  lemma Digits(bit: nat, y: nat)
    requires bit < 2
    ensures (bit + 2 * y) % 2 == bit && (bit + 2 * y) / 2 == y
  {
  }

  lemma Parity(a: nat, k: nat, y: nat)
    ensures ((a + k) % 2 + 2 * y + k) % 2 == a % 2
  {
  }

  lemma XorZero(a: byte)
    ensures Xor(a, 0) == a
  {
    assert Pow2(8) == 0x100 by { assert Pow2(4) == 16; }
    hide XorBits;
    XorBitsZero(8, a);
  }

  lemma {:induction false} XorBitsZero(n: nat, a: nat)
    requires a < Pow2(n)
    ensures XorBits(n, a, 0) == a
  {
    if n > 0 {
      XorBitsZero(n - 1, a / 2);
    }
  }

  /** Byte i is combined with byte i mod 4 of the key. */
  function Masked(data: bytes, key: Key): (m: bytes)
    ensures |m| == |data|
    ensures forall i :: 0 <= i < |data| ==> m[i] == Xor(data[i], key[i % 4])
  {
    seq(|data|, i requires 0 <= i < |data| => Xor(data[i], key[i % 4]))
  }

  lemma UnmaskUndoesMask(data: bytes, key: Key)
    ensures Masked(Masked(data, key), key) == data
  {
    hide Xor;
    forall i | 0 <= i < |data|
      ensures Masked(Masked(data, key), key)[i] == data[i]
    {
      XorCancels(data[i], key[i % 4]);
    }
  }

  lemma ZeroKeyMasksNothing(data: bytes)
    ensures Masked(data, ZERO_KEY) == data
  {
    hide Xor;
    forall i | 0 <= i < |data|
      ensures Masked(data, ZERO_KEY)[i] == data[i]
    {
      XorZero(data[i]);
    }
  }

  method Unmask(payload: array<byte>, key: Key)
    modifies payload
    ensures payload[..] == Masked(old(payload[..]), key)
  {
    hide Xor;
    for i := 0 to payload.Length
      invariant forall j :: 0 <= j < i ==> payload[j] == Xor(old(payload[j]), key[j % 4])
      invariant forall j :: i <= j < payload.Length ==> payload[j] == old(payload[j])
    {
      payload[i] := Xor(payload[i], key[i % 4]);
    }
  }

  // ---- Lengths --------------------------------------------------------------

  /** The second header byte without the mask bit, and the length bytes behind it. */
  function LengthForm(n: nat): (f: (nat, bytes))
    ensures f.0 < 128
  {
    if n < 126 then (n, [])
    else if n < 65536 then (126, [n / 256, n % 256])
    else (127, [0, 0, 0, 0, (n / 0x100_0000) % 256, (n / 0x1_0000) % 256, (n / 256) % 256, n % 256])
  }

  function ExtensionSize(code: nat): nat
  {
    if code == 126 then 2 else if code == 127 then 8 else 0
  }

  function BigEndian(s: bytes): nat
  {
    if s == [] then 0 else BigEndian(s[..|s| - 1]) * 256 + s[|s| - 1]
  }

  /** The length as `Recv` computes it, in 64 bits with a sign. */
  function LengthOf(code: nat, ext: bytes): int
    requires |ext| == ExtensionSize(code)
  {
    if code < 126 then code else AsInt64(BigEndian(ext))
  }

  function AsInt64(n: nat): int
  {
    if n % TWO_64 < 0x8000_0000_0000_0000 then n % TWO_64 else n % TWO_64 - TWO_64
  }

  /** The loop over the length bytes shifts and adds in 64 bits. */
  method ReadLength(ext: bytes) returns (n: int)
    requires |ext| <= 8
    ensures n == AsInt64(BigEndian(ext))
  {
    n := 0;
    BelowPower(ext);
    for i := 0 to |ext|
      invariant n == AsInt64(BigEndian(ext[..i]))
    {
      assert ext[..i + 1][..i] == ext[..i];
      BelowPower(ext[..i]);
      ShiftIn(BigEndian(ext[..i]), ext[i]);
      n := AsInt64((n * 256 + ext[i]) % TWO_64);
    }
    assert ext[..|ext|] == ext;
  }

  lemma ShiftIn(v: nat, b: byte)
    ensures AsInt64((AsInt64(v) * 256 + b) % TWO_64) == AsInt64(v * 256 + b)
  {
    var q := v / TWO_64;
    var r := v % TWO_64;
    assert v == q * TWO_64 + r;
    ModShift(r * 256 + b, q * 256);
    ModShift(r * 256 + b, -256);
    assert v * 256 + b == r * 256 + b + (q * 256) * TWO_64;
  }

  function Power256(n: nat): nat
  {
    if n == 0 then 1 else 256 * Power256(n - 1)
  }

  lemma {:induction false} BelowPower(s: bytes)
    ensures BigEndian(s) < Power256(|s|)
  {
    if s != [] {
      BelowPower(s[..|s| - 1]);
    }
  }

  // ---- Frames ---------------------------------------------------------------

  /** A masked text frame with the given key. */
  function EncodeWith(key: Key, msg: bytes): bytes
  {
    var f := LengthForm(|msg|);
    [0x81, 0x80 + f.0] + f.1 + key + Masked(msg, key)
  }

  /** What is sent: the key is all zeros, the message goes out as it is. */
  function EncodeFrame(msg: bytes): bytes
  {
    var f := LengthForm(|msg|);
    [0x81, 0x80 + f.0] + f.1 + ZERO_KEY + msg
  }

  lemma EncodeIsZeroKeyed(msg: bytes)
    ensures EncodeFrame(msg) == EncodeWith(ZERO_KEY, msg)
  {
    ZeroKeyMasksNothing(msg);
  }

  /** Every frame sent is a final text frame with the mask bit set, and its length takes the
      shortest form, by section 5.2 of RFC 6455. */
  lemma SentIsTextFrame(msg: bytes)
    ensures var s := EncodeFrame(msg);
            && s[0] / 0x80 == 1 && s[0] % 0x10 == 1 && (s[0] / 0x10) % 8 == 0 && s[1] / 0x80 == 1
            && s[1] % 0x80 == if |msg| < 126 then |msg| else if |msg| < 65536 then 126 else 127
  {
  }

  /** What follows the two fixed bytes. */
  function RecvBody(masked: bool, code: nat, s: bytes): Received
  {
    var ext := TakeFull(s, ExtensionSize(code));
    if ext.Fail? then Broken(ext.error)
    else RecvPayload(masked, LengthOf(code, ext.value), ext.rest)
  }

  function RecvPayload(masked: bool, n: int, s: bytes): Received
  {
    var key := if masked then TakeFull(s, 4) else Parsed(ZERO_KEY, s);
    if key.Fail? then Broken(key.error)
    else if n < 0 then Panicked
    else
      var payload := TakeFull(key.rest, n);
      if payload.Fail? then Broken(payload.error)
      else Message(if masked then Masked(payload.value, key.value) else payload.value, payload.rest)
  }

  function Recv(s: bytes): Received
  {
    var header := TakeFull(s, 2);
    if header.Fail? then Broken(header.error)
    else RecvBody(header.value[1] >= 0x80, header.value[1] % 0x80, header.rest)
  }

  method Receive(r: Reader) returns (m: Received)
    modifies r
    ensures m == Recv(old(r.data))
    ensures m.Message? ==> r.data == m.rest
  {
    hide Xor, AsInt64;
    ghost var s := r.data;
    var header := r.ReadFull(2);
    if header.Fail? {
      return Broken(header.error);
    }
    var masked := header.value[1] >= 0x80;
    var code := header.value[1] % 0x80;
    var n: int := code;
    ghost var body := r.data;
    if code == 126 || code == 127 {
      var ext := r.ReadFull(ExtensionSize(code));
      if ext.Fail? {
        return Broken(ext.error);
      }
      n := ReadLength(ext.value);
    } else {
      assert TakeFull(body, 0) == Parsed([], body);
    }
    m := ReceivePayload(r, masked, n);
  }

  method ReceivePayload(r: Reader, masked: bool, n: int) returns (m: Received)
    modifies r
    ensures m == RecvPayload(masked, n, old(r.data))
    ensures m.Message? ==> r.data == m.rest
  {
    hide Xor;
    var key := Parsed(ZERO_KEY, []);
    if masked {
      key := r.ReadFull(4);
      if key.Fail? {
        return Broken(key.error);
      }
    }
    if n < 0 {
      return Panicked;
    }
    var payload := r.ReadFull(n);
    if payload.Fail? {
      return Broken(payload.error);
    }
    if !masked {
      return Message(payload.value, payload.rest);
    }
    var buffer := new byte[|payload.value|](i requires 0 <= i < |payload.value| => payload.value[i]);
    assert buffer[..] == payload.value;
    Unmask(buffer, key.value);
    m := Message(buffer[..], payload.rest);
  }

  // ---- Round trip -----------------------------------------------------------

  lemma LengthRoundTrip(n: nat)
    ensures var f := LengthForm(n);
            |f.1| == ExtensionSize(f.0) && LengthOf(f.0, f.1) == if n < TWO_32 then n else n % TWO_32
  {
    hide BigEndian, AsInt64;
    if n >= 65536 {
      LongForm(n);
    } else if n >= 126 {
      BigEndianTwo(n / 256, n % 256);
      SmallIsItself(n);
    }
  }

  lemma LongForm(n: nat)
    requires n >= 65536
    ensures AsInt64(BigEndian(LengthForm(n).1)) == n % TWO_32
  {
    hide BigEndian, AsInt64, Horner;
    var ext := LengthForm(n).1;
    BigEndianOf(ext);
    LowBytes(n);
    SmallIsItself(n % TWO_32);
  }

  lemma BigEndianTwo(a: byte, b: byte)
    ensures BigEndian([a, b]) == a * 256 + b
  {
    assert BigEndian([a]) == a by { assert [a][..0] == []; }
    assert [a, b][..1] == [a];
  }

  function Horner(a: nat, b: nat, c: nat, d: nat): nat
  {
    ((a * 256 + b) * 256 + c) * 256 + d
  }

  lemma BigEndianSnoc(s: bytes, b: byte)
    ensures BigEndian(s + [b]) == BigEndian(s) * 256 + b
  {
    assert (s + [b])[..|s|] == s;
  }

  lemma BigEndianOf(s: bytes)
    requires |s| == 8 && s[..4] == [0, 0, 0, 0]
    ensures BigEndian(s) == Horner(s[4], s[5], s[6], s[7])
  {
    BigEndianTwo(0, 0);
    BigEndianSnoc([0, 0], 0);
    BigEndianSnoc([0, 0, 0], 0);
    hide BigEndian;
    assert s[..4] == [0, 0] + [0] + [0];
    BigEndianSnoc(s[..4], s[4]);
    assert s[..5] == s[..4] + [s[4]];
    BigEndianSnoc(s[..5], s[5]);
    assert s[..6] == s[..5] + [s[5]];
    BigEndianSnoc(s[..6], s[6]);
    assert s[..7] == s[..6] + [s[6]];
    BigEndianSnoc(s[..7], s[7]);
    assert s == s[..7] + [s[7]];
  }

  /** Dividing by 256 and by k is dividing by 256 k. */
  lemma DivTwice(n: nat)
    ensures (n / 256) / 256 == n / 0x1_0000
    ensures (n / 0x1_0000) / 256 == n / 0x100_0000
    ensures (n / 0x100_0000) / 256 == n / TWO_32
  {
  }

  lemma LowBytes(n: nat)
    ensures Horner((n / 0x100_0000) % 256, (n / 0x1_0000) % 256, (n / 256) % 256, n % 256) == n % TWO_32
  {
    DivTwice(n);
    var n1, n2, n3, n4 := n / 256, n / 0x1_0000, n / 0x100_0000, n / TWO_32;
    assert n == n1 * 256 + n % 256;
    assert n1 == n2 * 256 + n1 % 256;
    assert n2 == n3 * 256 + n2 % 256;
    assert n3 == n4 * 256 + n3 % 256;
  }

  lemma TakeExact(a: bytes, rest: bytes)
    ensures TakeFull(a + rest, |a|) == Parsed(a, rest)
  {
    assert (a + rest)[..|a|] == a && (a + rest)[|a|..] == rest;
  }

  /** Receiving a frame, whatever its key, gives its message back exactly when the message is
      shorter than 2^32 bytes. */
  lemma RoundTripIff(key: Key, msg: bytes, rest: bytes)
    ensures Recv(EncodeWith(key, msg) + rest) == Message(msg, rest) <==> |msg| < TWO_32
  {
    hide Xor, LengthOf, TakeFull, LengthForm;
    var f := LengthForm(|msg|);
    LengthRoundTrip(|msg|);
    var body := Masked(msg, key) + rest;
    var s := EncodeWith(key, msg) + rest;
    assert s == [0x81, 0x80 + f.0] + (f.1 + (key + body));
    TakeExact([0x81, 0x80 + f.0], f.1 + (key + body));
    TakeExact(f.1, key + body);
    TakeExact(key, body);
    assert Recv(s) == RecvPayload(true, LengthOf(f.0, f.1), key + body);
    if |msg| < TWO_32 {
      TakeExact(Masked(msg, key), rest);
      UnmaskUndoesMask(msg, key);
    } else {
      ShortPayload(body, LengthOf(f.0, f.1));
    }
  }

  /** The n lowest base-256 digits, the highest first. */
  function LowDigits(v: nat, n: nat): (s: bytes)
    ensures |s| == n
  {
    if n == 0 then [] else LowDigits(v / 256, n - 1) + [v % 256]
  }

  lemma {:induction false} DigitsRoundTrip(v: nat, n: nat)
    requires v < Power256(n)
    ensures BigEndian(LowDigits(v, n)) == v
  {
    if n > 0 {
      DigitsRoundTrip(v / 256, n - 1);
      BigEndianSnoc(LowDigits(v / 256, n - 1), v % 256);
    }
  }

  /** An unmasked frame, as a server sends it by section 5.2 of RFC 6455: the first byte is any,
      and a long length has all its 64 bits. */
  function ServerFrame(first: byte, msg: bytes): bytes
    requires |msg| < TWO_64
  {
    var n := |msg|;
    (if n < 126 then [first, n]
     else if n < 65536 then [first, 126] + LowDigits(n, 2)
     else [first, 127] + LowDigits(n, 8)) + msg
  }

  /** Receiving a server's frame gives its message and the rest of the stream, up to the first
      length with its top bit set. */
  lemma ServerRoundTrip(first: byte, msg: bytes, rest: bytes)
    requires |msg| < TWO_64
    ensures Recv(ServerFrame(first, msg) + rest) ==
            if |msg| < 0x8000_0000_0000_0000 then Message(msg, rest) else Panicked
  {
    hide TakeFull, LowDigits, BigEndian, LengthOf;
    var n := |msg|;
    var code := if n < 126 then n else if n < 65536 then 126 else 127;
    var ext: bytes := if n < 126 then [] else if n < 65536 then LowDigits(n, 2) else LowDigits(n, 8);
    ServerLength(n);
    var s := ServerFrame(first, msg) + rest;
    assert s == [first, code] + (ext + (msg + rest));
    TakeExact([first, code], ext + (msg + rest));
    TakeExact(ext, msg + rest);
    TakeExact(msg, rest);
    assert Recv(s) == RecvPayload(false, LengthOf(code, ext), msg + rest);
  }

  lemma ServerLength(n: nat)
    requires n < TWO_64
    ensures n < 126 ==> LengthOf(n, []) == n
    ensures 126 <= n < 65536 ==> LengthOf(126, LowDigits(n, 2)) == n
    ensures 65536 <= n ==> LengthOf(127, LowDigits(n, 8)) == AsInt64(n)
  {
    hide LowDigits, BigEndian;
    assert Power256(2) == 65536;
    assert Power256(4) == TWO_32;
    assert Power256(8) == TWO_64;
    if 126 <= n < 65536 {
      DigitsRoundTrip(n, 2);
    } else if n >= 65536 {
      DigitsRoundTrip(n, 8);
    }
  }

  lemma ShortPayload(s: bytes, n: nat)
    ensures TakeFull(s, n).Parsed? ==> |TakeFull(s, n).value| == n
  {
  }

  function Stream(msgs: seq<bytes>): bytes
  {
    if msgs == [] then [] else EncodeFrame(msgs[0]) + Stream(msgs[1..])
  }

  /** Messages received until the stream breaks off. */
  function RecvAll(s: bytes): (seq<bytes>, Received)
    decreases |s|
  {
    var m := Recv(s);
    if m.Message? then
      Consumes(s);
      var more := RecvAll(m.rest);
      ([m.payload] + more.0, more.1)
    else ([], m)
  }

  /** A message takes its payload off the stream, the two fixed bytes, the key if there is one,
      and never fewer length bytes than the sender would use. */
  lemma Consumes(s: bytes)
    requires Recv(s).Message?
    ensures var m := Recv(s);
            |s| - |m.rest| == 2 + ExtensionSize(s[1] % 0x80) + (if s[1] >= 0x80 then 4 else 0) + |m.payload|
            && |LengthForm(|m.payload|).1| <= ExtensionSize(s[1] % 0x80)
  {
    hide Xor, RecvPayload, LengthOf, LengthForm;
    var code := s[1] % 0x80;
    var ext := TakeFull(s[2..], ExtensionSize(code));
    PayloadConsumes(s[1] >= 0x80, LengthOf(code, ext.value), ext.rest);
    ShortestForm(code, ext.value);
  }

  lemma PayloadConsumes(masked: bool, n: int, s: bytes)
    requires RecvPayload(masked, n, s).Message?
    ensures var m := RecvPayload(masked, n, s); |m.payload| == n && |s| - |m.rest| == n + if masked then 4 else 0
  {
    hide Xor;
  }

  lemma ShortestForm(code: nat, ext: bytes)
    requires code < 128 && |ext| == ExtensionSize(code) && LengthOf(code, ext) >= 0
    ensures |LengthForm(LengthOf(code, ext)).1| <= ExtensionSize(code)
  {
    hide AsInt64;
    if code == 126 { BigEndianTwo(ext[0], ext[1]); assert ext == [ext[0], ext[1]]; SmallIsItself(BigEndian(ext)); }
  }

  lemma SmallIsItself(n: nat)
    requires n < TWO_32
    ensures AsInt64(n) == n
  {
  }

  /** The messages of a stream come back in order, and then the end of the stream. */
  lemma {:induction false} StreamRoundTrip(msgs: seq<bytes>)
    requires forall i :: 0 <= i < |msgs| ==> |msgs[i]| < TWO_32
    ensures RecvAll(Stream(msgs)) == (msgs, Broken(EOF))
  {
    hide Recv, EncodeFrame, EncodeWith;
    if msgs == [] {
      NothingToReceive();
    } else {
      EncodeIsZeroKeyed(msgs[0]);
      RoundTripIff(ZERO_KEY, msgs[0], Stream(msgs[1..]));
      StreamRoundTrip(msgs[1..]);
      assert [msgs[0]] + msgs[1..] == msgs;
    }
  }

  lemma NothingToReceive()
    ensures Recv([]) == Broken(EOF)
  {
  }

  /** The first header byte makes no difference: control frames and fragments are handed out
      as messages like any other. */
  lemma FirstByteIgnored(s: bytes, b: byte)
    requires s != []
    ensures Recv(s[0 := b]) == Recv(s)
  {
    hide RecvBody;
    assert s[0 := b][1..] == s[1..];
    assert |s| >= 2 ==> s[0 := b][2..] == s[2..];
  }
}
