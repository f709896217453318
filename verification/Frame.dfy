/** The frame codec of the switchboard: a header, then exactly the payload bytes the
    header announces. */
module Frame {
  import opened Mus
  import opened Shape

  const MAX_ID_LEN: nat := 256

  datatype Header = Header(version: byte, msgType: byte, fromId: bytes, toId: bytes, seqNo: uint64, payloadLen: uint32)

  datatype Frame = Frame(header: Header, payload: bytes)

  /** What `ReadFrame` reports: `StreamEnd` is io.EOF (the stream ended within the two
      fixed bytes), `BadHeader` a field that could not be decoded. */
  datatype FrameError = StreamEnd | BadHeader(cause: ReadError) | PayloadTooLarge | FrameTruncated

  datatype Read<+T> = Got(value: T, rest: bytes) | Broken(error: FrameError, rest: bytes)

  const ADDRESS_FIELDS := Pair(Text(MAX_ID_LEN), Pair(Text(MAX_ID_LEN), Pair(Uint64, Uint64)))

  // ---- Header ---------------------------------------------------------------

  predicate Addressable(h: Header)
  {
    |h.fromId| < TWO_64 && |h.toId| < TWO_64
  }

  function Fields(h: Header): (v: Value)
    requires Addressable(h)
    ensures Typed(ADDRESS_FIELDS, v)
  {
    VPair(VBytes(h.fromId), VPair(VBytes(h.toId), VPair(VInt(h.seqNo), VInt(h.payloadLen))))
  }

  function MarshalHeader(h: Header): bytes
    requires Addressable(h)
  {
    [h.version, h.msgType] + Encode(ADDRESS_FIELDS, Fields(h))
  }

  function ReadHeader(s: bytes): Read<Header>
  {
    if |s| < 2 then Broken(StreamEnd, [])
    else
      var p := Decode(ADDRESS_FIELDS, s[2..]);
      if p.Fail? then Broken(BadHeader(p.error), p.rest)
      else
        DecodeSound(ADDRESS_FIELDS, s[2..]);
        FromFields(s[0], s[1], p.value, p.rest)
  }

  function FromFields(version: byte, msgType: byte, v: Value, rest: bytes): Read<Header>
    requires Typed(ADDRESS_FIELDS, v)
  {
    var payloadLen := v.snd.snd.snd.n;
    if payloadLen > MAX_PAYLOAD_BYTES then Broken(PayloadTooLarge, rest)
    else Got(Header(version, msgType, v.fst.data, v.snd.fst.data, v.snd.snd.fst.n, payloadLen), rest)
  }

  method UnmarshalHeader(r: Reader) returns (h: Read<Header>)
    modifies r
    ensures h == ReadHeader(old(r.data)) && r.data == h.rest
  {
    ghost var s := r.data;
    var fixed := r.ReadFull(2);
    if fixed.Fail? {
      return Broken(StreamEnd, []);
    }
    var p := Unmarshal(r, ADDRESS_FIELDS);
    if p.Fail? {
      return Broken(BadHeader(p.error), p.rest);
    }
    DecodeSound(ADDRESS_FIELDS, s[2..]);
    h := FromFields(fixed.value[0], fixed.value[1], p.value, p.rest);
  }

  /** The closed formula `HeaderSize`. */
  function HeaderSize(h: Header): nat
  {
    2 + VarintLen(|h.fromId|) + |h.fromId| + VarintLen(|h.toId|) + |h.toId|
    + VarintLen(h.seqNo) + VarintLen(h.payloadLen)
  }

  /** The header on the wire, field by field. */
  lemma HeaderLayout(h: Header)
    requires Addressable(h)
    ensures MarshalHeader(h) == [h.version] + [h.msgType] + EncodeString(h.fromId) + EncodeString(h.toId)
                                + EncodeVarint(h.seqNo) + EncodeVarint(h.payloadLen)
  {
    hide EncodeString, EncodeVarint;
    assert Encode(ADDRESS_FIELDS, Fields(h)) ==
           EncodeString(h.fromId) + (EncodeString(h.toId) + (EncodeVarint(h.seqNo) + EncodeVarint(h.payloadLen)));
  }

  lemma HeaderSizeIsLength(h: Header)
    requires Addressable(h)
    ensures HeaderSize(h) == |MarshalHeader(h)|
  {
    HeaderLayout(h);
    VarintLenIsLength(|h.fromId|);
    VarintLenIsLength(|h.toId|);
    VarintLenIsLength(h.seqNo);
    VarintLenIsLength(h.payloadLen);
  }

  /** The formula never exceeds the header bytes a decoded header took on the wire. */
  lemma HeaderSizeAtMostWire(s: bytes)
    requires ReadHeader(s).Got?
    ensures var h := ReadHeader(s);
            Addressable(h.value) && |h.value.fromId| <= MAX_ID_LEN && |h.value.toId| <= MAX_ID_LEN
            && h.value.payloadLen <= MAX_PAYLOAD_BYTES
            && HeaderSize(h.value) <= |s| - |h.rest|
  {
    var h := ReadHeader(s).value;
    DecodeSound(ADDRESS_FIELDS, s[2..]);
    assert Fields(h) == Decode(ADDRESS_FIELDS, s[2..]).value;
    assert Fits(Text(MAX_ID_LEN), Fields(h).fst) && Fits(Text(MAX_ID_LEN), Fields(h).snd.fst);
    HeaderSizeIsLength(h);
  }

  lemma HeaderRoundTrip(h: Header, rest: bytes)
    requires Addressable(h)
    ensures var r := ReadHeader(MarshalHeader(h) + rest);
            if |h.fromId| > MAX_ID_LEN || |h.toId| > MAX_ID_LEN then r.Broken? && r.error == BadHeader(StringTooLong)
            else if h.payloadLen > MAX_PAYLOAD_BYTES then r == Broken(PayloadTooLarge, rest)
            else r == Got(h, rest)
  {
    hide Encode, Decode, Fits, Typed;
    var s := MarshalHeader(h) + rest;
    assert s[2..] == Encode(ADDRESS_FIELDS, Fields(h)) + rest;
    FieldsFitIff(h);
    RoundTripIff(ADDRESS_FIELDS, Fields(h), rest);
  }

  lemma FieldsFitIff(h: Header)
    requires Addressable(h)
    ensures Fits(ADDRESS_FIELDS, Fields(h)) <==> |h.fromId| <= MAX_ID_LEN && |h.toId| <= MAX_ID_LEN
    ensures Prefixed(ADDRESS_FIELDS)
  {
  }

  // ---- Frame ----------------------------------------------------------------

  function ReadFrame(s: bytes): Read<Frame>
  {
    var h := ReadHeader(s);
    if h.Broken? then Broken(h.error, h.rest)
    else if h.value.payloadLen <= |h.rest| then
      Got(Frame(h.value, h.rest[..h.value.payloadLen]), h.rest[h.value.payloadLen..])
    else Broken(FrameTruncated, [])
  }

  method UnmarshalFrame(r: Reader) returns (f: Read<Frame>)
    modifies r
    ensures f == ReadFrame(old(r.data)) && r.data == f.rest
  {
    var h := UnmarshalHeader(r);
    if h.Broken? {
      return Broken(h.error, h.rest);
    }
    if h.value.payloadLen == 0 {
      return Got(Frame(h.value, []), h.rest);
    }
    var payload := r.ReadFull(h.value.payloadLen);
    f := if payload.Fail? then Broken(FrameTruncated, []) else Got(Frame(h.value, payload.value), payload.rest);
  }

  /** The header as `WriteFrame` sends it: the length field is overwritten, and cut to its
      32 bits. */
  function Sent(f: Frame): Frame
  {
    f.(header := f.header.(payloadLen := |f.payload| % 0x1_0000_0000))
  }

  function WriteFrame(f: Frame): bytes
    requires Addressable(f.header)
  {
    MarshalHeader(Sent(f).header) + f.payload
  }

  /** The frames the protocol can carry. */
  predicate Carried(f: Frame): (c: bool)
    ensures c ==> Addressable(f.header)
  {
    |f.header.fromId| <= MAX_ID_LEN && |f.header.toId| <= MAX_ID_LEN && |f.payload| <= MAX_PAYLOAD_BYTES
  }

  predicate AllCarried(fs: seq<Frame>)
  {
    forall i :: 0 <= i < |fs| ==> Carried(fs[i])
  }

  /** A written frame is read back, and nothing behind it touched, exactly when the
      protocol can carry it. */
  lemma FrameRoundTripIff(f: Frame, rest: bytes)
    requires Addressable(f.header)
    ensures ReadFrame(WriteFrame(f) + rest) == Got(Sent(f), rest) <==> Carried(f)
  {
    hide MarshalHeader, ReadHeader;
    var h := Sent(f).header;
    assert WriteFrame(f) + rest == MarshalHeader(h) + (f.payload + rest);
    HeaderRoundTrip(h, f.payload + rest);
    if Carried(f) {
      assert (f.payload + rest)[..|f.payload|] == f.payload;
      assert (f.payload + rest)[|f.payload|..] == rest;
    } else if |f.payload| >= 0x1_0000_0000 {
      assert |f.payload| % 0x1_0000_0000 != |f.payload|;
    }
  }

  lemma HeaderExtend(s: bytes, t: bytes)
    requires ReadHeader(s).Got?
    ensures |ReadHeader(s).rest| < |s|
    ensures ReadHeader(s + t) == Got(ReadHeader(s).value, ReadHeader(s).rest + t)
  {
    assert (s + t)[2..] == s[2..] + t;
    DecodeSound(ADDRESS_FIELDS, s[2..]);
    DecodeExtend(ADDRESS_FIELDS, s[2..], t);
  }

  /** A frame that was read stays the same when more bytes arrive. */
  lemma ReadFrameExtend(s: bytes, t: bytes)
    requires ReadFrame(s).Got?
    ensures |ReadFrame(s).rest| < |s|
    ensures ReadFrame(s + t) == Got(ReadFrame(s).value, ReadFrame(s).rest + t)
  {
    hide ReadHeader;
    HeaderExtend(s, t);
    var h := ReadHeader(s);
    var n := h.value.payloadLen;
    assert (h.rest + t)[..n] == h.rest[..n];
    assert (h.rest + t)[n..] == h.rest[n..] + t;
  }

  /** What a cut after n bytes of a frame is reported as. */
  function CutReport(f: Frame, n: nat): FrameError
    requires Addressable(f.header)
  {
    if n < 2 then StreamEnd
    else if n < |MarshalHeader(Sent(f).header)| then BadHeader(UnexpectedEOF)
    else FrameTruncated
  }

  lemma HeaderCut(h: Header, n: nat)
    requires Addressable(h) && |h.fromId| <= MAX_ID_LEN && |h.toId| <= MAX_ID_LEN
    requires n < |MarshalHeader(h)|
    ensures var r := ReadHeader(MarshalHeader(h)[..n]);
            r.Broken? && r.error == if n < 2 then StreamEnd else BadHeader(UnexpectedEOF)
  {
    hide Encode, Decode, Fits, Typed, Prefixed, Fields;
    FieldsFitIff(h);
    if n >= 2 {
      assert MarshalHeader(h)[..n][2..] == Encode(ADDRESS_FIELDS, Fields(h))[..n - 2];
      DecodeCut(ADDRESS_FIELDS, Fields(h), n - 2);
    }
  }

  lemma FrameCut(f: Frame, n: nat)
    requires Carried(f) && n < |WriteFrame(f)|
    ensures ReadFrame(WriteFrame(f)[..n]).Broken?
    ensures ReadFrame(WriteFrame(f)[..n]).error == CutReport(f, n)
  {
    hide ReadHeader;
    var h := Sent(f).header;
    var m := MarshalHeader(h);
    assert |m| >= 2;
    hide MarshalHeader;
    if n >= |m| {
      assert WriteFrame(f)[..n] == m + f.payload[..n - |m|];
      HeaderRoundTrip(h, f.payload[..n - |m|]);
    } else {
      assert WriteFrame(f)[..n] == m[..n];
      HeaderCut(h, n);
    }
  }

  // ---- Streams --------------------------------------------------------------

  function WriteAll(fs: seq<Frame>): bytes
    requires AllCarried(fs)
  {
    if fs == [] then [] else WriteFrame(fs[0]) + WriteAll(fs[1..])
  }

  function SentAll(fs: seq<Frame>): seq<Frame>
  {
    seq(|fs|, i requires 0 <= i < |fs| => Sent(fs[i]))
  }

  /** Reading frames until the first error. */
  function ReadAll(s: bytes): (seq<Frame>, FrameError)
    decreases |s|
  {
    var f := ReadFrame(s);
    if f.Broken? then ([], f.error)
    else
      ReadFrameExtend(s, []);
      var more := ReadAll(f.rest);
      ([f.value] + more.0, more.1)
  }

  /** A stream of whole frames followed by a cut frame yields exactly the whole frames and
      then the error of the cut position. With n == 0 the stream ends cleanly. */
  lemma {:induction false} StreamCut(fs: seq<Frame>, last: Frame, n: nat)
    requires AllCarried(fs)
    requires Carried(last) && n < |WriteFrame(last)|
    ensures ReadAll(WriteAll(fs) + WriteFrame(last)[..n]) == (SentAll(fs), CutReport(last, n))
  {
    hide WriteFrame, ReadFrame, CutReport;
    var tail := WriteFrame(last)[..n];
    if fs == [] {
      assert [] + tail == tail;
      FrameCut(last, n);
      assert SentAll(fs) == [];
    } else {
      var rest := WriteAll(fs[1..]) + tail;
      assert WriteAll(fs) + tail == WriteFrame(fs[0]) + rest;
      FrameRoundTripIff(fs[0], rest);
      StreamCut(fs[1..], last, n);
      assert SentAll(fs) == [Sent(fs[0])] + SentAll(fs[1..]);
    }
  }

  /** Every prefix of a stream of frames has the form `StreamCut` speaks of. */
  lemma {:induction false} EveryCut(fs: seq<Frame>, n: nat) returns (k: nat, m: nat)
    requires AllCarried(fs)
    requires n < |WriteAll(fs)|
    ensures k < |fs| && m < |WriteFrame(fs[k])|
    ensures WriteAll(fs)[..n] == WriteAll(fs[..k]) + WriteFrame(fs[k])[..m]
  {
    hide WriteFrame;
    var w := WriteFrame(fs[0]);
    if n < |w| {
      assert fs[..0] == [];
      assert WriteAll(fs)[..n] == WriteAll(fs[..0]) + w[..n];
      return 0, n;
    }
    var k', m' := EveryCut(fs[1..], n - |w|);
    k, m := k' + 1, m';
    assert fs[..k][1..] == fs[1..][..k'];
    assert WriteAll(fs[..k]) == w + WriteAll(fs[1..][..k']);
    assert WriteAll(fs)[..n] == w + WriteAll(fs[1..])[..n - |w|];
  }

  /** On any stream whatever, cutting it can only lose frames at the end. */
  lemma {:induction false} CutLosesSuffix(s: bytes, t: bytes)
    ensures ReadAll(s).0 <= ReadAll(s + t).0
    decreases |s|
  {
    hide ReadFrame;
    var f := ReadFrame(s);
    if f.Got? {
      ReadFrameExtend(s, t);
      CutLosesSuffix(f.rest, t);
    }
  }
}
