/** The payload structs whose codecs are written by hand: the capability request and
    response, and the status reply of the control socket. */
module Payloads {
  import opened Wrappers
  import opened Mus
  import opened Shape
  import Frame

  datatype Request = Request(capability: bytes, args: bytes)

  datatype Response = Response(ok: bool, data: bytes, errorCode: bytes, errorDetail: bytes)

  const MAX_DETAIL: nat := 1024

  const REQUEST := Pair(Text(Frame.MAX_ID_LEN), Blob)
  const RESPONSE := Pair(Flag, Pair(Blob, Pair(Text(Frame.MAX_ID_LEN), Text(MAX_DETAIL))))

  // ---- Capability request and response --------------------------------------

  predicate GoRequest(q: Request)
  {
    |q.capability| < TWO_64 && |q.args| < TWO_64
  }

  function MarshalRequest(q: Request): bytes
    requires GoRequest(q)
  {
    Encode(REQUEST, VPair(VBytes(q.capability), VBytes(q.args)))
  }

  /** Bytes behind the two fields are ignored. */
  function UnmarshalRequest(s: bytes): Option<Request>
  {
    var p := Decode(REQUEST, s);
    if p.Fail? then None
    else
      DecodeSound(REQUEST, s);
      Some(Request(p.value.fst.data, p.value.snd.data))
  }

  /** A request crosses the wire exactly when its capability name is at most 256 bytes
      long; a longer name makes the whole payload undecodable. */
  lemma RequestRoundTrip(q: Request)
    requires GoRequest(q)
    ensures UnmarshalRequest(MarshalRequest(q)) == if |q.capability| <= Frame.MAX_ID_LEN then Some(q) else None
  {
    var v := VPair(VBytes(q.capability), VBytes(q.args));
    RoundTripIff(REQUEST, v, []);
    assert MarshalRequest(q) + [] == MarshalRequest(q);
    assert Fits(REQUEST, v) <==> |q.capability| <= Frame.MAX_ID_LEN;
  }

  predicate GoResponse(r: Response)
  {
    |r.data| < TWO_64 && |r.errorCode| < TWO_64 && |r.errorDetail| < TWO_64
  }

  function ResponseValue(r: Response): (v: Value)
    requires GoResponse(r)
    ensures Typed(RESPONSE, v)
  {
    VPair(VFlag(r.ok), VPair(VBytes(r.data), VPair(VBytes(r.errorCode), VBytes(r.errorDetail))))
  }

  function MarshalResponse(r: Response): bytes
    requires GoResponse(r)
  {
    Encode(RESPONSE, ResponseValue(r))
  }

  function UnmarshalResponse(s: bytes): Option<Response>
  {
    var p := Decode(RESPONSE, s);
    if p.Fail? then None
    else
      DecodeSound(RESPONSE, s);
      var v := p.value;
      Some(Response(v.fst.b, v.snd.fst.data, v.snd.snd.fst.data, v.snd.snd.snd.data))
  }

  /** The writer puts no limit on the error texts, the reader does. */
  predicate Deliverable(r: Response)
  {
    |r.errorCode| <= Frame.MAX_ID_LEN && |r.errorDetail| <= MAX_DETAIL
  }

  /** A response crosses the wire exactly when its error code is at most 256 and its error
      detail at most 1024 bytes long; otherwise the Ward sees a decode error. */
  lemma ResponseRoundTrip(r: Response)
    requires GoResponse(r)
    ensures UnmarshalResponse(MarshalResponse(r)) == if Deliverable(r) then Some(r) else None
  {
    var v := ResponseValue(r);
    RoundTripIff(RESPONSE, v, []);
    assert MarshalResponse(r) + [] == MarshalResponse(r);
    assert Fits(RESPONSE, v) <==> Deliverable(r);
  }

  /** The two payloads on the wire, field by field. */
  lemma PayloadLayout(q: Request, r: Response)
    requires GoRequest(q) && GoResponse(r)
    ensures MarshalRequest(q) == EncodeString(q.capability) + EncodeVarint(|q.args|) + q.args
    ensures MarshalResponse(r) == [if r.ok then 1 else 0] + EncodeVarint(|r.data|) + r.data + EncodeString(r.errorCode)
                                  + EncodeString(r.errorDetail)
  {
    hide EncodeVarint;
    assert MarshalRequest(q) == EncodeString(q.capability) + EncodeString(q.args);
    assert MarshalResponse(r) ==
           [if r.ok then 1 else 0]
           + (EncodeString(r.data) + (EncodeString(r.errorCode) + EncodeString(r.errorDetail)));
  }

  // ---- Status reply ---------------------------------------------------------

  datatype AgentStatus = AgentStatus(
    id: bytes, state: bytes, lastPromptSeq: uint64, lastEventAt: bytes, lastOutcome: bytes,
    lastFailureDetail: bytes, model: bytes, inputTokens: uint32, outputTokens: uint32,
    costUsd: bytes, toolCalls: uint32)

  const AGENT_STATUS :=
    Pair(Text(64), Pair(Text(32), Pair(Uint64, Pair(Text(64), Pair(Text(64),
    Pair(Text(4096), Pair(Text(64), Pair(Uint32, Pair(Uint32, Pair(Text(32), Uint32))))))))))

  const STATUS := Pair(Text(64), Pair(Int64, List(AGENT_STATUS)))

  predicate GoStatus(a: AgentStatus)
  {
    |a.id| < TWO_64 && |a.state| < TWO_64 && |a.lastEventAt| < TWO_64 && |a.lastOutcome| < TWO_64
    && |a.lastFailureDetail| < TWO_64 && |a.model| < TWO_64 && |a.costUsd| < TWO_64
  }

  function StatusValue(a: AgentStatus): (v: Value)
    requires GoStatus(a)
    ensures Typed(AGENT_STATUS, v)
  {
    VPair(VBytes(a.id), VPair(VBytes(a.state), VPair(VInt(a.lastPromptSeq),
    VPair(VBytes(a.lastEventAt), VPair(VBytes(a.lastOutcome), VPair(VBytes(a.lastFailureDetail),
    VPair(VBytes(a.model), VPair(VInt(a.inputTokens), VPair(VInt(a.outputTokens),
    VPair(VBytes(a.costUsd), VInt(a.toolCalls)))))))))))
  }

  /** The limits the reader of one agent row applies. */
  predicate Reportable(a: AgentStatus)
  {
    |a.id| <= 64 && |a.state| <= 32 && |a.lastEventAt| <= 64 && |a.lastOutcome| <= 64
    && |a.lastFailureDetail| <= 4096 && |a.model| <= 64 && |a.costUsd| <= 32
  }

  lemma StatusFits(a: AgentStatus)
    requires GoStatus(a)
    ensures Fits(AGENT_STATUS, StatusValue(a)) <==> Reportable(a)
  {
  }

  function StatusValues(agents: seq<AgentStatus>): (vs: seq<Value>)
    requires forall i :: 0 <= i < |agents| ==> GoStatus(agents[i])
    ensures |vs| == |agents| && TypedAll(AGENT_STATUS, vs)
  {
    if agents == [] then [] else [StatusValue(agents[0])] + StatusValues(agents[1..])
  }

  function ReplyValue(version: bytes, uptime: int64, agents: seq<AgentStatus>): (v: Value)
    requires |version| < TWO_64 && |agents| < TWO_64
    requires forall i :: 0 <= i < |agents| ==> GoStatus(agents[i])
    ensures Typed(STATUS, v)
  {
    var rows := VList(StatusValues(agents));
    assert Typed(List(AGENT_STATUS), rows);
    VPair(VBytes(version), VPair(VInt(uptime), rows))
  }

  function RowOnWire(a: AgentStatus): bytes
    requires GoStatus(a)
  {
    EncodeString(a.id) + (EncodeString(a.state) + (EncodeVarint(a.lastPromptSeq) + (EncodeString(a.lastEventAt)
    + (EncodeString(a.lastOutcome) + (EncodeString(a.lastFailureDetail) + (EncodeString(a.model)
    + (EncodeVarint(a.inputTokens) + (EncodeVarint(a.outputTokens) + (EncodeString(a.costUsd)
    + EncodeVarint(a.toolCalls))))))))))
  }

  function RowsOnWire(agents: seq<AgentStatus>): bytes
    requires forall i :: 0 <= i < |agents| ==> GoStatus(agents[i])
  {
    if agents == [] then [] else RowOnWire(agents[0]) + RowsOnWire(agents[1..])
  }

  lemma TextThen(limit: nat, more: Shape, text: bytes, v: Value)
    requires |text| < TWO_64 && Typed(more, v)
    ensures Encode(Pair(Text(limit), more), VPair(VBytes(text), v)) == EncodeString(text) + Encode(more, v)
  {
  }

  lemma NumberThen(sh: Shape, more: Shape, n: nat, v: Value)
    requires (sh == Uint64 || sh == Uint32) && Typed(sh, VInt(n)) && Typed(more, v)
    ensures Encode(Pair(sh, more), VPair(VInt(n), v)) == EncodeVarint(n) + Encode(more, v)
  {
  }

  lemma RowEncoded(a: AgentStatus)
    requires GoStatus(a)
    ensures Encode(AGENT_STATUS, StatusValue(a)) == RowOnWire(a)
  {
    var v, t := StatusValue(a), AGENT_STATUS;
    hide EncodeString, EncodeVarint, Encode;
    RestEncoded(a, t.snd.snd.snd);
    NumberThen(Uint64, t.snd.snd.snd, a.lastPromptSeq, v.snd.snd.snd);
    TextThen(32, t.snd.snd, a.state, v.snd.snd);
    TextThen(64, t.snd, a.id, v.snd);
  }

  lemma RestEncoded(a: AgentStatus, t: Shape)
    requires GoStatus(a) && t == AGENT_STATUS.snd.snd.snd
    ensures Typed(t, StatusValue(a).snd.snd.snd)
    ensures Encode(t, StatusValue(a).snd.snd.snd) ==
            EncodeString(a.lastEventAt) + (EncodeString(a.lastOutcome) + (EncodeString(a.lastFailureDetail)
            + (EncodeString(a.model) + (EncodeVarint(a.inputTokens) + (EncodeVarint(a.outputTokens)
            + (EncodeString(a.costUsd) + EncodeVarint(a.toolCalls)))))))
  {
    var v := StatusValue(a).snd.snd.snd;
    var v4 := v.snd.snd.snd.snd;
    hide EncodeString, EncodeVarint;
    LastEncoded(a, v4);
    hide Encode;
    TextThen(64, t.snd, a.lastEventAt, v.snd);
    TextThen(64, t.snd.snd, a.lastOutcome, v.snd.snd);
    TextThen(4096, t.snd.snd.snd, a.lastFailureDetail, v.snd.snd.snd);
    TextThen(64, t.snd.snd.snd.snd, a.model, v4);
  }

  lemma LastEncoded(a: AgentStatus, v: Value)
    requires v == VPair(VInt(a.inputTokens), VPair(VInt(a.outputTokens),
                  VPair(VBytes(a.costUsd), VInt(a.toolCalls)))) && GoStatus(a)
    ensures var t := Pair(Uint32, Pair(Uint32, Pair(Text(32), Uint32)));
            Typed(t, v) && Encode(t, v) ==
            EncodeVarint(a.inputTokens) + (EncodeVarint(a.outputTokens)
            + (EncodeString(a.costUsd) + EncodeVarint(a.toolCalls)))
  {
    hide EncodeString, EncodeVarint;
    var last := Pair(Text(32), Uint32);
    NumberThen(Uint32, Pair(Uint32, last), a.inputTokens, v.snd);
    NumberThen(Uint32, last, a.outputTokens, v.snd.snd);
    TextThen(32, Uint32, a.costUsd, v.snd.snd.snd);
  }

  lemma {:induction false} RowsEncoded(agents: seq<AgentStatus>)
    requires forall i :: 0 <= i < |agents| ==> GoStatus(agents[i])
    ensures EncodeAll(AGENT_STATUS, StatusValues(agents)) == RowsOnWire(agents)
  {
    hide Encode, RowOnWire, StatusValue;
    if agents != [] {
      RowEncoded(agents[0]);
      RowsEncoded(agents[1..]);
      assert StatusValues(agents)[1..] == StatusValues(agents[1..]);
    }
  }

  /** The status reply on the wire: version, uptime, and the rows behind their count. */
  lemma StatusLayout(version: bytes, uptime: int64, agents: seq<AgentStatus>)
    requires |version| < TWO_64 && |agents| < TWO_64
    requires forall i :: 0 <= i < |agents| ==> GoStatus(agents[i])
    ensures Encode(STATUS, ReplyValue(version, uptime, agents)) ==
            EncodeString(version) + EncodeVarint(if uptime < 0 then uptime + TWO_64 else uptime)
            + EncodeVarint(|agents|) + RowsOnWire(agents)
  {
    hide EncodeString, EncodeVarint, RowsOnWire, StatusValues, EncodeAll;
    RowsEncoded(agents);
    assert Encode(STATUS, ReplyValue(version, uptime, agents)) ==
           EncodeString(version) + (EncodeVarint(ToUnsigned(uptime)) + (EncodeVarint(|agents|) + RowsOnWire(agents)));
  }

  /** A status reply is readable exactly when its version and every row of it is: one over-long failure
      detail hides all agents from the operator. */
  lemma StatusRoundTrip(version: bytes, uptime: int64, agents: seq<AgentStatus>, rest: bytes)
    requires |version| < TWO_64 && |agents| < TWO_64
    requires forall i :: 0 <= i < |agents| ==> GoStatus(agents[i])
    ensures var v := ReplyValue(version, uptime, agents);
            Decode(STATUS, Encode(STATUS, v) + rest) == Parsed(v, rest) <==>
            |version| <= 64 && forall i :: 0 <= i < |agents| ==> Reportable(agents[i])
  {
    hide Encode, Decode, GoStatus, Reportable, StatusValues;
    var v := ReplyValue(version, uptime, agents);
    RoundTripIff(STATUS, v, rest);
    RowsFit(agents);
    assert Fits(STATUS, v) <==> |version| <= 64 && FitsAll(AGENT_STATUS, StatusValues(agents));
  }

  lemma {:induction false} RowsFit(agents: seq<AgentStatus>)
    requires forall i :: 0 <= i < |agents| ==> GoStatus(agents[i])
    ensures FitsAll(AGENT_STATUS, StatusValues(agents)) <==>
            forall i :: 0 <= i < |agents| ==> Reportable(agents[i])
  {
    if agents != [] {
      StatusFits(agents[0]);
      RowsFit(agents[1..]);
      assert StatusValues(agents)[1..] == StatusValues(agents[1..]);
      assert forall i :: 1 <= i < |agents| ==> agents[i] == agents[1..][i - 1];
    }
  }
}
