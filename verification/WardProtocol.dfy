/** The request-response protocol between a Ward and keeperd as a step system.

    Any number of tool calls run at once. Each allocates a sequence number, registers a
    one-place reply slot under it, writes a request frame and waits. Allocation and write
    are separate steps, so frames can be written out of order. keeperd's router reads the
    pipe in order, drops what rewinds and whatever its budget refuses, and answers the rest
    under the request's number. Replies find their slot through the pending table, or are
    lost. Every schedule of these steps is a run. */
module WardProtocol {
  import opened Wrappers
  import opened Mus
  import opened Payloads
  import Router

  type CallId = nat

  /** How a tool call ends. `Expired` covers both its timer and its context. */
  datatype Outcome = Answered(response: Response) | Undecodable | PipeError | Expired

  datatype Phase =
    | Allocated
    | Registered
    | Waiting
    | Leaving(outcome: Outcome)   // has its result, slot not yet removed
    | Returned(outcome: Outcome)

  /** What a call fixes when it allocates its number. */
  datatype Call = Call(request: Request, seqNo: uint64)

  /** What travels on a pipe: the type and number from the header, and the payload. */
  datatype Message = Message(msgType: byte, seqNo: uint64, payload: bytes)

  const CAPABILITY_REQUEST: byte := 0x10
  const CAPABILITY_RESPONSE: byte := 0x11

  /** `pending` is the table by sequence number; a slot is named by the call that made it.
      `inHand` is a slot the reader has looked up but not yet filled. `owner` is history:
      which call allocated a number. */
  datatype Ward = Ward(
    counter: uint64,
    calls: map<CallId, Call>,
    phases: map<CallId, Phase>,
    pending: map<uint64, CallId>,
    slots: map<CallId, Option<bytes>>,
    inHand: Option<(CallId, bytes)>,
    owner: map<uint64, CallId>)

  /** An answer: what the keeper decoded and what it replied. */
  datatype Answer = Answer(request: Option<Request>, response: Response)

  /** `dropped` and `answers` are history: the numbers of the frames the router dropped, and
      the keeper's answers by the request's number. */
  datatype Keeper = Keeper(lastSeqNo: uint64, dropped: set<uint64>, answers: map<uint64, Answer>)

  datatype State = State(ward: Ward, up: seq<Message>, keeper: Keeper, down: seq<Message>)

  const INITIAL := State(Ward(0, map[], map[], map[], map[], None, map[]), [], Keeper(0, {}, map[]), [])

  /** What a tool call does next. */
  datatype Move = Allocate(request: Request) | Register | Write | WriteFails | Take | Expire | Remove

  /** What becomes of the frame at the head of the pipe. `Execute` carries the capability's
      result, and whether the reply could be sent. */
  datatype Fate = DropOverBudget | DropRewound | Execute(result: Response, sent: bool) | Ignore

  datatype Step =
    | Move(c: CallId, move: Move)
    | SendOther(msgType: byte, payload: bytes)          // events and pongs, numbered and written at once
    | Route(fate: Fate)
    | Push(msgType: byte, seqNo: uint64, payload: bytes) // prompts and pings, under the keeper's own numbers
    | Lookup                                             // the Ward's reader takes a frame off the pipe
    | Fill                                               // and fills the slot it found

  // ---- Steps ----------------------------------------------------------------

  predicate At(w: Ward, c: CallId, phase: Phase)
  {
    c in w.calls && c in w.phases && w.phases[c] == phase
  }

  predicate MoveEnabled(w: Ward, c: CallId, move: Move)
  {
    match move
    case Allocate(request) => c !in w.calls && GoRequest(request) && w.counter < TWO_64 - 1
    case Register => At(w, c, Allocated)
    case Write => At(w, c, Registered)
    case WriteFails => At(w, c, Registered)
    case Take => At(w, c, Waiting) && c in w.slots && w.slots[c].Some?
    case Expire => At(w, c, Waiting)
    case Remove => c in w.calls && c in w.phases && w.phases[c].Leaving?
  }

  function ApplyMove(w: Ward, c: CallId, move: Move): Ward
    requires MoveEnabled(w, c, move)
  {
    match move
    case Allocate(request) =>
      var n := w.counter + 1;
      w.(counter := n, owner := w.owner[n := c], calls := w.calls[c := Call(request, n)],
         phases := w.phases[c := Allocated])
    case Register =>
      w.(phases := w.phases[c := Registered], pending := w.pending[w.calls[c].seqNo := c], slots := w.slots[c := None])
    case Write => w.(phases := w.phases[c := Waiting])
    case WriteFails => w.(phases := w.phases[c := Leaving(PipeError)])
    case Take => w.(phases := w.phases[c := Leaving(Received(w.slots[c].value))], slots := w.slots[c := None])
    case Expire => w.(phases := w.phases[c := Leaving(Expired)])
    case Remove =>
      w.(phases := w.phases[c := Returned(w.phases[c].outcome)], pending := w.pending - {w.calls[c].seqNo})
  }

  predicate FateEnabled(k: Keeper, m: Message, fate: Fate)
  {
    var rewinds := Router.Rewinds(m.seqNo, k.lastSeqNo);
    match fate
    case DropRewound => rewinds
    case DropOverBudget => !rewinds
    case Execute(result, _) => !rewinds && m.msgType == CAPABILITY_REQUEST && GoResponse(result)
    case Ignore => !rewinds && m.msgType != CAPABILITY_REQUEST
  }

  function ApplyFate(k: Keeper, m: Message, fate: Fate): Keeper
  {
    match fate
    case DropRewound => k.(dropped := k.dropped + {m.seqNo})
    case DropOverBudget => k.(lastSeqNo := m.seqNo, dropped := k.dropped + {m.seqNo})
    case Execute(result, _) =>
      k.(lastSeqNo := m.seqNo, answers := k.answers[m.seqNo := Answer(UnmarshalRequest(m.payload),
                                                                      Reply(m.payload, result))])
    case Ignore => k.(lastSeqNo := m.seqNo)
  }

  /** A request the keeper cannot decode is denied without reaching a capability. The texts
      of the denial are immaterial here. */
  const MALFORMED := Response(false, [], [], [])

  function Reply(payload: bytes, result: Response): Response
  {
    if UnmarshalRequest(payload).Some? then result else MALFORMED
  }

  /** The reader looks the slot up; a reply to a number that is not pending is lost, and so
      is every frame that is no reply. */
  function ApplyLookup(w: Ward, m: Message): Ward
  {
    if m.msgType == CAPABILITY_RESPONSE && m.seqNo in w.pending
    then w.(inHand := Some((w.pending[m.seqNo], m.payload))) else w
  }

  /** A full slot is left alone. */
  function ApplyFill(w: Ward): Ward
    requires w.inHand.Some?
  {
    var (c, payload) := w.inHand.value;
    if c in w.slots && w.slots[c].Some? then w.(inHand := None)
    else w.(inHand := None, slots := w.slots[c := Some(payload)])
  }

  predicate Enabled(s: State, e: Step)
  {
    match e
    case Move(c, move) => MoveEnabled(s.ward, c, move)
    case SendOther(t, _) => t != CAPABILITY_REQUEST && s.ward.counter < TWO_64 - 1
    case Route(fate) => s.up != [] && FateEnabled(s.keeper, s.up[0], fate)
    case Push(t, _, _) => t != CAPABILITY_RESPONSE
    case Lookup => s.ward.inHand.None? && s.down != []
    case Fill => s.ward.inHand.Some?
  }

  function Apply(s: State, e: Step): State
    requires Enabled(s, e)
  {
    match e
    case Move(c, move) => State(ApplyMove(s.ward, c, move), s.up + Written(s.ward, c, move), s.keeper, s.down)
    case SendOther(t, payload) =>
      var n := s.ward.counter + 1;
      s.(ward := s.ward.(counter := n), up := s.up + [Message(t, n, payload)])
    case Route(fate) => State(s.ward, s.up[1..], ApplyFate(s.keeper, s.up[0], fate), s.down + Sent(s.up[0], fate))
    case Push(t, seqNo, payload) => s.(down := s.down + [Message(t, seqNo, payload)])
    case Lookup => s.(ward := ApplyLookup(s.ward, s.down[0]), down := s.down[1..])
    case Fill => s.(ward := ApplyFill(s.ward))
  }

  function Written(w: Ward, c: CallId, move: Move): seq<Message>
    requires MoveEnabled(w, c, move)
  {
    if move == Write then [Message(CAPABILITY_REQUEST, w.calls[c].seqNo, WireRequest(w.calls[c].request))] else []
  }

  function Sent(m: Message, fate: Fate): seq<Message>
  {
    if fate.Execute? && fate.sent
    then [Message(CAPABILITY_RESPONSE, m.seqNo, WireResponse(Reply(m.payload, fate.result)))] else []
  }

  function WireRequest(q: Request): bytes
  {
    if GoRequest(q) then MarshalRequest(q) else []
  }

  function WireResponse(r: Response): bytes
  {
    if GoResponse(r) then MarshalResponse(r) else []
  }

  /** What a call returns for the payload it found in its slot. */
  function Received(payload: bytes): (o: Outcome)
    ensures o.Answered? || o.Undecodable?
  {
    var r := UnmarshalResponse(payload);
    if r.Some? then Answered(r.value) else Undecodable
  }

  predicate ValidRun(s: State, es: seq<Step>)
    decreases |es|
  {
    es == [] || (Enabled(s, es[0]) && ValidRun(Apply(s, es[0]), es[1..]))
  }

  function Run(s: State, es: seq<Step>): State
    requires ValidRun(s, es)
    decreases |es|
  {
    if es == [] then s else Run(Apply(s, es[0]), es[1..])
  }

  // ---- The invariant --------------------------------------------------------

  /** Every number was handed out once: a call's number leads back to the call. */
  ghost predicate NumbersRight(w: Ward)
  {
    && (forall c :: c in w.calls ==>
          && 0 < w.calls[c].seqNo <= w.counter && GoRequest(w.calls[c].request)
          && w.calls[c].seqNo in w.owner && w.owner[w.calls[c].seqNo] == c)
    && (forall n :: n in w.owner ==> n <= w.counter && w.owner[n] in w.calls && w.calls[w.owner[n]].seqNo == n)
  }

  /** The pending table leads from a number to its call, and slots belong to calls that
      registered them. */
  ghost predicate TablesRight(w: Ward)
  {
    && w.phases.Keys == w.calls.Keys
    && (forall c :: c in w.slots ==> c in w.calls && w.phases[c] != Allocated)
    && (forall n :: n in w.pending ==> n in w.owner && w.pending[n] == w.owner[n] && w.pending[n] in w.slots)
  }

  /** The call has not put its request on the pipe, and if it is past that, never will. */
  predicate Unwritten(p: Phase)
  {
    p == Allocated || p == Registered || p == Leaving(PipeError) || p == Returned(PipeError)
  }

  predicate OwnedAndWritten(w: Ward, n: uint64)
  {
    n in w.owner && w.owner[n] in w.calls && w.owner[n] in w.phases && !Unwritten(w.phases[w.owner[n]])
  }

  /** A request frame under way is the one of the call with its number; other frames carry
      numbers of no call. */
  predicate UpMessageRight(m: Message, w: Ward)
  {
    && 0 < m.seqNo <= w.counter
    && (m.msgType == CAPABILITY_REQUEST <==> m.seqNo in w.owner)
    && (m.seqNo in w.owner ==>
          OwnedAndWritten(w, m.seqNo) && m.payload == WireRequest(w.calls[w.owner[m.seqNo]].request))
  }

  ghost predicate UpRight(up: seq<Message>, w: Ward)
  {
    && (forall i :: 0 <= i < |up| ==> UpMessageRight(up[i], w))
    && (forall i, j :: 0 <= i < j < |up| ==> up[i].seqNo != up[j].seqNo)
  }

  /** Every answer is to the request of the call that owns its number, and what was dropped
      was not answered. */
  ghost predicate KeeperRight(k: Keeper, w: Ward)
  {
    && (forall n :: n in k.answers ==> AnswerRight(n, k.answers[n], w))
    && (forall n :: n in k.dropped ==>
          n !in k.answers && 0 < n <= w.counter && (n in w.owner ==> OwnedAndWritten(w, n)))
  }

  predicate AnswerRight(n: uint64, a: Answer, w: Ward)
  {
    OwnedAndWritten(w, n) && GoResponse(a.response)
    && a.request == UnmarshalRequest(WireRequest(w.calls[w.owner[n]].request))
    && (a.request == None ==> a.response == MALFORMED)
  }

  /** What is still under way has not been dealt with. */
  ghost predicate UpUntouched(up: seq<Message>, k: Keeper)
  {
    forall i :: 0 <= i < |up| ==> up[i].seqNo !in k.dropped && up[i].seqNo !in k.answers
  }

  predicate Carries(k: Keeper, n: uint64, payload: bytes)
  {
    n in k.answers && payload == WireResponse(k.answers[n].response)
  }

  /** Replies under way answer the number they go by. */
  ghost predicate DownRight(down: seq<Message>, k: Keeper)
  {
    forall i :: 0 <= i < |down| && down[i].msgType == CAPABILITY_RESPONSE ==> Carries(k, down[i].seqNo, down[i].payload)
  }

  /** Replies in the reader's hand or in a slot answer the number of the slot's call. */
  ghost predicate SlotsRight(w: Ward, k: Keeper)
  {
    && (w.inHand.Some? ==> w.inHand.value.0 in w.slots && w.inHand.value.0 in w.calls
                           && Carries(k, w.calls[w.inHand.value.0].seqNo, w.inHand.value.1))
    && (forall c :: c in w.slots && w.slots[c].Some? ==> c in w.calls && Carries(k, w.calls[c].seqNo, w.slots[c].value))
  }

  predicate OutcomeRight(k: Keeper, n: uint64, p: Phase)
  {
    (p.Leaving? || p.Returned?) ==>
      match p.outcome
      case Answered(r) => n in k.answers && k.answers[n].response == r
      case Undecodable => n in k.answers && !Deliverable(k.answers[n].response)
      case PipeError => true
      case Expired => true
  }

  ghost predicate OutcomesRight(w: Ward, k: Keeper)
  {
    forall c :: c in w.calls && c in w.phases ==> OutcomeRight(k, w.calls[c].seqNo, w.phases[c])
  }

  ghost predicate WardRight(w: Ward)
  {
    NumbersRight(w) && TablesRight(w)
  }

  ghost predicate Inv(s: State)
  {
    && WardRight(s.ward) && UpRight(s.up, s.ward) && KeeperRight(s.keeper, s.ward) && UpUntouched(s.up, s.keeper)
    && DownRight(s.down, s.keeper) && SlotsRight(s.ward, s.keeper) && OutcomesRight(s.ward, s.keeper)
  }

  // ---- Moves of a call ------------------------------------------------------

  /** Calls and numbers are only ever added, and a written request stays written. */
  ghost predicate Grows(w: Ward, w': Ward)
  {
    && w.counter <= w'.counter
    && (forall c :: c in w.calls ==> c in w'.calls && w'.calls[c] == w.calls[c])
    && (forall n :: n in w.owner ==> n in w'.owner && w'.owner[n] == w.owner[n])
    && (forall n :: n in w'.owner ==> n in w.owner || w.counter < n)
    && (forall c :: c in w.phases ==> c in w'.phases && (Unwritten(w'.phases[c]) ==> Unwritten(w.phases[c])))
  }

  /** A move touches no other call. */
  lemma MoveIsLocal(w: Ward, c: CallId, move: Move)
    requires w.phases.Keys == w.calls.Keys && MoveEnabled(w, c, move)
    ensures var w' := ApplyMove(w, c, move);
            && w'.calls.Keys == w.calls.Keys + {c}
            && w'.phases.Keys == w.phases.Keys + {c}
            && (forall d :: d in w.calls && d != c ==> w'.calls[d] == w.calls[d] && w'.phases[d] == w.phases[d])
            && w'.calls[c].seqNo == if c in w.calls then w.calls[c].seqNo else w.counter + 1
  {
    hide Received, GoRequest;
  }

  lemma PhaseAdvances(w: Ward, c: CallId, move: Move)
    requires MoveEnabled(w, c, move) && c in w.phases && c in w.calls
    ensures Unwritten(ApplyMove(w, c, move).phases[c]) ==> Unwritten(w.phases[c])
  {
    hide Received;
  }

  lemma MoveGrows(w: Ward, c: CallId, move: Move)
    requires WardRight(w) && MoveEnabled(w, c, move)
    ensures Grows(w, ApplyMove(w, c, move))
  {
    hide ApplyMove, MoveEnabled, Unwritten;
    MoveIsLocal(w, c, move);
    assert c in w.calls ==> c in w.phases;
    if c in w.calls { PhaseAdvances(w, c, move); }
    OwnerGrows(w, c, move);
  }

  lemma OwnerGrows(w: Ward, c: CallId, move: Move)
    requires WardRight(w) && MoveEnabled(w, c, move)
    ensures var w' := ApplyMove(w, c, move);
            && w.counter <= w'.counter
            && (c in w.calls ==> w'.calls[c] == w.calls[c])
            && (forall n :: n in w.owner ==> n in w'.owner && w'.owner[n] == w.owner[n])
            && (forall n :: n in w'.owner ==> n in w.owner || w.counter < n)
  {
    hide Received, GoRequest, TablesRight;
  }

  lemma MoveKeepsNumbers(w: Ward, c: CallId, move: Move)
    requires WardRight(w) && MoveEnabled(w, c, move)
    ensures NumbersRight(ApplyMove(w, c, move))
  {
    hide Received, GoRequest, TablesRight, Unwritten;
  }

  lemma AllocateKeepsTables(w: Ward, c: CallId, request: Request)
    requires WardRight(w) && MoveEnabled(w, c, Allocate(request))
    ensures TablesRight(ApplyMove(w, c, Allocate(request)))
  {
    hide GoRequest;
  }

  lemma MoveKeepsTables(w: Ward, c: CallId, move: Move)
    requires WardRight(w) && MoveEnabled(w, c, move)
    ensures TablesRight(ApplyMove(w, c, move))
  {
    hide Received, GoRequest, Unwritten;
    if move.Allocate? {
      AllocateKeepsTables(w, c, move.request);
    } else {
      assert ApplyMove(w, c, move).phases.Keys == w.calls.Keys;
    }
  }

  lemma MoveKeepsWard(w: Ward, c: CallId, move: Move)
    requires WardRight(w) && MoveEnabled(w, c, move)
    ensures WardRight(ApplyMove(w, c, move)) && Grows(w, ApplyMove(w, c, move))
  {
    hide NumbersRight, TablesRight, Grows, ApplyMove, MoveEnabled;
    MoveGrows(w, c, move);
    MoveKeepsNumbers(w, c, move);
    MoveKeepsTables(w, c, move);
  }

  lemma GrowthKeepsUp(up: seq<Message>, w: Ward, w': Ward)
    requires Grows(w, w') && UpRight(up, w)
    ensures UpRight(up, w')
  {
    hide WireRequest, Unwritten;
    forall i | 0 <= i < |up|
      ensures UpMessageRight(up[i], w')
    {
      assert UpMessageRight(up[i], w);
    }
  }

  lemma GrowthKeepsKeeper(k: Keeper, w: Ward, w': Ward)
    requires Grows(w, w') && KeeperRight(k, w)
    ensures KeeperRight(k, w')
  {
    hide WireRequest, Unwritten, GoResponse;
    forall n | n in k.answers
      ensures AnswerRight(n, k.answers[n], w')
    {
      assert AnswerRight(n, k.answers[n], w);
    }
  }

  /** The number of a call that has not written is nowhere on the keeper's side. */
  lemma UnwrittenUnseen(up: seq<Message>, k: Keeper, w: Ward, c: CallId)
    requires WardRight(w) && UpRight(up, w) && KeeperRight(k, w) && MoveEnabled(w, c, Write)
    ensures var n := w.calls[c].seqNo;
            n !in k.answers && n !in k.dropped && forall i :: 0 <= i < |up| ==> up[i].seqNo != n
  {
    hide WireRequest;
    var n := w.calls[c].seqNo;
    assert Unwritten(w.phases[c]) && w.owner[n] == c;
    forall i | 0 <= i < |up|
      ensures up[i].seqNo != n
    {
      assert UpMessageRight(up[i], w);
    }
    assert n in k.answers ==> AnswerRight(n, k.answers[n], w);
  }

  lemma UpAppend(up: seq<Message>, w: Ward, m: Message)
    requires UpRight(up, w) && UpMessageRight(m, w) && forall i :: 0 <= i < |up| ==> up[i].seqNo != m.seqNo
    ensures UpRight(up + [m], w)
  {
    hide UpMessageRight;
  }

  lemma WriteKeepsUp(up: seq<Message>, k: Keeper, w: Ward, c: CallId)
    requires WardRight(w) && UpRight(up, w) && UpUntouched(up, k) && KeeperRight(k, w) && MoveEnabled(w, c, Write)
    ensures UpRight(up + Written(w, c, Write), ApplyMove(w, c, Write)) && UpUntouched(up + Written(w, c, Write), k)
  {
    hide WireRequest, Grows, UpRight, KeeperRight;
    var w' := ApplyMove(w, c, Write);
    MoveKeepsWard(w, c, Write);
    GrowthKeepsUp(up, w, w');
    UnwrittenUnseen(up, k, w, c);
    UpAppend(up, w', Written(w, c, Write)[0]);
  }

  lemma MoveKeepsSlots(w: Ward, k: Keeper, c: CallId, move: Move)
    requires WardRight(w) && SlotsRight(w, k) && MoveEnabled(w, c, move)
    ensures SlotsRight(ApplyMove(w, c, move), k)
  {
    hide Received, WireResponse, NumbersRight, Carries;
  }

  lemma MoveKeepsOutcomes(w: Ward, k: Keeper, c: CallId, move: Move)
    requires WardRight(w) && SlotsRight(w, k) && OutcomesRight(w, k) && KeeperRight(k, w) && MoveEnabled(w, c, move)
    ensures OutcomesRight(ApplyMove(w, c, move), k)
  {
    hide ApplyMove, MoveEnabled, OutcomeRight, NumbersRight, SlotsRight, KeeperRight;
    MoveIsLocal(w, c, move);
    MovePhaseRight(w, k, c, move);
  }

  lemma MovePhaseRight(w: Ward, k: Keeper, c: CallId, move: Move)
    requires WardRight(w) && SlotsRight(w, k) && KeeperRight(k, w) && MoveEnabled(w, c, move)
    requires OutcomesRight(w, k)
    ensures OutcomeRight(k, if c in w.calls then w.calls[c].seqNo else w.counter + 1, ApplyMove(w, c, move).phases[c])
  {
    if move == Take {
      var n := w.calls[c].seqNo;
      assert AnswerRight(n, k.answers[n], w);
      ResponseRoundTrip(k.answers[n].response);
    }
  }

  // ---- Steps of the keeper --------------------------------------------------

  lemma FateKeeps(s: State, fate: Fate)
    requires Inv(s) && Enabled(s, Route(fate))
    ensures var k' := ApplyFate(s.keeper, s.up[0], fate);
            KeeperRight(k', s.ward) && UpUntouched(s.up[1..], k') && UpRight(s.up[1..], s.ward)
    ensures AnswersOnlyAdded(s.keeper, ApplyFate(s.keeper, s.up[0], fate))
  {
    hide WireRequest, Unwritten, DownRight, SlotsRight, OutcomesRight, GoResponse, NumbersRight;
    var m := s.up[0];
    assert UpMessageRight(m, s.ward);
    var k' := ApplyFate(s.keeper, m, fate);
    forall n | n in k'.answers
      ensures AnswerRight(n, k'.answers[n], s.ward)
    {
      if n == m.seqNo && fate.Execute? {
        assert GoResponse(Reply(m.payload, fate.result)) by { MalformedIsGo(); }
      } else {
        assert AnswerRight(n, s.keeper.answers[n], s.ward);
      }
    }
  }

  lemma MalformedIsGo()
    ensures GoResponse(MALFORMED)
  {
  }

  ghost predicate AnswersOnlyAdded(k: Keeper, k': Keeper)
  {
    forall n :: n in k.answers ==> n in k'.answers && k'.answers[n] == k.answers[n]
  }

  lemma FateKeepsReplies(s: State, fate: Fate)
    requires Inv(s) && Enabled(s, Route(fate))
    ensures var t := Apply(s, Route(fate));
            DownRight(t.down, t.keeper) && SlotsRight(t.ward, t.keeper) && OutcomesRight(t.ward, t.keeper)
  {
    FateKeeps(s, fate);
    hide WireResponse, Deliverable, UnmarshalRequest, KeeperRight, WardRight, UpRight, UpUntouched, Reply;
    var t := Apply(s, Route(fate));
    forall c | c in t.ward.calls && c in t.ward.phases
      ensures OutcomeRight(t.keeper, t.ward.calls[c].seqNo, t.ward.phases[c])
    {
      assert OutcomeRight(s.keeper, t.ward.calls[c].seqNo, t.ward.phases[c]);
    }
  }

  // ---- Steps of the Ward's reader -------------------------------------------

  lemma LookupKeeps(s: State)
    requires Inv(s) && Enabled(s, Lookup)
    ensures Inv(Apply(s, Lookup))
  {
    hide WireRequest, WireResponse, GoRequest, OutcomeRight, AnswerRight, UpMessageRight, OwnedAndWritten, Unwritten;
    var w' := Apply(s, Lookup).ward;
    assert Grows(s.ward, w');
    GrowthKeepsUp(s.up, s.ward, w');
    GrowthKeepsKeeper(s.keeper, s.ward, w');
    assert s.down[0].msgType == CAPABILITY_RESPONSE ==> Carries(s.keeper, s.down[0].seqNo, s.down[0].payload);
    hide Grows, UpRight, KeeperRight, UpUntouched;
  }

  lemma FillKeeps(s: State)
    requires Inv(s) && Enabled(s, Fill)
    ensures Inv(Apply(s, Fill))
  {
    hide WireRequest, WireResponse, GoRequest, OutcomeRight, AnswerRight, UpMessageRight, OwnedAndWritten, Unwritten,
         Carries;
    var w' := Apply(s, Fill).ward;
    assert Grows(s.ward, w');
    GrowthKeepsUp(s.up, s.ward, w');
    GrowthKeepsKeeper(s.keeper, s.ward, w');
    hide Grows, UpRight, KeeperRight, UpUntouched, DownRight;
  }

  // ---- Every step keeps it --------------------------------------------------

  lemma SendOtherKeeps(s: State, msgType: byte, payload: bytes)
    requires Inv(s) && Enabled(s, SendOther(msgType, payload))
    ensures Inv(Apply(s, SendOther(msgType, payload)))
  {
    hide WireRequest, WireResponse, GoRequest, OutcomeRight, AnswerRight, Unwritten;
    var w' := Apply(s, SendOther(msgType, payload)).ward;
    assert Grows(s.ward, w');
    GrowthKeepsUp(s.up, s.ward, w');
    GrowthKeepsKeeper(s.keeper, s.ward, w');
    FreshNumber(s);
  }

  lemma PushKeeps(s: State, msgType: byte, seqNo: uint64, payload: bytes)
    requires Inv(s) && Enabled(s, Push(msgType, seqNo, payload))
    ensures Inv(Apply(s, Push(msgType, seqNo, payload)))
  {
    hide UpRight, KeeperRight, UpUntouched, SlotsRight, OutcomesRight, WardRight, Carries;
  }

  lemma FreshNumber(s: State)
    requires Inv(s) && s.ward.counter < TWO_64 - 1
    ensures var n := s.ward.counter + 1;
            n !in s.ward.owner && n !in s.keeper.dropped && n !in s.keeper.answers
            && forall i :: 0 <= i < |s.up| ==> s.up[i].seqNo != n
  {
    var n := s.ward.counter + 1;
    forall i | 0 <= i < |s.up|
      ensures s.up[i].seqNo != n
    {
      assert UpMessageRight(s.up[i], s.ward);
    }
  }

  lemma MoveKeeps(s: State, c: CallId, move: Move)
    requires Inv(s) && Enabled(s, Step.Move(c, move))
    ensures Inv(Apply(s, Step.Move(c, move)))
  {
    hide NumbersRight, TablesRight, UpMessageRight, OutcomeRight, SlotsRight, KeeperRight, Grows, MoveEnabled,
         ApplyMove,
         UpRight, UpUntouched, DownRight;
    MoveKeepsWard(s.ward, c, move);
    var w' := ApplyMove(s.ward, c, move);
    GrowthKeepsUp(s.up, s.ward, w');
    GrowthKeepsKeeper(s.keeper, s.ward, w');
    MoveKeepsSlots(s.ward, s.keeper, c, move);
    MoveKeepsOutcomes(s.ward, s.keeper, c, move);
    assert s.up + [] == s.up;
    if move == Write { WriteKeepsUp(s.up, s.keeper, s.ward, c); }
  }

  lemma StepKeeps(s: State, e: Step)
    requires Inv(s) && Enabled(s, e)
    ensures Inv(Apply(s, e))
  {
    hide WardRight, UpRight, KeeperRight, UpUntouched, DownRight, SlotsRight, OutcomesRight, ApplyMove, ApplyFate;
    match e
    case Move(c, move) => MoveKeeps(s, c, move);
    case SendOther(t, payload) => SendOtherKeeps(s, t, payload);
    case Route(fate) =>
      FateKeeps(s, fate);
      FateKeepsReplies(s, fate);
    case Push(t, n, payload) => PushKeeps(s, t, n, payload);
    case Lookup => LookupKeeps(s);
    case Fill => FillKeeps(s);
  }

  lemma {:induction false} RunKeeps(s: State, es: seq<Step>)
    requires Inv(s) && ValidRun(s, es)
    ensures Inv(Run(s, es))
    decreases |es|
  {
    hide Inv, Apply, Enabled;
    if es != [] {
      StepKeeps(s, es[0]);
      RunKeeps(Apply(s, es[0]), es[1..]);
    }
  }

  // ---- What a run guarantees ------------------------------------------------

  lemma InitialRight()
    ensures Inv(INITIAL)
  {
  }

  /** Correlation, over every interleaving: a call that returns a keeper's response returns
      the one computed for its own capability and arguments. */
  lemma Correlation(es: seq<Step>, c: CallId)
    requires ValidRun(INITIAL, es)
    requires var w := Run(INITIAL, es).ward; c in w.calls && c in w.phases && w.phases[c].Returned?
    ensures var s := Run(INITIAL, es);
            var call := s.ward.calls[c];
            var outcome := s.ward.phases[c].outcome;
            var answered := call.seqNo in s.keeper.answers;
            && (outcome.Answered? ==> answered && outcome.response == s.keeper.answers[call.seqNo].response)
            && (answered ==> s.keeper.answers[call.seqNo].request ==
                             if |call.request.capability| <= 256 then Some(call.request) else None)
            && (outcome.Answered? && |call.request.capability| > 256 ==> outcome.response == MALFORMED)
            && (outcome == Undecodable ==> answered && !Deliverable(s.keeper.answers[call.seqNo].response))
  {
    var s := Run(INITIAL, es);
    hide Run, ValidRun;
    InitialRight();
    RunKeeps(INITIAL, es);
    var n := s.ward.calls[c].seqNo;
    assert OutcomeRight(s.keeper, n, s.ward.phases[c]);
    if n in s.keeper.answers {
      assert AnswerRight(n, s.keeper.answers[n], s.ward);
      RequestRoundTrip(s.ward.calls[c].request);
    }
  }

  /** A call whose frame the router dropped can only expire, and one whose write failed was
      never executed. */
  lemma DroppedExpires(es: seq<Step>, c: CallId)
    requires ValidRun(INITIAL, es)
    requires var w := Run(INITIAL, es).ward; c in w.calls && c in w.phases && w.phases[c].Returned?
    ensures var s := Run(INITIAL, es);
            var n := s.ward.calls[c].seqNo;
            && (n in s.keeper.dropped ==> s.ward.phases[c].outcome == Expired)
            && (s.ward.phases[c].outcome == PipeError ==> n !in s.keeper.answers && n !in s.keeper.dropped)
  {
    var s := Run(INITIAL, es);
    hide Run, ValidRun;
    InitialRight();
    RunKeeps(INITIAL, es);
    var n := s.ward.calls[c].seqNo;
    assert OutcomeRight(s.keeper, n, s.ward.phases[c]);
    assert n in s.keeper.answers ==> AnswerRight(n, s.keeper.answers[n], s.ward);
  }

  /** A request is executed at most once. */
  lemma ExecutedOnce(s: State, fate: Fate)
    requires Inv(s) && Enabled(s, Route(fate)) && fate.Execute?
    ensures s.up[0].seqNo !in s.keeper.answers
    ensures s.up[0].seqNo in Apply(s, Route(fate)).keeper.answers
  {
    hide KeeperRight, DownRight, SlotsRight, OutcomesRight, UpRight, WireRequest, WireResponse, Received, WardRight;
  }

  predicate HasResult(w: Ward, c: CallId)
  {
    c in w.phases && (w.phases[c].Leaving? || w.phases[c].Returned?)
  }

  lemma StepKeepsResult(s: State, e: Step, c: CallId)
    requires s.ward.phases.Keys == s.ward.calls.Keys && Enabled(s, e) && HasResult(s.ward, c)
    ensures Apply(s, e).ward.phases.Keys == Apply(s, e).ward.calls.Keys
    ensures HasResult(Apply(s, e).ward, c) && Apply(s, e).ward.phases[c].outcome == s.ward.phases[c].outcome
  {
    hide WireRequest, WireResponse, Received, GoRequest, FateEnabled, ApplyFate, Written, Sent;
    if e.Move? { MoveIsLocal(s.ward, e.c, e.move); }
  }

  /** Once a call has its result, nothing that comes later, a late reply among it, changes
      the result. */
  lemma {:induction false} ResultIsFinal(s: State, es: seq<Step>, c: CallId)
    requires s.ward.phases.Keys == s.ward.calls.Keys && ValidRun(s, es) && HasResult(s.ward, c)
    ensures HasResult(Run(s, es).ward, c) && Run(s, es).ward.phases[c].outcome == s.ward.phases[c].outcome
    decreases |es|
  {
    hide Apply, Enabled;
    if es != [] {
      StepKeepsResult(s, es[0], c);
      ResultIsFinal(Apply(s, es[0]), es[1..], c);
    }
  }

  /** Two calls allocate and register in order, and write in the opposite order. */
  function WrittenInReverse(q: Request): (s: State)
    requires GoRequest(q)
    ensures s.keeper == INITIAL.keeper && |s.up| == 2 && s.up[0].seqNo == 2 && s.up[1].seqNo == 1
    ensures s.up[0].msgType == s.up[1].msgType == CAPABILITY_REQUEST
    ensures At(s.ward, 0, Waiting) && s.ward.calls[0].seqNo == 1
  {
    hide GoRequest, WireRequest;
    var s1 := Apply(INITIAL, Step.Move(0, Allocate(q)));
    var s2 := Apply(s1, Step.Move(1, Allocate(q)));
    var s3 := Apply(s2, Step.Move(0, Register));
    var s4 := Apply(s3, Step.Move(1, Register));
    var s5 := Apply(s4, Step.Move(1, Write));
    Apply(s5, Step.Move(0, Write))
  }

  /** The order gate costs requests that nobody was too slow or too greedy for: after such a
      start the first call's frame can only be dropped, although no budget was exceeded. */
  lemma ReorderedWriteIsLost(q: Request, fate: Fate, next: Fate)
    requires GoRequest(q)
    requires Enabled(WrittenInReverse(q), Route(fate)) && fate != DropRewound
    requires Enabled(Apply(WrittenInReverse(q), Route(fate)), Route(next))
    ensures next == DropRewound
    ensures 1 in Apply(Apply(WrittenInReverse(q), Route(fate)), Route(next)).keeper.dropped
  {
    hide WrittenInReverse, UnmarshalRequest, Reply, WireResponse;
  }

  // ---- The order gate -------------------------------------------------------

  /** The numbers of the frames the router has taken off the pipe, dropped ones included. */
  function Routed(s: State, es: seq<Step>): seq<uint64>
    requires ValidRun(s, es)
    decreases |es|
  {
    if es == [] then []
    else (if es[0].Route? then [s.up[0].seqNo] else []) + Routed(Apply(s, es[0]), es[1..])
  }

  function Highest(n: uint64, ns: seq<uint64>): uint64
    decreases |ns|
  {
    if ns == [] then n else Highest(if ns[0] > n then ns[0] else n, ns[1..])
  }

  lemma GateStep(s: State, e: Step)
    requires Enabled(s, e)
    ensures Apply(s, e).keeper.lastSeqNo ==
            if e.Route? && s.up[0].seqNo > s.keeper.lastSeqNo then s.up[0].seqNo else s.keeper.lastSeqNo
  {
    hide WireRequest, WireResponse, Reply, Received, GoRequest, ApplyMove, MoveEnabled, Written, Sent;
  }

  lemma {:induction false} GateIsHighest(s: State, es: seq<Step>)
    requires ValidRun(s, es)
    ensures Run(s, es).keeper.lastSeqNo == Highest(s.keeper.lastSeqNo, Routed(s, es))
    decreases |es|
  {
    hide Apply, FateEnabled, MoveEnabled;
    if es != [] {
      GateStep(s, es[0]);
      GateIsHighest(Apply(s, es[0]), es[1..]);
      var more := Routed(Apply(s, es[0]), es[1..]);
      assert [] + more == more;
      if es[0].Route? { assert ([s.up[0].seqNo] + more)[1..] == more; }
    }
  }

  /** In every interleaving, a frame is dropped as a rewind exactly when one with a number at
      least as high was routed before it, whatever became of that one. */
  lemma RewindIff(es: seq<Step>, fate: Fate)
    requires ValidRun(INITIAL, es) && Enabled(Run(INITIAL, es), Route(fate))
    ensures fate == DropRewound <==> Run(INITIAL, es).up[0].seqNo <= Highest(0, Routed(INITIAL, es))
  {
    var s := Run(INITIAL, es);
    InitialRight();
    RunKeeps(INITIAL, es);
    GateIsHighest(INITIAL, es);
    hide Run, ValidRun, Routed, Highest, KeeperRight, UpUntouched, DownRight, SlotsRight, OutcomesRight, WardRight;
    assert UpMessageRight(s.up[0], s.ward);
  }

  // ---- Nothing gets lost on the way -----------------------------------------

  /** The frame with this number is under way, dropped or answered. */
  ghost predicate Somewhere(s: State, n: uint64)
  {
    (exists i :: 0 <= i < |s.up| && s.up[i].seqNo == n) || n in s.keeper.dropped || n in s.keeper.answers
  }

  ghost predicate Accounted(s: State)
  {
    forall c :: c in s.ward.calls && c in s.ward.phases && !Unwritten(s.ward.phases[c]) ==>
      Somewhere(s, s.ward.calls[c].seqNo)
  }

  lemma RouteKeepsSomewhere(s: State, fate: Fate, n: uint64)
    requires Inv(s) && Enabled(s, Route(fate)) && Somewhere(s, n) && n in s.ward.owner
    ensures Somewhere(Apply(s, Route(fate)), n)
  {
    hide KeeperRight, DownRight, SlotsRight, OutcomesRight, WireRequest, WireResponse, WardRight, Reply, UpUntouched;
    var t := Apply(s, Route(fate));
    if exists i :: 0 <= i < |s.up| && s.up[i].seqNo == n {
      var i :| 0 <= i < |s.up| && s.up[i].seqNo == n;
      if i == 0 {
        assert UpMessageRight(s.up[0], s.ward);
      } else {
        assert t.up[i - 1].seqNo == n;
      }
    }
  }

  lemma OthersKeepSomewhere(s: State, e: Step, n: uint64)
    requires Enabled(s, e) && !e.Route? && Somewhere(s, n)
    ensures Somewhere(Apply(s, e), n)
  {
    hide WireRequest, WireResponse, Reply, Received, GoRequest;
    var t := Apply(s, e);
    if exists i :: 0 <= i < |s.up| && s.up[i].seqNo == n {
      var i :| 0 <= i < |s.up| && s.up[i].seqNo == n;
      assert e.Lookup? || e.Fill? || e.Push? || t.up[i] == s.up[i];
    }
  }

  lemma WrittenIsSomewhere(s: State, c: CallId)
    requires Enabled(s, Step.Move(c, Write))
    ensures Somewhere(Apply(s, Step.Move(c, Write)), s.ward.calls[c].seqNo)
  {
    var t := Apply(s, Step.Move(c, Write));
    assert t.up[|s.up|].seqNo == s.ward.calls[c].seqNo;
  }

  /** Which call a step takes past its write. */
  lemma OnlyWriteWrites(s: State, e: Step, c: CallId)
    requires Inv(s) && Enabled(s, e)
    requires c in Apply(s, e).ward.calls && c in Apply(s, e).ward.phases && !Unwritten(Apply(s, e).ward.phases[c])
    ensures c in s.ward.calls && c in s.ward.phases && Apply(s, e).ward.calls[c] == s.ward.calls[c]
    ensures !Unwritten(s.ward.phases[c]) || e == Step.Move(c, Write)
  {
    hide UpRight, KeeperRight, UpUntouched, DownRight, SlotsRight, OutcomesRight, NumbersRight, WireRequest,
         WireResponse, FateEnabled, ApplyFate, ApplyMove, MoveEnabled, Written, Sent, Unwritten;
    if e.Move? { MoveWrites(s.ward, e.c, e.move, c); }
  }

  lemma MoveWrites(w: Ward, d: CallId, move: Move, c: CallId)
    requires TablesRight(w) && MoveEnabled(w, d, move)
    requires var w' := ApplyMove(w, d, move); c in w'.calls && c in w'.phases && !Unwritten(w'.phases[c])
    ensures c in w.calls && c in w.phases && ApplyMove(w, d, move).calls[c] == w.calls[c]
    ensures !Unwritten(w.phases[c]) || (c == d && move == Write)
  {
    hide Received, GoRequest;
    MoveIsLocal(w, d, move);
  }

  lemma StepKeepsAccounted(s: State, e: Step)
    requires Inv(s) && Accounted(s) && Enabled(s, e)
    ensures Accounted(Apply(s, e))
  {
    hide Apply, Enabled, Somewhere, Unwritten, UpRight, KeeperRight, UpUntouched, DownRight, SlotsRight, OutcomesRight;
    var t := Apply(s, e);
    forall c | c in t.ward.calls && c in t.ward.phases && !Unwritten(t.ward.phases[c])
      ensures Somewhere(t, t.ward.calls[c].seqNo)
    {
      OnlyWriteWrites(s, e, c);
      if Unwritten(s.ward.phases[c]) {
        WrittenIsSomewhere(s, c);
      } else if e.Route? {
        RouteKeepsSomewhere(s, e.fate, s.ward.calls[c].seqNo);
      } else {
        OthersKeepSomewhere(s, e, s.ward.calls[c].seqNo);
      }
    }
  }

  lemma {:induction false} RunKeepsAccounted(s: State, es: seq<Step>)
    requires Inv(s) && Accounted(s) && ValidRun(s, es)
    ensures Accounted(Run(s, es))
    decreases |es|
  {
    hide Inv, Accounted, Apply, Enabled;
    if es != [] {
      StepKeeps(s, es[0]);
      StepKeepsAccounted(s, es[0]);
      RunKeepsAccounted(Apply(s, es[0]), es[1..]);
    }
  }

  /** Conservation: over every run, the request of a call that has written it is in exactly one
      place: on the pipe, once, or among the dropped ones, or among those answered. And a
      request that was not written is in none. */
  lemma EveryRequestIsSomewhere(es: seq<Step>, c: CallId)
    requires ValidRun(INITIAL, es)
    requires var w := Run(INITIAL, es).ward; c in w.calls && c in w.phases
    ensures var s := Run(INITIAL, es);
            var n := s.ward.calls[c].seqNo;
            && (Somewhere(s, n) <==> !Unwritten(s.ward.phases[c]))
            && !(n in s.keeper.dropped && n in s.keeper.answers)
            && (forall i :: 0 <= i < |s.up| && s.up[i].seqNo == n ==>
                  && n !in s.keeper.dropped && n !in s.keeper.answers && s.up[i].msgType == CAPABILITY_REQUEST
                  && s.up[i].payload == WireRequest(s.ward.calls[c].request)
                  && forall j :: 0 <= j < |s.up| && s.up[j].seqNo == n ==> i == j)
  {
    var s := Run(INITIAL, es);
    hide Run, ValidRun, WireRequest;
    InitialRight();
    RunKeeps(INITIAL, es);
    RunKeepsAccounted(INITIAL, es);
    hide DownRight, SlotsRight, OutcomesRight, GoRequest;
    var n := s.ward.calls[c].seqNo;
    assert n in s.ward.owner && s.ward.owner[n] == c;
    if Somewhere(s, n) { SomewhereIsWritten(s, n); }
    forall i | 0 <= i < |s.up| && s.up[i].seqNo == n
      ensures s.up[i].msgType == CAPABILITY_REQUEST && s.up[i].payload == WireRequest(s.ward.calls[c].request)
    {
      assert UpMessageRight(s.up[i], s.ward);
    }
  }

  lemma SomewhereIsWritten(s: State, n: uint64)
    requires Inv(s) && Somewhere(s, n) && n in s.ward.owner
    ensures OwnedAndWritten(s.ward, n)
  {
    hide DownRight, SlotsRight, OutcomesRight, GoRequest, WireRequest, OwnedAndWritten, WardRight, UpUntouched;
    if exists i :: 0 <= i < |s.up| && s.up[i].seqNo == n {
      var i :| 0 <= i < |s.up| && s.up[i].seqNo == n;
      assert UpMessageRight(s.up[i], s.ward);
    } else if n in s.keeper.answers {
      assert AnswerRight(n, s.keeper.answers[n], s.ward);
    }
  }

  /** Calls on the way to their reply are in the pending table, with a slot. */
  ghost predicate Awaited(w: Ward)
  {
    forall c :: c in w.calls && c in w.phases && (w.phases[c] == Registered || w.phases[c] == Waiting) ==>
      w.calls[c].seqNo in w.pending && w.pending[w.calls[c].seqNo] == c && c in w.slots
  }

  lemma MoveKeepsAwaited(w: Ward, c: CallId, move: Move)
    requires WardRight(w) && Awaited(w) && MoveEnabled(w, c, move)
    ensures Awaited(ApplyMove(w, c, move))
  {
    hide Received, GoRequest, Awaited;
    var w' := ApplyMove(w, c, move);
    MoveIsLocal(w, c, move);
    forall d | d in w'.calls && d in w'.phases && (w'.phases[d] == Registered || w'.phases[d] == Waiting)
      ensures w'.calls[d].seqNo in w'.pending && w'.pending[w'.calls[d].seqNo] == d && d in w'.slots
    {
      if d != c || !move.Register? { AwaitedAt(w, d); }
    }
    AwaitedAll(w');
  }

  lemma AwaitedAt(w: Ward, c: CallId)
    requires Awaited(w) && c in w.calls && c in w.phases && (w.phases[c] == Registered || w.phases[c] == Waiting)
    ensures w.calls[c].seqNo in w.pending && w.pending[w.calls[c].seqNo] == c && c in w.slots
  {
  }

  lemma AwaitedAll(w: Ward)
    requires forall c :: c in w.calls && c in w.phases && (w.phases[c] == Registered || w.phases[c] == Waiting) ==>
               w.calls[c].seqNo in w.pending && w.pending[w.calls[c].seqNo] == c && c in w.slots
    ensures Awaited(w)
  {
  }

  lemma StepKeepsAwaited(s: State, e: Step)
    requires Inv(s) && Awaited(s.ward) && Enabled(s, e)
    ensures Awaited(Apply(s, e).ward)
  {
    hide UpRight, KeeperRight, UpUntouched, DownRight, SlotsRight, OutcomesRight, WardRight, WireRequest, WireResponse,
         FateEnabled, ApplyFate, ApplyMove, MoveEnabled, Written, Sent;
    if e.Move? { MoveKeepsAwaited(s.ward, e.c, e.move); }
  }

  lemma {:induction false} RunKeepsAwaited(s: State, es: seq<Step>)
    requires Inv(s) && Awaited(s.ward) && ValidRun(s, es)
    ensures Awaited(Run(s, es).ward)
    decreases |es|
  {
    hide Inv, Awaited, Apply, Enabled;
    if es != [] {
      StepKeeps(s, es[0]);
      StepKeepsAwaited(s, es[0]);
      RunKeepsAwaited(Apply(s, es[0]), es[1..]);
    }
  }

  predicate IsReply(m: Message, n: uint64)
  {
    m.msgType == CAPABILITY_RESPONSE && m.seqNo == n
  }

  /** A reply for the call is on the pipe, in the reader's hand or in the call's slot. */
  ghost predicate OnItsWay(s: State, c: CallId)
  {
    c in s.ward.calls &&
    (|| (exists i :: 0 <= i < |s.down| && IsReply(s.down[i], s.ward.calls[c].seqNo))
     || (s.ward.inHand.Some? && s.ward.inHand.value.0 == c)
     || (c in s.ward.slots && s.ward.slots[c].Some?))
  }

  lemma StepKeepsOnItsWay(s: State, e: Step, c: CallId)
    requires Inv(s) && Awaited(s.ward) && Enabled(s, e) && OnItsWay(s, c)
    requires At(s.ward, c, Waiting) && At(Apply(s, e).ward, c, Waiting)
    ensures OnItsWay(Apply(s, e), c)
  {
    hide UpRight, KeeperRight, UpUntouched, DownRight, SlotsRight, OutcomesRight, NumbersRight, TablesRight,
         WireRequest, WireResponse, Received, GoRequest, FateEnabled, ApplyFate, Unwritten, Sent, Written;
    var t := Apply(s, e);
    if e.Move? { KeepsSlot(s, e.c, e.move, c); }
    if exists i :: 0 <= i < |s.down| && IsReply(s.down[i], s.ward.calls[c].seqNo) {
      var i :| 0 <= i < |s.down| && IsReply(s.down[i], s.ward.calls[c].seqNo);
      if e.Lookup? {
        if i > 0 { assert t.down[i - 1] == s.down[i]; }
      } else {
        assert t.down[i] == s.down[i];
      }
    }
  }

  lemma KeepsSlot(s: State, d: CallId, move: Move, c: CallId)
    requires Inv(s) && MoveEnabled(s.ward, d, move)
    requires At(s.ward, c, Waiting) && At(ApplyMove(s.ward, d, move), c, Waiting)
    ensures var w := ApplyMove(s.ward, d, move);
            w.calls[c] == s.ward.calls[c] && w.inHand == s.ward.inHand
            && (c in s.ward.slots ==> c in w.slots && w.slots[c] == s.ward.slots[c])
  {
    hide UpRight, KeeperRight, UpUntouched, DownRight, SlotsRight, OutcomesRight, NumbersRight, WireRequest, GoRequest;
  }

  lemma WaitsOrHasResult(s: State, e: Step, c: CallId)
    requires Inv(s) && Enabled(s, e) && At(s.ward, c, Waiting)
    ensures At(Apply(s, e).ward, c, Waiting) || HasResult(Apply(s, e).ward, c)
  {
    hide UpRight, KeeperRight, UpUntouched, DownRight, SlotsRight, OutcomesRight, NumbersRight, WireRequest,
         WireResponse, Received, GoRequest, FateEnabled, ApplyFate, Written, Sent;
    if e.Move? { MoveIsLocal(s.ward, e.c, e.move); }
  }

  lemma {:induction false} StaysOnItsWay(s: State, es: seq<Step>, c: CallId)
    requires Inv(s) && Awaited(s.ward) && ValidRun(s, es)
    requires At(s.ward, c, Waiting) && OnItsWay(s, c) && At(Run(s, es).ward, c, Waiting)
    ensures OnItsWay(Run(s, es), c)
    decreases |es|
  {
    hide Apply, Enabled, Awaited, OnItsWay, WardRight, UpRight, KeeperRight, UpUntouched, DownRight, SlotsRight,
         OutcomesRight;
    if es != [] {
      var t := Apply(s, es[0]);
      StepKeeps(s, es[0]);
      StepKeepsAwaited(s, es[0]);
      WaitsOrHasResult(s, es[0], c);
      if HasResult(t.ward, c) {
        PhasesAreCalls(t);
        ResultIsFinal(t, es[1..], c);
      } else {
        StepKeepsOnItsWay(s, es[0], c);
        StaysOnItsWay(t, es[1..], c);
      }
    }
  }

  lemma PhasesAreCalls(s: State)
    requires Inv(s)
    ensures s.ward.phases.Keys == s.ward.calls.Keys
  {
  }

  lemma ReplyArrives(s: State, result: Response, es: seq<Step>, c: CallId)
    requires Inv(s) && Awaited(s.ward) && At(s.ward, c, Waiting)
    requires Enabled(s, Route(Execute(result, true))) && s.up[0].seqNo == s.ward.calls[c].seqNo
    requires ValidRun(Apply(s, Route(Execute(result, true))), es)
    requires var t := Run(Apply(s, Route(Execute(result, true))), es);
             At(t.ward, c, Waiting) && t.down == [] && t.ward.inHand == None
    ensures var t := Run(Apply(s, Route(Execute(result, true))), es);
            && c in t.ward.slots && t.ward.slots[c].Some?
            && t.ward.slots[c].value == WireResponse(Reply(s.up[0].payload, result))
  {
    hide Run, ValidRun, WireResponse, Reply, UpRight, KeeperRight, UpUntouched, DownRight, OutcomesRight, WardRight;
    var e := Route(Execute(result, true));
    var u := Apply(s, e);
    StepKeeps(s, e);
    StepKeepsAwaited(s, e);
    assert IsReply(u.down[|s.down|], s.ward.calls[c].seqNo);
    StaysOnItsWay(u, es, c);
    RunKeeps(u, es);
    AnswersStay(u, es, s.up[0].seqNo);
    CallsStay(u, es, c);
  }

  /** No reply gets lost under a waiting call: once its request was executed and the reply sent,
      then whatever happened before and whatever happens after, as soon as the reader has caught
      up with the pipe the reply lies in the call's slot, and taking it returns it. */
  lemma ReplyAwaitsItsCall(before: seq<Step>, result: Response, es: seq<Step>, c: CallId)
    requires ValidRun(INITIAL, before) && Enabled(Run(INITIAL, before), Route(Execute(result, true)))
    requires var s := Run(INITIAL, before);
             && At(s.ward, c, Waiting) && s.up[0].seqNo == s.ward.calls[c].seqNo
             && ValidRun(Apply(s, Route(Execute(result, true))), es)
             && var t := Run(Apply(s, Route(Execute(result, true))), es);
                At(t.ward, c, Waiting) && t.down == [] && t.ward.inHand == None
    ensures var s := Run(INITIAL, before);
            var t := Run(Apply(s, Route(Execute(result, true))), es);
            && Enabled(t, Step.Move(c, Take))
            && (|s.ward.calls[c].request.capability| <= 256 && Deliverable(result) ==>
                  Apply(t, Step.Move(c, Take)).ward.phases[c] == Leaving(Answered(result)))
  {
    var s := Run(INITIAL, before);
    hide Run, ValidRun;
    InitialRight();
    RunKeeps(INITIAL, before);
    RunKeepsAwaited(INITIAL, before);
    ReplyArrives(s, result, es, c);
    hide Inv, Received, Awaited, Reply, WireResponse;
    TakeReturns(Run(Apply(s, Route(Execute(result, true))), es), c);
    if |s.ward.calls[c].request.capability| <= 256 && Deliverable(result) { ReceivedAs(s, result, c); }
  }

  lemma TakeReturns(t: State, c: CallId)
    requires At(t.ward, c, Waiting) && c in t.ward.slots && t.ward.slots[c].Some?
    ensures Enabled(t, Step.Move(c, Take))
    ensures c in Apply(t, Step.Move(c, Take)).ward.phases
            && Apply(t, Step.Move(c, Take)).ward.phases[c] == Leaving(Received(t.ward.slots[c].value))
  {
    hide Received;
  }

  lemma ReceivedAs(s: State, result: Response, c: CallId)
    requires Inv(s) && c in s.ward.calls && s.up != [] && s.up[0].seqNo == s.ward.calls[c].seqNo
    requires |s.ward.calls[c].request.capability| <= 256 && Deliverable(result) && GoResponse(result)
    ensures Received(WireResponse(Reply(s.up[0].payload, result))) == Answered(result)
  {
    hide KeeperRight, UpUntouched, DownRight, SlotsRight, OutcomesRight, MarshalRequest, UnmarshalRequest,
         MarshalResponse, UnmarshalResponse;
    assert UpMessageRight(s.up[0], s.ward);
    RequestRoundTrip(s.ward.calls[c].request);
    ResponseRoundTrip(result);
  }

  lemma {:induction false} CallsStay(s: State, es: seq<Step>, c: CallId)
    requires Inv(s) && ValidRun(s, es) && c in s.ward.calls
    ensures c in Run(s, es).ward.calls && Run(s, es).ward.calls[c] == s.ward.calls[c]
    decreases |es|
  {
    hide Inv, Apply, Enabled;
    if es != [] {
      StepKeeps(s, es[0]);
      CallStays(s, es[0], c);
      CallsStay(Apply(s, es[0]), es[1..], c);
    }
  }

  lemma CallStays(s: State, e: Step, c: CallId)
    requires Inv(s) && Enabled(s, e) && c in s.ward.calls
    ensures c in Apply(s, e).ward.calls && Apply(s, e).ward.calls[c] == s.ward.calls[c]
  {
    hide UpRight, KeeperRight, UpUntouched, DownRight, SlotsRight, OutcomesRight, NumbersRight, WireRequest,
         WireResponse, Received, GoRequest, FateEnabled, ApplyFate, Written, Sent;
    if e.Move? { MoveIsLocal(s.ward, e.c, e.move); }
  }

  lemma {:induction false} AnswersStay(s: State, es: seq<Step>, n: uint64)
    requires Inv(s) && ValidRun(s, es) && n in s.keeper.answers
    ensures n in Run(s, es).keeper.answers && Run(s, es).keeper.answers[n] == s.keeper.answers[n]
    decreases |es|
  {
    hide Inv, Apply, Enabled;
    if es != [] {
      StepKeeps(s, es[0]);
      AnswerStays(s, es[0], n);
      AnswersStay(Apply(s, es[0]), es[1..], n);
    }
  }

  lemma AnswerStays(s: State, e: Step, n: uint64)
    requires Inv(s) && Enabled(s, e) && n in s.keeper.answers
    ensures n in Apply(s, e).keeper.answers && Apply(s, e).keeper.answers[n] == s.keeper.answers[n]
  {
    hide UpRight, KeeperRight, DownRight, SlotsRight, OutcomesRight, WardRight, WireRequest, WireResponse, Received,
         GoRequest, Written, Sent, Reply, ApplyMove, MoveEnabled;
  }
}
