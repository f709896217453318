/** The Ward's side of a tool call as it runs: the sequence counter, the pending table and the
    one-place reply slots, updated by the methods of the call itself, of the reader and, in
    between, of everybody else. */
module WardTables {
  import opened Wrappers
  import opened Mus
  import opened Payloads
  import P = WardProtocol

  /** What the others do at one point of a call: any steps of the protocol but the call's own
      moves. Those that are not enabled are passed over. */
  type Schedule = nat -> seq<P.Step>

  class Tables {
    var counter: uint64
    var calls: map<P.CallId, P.Call>
    var phases: map<P.CallId, P.Phase>
    var pending: map<uint64, P.CallId>
    var slots: map<P.CallId, Option<bytes>>
    var inHand: Option<(P.CallId, bytes)>
    var owner: map<uint64, P.CallId>
    var up: seq<P.Message>
    var keeper: P.Keeper
    var down: seq<P.Message>

    constructor ()
      ensures Abs() == P.INITIAL
    {
      counter, calls, phases, pending, slots, inHand, owner := 0, map[], map[], map[], map[], None, map[];
      up, keeper, down := [], P.Keeper(0, {}, map[]), [];
    }

    function Abs(): P.State
      reads this
    {
      P.State(P.Ward(counter, calls, phases, pending, slots, inHand, owner), up, keeper, down)
    }

    /** The invariant holds, and the call stands where it should. */
    ghost predicate Stands(c: P.CallId, call: P.Call, phase: P.Phase)
      reads this
    {
      P.Inv(Abs()) && P.At(Abs().ward, c, phase) && Abs().ward.calls[c] == call
    }

    // ---- The call's own moves -----------------------------------------------

    method Next(c: P.CallId, request: Request) returns (n: uint64)
      requires P.Inv(Abs()) && c !in calls && GoRequest(request) && counter < TWO_64 - 1
      modifies this
      ensures Taken(old(Abs()), P.Step.Move(c, P.Allocate(request)), Abs())
      ensures n == old(counter) + 1 && Stands(c, P.Call(request, n), P.Allocated)
    {
      hide P.Inv;
      MoveFacts(Abs(), c, P.Allocate(request));
      counter := counter + 1;
      n := counter;
      owner := owner[n := c];
      calls := calls[c := P.Call(request, n)];
      phases := phases[c := P.Allocated];
      assert up + [] == up;
    }

    method RegisterPending(c: P.CallId, ghost call: P.Call)
      requires Stands(c, call, P.Allocated)
      modifies this
      ensures Taken(old(Abs()), P.Step.Move(c, P.Register), Abs())
      ensures Stands(c, call, P.Registered)
    {
      hide P.Inv;
      MoveFacts(Abs(), c, P.Register);
      slots := slots[c := None];
      pending := pending[calls[c].seqNo := c];
      phases := phases[c := P.Registered];
      assert up + [] == up;
    }

    /** The request goes out whole, or the write fails. */
    method Send(c: P.CallId, ghost call: P.Call, ok: bool)
      requires Stands(c, call, P.Registered)
      modifies this
      ensures Taken(old(Abs()), P.Step.Move(c, if ok then P.Write else P.WriteFails), Abs())
      ensures Stands(c, call, if ok then P.Waiting else P.Leaving(P.PipeError))
    {
      hide P.Inv;
      MoveFacts(Abs(), c, if ok then P.Write else P.WriteFails);
      if ok {
        up := up + [P.Message(P.CAPABILITY_REQUEST, calls[c].seqNo, P.WireRequest(calls[c].request))];
        phases := phases[c := P.Waiting];
      } else {
        phases := phases[c := P.Leaving(P.PipeError)];
        assert up + [] == up;
      }
    }

    method Receive(c: P.CallId, ghost call: P.Call) returns (outcome: P.Outcome)
      requires Stands(c, call, P.Waiting) && c in slots && slots[c].Some?
      modifies this
      ensures Taken(old(Abs()), P.Step.Move(c, P.Take), Abs())
      ensures Stands(c, call, P.Leaving(outcome)) && outcome == P.Received(old(slots)[c].value)
    {
      hide P.Inv;
      MoveFacts(Abs(), c, P.Take);
      var reply := UnmarshalResponse(slots[c].value);
      outcome := if reply.Some? then P.Answered(reply.value) else P.Undecodable;
      slots := slots[c := None];
      phases := phases[c := P.Leaving(outcome)];
      assert up + [] == up;
    }

    method GiveUp(c: P.CallId, ghost call: P.Call)
      requires Stands(c, call, P.Waiting)
      modifies this
      ensures Taken(old(Abs()), P.Step.Move(c, P.Expire), Abs())
      ensures Stands(c, call, P.Leaving(P.Expired))
    {
      hide P.Inv;
      MoveFacts(Abs(), c, P.Expire);
      phases := phases[c := P.Leaving(P.Expired)];
      assert up + [] == up;
    }

    method RemovePending(c: P.CallId, ghost call: P.Call, ghost outcome: P.Outcome)
      requires Stands(c, call, P.Leaving(outcome))
      modifies this
      ensures Taken(old(Abs()), P.Step.Move(c, P.Remove), Abs())
      ensures Stands(c, call, P.Returned(outcome)) && call.seqNo !in pending
    {
      hide P.Inv;
      MoveFacts(Abs(), c, P.Remove);
      pending := pending - {calls[c].seqNo};
      phases := phases[c := P.Returned(phases[c].outcome)];
      assert up + [] == up;
    }

    // ---- The reader's two sections ------------------------------------------

    /** A reply is looked up under the lock. */
    method LookUpSlot()
      requires P.Enabled(Abs(), P.Lookup)
      modifies this
      ensures Abs() == P.Apply(old(Abs()), P.Lookup)
    {
      var m := down[0];
      down := down[1..];
      if m.msgType == P.CAPABILITY_RESPONSE && m.seqNo in pending {
        inHand := Some((pending[m.seqNo], m.payload));
      }
    }

    /** The slot is filled behind the lock unless it is full. */
    method FillSlot()
      requires P.Enabled(Abs(), P.Fill)
      modifies this
      ensures Abs() == P.Apply(old(Abs()), P.Fill)
    {
      var (c, payload) := inHand.value;
      if !(c in slots && slots[c].Some?) {
        slots := slots[c := Some(payload)];
      }
      inHand := None;
    }

    /** One step of somebody else. */
    method Other(e: P.Step)
      requires P.Enabled(Abs(), e)
      modifies this
      ensures Abs() == P.Apply(old(Abs()), e)
    {
      hide P.Apply, P.Enabled;
      match e
      case Lookup => LookUpSlot();
      case Fill => FillSlot();
      case _ =>
        var t := P.Apply(Abs(), e);
        counter, calls, phases := t.ward.counter, t.ward.calls, t.ward.phases;
        pending, slots, inHand, owner := t.ward.pending, t.ward.slots, t.ward.inHand, t.ward.owner;
        up, keeper, down := t.up, t.keeper, t.down;
    }

    /** The others run between two steps of call c: nothing they do moves the call. */
    method Interfere(c: P.CallId, ghost call: P.Call, ghost phase: P.Phase, es: seq<P.Step>)
      requires Stands(c, call, phase)
      modifies this
      ensures Stands(c, call, phase) && Abs() == Among(old(Abs()), c, es)
    {
      hide P.Inv, P.Apply, P.Enabled;
      ghost var start := Abs();
      for i := 0 to |es|
        invariant Stands(c, call, phase) && Abs() == Among(start, c, es[..i])
      {
        assert es[..i + 1][..i] == es[..i];
        if P.Enabled(Abs(), es[i]) && !Mine(c, es[i]) {
          P.StepKeeps(Abs(), es[i]);
          OthersMoveNothing(Abs(), es[i], c);
          Other(es[i]);
        }
      }
      assert es[..|es|] == es;
    }

    /** Up to the write. */
    method Launch(c: P.CallId, request: Request, others: Schedule, sent: bool) returns (ghost call: P.Call)
      requires P.Inv(Abs()) && c !in calls && GoRequest(request) && counter < TWO_64 - 1
      modifies this
      ensures call == P.Call(request, old(counter) + 1)
      ensures Stands(c, call, if sent then P.Waiting else P.Leaving(P.PipeError))
      ensures sent ==> Abs() == Launched(old(Abs()), c, request, others)
    {
      hide P.Inv, P.Apply, P.Enabled, GoRequest, Among;
      var seqNo := Next(c, request);
      call := P.Call(request, seqNo);
      Interfere(c, call, P.Allocated, others(0));
      RegisterPending(c, call);
      Interfere(c, call, P.Registered, others(1));
      Send(c, call, sent);
    }

    /** The moves of `executeTool` behind its gates, with the others' steps between any two of
        them. `looks` is how often the call looks for its reply before it gives up. */
    method ExecuteTool(c: P.CallId, request: Request, others: Schedule, sent: bool, looks: nat)
      returns (outcome: P.Outcome)
      requires P.Inv(Abs()) && c !in calls && GoRequest(request) && counter < TWO_64 - 1
      modifies this
      ensures P.Inv(Abs())
      ensures Settled(Abs(), c, request, old(counter) + 1, outcome)
      ensures outcome == P.PipeError <==> !sent
      ensures sent ==> FirstReplyDecides(Launched(old(Abs()), c, request, others), c, others, looks, outcome)
    {
      hide P.Inv, P.Apply, P.Enabled, GoRequest, Settled, Launched, FirstReplyDecides;
      ghost var call := Launch(c, request, others, sent);
      if sent {
        outcome := Wait(c, call, others, looks);
      } else {
        outcome := P.PipeError;
      }
      Interfere(c, call, P.Leaving(outcome), others(2));
      RemovePending(c, call, outcome);
      SettledBy(Abs(), c, request, call.seqNo, outcome);
    }

    /** The select: the reply, or the timer and the context. */
    method Wait(c: P.CallId, ghost call: P.Call, others: Schedule, looks: nat) returns (outcome: P.Outcome)
      requires Stands(c, call, P.Waiting)
      modifies this
      ensures Stands(c, call, P.Leaving(outcome)) && outcome != P.PipeError
      ensures FirstReplyDecides(old(Abs()), c, others, looks, outcome)
    {
      hide P.Inv, P.Received, P.At, Among, AtLook, FirstReplyDecides, Taken;
      ghost var start := Abs();
      for i := 0 to looks
        invariant Stands(c, call, P.Waiting)
        invariant Abs() == Before(start, c, others, i)
        invariant NoneFound(start, c, others, i)
      {
        Interfere(c, call, P.Waiting, others(3 + i));
        LookAt(start, c, others, i);
        if c in slots && slots[c].Some? {
          outcome := Receive(c, call);
          FoundAt(start, c, others, looks, i, outcome);
          return;
        }
      }
      GiveUp(c, call);
      outcome := P.Expired;
      FoundNever(start, c, others, looks);
    }
  }

  // ---- What the call goes by ------------------------------------------------

  /** A step that could be taken led from s to t. */
  ghost predicate Taken(s: P.State, e: P.Step, t: P.State)
  {
    P.Enabled(s, e) && t == P.Apply(s, e)
  }

  function Do(s: P.State, e: P.Step): P.State
  {
    if P.Enabled(s, e) then P.Apply(s, e) else s
  }

  /** What the others' steps make of a state. */
  function Among(s: P.State, c: P.CallId, es: seq<P.Step>): P.State
  {
    if es == [] then s
    else
      var t, e := Among(s, c, es[..|es| - 1]), es[|es| - 1];
      if Mine(c, e) then t else Do(t, e)
  }

  /** The state right behind the write. */
  function Launched(s: P.State, c: P.CallId, request: Request, others: Schedule): P.State
  {
    var numbered := Among(Do(s, P.Step.Move(c, P.Allocate(request))), c, others(0));
    var registered := Among(Do(numbered, P.Step.Move(c, P.Register)), c, others(1));
    Do(registered, P.Step.Move(c, P.Write))
  }

  /** The state at look k of a wait that began in s. */
  function AtLook(s: P.State, c: P.CallId, others: Schedule, k: nat): P.State
  {
    Among(if k == 0 then s else AtLook(s, c, others, k - 1), c, others(3 + k))
  }

  predicate Full(s: P.State, c: P.CallId)
  {
    c in s.ward.slots && s.ward.slots[c].Some?
  }

  function Before(s: P.State, c: P.CallId, others: Schedule, k: nat): P.State
  {
    if k == 0 then s else AtLook(s, c, others, k - 1)
  }

  ghost predicate NoneFound(s: P.State, c: P.CallId, others: Schedule, k: nat)
  {
    forall j: nat :: j < k ==> !Full(AtLook(s, c, others, j), c)
  }

  /** The outcome is expiry exactly when no look finds a reply, and otherwise it is what the
      first reply found says. */
  ghost predicate FirstReplyDecides(s: P.State, c: P.CallId, others: Schedule, looks: nat, outcome: P.Outcome)
  {
    && (outcome == P.Expired <==> NoneFound(s, c, others, looks))
    && (forall k: nat :: k < looks && Full(AtLook(s, c, others, k), c) && NoneFound(s, c, others, k) ==>
          outcome == P.Received(AtLook(s, c, others, k).ward.slots[c].value))
  }

  lemma LookAt(s: P.State, c: P.CallId, others: Schedule, k: nat)
    ensures AtLook(s, c, others, k) == Among(Before(s, c, others, k), c, others(3 + k))
  {
    hide Among;
  }

  lemma FoundAt(s: P.State, c: P.CallId, others: Schedule, looks: nat, k: nat, outcome: P.Outcome)
    requires k < looks && Full(AtLook(s, c, others, k), c) && NoneFound(s, c, others, k)
    requires outcome == P.Received(AtLook(s, c, others, k).ward.slots[c].value)
    ensures FirstReplyDecides(s, c, others, looks, outcome)
  {
    hide AtLook;
    forall j: nat | j < looks && Full(AtLook(s, c, others, j), c) && NoneFound(s, c, others, j)
      ensures j == k
    {
    }
  }

  lemma FoundNever(s: P.State, c: P.CallId, others: Schedule, looks: nat)
    requires NoneFound(s, c, others, looks)
    ensures FirstReplyDecides(s, c, others, looks, P.Expired)
  {
    hide AtLook;
  }

  predicate Mine(c: P.CallId, e: P.Step)
  {
    e.Move? && e.c == c
  }

  /** What a call that has returned can rely on. Its number is n, its slot is gone, and: a
      response it returns is the one the keeper computed for its own request, or the denial if
      the keeper could not decode that; a reply it could not decode was computed for it, too; a
      request the router dropped ended in expiry; and one that was not sent never reached the
      keeper. */
  ghost predicate Settled(s: P.State, c: P.CallId, request: Request, n: uint64, outcome: P.Outcome)
  {
    var answered := n in s.keeper.answers;
    && P.At(s.ward, c, P.Returned(outcome)) && s.ward.calls[c] == P.Call(request, n) && n !in s.ward.pending
    && (answered ==> s.keeper.answers[n].request == if |request.capability| <= 256 then Some(request) else None)
    && (outcome.Answered? ==> answered && s.keeper.answers[n].response == outcome.response)
    && (outcome.Answered? && |request.capability| > 256 ==> outcome.response == P.MALFORMED)
    && (outcome == P.Undecodable ==> answered && !Deliverable(s.keeper.answers[n].response))
    && (n in s.keeper.dropped ==> outcome == P.Expired)
    && (outcome == P.PipeError ==> !answered && n !in s.keeper.dropped)
  }

  lemma OthersMoveNothing(s: P.State, e: P.Step, c: P.CallId)
    requires P.Inv(s) && P.Enabled(s, e) && !Mine(c, e) && c in s.ward.calls && c in s.ward.phases
    ensures var w := P.Apply(s, e).ward;
            && c in w.calls && w.calls[c] == s.ward.calls[c] && c in w.phases && w.phases[c] == s.ward.phases[c]
            && (c in s.ward.slots ==> c in w.slots)
  {
    hide P.WireRequest, P.WireResponse, P.Received, GoRequest, P.FateEnabled, P.ApplyFate, P.Written, P.Sent, P.UpRight,
         P.KeeperRight, P.DownRight, P.SlotsRight, P.OutcomesRight, P.UpUntouched, P.NumbersRight;
    if e.Move? { P.MoveIsLocal(s.ward, e.c, e.move); }
  }

  /** The phase a move leads to. */
  function Reached(w: P.Ward, c: P.CallId, move: P.Move): P.Phase
    requires P.MoveEnabled(w, c, move)
  {
    match move
    case Allocate(_) => P.Allocated
    case Register => P.Registered
    case Write => P.Waiting
    case WriteFails => P.Leaving(P.PipeError)
    case Take => P.Leaving(P.Received(w.slots[c].value))
    case Expire => P.Leaving(P.Expired)
    case Remove => P.Returned(w.phases[c].outcome)
  }

  lemma MoveFacts(s: P.State, c: P.CallId, move: P.Move)
    requires P.Inv(s) && P.MoveEnabled(s.ward, c, move)
    ensures var t := P.Apply(s, P.Step.Move(c, move));
            && P.Inv(t) && P.At(t.ward, c, Reached(s.ward, c, move))
            && t.ward.calls[c] == (if move.Allocate? then P.Call(move.request, s.ward.counter + 1) else s.ward.calls[c])
            && (move == P.Remove ==> t.ward.calls[c].seqNo !in t.ward.pending)
  {
    hide P.Inv, GoRequest, P.Received, P.Written;
    P.StepKeeps(s, P.Step.Move(c, move));
  }

  lemma SettledBy(s: P.State, c: P.CallId, request: Request, n: uint64, outcome: P.Outcome)
    requires P.Inv(s) && P.At(s.ward, c, P.Returned(outcome)) && s.ward.calls[c] == P.Call(request, n)
             && n !in s.ward.pending
    ensures Settled(s, c, request, n, outcome)
  {
    hide P.UpRight, P.UpUntouched, P.DownRight, P.SlotsRight, P.TablesRight, P.WireRequest;
    assert P.OutcomeRight(s.keeper, n, s.ward.phases[c]);
    if n in s.keeper.answers {
      assert P.AnswerRight(n, s.keeper.answers[n], s.ward);
      RequestRoundTrip(request);
      WiredAs(request);
    }
  }

  lemma WiredAs(request: Request)
    requires GoRequest(request)
    ensures P.WireRequest(request) == MarshalRequest(request)
  {
    hide MarshalRequest;
  }

  // ---- A call and its reply -------------------------------------------------

  /** Nothing is under way, and the router has seen no number still to come. */
  predicate Quiet(s: P.State)
  {
    s.up == [] && s.down == [] && s.ward.inHand == None && s.keeper.lastSeqNo <= s.ward.counter
  }

  lemma AmongNobody(s: P.State, c: P.CallId)
    ensures Among(s, c, []) == s
  {
  }

  /** Right behind the write: the slot is there and empty, and the request is all there is. */
  lemma LaunchedQuietly(s: P.State, c: P.CallId, request: Request, others: Schedule)
    requires Quiet(s) && c !in s.ward.calls && GoRequest(request) && s.ward.counter < TWO_64 - 1
    requires others(0) == others(1) == []
    ensures var n, t := s.ward.counter + 1, Launched(s, c, request, others);
            && t.up == [P.Message(P.CAPABILITY_REQUEST, n, MarshalRequest(request))] && t.down == []
            && t.keeper == s.keeper && t.ward.inHand == None
            && n in t.ward.pending && t.ward.pending[n] == c && c in t.ward.slots && t.ward.slots[c] == None
  {
    hide GoRequest, P.WireRequest, Among;
    WiredAs(request);
    var numbered := Do(s, P.Step.Move(c, P.Allocate(request)));
    AmongNobody(numbered, c);
    var registered := Do(numbered, P.Step.Move(c, P.Register));
    AmongNobody(registered, c);
  }

  lemma AmongThree(s: P.State, c: P.CallId, x: P.Step, y: P.Step, z: P.Step)
    requires !Mine(c, x) && !Mine(c, y) && !Mine(c, z)
    ensures Among(s, c, [x, y, z]) == Do(Do(Do(s, x), y), z)
  {
    hide Do;
    AmongNobody(s, c);
    assert [x][..0] == [];
    assert Among(s, c, [x]) == Do(s, x);
    assert [x, y][..1] == [x];
    assert Among(s, c, [x, y]) == Do(Do(s, x), y);
    assert [x, y, z][..2] == [x, y];
  }

  /** The keeper executes, the reader looks up and fills: the reply is in the call's slot. */
  lemma Served(t: P.State, c: P.CallId, n: uint64, payload: bytes, r: Response)
    requires t.up == [P.Message(P.CAPABILITY_REQUEST, n, payload)] && t.down == [] && t.ward.inHand == None
    requires t.keeper.lastSeqNo < n && n in t.ward.pending && t.ward.pending[n] == c && GoResponse(r)
    requires c in t.ward.slots && t.ward.slots[c] == None
    ensures var u := Among(t, c, [P.Route(P.Execute(r, true)), P.Lookup, P.Fill]);
            Full(u, c) && u.ward.slots[c].value == P.WireResponse(P.Reply(payload, r))
  {
    hide P.WireResponse, P.Reply, GoResponse, Among;
    AmongThree(t, c, P.Route(P.Execute(r, true)), P.Lookup, P.Fill);
  }

  lemma {:induction false} NothingHappens(s: P.State, c: P.CallId, others: Schedule, k: nat)
    requires forall j: nat :: 3 <= j < 3 + k ==> others(j) == []
    ensures Before(s, c, others, k) == s
    ensures forall j: nat :: j < k ==> AtLook(s, c, others, j) == s
  {
    hide Among, AtLook;
    if k > 0 {
      NothingHappens(s, c, others, k - 1);
      LookAt(s, c, others, k - 1);
      AmongNobody(s, c);
    }
  }

  lemma ReceivedAs(r: Response)
    requires GoResponse(r) && Deliverable(r)
    ensures P.Received(P.WireResponse(r)) == P.Answered(r)
  {
    hide UnmarshalResponse, MarshalResponse;
    ResponseRoundTrip(r);
  }

  /** End to end: if the request reaches the keeper and its reply the reader before any look
      of the call, and nobody else does anything, the call returns that reply. */
  lemma ReplyIsReturned(s: P.State, c: P.CallId, request: Request, others: Schedule, looks: nat, k: nat, r: Response,
                        outcome: P.Outcome)
    requires Quiet(s) && c !in s.ward.calls && GoRequest(request) && s.ward.counter < TWO_64 - 1
    requires GoResponse(r) && Deliverable(r) && |request.capability| <= 256
    requires others(0) == others(1) == [] && k < looks && (forall j: nat :: 3 <= j < 3 + k ==> others(j) == [])
    requires others(3 + k) == [P.Route(P.Execute(r, true)), P.Lookup, P.Fill]
    requires FirstReplyDecides(Launched(s, c, request, others), c, others, looks, outcome)
    ensures outcome == P.Answered(r)
  {
    hide Launched, Among, AtLook, GoRequest, GoResponse, Deliverable, P.Received, P.WireResponse;
    var t := Launched(s, c, request, others);
    LaunchedQuietly(s, c, request, others);
    NothingHappens(t, c, others, k);
    LookAt(t, c, others, k);
    Served(t, c, s.ward.counter + 1, MarshalRequest(request), r);
    RequestRoundTrip(request);
    ReceivedAs(r);
  }
}
