/** Who may run what: the capability registry, the access lists, and keeperd's handling of
    the frames that reach it from agent pipes. */
module Authority {
  import opened Wrappers
  import opened Mus
  import opened Frame
  import opened Payloads
  import Router
  import WardProtocol

  datatype ScopeConstraint = ScopeConstraint(entity: bytes, constraints: map<bytes, seq<bytes>>)

  datatype Entry = Entry(capability: bytes, constraints: seq<ScopeConstraint>)

  datatype Acl = Acl(agentId: bytes, entries: seq<Entry>)

  datatype Capability = Capability(name: bytes, auditPayload: bool)

  /** One execution: for whom, what, on which arguments, and the constraints put into its
      context. */
  datatype Invocation = Invocation(agentId: bytes, name: bytes, seqNo: uint64, args: bytes,
                                   constraints: seq<ScopeConstraint>)

  datatype Refusal = NoAcl | NotInAcl | NotRegistered

  datatype Ruling = Refuse(why: Refusal) | Execute(invocation: Invocation)

  /** The reply to a request. The first three carry the code capability_denied and differ in
      their text. */
  datatype Answer = Malformed | Denied(why: Refusal) | Failed | Result(response: Response)

  datatype Reply = Reply(to: bytes, seqNo: uint64, answer: Answer)

  datatype AuditRow = AuditRow(msgType: byte, fromId: bytes, toId: bytes, seqNo: uint64, stored: Option<bytes>)

  /** `executed`, `audit`, `denials` and `replies` only ever grow: what was run, the audit
      rows, the agents named in denial events, and what was sent. */
  datatype State = State(
    caps: map<bytes, Capability>, acls: map<bytes, Acl>,
    executed: seq<Invocation>, audit: seq<AuditRow>, denials: seq<bytes>, replies: seq<Reply>)

  const START := State(map[], map[], [], [], [], [])

  // "capability_denied"
  const DENIED_CODE: bytes := [99, 97, 112, 97, 98, 105, 108, 105, 116, 121, 95, 100, 101, 110, 105, 101, 100]

  // ---- The access decision --------------------------------------------------

  /** Entry i is the first one for the name. */
  predicate IsFirst(entries: seq<Entry>, name: bytes, i: int)
  {
    0 <= i < |entries| && entries[i].capability == name && forall j :: 0 <= j < i ==> entries[j].capability != name
  }

  function FirstMatch(entries: seq<Entry>, name: bytes): Option<seq<ScopeConstraint>>
  {
    if entries == [] then None
    else if entries[0].capability == name then Some(entries[0].constraints)
    else FirstMatch(entries[1..], name)
  }

  lemma {:induction false} FirstMatchAt(entries: seq<Entry>, name: bytes) returns (i: nat)
    ensures FirstMatch(entries, name).Some? ==>
              IsFirst(entries, name, i) && FirstMatch(entries, name).value == entries[i].constraints
    ensures FirstMatch(entries, name) == None ==> forall j :: 0 <= j < |entries| ==> entries[j].capability != name
  {
    if entries == [] || entries[0].capability == name {
      i := 0;
    } else {
      var k := FirstMatchAt(entries[1..], name);
      assert forall j :: 1 <= j < |entries| ==> entries[j] == entries[1..][j - 1];
      i := k + 1;
    }
  }

  lemma FirstMatchIff(entries: seq<Entry>, name: bytes, constraints: seq<ScopeConstraint>)
    ensures FirstMatch(entries, name) == Some(constraints) <==>
            exists i :: IsFirst(entries, name, i) && entries[i].constraints == constraints
    ensures FirstMatch(entries, name) == None <==> forall i :: 0 <= i < |entries| ==> entries[i].capability != name
  {
    var i := FirstMatchAt(entries, name);
    assert forall j, k :: IsFirst(entries, name, j) && IsFirst(entries, name, k) ==> j == k;
  }

  function Rule(acls: map<bytes, Acl>, caps: map<bytes, Capability>, agentId: bytes, q: Request, seqNo: uint64): Ruling
  {
    if agentId !in acls then Refuse(NoAcl)
    else
      var allowed := FirstMatch(acls[agentId].entries, q.capability);
      if allowed.None? then Refuse(NotInAcl)
      else if q.capability !in caps then Refuse(NotRegistered)
      else Execute(Invocation(agentId, q.capability, seqNo, q.args, allowed.value))
  }

  // ---- Steps ----------------------------------------------------------------

  /** What happens to keeperd. An arriving frame comes with the outcome its capability would
      have, None for an execution error. */
  datatype Step =
    | Register(cap: Capability)
    | SetAcl(acl: Acl)
    | RemoveAcl(agentId: bytes)
    | Arrive(pipe: bytes, frame: Frame, outcome: Option<Response>)

  function AnswerOf(ruling: Ruling, outcome: Option<Response>): Answer
  {
    if ruling.Refuse? then Denied(ruling.why) else if outcome.None? then Failed else Result(outcome.value)
  }

  predicate IsDenial(a: Answer)
  {
    match a
    case Malformed => true
    case Denied(_) => true
    case Failed => true
    case Result(r) => !r.ok && r.errorCode == DENIED_CODE
  }

  predicate StoresPayload(caps: map<bytes, Capability>, f: Frame)
  {
    var q := UnmarshalRequest(f.payload);
    f.header.msgType != WardProtocol.CAPABILITY_REQUEST || q.None? || q.value.capability !in caps
    || caps[q.value.capability].auditPayload
  }

  function RowOf(caps: map<bytes, Capability>, f: Frame): AuditRow
  {
    AuditRow(f.header.msgType, f.header.fromId, f.header.toId, f.header.seqNo,
             if StoresPayload(caps, f) then Some(f.payload) else None)
  }

  /** A request, from an agent whose identity the router has already put on it. */
  function HandleRequest(s: State, f: Frame, outcome: Option<Response>): State
  {
    var agent, n := f.header.fromId, f.header.seqNo;
    var q := UnmarshalRequest(f.payload);
    if q.None? then s.(replies := s.replies + [Reply(agent, n, Malformed)])
    else
      var ruling := Rule(s.acls, s.caps, agent, q.value, n);
      var answer := AnswerOf(ruling, outcome);
      s.(executed := if ruling.Execute? then s.executed + [ruling.invocation] else s.executed,
         denials := if IsDenial(answer) then s.denials + [agent] else s.denials,
         replies := s.replies + [Reply(agent, n, answer)])
  }

  function Handle(s: State, f: Frame, outcome: Option<Response>): State
  {
    var s' := s.(audit := s.audit + [RowOf(s.caps, f)]);
    if f.header.msgType == WardProtocol.CAPABILITY_REQUEST then HandleRequest(s', f, outcome) else s'
  }

  /** A second registration of a name panics, and takes nothing over. */
  function Apply(s: State, e: Step): State
  {
    match e
    case Register(cap) => if cap.name in s.caps then s else s.(caps := s.caps[cap.name := cap])
    case SetAcl(acl) => s.(acls := s.acls[acl.agentId := acl])
    case RemoveAcl(agentId) => s.(acls := s.acls - {agentId})
    case Arrive(pipe, frame, outcome) => Handle(s, Router.Stamp(pipe, frame), outcome)
  }

  // ---- keeperd as it runs ---------------------------------------------------

  class Keeper {
    var caps: map<bytes, Capability>
    var acls: map<bytes, Acl>
    var executed: seq<Invocation>
    var audit: seq<AuditRow>
    var denials: seq<bytes>
    var replies: seq<Reply>

    constructor ()
      ensures Abs() == START
    {
      caps, acls, executed, audit, denials, replies := map[], map[], [], [], [], [];
    }

    function Abs(): State
      reads this
    {
      State(caps, acls, executed, audit, denials, replies)
    }

    method Register(c: Capability) returns (panicked: bool)
      modifies this
      ensures panicked <==> c.name in old(caps)
      ensures Abs() == Apply(old(Abs()), Step.Register(c))
    {
      if c.name in caps {
        return true;
      }
      caps := caps[c.name := c];
      panicked := false;
    }

    method SetAcl(acl: Acl)
      modifies this
      ensures Abs() == Apply(old(Abs()), Step.SetAcl(acl))
    {
      acls := acls[acl.agentId := acl];
    }

    method RemoveAcl(agentId: bytes)
      modifies this
      ensures Abs() == Apply(old(Abs()), Step.RemoveAcl(agentId))
    {
      acls := acls - {agentId};
    }

    /** The search through one access list stops at the first entry for the name. */
    static method Allowed(acl: Acl, name: bytes) returns (allowed: bool, constraints: seq<ScopeConstraint>)
      ensures allowed ==> exists i :: IsFirst(acl.entries, name, i) && constraints == acl.entries[i].constraints
      ensures !allowed ==> forall i :: 0 <= i < |acl.entries| ==> acl.entries[i].capability != name
    {
      for i := 0 to |acl.entries|
        invariant forall j :: 0 <= j < i ==> acl.entries[j].capability != name
      {
        if acl.entries[i].capability == name {
          assert IsFirst(acl.entries, name, i);
          return true, acl.entries[i].constraints;
        }
      }
      return false, [];
    }

    method Dispatch(agentId: bytes, seqNo: uint64, q: Request) returns (ruling: Ruling)
      modifies this`executed
      ensures ruling == Rule(acls, caps, agentId, q, seqNo)
      ensures executed == if ruling.Execute? then old(executed) + [ruling.invocation] else old(executed)
    {
      if agentId !in acls {
        return Refuse(NoAcl);
      }
      var allowed, constraints := Allowed(acls[agentId], q.capability);
      FirstMatchIff(acls[agentId].entries, q.capability, constraints);
      if !allowed {
        return Refuse(NotInAcl);
      }
      if q.capability !in caps {
        return Refuse(NotRegistered);
      }
      var invocation := Invocation(agentId, q.capability, seqNo, q.args, constraints);
      executed := executed + [invocation];
      ruling := Execute(invocation);
    }

    method HandleFrame(pipe: bytes, frame: Frame, outcome: Option<Response>)
      modifies this
      ensures Abs() == Apply(old(Abs()), Arrive(pipe, frame, outcome))
    {
      var f := Router.Stamp(pipe, frame);
      audit := audit + [RowOf(caps, f)];
      if f.header.msgType != WardProtocol.CAPABILITY_REQUEST {
        return;
      }
      var q := UnmarshalRequest(f.payload);
      if q.None? {
        replies := replies + [Reply(f.header.fromId, f.header.seqNo, Malformed)];
        return;
      }
      var ruling := Dispatch(f.header.fromId, f.header.seqNo, q.value);
      var answer := AnswerOf(ruling, outcome);
      if IsDenial(answer) {
        denials := denials + [f.header.fromId];
      }
      replies := replies + [Reply(f.header.fromId, f.header.seqNo, answer)];
    }
  }

  // ---- Runs -----------------------------------------------------------------

  function Run(es: seq<Step>): State
  {
    if es == [] then START else Apply(Run(es[..|es| - 1]), es[|es| - 1])
  }

  /** The access list in force for an agent after a history: the one set last, unless it was
      removed since. */
  function CurrentAcl(es: seq<Step>, agentId: bytes): Option<Acl>
  {
    if es == [] then None
    else
      var e := es[|es| - 1];
      if e.SetAcl? && e.acl.agentId == agentId then Some(e.acl)
      else if e.RemoveAcl? && e.agentId == agentId then None
      else CurrentAcl(es[..|es| - 1], agentId)
  }

  predicate Registered(es: seq<Step>, name: bytes)
  {
    exists i :: 0 <= i < |es| && es[i].Register? && es[i].cap.name == name
  }

  /** Step i is the first registration of the name. */
  predicate FirstRegisters(es: seq<Step>, i: nat, name: bytes)
  {
    i < |es| && es[i].Register? && es[i].cap.name == name && !Registered(es[..i], name)
  }

  lemma {:induction false} TablesAreHistory(es: seq<Step>, agentId: bytes, name: bytes)
    ensures var s := Run(es);
            && CurrentAcl(es, agentId) == (if agentId in s.acls then Some(s.acls[agentId]) else None)
            && (Registered(es, name) <==> name in s.caps)
            && (forall i: nat :: FirstRegisters(es, i, name) ==> name in s.caps && s.caps[name] == es[i].cap)
  {
    hide UnmarshalRequest, Rule, RowOf, AnswerOf, IsDenial, Router.Stamp;
    if es != [] {
      var n := |es| - 1;
      TablesAreHistory(es[..n], agentId, name);
      assert Registered(es, name) <==> Registered(es[..n], name) || (es[n].Register? && es[n].cap.name == name);
      forall i: nat | FirstRegisters(es, i, name) && i < n
        ensures FirstRegisters(es[..n], i, name) && es[..n][i] == es[i]
      {
        assert es[..n][..i] == es[..i];
      }
    }
  }

  /** Step i of the history is a request frame on the agent's own pipe, whatever sender it
      claims, for a registered name, and the agent's current list grants the name with just
      these constraints by its first entry for it. */
  ghost predicate Justifies(es: seq<Step>, i: nat, x: Invocation)
  {
    && i < |es|
    && es[i].Arrive?
    && es[i].pipe == x.agentId
    && es[i].frame.header.msgType == WardProtocol.CAPABILITY_REQUEST
    && es[i].frame.header.seqNo == x.seqNo
    && UnmarshalRequest(es[i].frame.payload) == Some(Request(x.name, x.args))
    && Registered(es[..i], x.name)
    && Grants(CurrentAcl(es[..i], x.agentId), x.name, x.constraints)
  }

  ghost predicate Grants(acl: Option<Acl>, name: bytes, constraints: seq<ScopeConstraint>)
  {
    acl.Some? && exists k :: IsFirst(acl.value.entries, name, k) && acl.value.entries[k].constraints == constraints
  }

  /** What one step executes. */
  function ExecutedBy(s: State, e: Step): Option<Invocation>
  {
    if !e.Arrive? || e.frame.header.msgType != WardProtocol.CAPABILITY_REQUEST then None
    else
      var q := UnmarshalRequest(e.frame.payload);
      if q.None? then None
      else
        var ruling := Rule(s.acls, s.caps, e.pipe, q.value, e.frame.header.seqNo);
        if ruling.Execute? then Some(ruling.invocation) else None
  }

  function Listed<T>(o: Option<T>): seq<T>
  {
    if o.None? then [] else [o.value]
  }

  lemma ApplyExecutes(s: State, e: Step)
    ensures Apply(s, e).executed == s.executed + Listed(ExecutedBy(s, e))
  {
    hide UnmarshalRequest, RowOf, AnswerOf, IsDenial, Rule;
    assert s.executed + [] == s.executed;
  }

  /** A step executes x exactly when the history justifies it. */
  lemma JustifiedIff(es: seq<Step>, x: Invocation)
    requires es != []
    ensures var n := |es| - 1; ExecutedBy(Run(es[..n]), es[n]) == Some(x) <==> Justifies(es, n, x)
  {
    hide UnmarshalRequest, IsFirst, FirstMatch, Registered, CurrentAcl, Run;
    var n := |es| - 1;
    var s := Run(es[..n]);
    var e := es[n];
    if e.Arrive? && UnmarshalRequest(e.frame.payload).Some? {
      var q := UnmarshalRequest(e.frame.payload).value;
      TablesAreHistory(es[..n], e.pipe, q.capability);
      if e.pipe in s.acls {
        FirstMatchIff(s.acls[e.pipe].entries, q.capability, x.constraints);
      }
    }
  }

  ghost predicate Justified(es: seq<Step>, i: nat)
  {
    exists x :: Justifies(es, i, x)
  }

  ghost function JustifiedSteps(es: seq<Step>): seq<nat>
  {
    if es == [] then []
    else
      var n := |es| - 1;
      JustifiedSteps(es[..n]) + (if Justified(es, n) then [n] else [])
  }

  /** Justification looks at the past only. */
  lemma PastOnly(es: seq<Step>, n: nat, i: nat, x: Invocation)
    requires i < n <= |es|
    ensures Justifies(es[..n], i, x) <==> Justifies(es, i, x)
  {
    assert es[..n][..i] == es[..i];
  }

  lemma {:induction false} JustifiedStepsIff(es: seq<Step>, i: nat)
    ensures i in JustifiedSteps(es) <==> i < |es| && Justified(es, i)
    ensures forall j, k :: 0 <= j < k < |JustifiedSteps(es)| ==> JustifiedSteps(es)[j] < JustifiedSteps(es)[k]
    ensures forall j :: 0 <= j < |JustifiedSteps(es)| ==> JustifiedSteps(es)[j] < |es|
  {
    hide Justifies;
    if es != [] {
      var n := |es| - 1;
      JustifiedStepsIff(es[..n], i);
      if i < n {
        forall x
          ensures Justifies(es[..n], i, x) <==> Justifies(es, i, x)
        {
          PastOnly(es, n, i, x);
        }
      }
    }
  }

  /** Authority over every run: the executions are, one for one and in order, those the
      history justifies. */
  lemma {:induction false} AuthorityHolds(es: seq<Step>)
    ensures var steps := JustifiedSteps(es);
            var done := Run(es).executed;
            |done| == |steps| && forall k :: 0 <= k < |steps| ==> Justifies(es, steps[k], done[k])
  {
    hide Justifies, Apply, ExecutedBy;
    if es != [] {
      var n := |es| - 1;
      AuthorityHolds(es[..n]);
      ApplyExecutes(Run(es[..n]), es[n]);
      var steps := JustifiedSteps(es[..n]);
      var done := Run(es[..n]).executed;
      JustifiedStepsIff(es[..n], 0);
      forall k | 0 <= k < |steps|
        ensures Justifies(es, steps[k], done[k])
      {
        PastOnly(es, n, steps[k], done[k]);
      }
      var last := ExecutedBy(Run(es[..n]), es[n]);
      forall x
        ensures last == Some(x) <==> Justifies(es, n, x)
      {
        JustifiedIff(es, x);
      }
      if last.Some? { assert Justifies(es, n, last.value); }
    }
  }

  // ---- What is told ---------------------------------------------------------

  function RepliedBy(s: State, e: Step): Option<Reply>
  {
    if !e.Arrive? || e.frame.header.msgType != WardProtocol.CAPABILITY_REQUEST then None
    else
      var q := UnmarshalRequest(e.frame.payload);
      Some(Reply(e.pipe, e.frame.header.seqNo,
                 if q.None? then Malformed
                 else AnswerOf(Rule(s.acls, s.caps, e.pipe, q.value, e.frame.header.seqNo), e.outcome)))
  }

  lemma ApplyReplies(s: State, e: Step)
    ensures Apply(s, e).replies == s.replies + Listed(RepliedBy(s, e))
  {
    hide UnmarshalRequest, RowOf, AnswerOf, IsDenial, Rule;
    assert s.replies + [] == s.replies;
  }

  predicate IsRequest(e: Step)
  {
    e.Arrive? && e.frame.header.msgType == WardProtocol.CAPABILITY_REQUEST
  }

  ghost predicate Named(acl: Option<Acl>, name: bytes)
  {
    acl.Some? && exists k :: IsFirst(acl.value.entries, name, k)
  }

  /** The reply that the history calls for at step i: to the frame's own pipe and under its
      number, the capability's result when the step is justified and there is one, and
      otherwise the reason why not. */
  ghost predicate Told(es: seq<Step>, i: nat, r: Reply)
    requires i < |es| && IsRequest(es[i])
  {
    var e, past := es[i], es[..i];
    var q, acl := UnmarshalRequest(e.frame.payload), CurrentAcl(past, e.pipe);
    && r.to == e.pipe && r.seqNo == e.frame.header.seqNo
    && (r.answer == Malformed <==> q == None)
    && (r.answer == Failed <==> Justified(es, i) && e.outcome == None)
    && (forall x :: r.answer == Result(x) <==> Justified(es, i) && e.outcome == Some(x))
    && (r.answer == Denied(NoAcl) <==> q.Some? && acl == None)
    && (r.answer == Denied(NotInAcl) <==> q.Some? && acl.Some? && !Named(acl, q.value.capability))
    && (r.answer == Denied(NotRegistered) <==>
          q.Some? && Named(acl, q.value.capability) && !Registered(past, q.value.capability))
  }

  /** The request frames of a history. */
  function RequestSteps(es: seq<Step>): seq<nat>
  {
    if es == [] then []
    else
      var n := |es| - 1;
      RequestSteps(es[..n]) + (if IsRequest(es[n]) then [n] else [])
  }

  lemma {:induction false} RequestStepsIff(es: seq<Step>, i: nat)
    ensures i in RequestSteps(es) <==> i < |es| && IsRequest(es[i])
    ensures forall j, k :: 0 <= j < k < |RequestSteps(es)| ==> RequestSteps(es)[j] < RequestSteps(es)[k]
    ensures forall j :: 0 <= j < |RequestSteps(es)| ==>
              RequestSteps(es)[j] < |es| && IsRequest(es[RequestSteps(es)[j]])
  {
    hide IsRequest;
    if es != [] {
      var n := |es| - 1;
      RequestStepsIff(es[..n], i);
      var past, steps := RequestSteps(es[..n]), RequestSteps(es);
      assert steps == past + if IsRequest(es[n]) then [n] else [];
      hide RequestSteps;
      forall j | 0 <= j < |steps|
        ensures steps[j] < |es| && IsRequest(es[steps[j]])
      {
        if j < |past| { assert steps[j] == past[j] && es[..n][past[j]] == es[past[j]]; }
      }
    }
  }

  /** The list and the registry before a step, as the history has them. */
  lemma RuledByHistory(es: seq<Step>, n: nat)
    requires n == |es| - 1 && IsRequest(es[n]) && UnmarshalRequest(es[n].frame.payload).Some?
    ensures var e, s := es[n], Run(es[..n]);
            var q := UnmarshalRequest(e.frame.payload).value;
            var acl := CurrentAcl(es[..n], e.pipe);
            && (e.pipe in s.acls <==> acl.Some?)
            && (acl.Some? ==> (FirstMatch(s.acls[e.pipe].entries, q.capability).Some? <==> Named(acl, q.capability)))
            && (q.capability in s.caps <==> Registered(es[..n], q.capability))
  {
    hide UnmarshalRequest, Registered, CurrentAcl, Run;
    var e, s := es[n], Run(es[..n]);
    var q := UnmarshalRequest(e.frame.payload).value;
    TablesAreHistory(es[..n], e.pipe, q.capability);
    if e.pipe in s.acls {
      var entries := s.acls[e.pipe].entries;
      var i := FirstMatchAt(entries, q.capability);
      hide FirstMatch;
    }
  }

  lemma JustifiedByRule(es: seq<Step>, n: nat)
    requires n == |es| - 1 && IsRequest(es[n])
    ensures Justified(es, n) <==> ExecutedBy(Run(es[..n]), es[n]).Some?
  {
    hide Justifies, ExecutedBy, Run;
    var last := ExecutedBy(Run(es[..n]), es[n]);
    forall x
      ensures last == Some(x) <==> Justifies(es, n, x)
    {
      JustifiedIff(es, x);
    }
    if last.Some? { assert Justifies(es, n, last.value); }
  }

  /** The reply to a request frame, by the tables. */
  lemma ReplyByTables(s: State, e: Step)
    requires IsRequest(e)
    ensures var q, reply := UnmarshalRequest(e.frame.payload), RepliedBy(s, e);
            && reply.Some?
            && var r, done := reply.value, ExecutedBy(s, e).Some?;
               && r.to == e.pipe && r.seqNo == e.frame.header.seqNo
               && (r.answer == Malformed <==> q == None)
               && (r.answer == Failed <==> done && e.outcome == None)
               && (forall x :: r.answer == Result(x) <==> done && e.outcome == Some(x))
  {
    hide UnmarshalRequest, FirstMatch;
  }

  lemma DenialByTables(s: State, e: Step)
    requires IsRequest(e) && UnmarshalRequest(e.frame.payload).Some?
    ensures var q, answer := UnmarshalRequest(e.frame.payload).value, RepliedBy(s, e).value.answer;
            && (answer == Denied(NoAcl) <==> e.pipe !in s.acls)
            && (answer == Denied(NotInAcl) <==>
                  e.pipe in s.acls && FirstMatch(s.acls[e.pipe].entries, q.capability) == None)
            && (answer == Denied(NotRegistered) <==>
                  && e.pipe in s.acls && FirstMatch(s.acls[e.pipe].entries, q.capability).Some?
                  && q.capability !in s.caps)
  {
    hide UnmarshalRequest, FirstMatch;
  }

  lemma ToldAtStep(es: seq<Step>, n: nat)
    requires n == |es| - 1 && IsRequest(es[n])
    ensures RepliedBy(Run(es[..n]), es[n]).Some? && Told(es, n, RepliedBy(Run(es[..n]), es[n]).value)
  {
    hide UnmarshalRequest, FirstMatch, IsFirst, Registered, CurrentAcl, Run, Justified, RepliedBy, ExecutedBy;
    ReplyByTables(Run(es[..n]), es[n]);
    JustifiedByRule(es, n);
    if UnmarshalRequest(es[n].frame.payload).Some? {
      RuledByHistory(es, n);
      DenialByTables(Run(es[..n]), es[n]);
    }
  }

  lemma ToldInPast(es: seq<Step>, n: nat, i: nat, r: Reply)
    requires i < n <= |es| && IsRequest(es[i])
    ensures Told(es[..n], i, r) <==> Told(es, i, r)
  {
    hide UnmarshalRequest, Justifies, Named, Registered, CurrentAcl;
    assert es[..n][..i] == es[..i];
    forall x
      ensures Justifies(es[..n], i, x) <==> Justifies(es, i, x)
    {
      PastOnly(es, n, i, x);
    }
  }

  /** Over every run the replies are, one for one and in order, those the request frames call
      for. */
  lemma {:induction false} RepliesAreHistory(es: seq<Step>)
    ensures var steps := RequestSteps(es);
            var told := Run(es).replies;
            && |told| == |steps|
            && forall k :: 0 <= k < |steps| ==>
                 steps[k] < |es| && IsRequest(es[steps[k]]) && Told(es, steps[k], told[k])
  {
    hide Told, Apply, RepliedBy, IsRequest;
    if es != [] {
      var n := |es| - 1;
      RepliesAreHistory(es[..n]);
      ApplyReplies(Run(es[..n]), es[n]);
      RequestStepsIff(es, 0);
      var steps := RequestSteps(es[..n]);
      var told := Run(es[..n]).replies;
      forall k | 0 <= k < |steps|
        ensures steps[k] < n && IsRequest(es[steps[k]]) && Told(es, steps[k], told[k])
      {
        assert es[..n][steps[k]] == es[steps[k]];
        ToldInPast(es, n, steps[k], told[k]);
      }
      if IsRequest(es[n]) {
        ToldAtStep(es, n);
      } else {
        NoReply(Run(es[..n]), es[n]);
      }
    }
  }

  lemma NoReply(s: State, e: Step)
    requires !IsRequest(e)
    ensures RepliedBy(s, e) == None
  {
  }

  /** A request leaves a denial event unless it is malformed or ends in a result that is no
      denial itself. */
  ghost predicate EventDue(es: seq<Step>, i: nat)
    requires i < |es|
  {
    && IsRequest(es[i])
    && UnmarshalRequest(es[i].frame.payload).Some?
    && (Justified(es, i) && es[i].outcome.Some? ==>
          !es[i].outcome.value.ok && es[i].outcome.value.errorCode == DENIED_CODE)
  }

  // ---- Isolation ------------------------------------------------------------

  /** The steps that concern one agent: registrations, its own list, its own pipe. */
  predicate Concerns(a: bytes, e: Step)
  {
    match e
    case Register(_) => true
    case SetAcl(acl) => acl.agentId == a
    case RemoveAcl(agentId) => agentId == a
    case Arrive(pipe, _, _) => pipe == a
  }

  function Relevant(a: bytes, es: seq<Step>): seq<Step>
  {
    if es == [] then []
    else
      var n := |es| - 1;
      Relevant(a, es[..n]) + (if Concerns(a, es[n]) then [es[n]] else [])
  }

  function ExecutedFor(a: bytes, xs: seq<Invocation>): seq<Invocation>
  {
    if xs == [] then []
    else ExecutedFor(a, xs[..|xs| - 1]) + (if xs[|xs| - 1].agentId == a then [xs[|xs| - 1]] else [])
  }

  function RepliesTo(a: bytes, rs: seq<Reply>): seq<Reply>
  {
    if rs == [] then []
    else RepliesTo(a, rs[..|rs| - 1]) + (if rs[|rs| - 1].to == a then [rs[|rs| - 1]] else [])
  }

  /** What one agent can see of a state. */
  ghost predicate SameFor(a: bytes, s: State, t: State)
  {
    && s.caps == t.caps
    && (a in s.acls <==> a in t.acls) && (a in s.acls ==> s.acls[a] == t.acls[a])
    && ExecutedFor(a, s.executed) == ExecutedFor(a, t.executed)
    && RepliesTo(a, s.replies) == RepliesTo(a, t.replies)
  }

  /** Only steps that concern the agent touch its tables. */
  lemma TablesStep(a: bytes, s: State, t: State, e: Step)
    requires SameFor(a, s, t)
    ensures var s', t' := Apply(s, e), if Concerns(a, e) then Apply(t, e) else t;
            s'.caps == t'.caps && (a in s'.acls <==> a in t'.acls) && (a in s'.acls ==> s'.acls[a] == t'.acls[a])
  {
    hide UnmarshalRequest, RowOf, AnswerOf, IsDenial, Rule, ExecutedFor, RepliesTo;
  }

  lemma ExecutedMore(a: bytes, xs: seq<Invocation>, o: Option<Invocation>)
    ensures ExecutedFor(a, xs + Listed(o)) ==
            ExecutedFor(a, xs) + if o.Some? && o.value.agentId == a then [o.value] else []
  {
    if o.None? {
      assert xs + [] == xs;
      assert ExecutedFor(a, xs) + [] == ExecutedFor(a, xs);
    } else {
      assert (xs + [o.value])[..|xs|] == xs;
    }
  }

  lemma RepliesMore(a: bytes, rs: seq<Reply>, o: Option<Reply>)
    ensures RepliesTo(a, rs + Listed(o)) == RepliesTo(a, rs) + if o.Some? && o.value.to == a then [o.value] else []
  {
    if o.None? {
      assert rs + [] == rs;
      assert RepliesTo(a, rs) + [] == RepliesTo(a, rs);
    } else {
      assert (rs + [o.value])[..|rs|] == rs;
    }
  }

  /** The same step does the same in states an agent cannot tell apart, and a step that does
      not concern the agent executes and answers nothing of its. */
  lemma SameEffects(a: bytes, s: State, t: State, e: Step)
    requires SameFor(a, s, t)
    ensures Concerns(a, e) ==> ExecutedBy(s, e) == ExecutedBy(t, e) && RepliedBy(s, e) == RepliedBy(t, e)
    ensures !Concerns(a, e) ==> (ExecutedBy(s, e).None? || ExecutedBy(s, e).value.agentId != a)
                                && (RepliedBy(s, e).None? || RepliedBy(s, e).value.to != a)
  {
    hide UnmarshalRequest, AnswerOf, FirstMatch, ExecutedFor, RepliesTo;
  }

  lemma IsolatedStep(a: bytes, s: State, t: State, e: Step)
    requires SameFor(a, s, t)
    ensures SameFor(a, Apply(s, e), if Concerns(a, e) then Apply(t, e) else t)
  {
    hide Apply, ExecutedBy, RepliedBy, Concerns, ExecutedFor, RepliesTo, Listed;
    TablesStep(a, s, t, e);
    SameEffects(a, s, t, e);
    ApplyExecutes(s, e);
    ApplyReplies(s, e);
    ExecutedMore(a, s.executed, ExecutedBy(s, e));
    RepliesMore(a, s.replies, RepliedBy(s, e));
    if Concerns(a, e) {
      ApplyExecutes(t, e);
      ApplyReplies(t, e);
      ExecutedMore(a, t.executed, ExecutedBy(t, e));
      RepliesMore(a, t.replies, RepliedBy(t, e));
    } else {
      assert ExecutedFor(a, s.executed) + [] == ExecutedFor(a, s.executed);
      assert RepliesTo(a, s.replies) + [] == RepliesTo(a, s.replies);
    }
  }

  /** Nothing other agents send, and nothing done to their lists, changes what is run for an
      agent or what it is told. */
  lemma {:induction false} Isolation(a: bytes, es: seq<Step>)
    ensures SameFor(a, Run(es), Run(Relevant(a, es)))
  {
    hide SameFor, Apply;
    if es == [] {
      SameForItself(a, START);
    } else {
      var n := |es| - 1;
      Isolation(a, es[..n]);
      IsolatedStep(a, Run(es[..n]), Run(Relevant(a, es[..n])), es[n]);
      var more := Relevant(a, es[..n]) + [es[n]];
      assert more[..|more| - 1] == Relevant(a, es[..n]);
      assert Relevant(a, es[..n]) + [] == Relevant(a, es[..n]);
    }
  }

  lemma SameForItself(a: bytes, s: State)
    ensures SameFor(a, s, s)
  {
  }

  /** The sender a frame claims makes no difference at all. */
  lemma ClaimIsIgnored(s: State, pipe: bytes, f: Frame, claim: bytes, outcome: Option<Response>)
    ensures Apply(s, Arrive(pipe, f, outcome)) ==
            Apply(s, Arrive(pipe, f.(header := f.header.(fromId := claim)), outcome))
  {
    hide UnmarshalRequest, Rule, Handle;
    assert Router.Stamp(pipe, f) == Router.Stamp(pipe, f.(header := f.header.(fromId := claim)));
  }

  // ---- Audit ----------------------------------------------------------------

  /** Every frame leaves one row under its pipe's identity, with its payload unless it is a
      decodable request for a capability whose payloads are not to be stored. */
  lemma AuditedAs(s: State, e: Step)
    requires e.Arrive?
    ensures var rows := Apply(s, e).audit;
            var q := UnmarshalRequest(e.frame.payload);
            && |rows| == |s.audit| + 1 && rows[..|s.audit|] == s.audit
            && var row, h := rows[|s.audit|], e.frame.header;
               && row.fromId == e.pipe && row.msgType == h.msgType && row.toId == h.toId && row.seqNo == h.seqNo
               && (row.stored.Some? ==> row.stored.value == e.frame.payload)
               && (row.stored == None <==>
                     && IsRequest(e) && q.Some? && q.value.capability in s.caps
                     && !s.caps[q.value.capability].auditPayload)
  {
    hide UnmarshalRequest, AnswerOf, IsDenial, FirstMatch;
  }

  /** Over every run, which step leaves a denial event: malformed requests are denied to the
      agent without one. */
  lemma DenialRecordedIff(es: seq<Step>)
    requires es != []
    ensures var n := |es| - 1;
            Run(es).denials == Run(es[..n]).denials + if EventDue(es, n) then [es[n].pipe] else []
  {
    hide Apply, ExecutedBy, Justified;
    var n := |es| - 1;
    DenialsOf(Run(es[..n]), es[n]);
    if IsRequest(es[n]) { JustifiedByRule(es, n); }
  }

  lemma DenialsOf(s: State, e: Step)
    ensures var due := IsRequest(e) && UnmarshalRequest(e.frame.payload).Some?
                       && (ExecutedBy(s, e).Some? && e.outcome.Some? ==>
                             !e.outcome.value.ok && e.outcome.value.errorCode == DENIED_CODE);
            Apply(s, e).denials == s.denials + if due then [e.pipe] else []
  {
    hide UnmarshalRequest, FirstMatch, RowOf;
    assert s.denials + [] == s.denials;
  }
}
