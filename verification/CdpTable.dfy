/** The table of pending browser calls. Every call makes a channel with room for one result
    and enters it under its own number; the reader hands each reply to the call with its
    number, and an error to all pending calls when the connection ends, holding the lock
    while it does so. Every interleaving is a run. A call is named by its number, and so is
    its channel. */
module CdpTable {
  datatype Result = Reply(payload: nat) | CallError(message: nat) | ConnectionLost(error: nat)

  datatype Outcome = Received(result: Result) | SendFailed | Cancelled

  datatype Phase = Allocated | Registered | Waiting | Leaving(outcome: Outcome) | Returned(outcome: Outcome)

  /** Where the reader is: at its next frame, holding a result for a channel it took out of
      the table, working through the table with the lock held, or gone. */
  datatype Reader = Reading | Holding(id: nat, result: Result) | Draining(error: nat, left: set<nat>) | Gone

  /** `sent` is what was ever sent to a channel, `taken` the channels received from. `frames`
      are the replies read so far, `lost` the calls pending when the connection ended. */
  datatype State = State(
    counter: nat, phases: map<nat, Phase>, pending: set<nat>, sent: map<nat, seq<Result>>, taken: set<nat>,
    reader: Reader, frames: seq<(nat, Result)>, lost: set<nat>)

  const START := State(0, map[], {}, map[], {}, Reading, [], {})

  datatype Step =
    | Allocate
    | Register(id: nat)
    | Write(id: nat)
    | WriteFails(id: nat)
    | Cancel(id: nat)
    | Receive(id: nat)
    | Remove(id: nat)          // under the lock, behind a failed write or a cancellation
    | Frame(id: nat, result: Result)
    | Deliver
    | ConnectionEnds(error: nat)
    | DrainNext(id: nat)
    | DrainDone

  // ---- Steps ----------------------------------------------------------------

  predicate At(s: State, id: nat, phase: Phase)
  {
    id in s.phases && s.phases[id] == phase
  }

  predicate LockFree(s: State)
  {
    !s.reader.Draining?
  }

  function Buffered(s: State, id: nat): nat
  {
    if id !in s.sent then 0 else |s.sent[id]| - (if id in s.taken && s.sent[id] != [] then 1 else 0)
  }

  /** A send on a channel goes through only while its one place is empty. */
  predicate HasRoom(s: State, id: nat)
  {
    id in s.sent && Buffered(s, id) < 1
  }

  predicate Enabled(s: State, e: Step)
  {
    match e
    case Allocate => true
    case Register(id) => At(s, id, Allocated) && LockFree(s)
    case Write(id) => At(s, id, Registered)
    case WriteFails(id) => At(s, id, Registered)
    case Cancel(id) => At(s, id, Waiting)
    case Receive(id) => At(s, id, Waiting) && id in s.sent && s.sent[id] != [] && id !in s.taken
    case Remove(id) => id in s.phases && s.phases[id].Leaving? && LockFree(s)
    case Frame(_, result) => s.reader.Reading? && !result.ConnectionLost?
    case Deliver => s.reader.Holding? && HasRoom(s, s.reader.id)
    case ConnectionEnds(_) => s.reader.Reading?
    case DrainNext(id) => s.reader.Draining? && id in s.reader.left && HasRoom(s, id)
    case DrainDone => s.reader.Draining? && s.reader.left == {}
  }

  function Push(s: State, id: nat, result: Result): map<nat, seq<Result>>
    requires id in s.sent
  {
    s.sent[id := s.sent[id] + [result]]
  }

  function Apply(s: State, e: Step): State
    requires Enabled(s, e)
  {
    match e
    case Allocate => s.(counter := s.counter + 1, phases := s.phases[s.counter + 1 := Allocated])
    case Register(id) => s.(phases := s.phases[id := Registered], pending := s.pending + {id}, sent := s.sent[id := []])
    case Write(id) => s.(phases := s.phases[id := Waiting])
    case WriteFails(id) => s.(phases := s.phases[id := Leaving(SendFailed)])
    case Cancel(id) => s.(phases := s.phases[id := Leaving(Cancelled)])
    case Receive(id) => s.(phases := s.phases[id := Returned(Received(s.sent[id][0]))], taken := s.taken + {id})
    case Remove(id) => s.(phases := s.phases[id := Returned(s.phases[id].outcome)], pending := s.pending - {id})
    case Frame(id, result) =>
      // events carry no number, that is 0
      if id == 0 then s
      else
        s.(frames := s.frames + [(id, result)], pending := s.pending - {id},
           reader := if id in s.pending then Holding(id, result) else Reading)
    case Deliver => s.(sent := Push(s, s.reader.id, s.reader.result), reader := Reading)
    case ConnectionEnds(error) => s.(reader := Draining(error, s.pending), lost := s.pending)
    case DrainNext(id) =>
      s.(sent := Push(s, id, ConnectionLost(s.reader.error)), reader := Draining(s.reader.error, s.reader.left - {id}))
    case DrainDone => s.(pending := {}, reader := Gone)
  }

  predicate ValidRun(s: State, es: seq<Step>)
    decreases |es|
  {
    es == [] || (Enabled(s, es[0]) && ValidRun(Apply(s, es[0]), es[1..]))
  }

  function Run(s: State, es: seq<Step>): State
    requires ValidRun(s, es)
    decreases |es|
  {
    if es == [] then s else Run(Apply(s, es[0]), es[1..])
  }

  // ---- The invariant --------------------------------------------------------

  /** The call is still in the table or in the reader's hand: nothing was sent to it. */
  predicate Untouched(s: State, id: nat)
  {
    if s.reader.Draining? then id in s.reader.left
    else id in s.pending || (s.reader.Holding? && s.reader.id == id)
  }

  ghost predicate TableRight(s: State)
  {
    && (forall id :: id in s.phases ==> 0 < id <= s.counter)
    && s.pending <= s.sent.Keys <= s.phases.Keys && s.taken <= s.sent.Keys
    && (forall id :: id in s.phases ==> (s.phases[id].Allocated? <==> id !in s.sent))
    && (s.reader.Holding? ==> s.reader.id in s.sent && s.reader.id !in s.pending)
    && (s.reader.Draining? ==> s.reader.left <= s.pending)
    && (s.reader.Reading? || s.reader.Holding? ==> s.lost == {})
    && (s.reader.Draining? ==> s.pending == s.lost)
    && s.lost <= s.sent.Keys
    && (forall id :: id in s.taken ==> id in s.phases && s.phases[id].Returned?)
  }

  /** Nothing was sent to a call the reader has yet to serve, and one result at most to any
      other. */
  ghost predicate SentOnce(s: State)
  {
    && (forall id :: id in s.sent ==> |s.sent[id]| <= 1)
    && (forall id :: id in s.sent && Untouched(s, id) ==> s.sent[id] == [])
    && (forall id :: id in s.sent && id in s.taken ==> |s.sent[id]| == 1)
  }

  predicate Justified(s: State, id: nat, r: Result)
  {
    (r.ConnectionLost? && id in s.lost) || (id, r) in s.frames
  }

  /** What was sent to a call is a reply with its number, or the end of the connection. */
  ghost predicate SentRight(s: State)
  {
    && (forall id, i :: id in s.sent && 0 <= i < |s.sent[id]| ==> Justified(s, id, s.sent[id][i]))
    && (s.reader.Holding? ==> (s.reader.id, s.reader.result) in s.frames)
    && (forall i :: 0 <= i < |s.frames| ==> !s.frames[i].1.ConnectionLost?)
  }

  /** Calls pending when the connection ended have been sent one error, or are about to be. */
  ghost predicate LostRight(s: State)
  {
    forall id :: id in s.lost && id in s.sent && !(s.reader.Draining? && id in s.reader.left) ==>
      |s.sent[id]| == 1 && s.sent[id][0].ConnectionLost?
  }

  predicate OutcomeRight(s: State, id: nat)
    requires id in s.phases
  {
    (s.phases[id].Leaving? || s.phases[id].Returned?) && s.phases[id].outcome.Received? ==>
      id in s.sent && s.sent[id] == [s.phases[id].outcome.result]
  }

  ghost predicate OutcomesRight(s: State)
  {
    forall id :: id in s.phases ==> OutcomeRight(s, id)
  }

  ghost predicate Inv(s: State)
  {
    TableRight(s) && SentOnce(s) && SentRight(s) && LostRight(s) && OutcomesRight(s)
  }

  lemma StepKeepsTable(s: State, e: Step)
    requires TableRight(s) && Enabled(s, e)
    ensures TableRight(Apply(s, e))
  {
  }

  lemma StepKeepsSentOnce(s: State, e: Step)
    requires TableRight(s) && SentOnce(s) && Enabled(s, e)
    ensures SentOnce(Apply(s, e))
  {
  }

  lemma StepKeepsSentRight(s: State, e: Step)
    requires TableRight(s) && SentRight(s) && Enabled(s, e)
    ensures SentRight(Apply(s, e))
  {
    var t := Apply(s, e);
    forall id, i | id in t.sent && 0 <= i < |t.sent[id]|
      ensures Justified(t, id, t.sent[id][i])
    {
      if id in s.sent && i < |s.sent[id]| { assert Justified(s, id, s.sent[id][i]); }
    }
  }

  lemma StepKeepsLost(s: State, e: Step)
    requires TableRight(s) && SentOnce(s) && LostRight(s) && Enabled(s, e)
    ensures LostRight(Apply(s, e))
  {
  }

  lemma StepKeepsOutcomes(s: State, e: Step)
    requires TableRight(s) && SentOnce(s) && OutcomesRight(s) && Enabled(s, e)
    ensures OutcomesRight(Apply(s, e))
  {
    var t := Apply(s, e);
    forall id | id in t.phases
      ensures OutcomeRight(t, id)
    {
      if id in s.phases { assert OutcomeRight(s, id); }
    }
  }

  lemma StepKeeps(s: State, e: Step)
    requires Inv(s) && Enabled(s, e)
    ensures Inv(Apply(s, e))
  {
    hide TableRight, SentOnce, SentRight, LostRight, OutcomesRight, Apply, Enabled;
    StepKeepsTable(s, e);
    StepKeepsSentOnce(s, e);
    StepKeepsSentRight(s, e);
    StepKeepsLost(s, e);
    StepKeepsOutcomes(s, e);
  }

  lemma {:induction false} RunKeeps(s: State, es: seq<Step>)
    requires Inv(s) && ValidRun(s, es)
    ensures Inv(Run(s, es))
    decreases |es|
  {
    hide Inv, Apply, Enabled;
    if es != [] {
      StepKeeps(s, es[0]);
      RunKeeps(Apply(s, es[0]), es[1..]);
    }
  }

  lemma StartRight()
    ensures Inv(START)
  {
  }

  // ---- What a run guarantees ------------------------------------------------

  /** The reader never waits for room in a channel, not even while it holds the lock. */
  lemma NeverBlocks(es: seq<Step>)
    requires ValidRun(START, es)
    ensures var s := Run(START, es);
            && (s.reader.Holding? ==> Enabled(s, Deliver))
            && (s.reader.Draining? ==> forall id :: id in s.reader.left ==> Enabled(s, DrainNext(id)))
            && (forall id :: id in s.sent ==> |s.sent[id]| <= 1)
  {
    var s := Run(START, es);
    StartRight();
    RunKeeps(START, es);
    hide Run, ValidRun, SentRight, LostRight, OutcomesRight;
  }

  /** A call that returns a result returns a reply that carried its own number, or it was
      pending when the connection ended and returns that error. */
  lemma OwnReply(es: seq<Step>, id: nat)
    requires ValidRun(START, es)
    requires var s := Run(START, es); id in s.phases && s.phases[id].Returned? && s.phases[id].outcome.Received?
    ensures var s := Run(START, es);
            var r := s.phases[id].outcome.result;
            if r.ConnectionLost? then id in s.lost && id in s.sent && s.sent[id] == [r] else (id, r) in s.frames
  {
    var s := Run(START, es);
    StartRight();
    RunKeeps(START, es);
    hide Run, ValidRun, TableRight, SentOnce, LostRight;
    assert OutcomeRight(s, id);
    assert Justified(s, id, s.sent[id][0]);
  }

  /** A reply read for a pending call is put into the call's channel as soon as the reader goes
      on, whatever others do before and after: it is then all the channel ever gets, a call
      that waits can take it, and no call returns anything else. */
  lemma ReplyReachesCall(s: State, es: seq<Step>, id: nat, r: Result)
    requires Inv(s) && Enabled(s, Frame(id, r)) && id in s.pending
    requires ValidRun(Apply(s, Frame(id, r)), es) && Deliver in es
    ensures var t := Run(Apply(s, Frame(id, r)), es);
            && id in t.sent && t.sent[id] == [r] && id in t.phases
            && (t.phases[id] == Waiting ==>
                  Enabled(t, Receive(id)) && Apply(t, Receive(id)).phases[id] == Returned(Received(r)))
            && (t.phases[id].Returned? && t.phases[id].outcome.Received? ==> t.phases[id].outcome.result == r)
  {
    hide Run, ValidRun, LostRight, SentRight;
    var held := Apply(s, Frame(id, r));
    StepKeeps(s, Frame(id, r));
    assert id != 0 by { assert id in s.phases; }
    HeldUntilSent(held, es, id, r);
    RunKeeps(held, es);
    assert OutcomeRight(Run(held, es), id);
  }

  lemma {:induction false} HeldUntilSent(s: State, es: seq<Step>, id: nat, r: Result)
    requires Inv(s) && s.reader == Holding(id, r) && ValidRun(s, es) && Deliver in es
    ensures var t := Run(s, es); id in t.sent && t.sent[id] == [r]
    decreases |es|
  {
    hide Inv, Apply, Enabled;
    StepKeeps(s, es[0]);
    HeldStep(s, es[0], id, r);
    if es[0] == Deliver {
      SentStays(Apply(s, Deliver), es[1..], id, r);
    } else {
      HeldUntilSent(Apply(s, es[0]), es[1..], id, r);
    }
  }

  lemma HeldStep(s: State, e: Step, id: nat, r: Result)
    requires Inv(s) && s.reader == Holding(id, r) && Enabled(s, e)
    ensures var t := Apply(s, e);
            if e == Deliver then id in t.sent && t.sent[id] == [r] else t.reader == Holding(id, r)
  {
    hide LostRight, SentRight, OutcomesRight;
  }

  lemma {:induction false} SentStays(s: State, es: seq<Step>, id: nat, r: Result)
    requires Inv(s) && ValidRun(s, es) && id in s.sent && s.sent[id] == [r]
    ensures var t := Run(s, es); id in t.sent && t.sent[id] == [r]
    decreases |es|
  {
    hide Inv, Apply, Enabled;
    if es != [] {
      StepKeeps(s, es[0]);
      SentStep(s, es[0], id, r);
      SentStays(Apply(s, es[0]), es[1..], id, r);
    }
  }

  lemma SentStep(s: State, e: Step, id: nat, r: Result)
    requires Inv(s) && Enabled(s, e) && id in s.sent && s.sent[id] == [r]
    ensures var t := Apply(s, e); id in t.sent && t.sent[id] == [r]
  {
    hide LostRight, SentRight, OutcomesRight;
  }

  /** Calls that have returned are in the table only while it is being drained. */
  ghost predicate Tidy(s: State)
  {
    forall id :: id in s.pending && id in s.phases && s.phases[id].Returned? ==>
      s.reader.Draining? && id !in s.reader.left
  }

  lemma StepKeepsTidy(s: State, e: Step)
    requires Inv(s) && Tidy(s) && Enabled(s, e)
    ensures Tidy(Apply(s, e))
  {
    hide SentRight, LostRight, OutcomesRight;
  }

  lemma {:induction false} RunKeepsTidy(s: State, es: seq<Step>)
    requires Inv(s) && Tidy(s) && ValidRun(s, es)
    ensures Tidy(Run(s, es))
    decreases |es|
  {
    hide Inv, Tidy, Apply, Enabled;
    if es != [] {
      StepKeeps(s, es[0]);
      StepKeepsTidy(s, es[0]);
      RunKeepsTidy(Apply(s, es[0]), es[1..]);
    }
  }

  /** Nothing is left behind in the table: whenever the lock is free, the calls in it are those
      still under way. */
  lemma TableIsTidy(es: seq<Step>, id: nat)
    requires ValidRun(START, es)
    requires var s := Run(START, es); LockFree(s) && id in s.pending
    ensures var s := Run(START, es); id in s.phases && !s.phases[id].Returned? && s.phases[id] != Allocated
  {
    StartRight();
    RunKeeps(START, es);
    RunKeepsTidy(START, es);
    hide Run, ValidRun, SentOnce, SentRight, LostRight, OutcomesRight;
  }

  predicate HasOutcome(s: State, id: nat)
  {
    id in s.phases && (s.phases[id].Leaving? || s.phases[id].Returned?)
  }

  /** The step ends the call in this way. */
  predicate EndsCall(e: Step, id: nat, o: Outcome)
  {
    match o
    case Received(_) => e == Receive(id)
    case SendFailed => e == WriteFails(id)
    case Cancelled => e == Cancel(id)
  }

  /** How a call ends is what happened to it: over every run it has a result exactly if it
      received one, a failed send if its write failed, and is cancelled if it was. */
  lemma {:induction false} EndsAsHappened(s: State, es: seq<Step>, id: nat)
    requires TableRight(s) && ValidRun(s, es) && !HasOutcome(s, id)
    ensures var t := Run(s, es);
            if HasOutcome(t, id) then exists i :: 0 <= i < |es| && EndsCall(es[i], id, t.phases[id].outcome)
            else forall i, o :: 0 <= i < |es| ==> !EndsCall(es[i], id, o)
    decreases |es|
  {
    hide TableRight, Apply, Enabled, EndsCall;
    if es != [] {
      var t := Apply(s, es[0]);
      StepKeepsTable(s, es[0]);
      EndStep(s, es[0], id);
      if HasOutcome(t, id) {
        OutcomeStays(t, es[1..], id);
      } else {
        EndsAsHappened(t, es[1..], id);
        if HasOutcome(Run(s, es), id) {
          var i :| 0 <= i < |es[1..]| && EndsCall(es[1..][i], id, Run(s, es).phases[id].outcome);
          assert EndsCall(es[i + 1], id, Run(s, es).phases[id].outcome);
        } else {
          assert forall i :: 1 <= i < |es| ==> es[i] == es[1..][i - 1];
        }
      }
    }
  }

  lemma EndStep(s: State, e: Step, id: nat)
    requires TableRight(s) && Enabled(s, e)
    ensures var t := Apply(s, e);
            && (HasOutcome(s, id) ==> HasOutcome(t, id) && t.phases[id].outcome == s.phases[id].outcome)
            && (!HasOutcome(s, id) && HasOutcome(t, id) ==> EndsCall(e, id, t.phases[id].outcome))
            && (!HasOutcome(t, id) ==> forall o :: !EndsCall(e, id, o))
  {
  }

  lemma {:induction false} OutcomeStays(s: State, es: seq<Step>, id: nat)
    requires TableRight(s) && ValidRun(s, es) && HasOutcome(s, id)
    ensures HasOutcome(Run(s, es), id) && Run(s, es).phases[id].outcome == s.phases[id].outcome
    decreases |es|
  {
    hide TableRight, Apply, Enabled, HasOutcome;
    if es != [] {
      StepKeepsTable(s, es[0]);
      EndStep(s, es[0], id);
      OutcomeStays(Apply(s, es[0]), es[1..], id);
    }
  }

  /** When the reader is gone, every call that was pending at the end of the connection has
      been sent one error, and nothing else. */
  lemma EachLostCallGetsOneError(es: seq<Step>, id: nat)
    requires ValidRun(START, es)
    requires Run(START, es).reader.Gone? && id in Run(START, es).lost
    ensures var s := Run(START, es); id in s.sent && |s.sent[id]| == 1 && s.sent[id][0].ConnectionLost?
  {
    var s := Run(START, es);
    StartRight();
    RunKeeps(START, es);
    hide Run, ValidRun, SentRight, SentOnce, OutcomesRight;
  }

  /** With the reader gone nothing is sent any more: a call registered later never gets a
      result and ends only by a failed write or its own cancellation. */
  lemma {:induction false} LateCallsWait(s: State, es: seq<Step>, id: nat)
    requires ValidRun(s, es) && s.reader.Gone? && OutcomesRight(s)
    requires TableRight(s) && SentOnce(s) && (id in s.sent ==> s.sent[id] == [])
    ensures var t := Run(s, es);
            && t.reader.Gone? && (id in t.sent ==> t.sent[id] == [])
            && (id in t.phases && t.phases[id].Returned? ==> !t.phases[id].outcome.Received?)
    decreases |es|
  {
    hide Apply, Enabled, TableRight, SentOnce, OutcomesRight;
    if es == [] {
      NothingReceived(s, id);
    } else {
      StepKeepsTable(s, es[0]);
      StepKeepsSentOnce(s, es[0]);
      StepKeepsOutcomes(s, es[0]);
      GoneStep(s, es[0], id);
      LateCallsWait(Apply(s, es[0]), es[1..], id);
    }
  }

  lemma NothingReceived(s: State, id: nat)
    requires OutcomesRight(s) && (id in s.sent ==> s.sent[id] == [])
    ensures id in s.phases && s.phases[id].Returned? ==> !s.phases[id].outcome.Received?
  {
    if id in s.phases { assert OutcomeRight(s, id); }
  }

  lemma GoneStep(s: State, e: Step, id: nat)
    requires Enabled(s, e) && s.reader.Gone? && (id in s.sent ==> s.sent[id] == [])
    ensures var t := Apply(s, e); t.reader.Gone? && (id in t.sent ==> t.sent[id] == [])
  {
  }

  // ---- The table as it runs -------------------------------------------------

  class Target {
    var counter: nat
    var phases: map<nat, Phase>
    var pending: set<nat>
    var sent: map<nat, seq<Result>>
    ghost var taken: set<nat>
    var reader: Reader
    ghost var frames: seq<(nat, Result)>
    ghost var lost: set<nat>

    constructor ()
      ensures Abs() == START
    {
      counter, phases, pending, sent, taken, reader, frames, lost := 0, map[], {}, map[], {}, Reading, [], {};
    }

    ghost function Abs(): State
      reads this
    {
      State(counter, phases, pending, sent, taken, reader, frames, lost)
    }

    /** A new call's number, and its channel in the table. */
    method Enter() returns (id: nat)
      requires LockFree(Abs())
      modifies this
      ensures id == old(counter) + 1
      ensures Enabled(old(Abs()), Allocate) && Enabled(Apply(old(Abs()), Allocate), Register(id))
      ensures Abs() == Apply(Apply(old(Abs()), Allocate), Register(id))
    {
      counter := counter + 1;
      id := counter;
      phases := phases[id := Allocated];
      sent := sent[id := []];
      pending := pending + {id};
      phases := phases[id := Registered];
    }

    method Leave(id: nat)
      requires Enabled(Abs(), Remove(id))
      modifies this
      ensures Abs() == Apply(old(Abs()), Remove(id))
    {
      pending := pending - {id};
      phases := phases[id := Returned(phases[id].outcome)];
    }

    /** One reply: the channel is taken out of the table and then sent to. */
    method Dispatch(id: nat, result: Result)
      requires Inv(Abs()) && Enabled(Abs(), Frame(id, result))
      modifies this
      ensures var s := Apply(old(Abs()), Frame(id, result));
              if s.reader.Holding? then Enabled(s, Deliver) && Abs() == Apply(s, Deliver) else Abs() == s
      ensures Inv(Abs())
    {
      hide Inv;
      ghost var s := Apply(Abs(), Frame(id, result));
      StepKeeps(Abs(), Frame(id, result));
      if id == 0 {
        return;
      }
      frames := frames + [(id, result)];
      var known := id in pending;
      pending := pending - {id};
      if known {
        HoldingHasRoom(s);
        StepKeeps(s, Deliver);
        sent := sent[id := sent[id] + [result]];
      }
    }

    /** The end of the connection: an error to every pending channel, each of which has room,
        with the lock held throughout. */
    method Drain(error: nat)
      requires Inv(Abs()) && reader == Reading
      modifies this
      ensures Inv(Abs()) && reader == Gone && pending == {} && phases == old(phases)
      ensures DrainedTo(old(sent), sent, old(pending), error)
    {
      hide Inv, Apply, Enabled, DrainedTo;
      ghost var before, ids := sent, pending;
      PendingAreEmpty(Abs());
      NothingDrained(before, error);
      DrainStarts(Abs(), error);
      StepKeeps(Abs(), ConnectionEnds(error));
      reader := Draining(error, pending);
      lost := pending;
      var left := pending;
      ghost var served: set<nat> := {};
      while left != {}
        invariant reader == Draining(error, left) && pending == ids && Inv(Abs()) && phases == old(phases)
        invariant served + left == ids && served !! left
        invariant DrainedTo(before, sent, served, error)
        decreases |left|
      {
        var id :| id in left;
        ServesOne(Abs(), before, served, id);
        sent := sent[id := sent[id] + [ConnectionLost(error)]];
        served := served + {id};
        left := left - {id};
        reader := Draining(error, left);
      }
      DrainEnds(Abs());
      StepKeeps(Abs(), DrainDone);
      pending := {};
      reader := Gone;
    }
  }

  /** The channels served have got the error and nothing else, the others what they had. */
  ghost predicate DrainedTo(before: map<nat, seq<Result>>, now: map<nat, seq<Result>>, served: set<nat>, error: nat)
  {
    now.Keys == before.Keys &&
    forall id :: id in now ==> now[id] == if id in served then [ConnectionLost(error)] else before[id]
  }

  lemma NothingDrained(before: map<nat, seq<Result>>, error: nat)
    ensures DrainedTo(before, before, {}, error)
  {
  }

  lemma DrainedMore(before: map<nat, seq<Result>>, now: map<nat, seq<Result>>, served: set<nat>, id: nat, error: nat)
    requires DrainedTo(before, now, served, error) && id in now && now[id] == []
    ensures DrainedTo(before, now[id := now[id] + [ConnectionLost(error)]], served + {id}, error)
  {
  }

  lemma HoldingHasRoom(s: State)
    requires Inv(s) && s.reader.Holding?
    ensures Enabled(s, Deliver)
  {
    hide SentRight, LostRight, OutcomesRight;
  }

  lemma DrainingHasRoom(s: State, id: nat)
    requires Inv(s) && s.reader.Draining? && id in s.reader.left
    ensures Enabled(s, DrainNext(id)) && id in s.sent && s.sent[id] == []
  {
    hide SentRight, LostRight, OutcomesRight;
  }

  lemma PendingAreEmpty(s: State)
    requires Inv(s) && s.reader == Reading
    ensures s.pending <= s.sent.Keys && forall id :: id in s.pending ==> s.sent[id] == []
  {
    hide SentRight, LostRight, OutcomesRight;
  }

  lemma DrainStarts(s: State, error: nat)
    requires s.reader == Reading
    ensures Enabled(s, ConnectionEnds(error))
    ensures Apply(s, ConnectionEnds(error)) == s.(reader := Draining(error, s.pending), lost := s.pending)
  {
  }

  lemma DrainStep(s: State, id: nat)
    requires Enabled(s, DrainNext(id)) && id in s.sent
    ensures Apply(s, DrainNext(id)) ==
            s.(sent := s.sent[id := s.sent[id] + [ConnectionLost(s.reader.error)]],
               reader := Draining(s.reader.error, s.reader.left - {id}))
  {
  }

  lemma ServesOne(s: State, before: map<nat, seq<Result>>, served: set<nat>, id: nat)
    requires Inv(s) && s.reader.Draining? && id in s.reader.left && DrainedTo(before, s.sent, served, s.reader.error)
    ensures id in s.sent
    ensures var sent := s.sent[id := s.sent[id] + [ConnectionLost(s.reader.error)]];
            && Inv(s.(sent := sent, reader := Draining(s.reader.error, s.reader.left - {id})))
            && DrainedTo(before, sent, served + {id}, s.reader.error)
  {
    hide Inv, Apply, Enabled, DrainedTo;
    DrainingHasRoom(s, id);
    StepKeeps(s, DrainNext(id));
    DrainStep(s, id);
    DrainedMore(before, s.sent, served, id, s.reader.error);
  }

  lemma DrainEnds(s: State)
    requires s.reader.Draining? && s.reader.left == {}
    ensures Enabled(s, DrainDone)
    ensures Apply(s, DrainDone) == s.(pending := {}, reader := Gone)
  {
  }
}
