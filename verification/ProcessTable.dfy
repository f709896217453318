/** The table of browser processes in chromed. Acquire looks the agent up and inserts its new
    process in two separate critical sections, and a reaper per process removes an entry when
    the process ends. Every interleaving of these sections is a run. */
module ProcessTable {
  import opened Wrappers

  type AgentId = string
  type CallId = nat

  /** A process is named by the order in which it was started. */
  datatype Instance = Instance(proc: nat, addr: nat)

  type Table = map<AgentId, Instance>

  predicate Blank(a: AgentId)
  {
    forall i :: 0 <= i < |a| ==> a[i] in " \t\n\r\U{b}\U{c}"
  }

  // ---- The critical sections ------------------------------------------------

  function Reaped(t: Table, a: AgentId, proc: nat): Table
  {
    if a in t && t[a].proc == proc then t - {a} else t
  }

  class Manager {
    var instances: Table

    constructor ()
      ensures instances == map[]
    {
      instances := map[];
    }

    /** Status, and the first section of Acquire. */
    method Lookup(a: AgentId) returns (found: Option<Instance>)
      ensures found == if a in instances then Some(instances[a]) else None
    {
      if a in instances {
        return Some(instances[a]);
      }
      return None;
    }

    method Insert(a: AgentId, inst: Instance)
      modifies this
      ensures instances == old(instances)[a := inst]
    {
      instances := instances[a := inst];
    }

    method Reap(a: AgentId, proc: nat)
      modifies this
      ensures instances == Reaped(old(instances), a, proc)
    {
      var found := Lookup(a);
      if found.Some? && found.value.proc == proc {
        instances := instances - {a};
      }
    }

    /** The instance whose process is to be killed, if there is one. */
    method Release(a: AgentId) returns (found: Option<Instance>)
      modifies this
      ensures found == if a in old(instances) then Some(old(instances)[a]) else None
      ensures instances == old(instances) - {a}
    {
      found := Lookup(a);
      if found.Some? {
        instances := instances - {a};
      }
    }
  }

  // ---- Steps ----------------------------------------------------------------

  /** Where a call of Acquire stands. */
  datatype Phase = Missed | Running(proc: nat) | Done(addr: nat) | Failed

  datatype Call = Call(agent: AgentId, phase: Phase)

  /** `owner` maps every process ever started to its agent, `alive` are those that have not
      ended, and `watched` those that have a reaper waiting for them. */
  datatype State = State(
    table: Table, calls: map<CallId, Call>, owner: map<nat, AgentId>, alive: set<nat>, watched: set<nat>, next: nat)

  const START := State(map[], map[], map[], {}, {}, 0)

  datatype Step =
    | Check(c: CallId, agent: AgentId)
    | GiveUp(c: CallId)                 // a directory, an address, a forwarder or the process cannot be had
    | Start(c: CallId)
    | NotReady(c: CallId)               // killed and waited for
    | Insert(c: CallId, addr: nat)
    | Exit(proc: nat)
    | Reap(proc: nat)
    | Release(agent: AgentId, killed: bool)

  predicate InPhase(s: State, c: CallId, missed: bool)
  {
    c in s.calls && if missed then s.calls[c].phase.Missed? else s.calls[c].phase.Running?
  }

  predicate Enabled(s: State, e: Step)
  {
    match e
    case Check(c, _) => c !in s.calls
    case GiveUp(c) => InPhase(s, c, true)
    case Start(c) => InPhase(s, c, true)
    case NotReady(c) => InPhase(s, c, false)
    case Insert(c, _) => InPhase(s, c, false)
    case Exit(p) => p in s.alive
    case Reap(p) => p in s.watched && p !in s.alive && p in s.owner
    case Release(_, _) => true
  }

  function Enter(s: State, c: CallId, phase: Phase): map<CallId, Call>
    requires c in s.calls
  {
    s.calls[c := s.calls[c].(phase := phase)]
  }

  function Apply(s: State, e: Step): State
    requires Enabled(s, e)
  {
    match e
    case Check(c, a) =>
      var phase := if Blank(a) then Failed else if a in s.table then Done(s.table[a].addr) else Missed;
      s.(calls := s.calls[c := Call(a, phase)])
    case GiveUp(c) => s.(calls := Enter(s, c, Failed))
    case Start(c) =>
      s.(calls := Enter(s, c, Running(s.next)), owner := s.owner[s.next := s.calls[c].agent],
         alive := s.alive + {s.next}, next := s.next + 1)
    case NotReady(c) => s.(calls := Enter(s, c, Failed), alive := s.alive - {s.calls[c].phase.proc})
    case Insert(c, addr) =>
      var proc := s.calls[c].phase.proc;
      s.(calls := Enter(s, c, Done(addr)), table := s.table[s.calls[c].agent := Instance(proc, addr)],
         watched := s.watched + {proc})
    case Exit(p) => s.(alive := s.alive - {p})
    case Reap(p) => s.(table := Reaped(s.table, s.owner[p], p), watched := s.watched - {p})
    case Release(a, killed) =>
      if Blank(a) || a !in s.table then s
      else s.(table := s.table - {a}, alive := if killed then s.alive - {s.table[a].proc} else s.alive)
  }

  predicate ValidRun(s: State, es: seq<Step>)
    decreases |es|
  {
    es == [] || (Enabled(s, es[0]) && ValidRun(Apply(s, es[0]), es[1..]))
  }

  function Run(s: State, es: seq<Step>): State
    requires ValidRun(s, es)
    decreases |es|
  {
    if es == [] then s else Run(Apply(s, es[0]), es[1..])
  }

  // ---- The invariant --------------------------------------------------------

  /** An entry belongs to its agent and its reaper has not fired; a process still being
      readied has no reaper and no entry, and no two calls ready the same one. */
  ghost predicate Inv(s: State)
  {
    && (forall a :: a in s.table ==> EntryRight(s, a))
    && (forall c :: c in s.calls && s.calls[c].phase.Running? ==> RunningRight(s, c))
    && (forall c, d ::
          c in s.calls && d in s.calls && s.calls[c].phase.Running? && s.calls[d].phase == s.calls[c].phase ==> c == d)
    && (forall p :: p in s.owner ==> p < s.next)
    && s.watched <= s.owner.Keys && s.alive <= s.owner.Keys
  }

  predicate EntryRight(s: State, a: AgentId)
    requires a in s.table
  {
    s.table[a].proc in s.owner && s.owner[s.table[a].proc] == a && s.table[a].proc in s.watched && !Blank(a)
  }

  predicate RunningRight(s: State, c: CallId)
    requires c in s.calls && s.calls[c].phase.Running?
  {
    var p := s.calls[c].phase.proc;
    p in s.owner && s.owner[p] == s.calls[c].agent && p !in s.watched && !Blank(s.calls[c].agent)
  }

  /** Calls for blank names never get past the check. */
  ghost predicate NamesRight(s: State)
  {
    forall c :: c in s.calls && (s.calls[c].phase.Missed? || s.calls[c].phase.Running?) ==> !Blank(s.calls[c].agent)
  }

  lemma PhaseStepKeeps(s: State, e: Step)
    requires Inv(s) && NamesRight(s) && Enabled(s, e) && (e.Check? || e.GiveUp? || e.NotReady?)
    ensures Inv(Apply(s, e)) && NamesRight(Apply(s, e))
  {
    hide Blank;
  }

  lemma StartKeeps(s: State, c: CallId)
    requires Inv(s) && NamesRight(s) && Enabled(s, Start(c))
    ensures Inv(Apply(s, Start(c))) && NamesRight(Apply(s, Start(c)))
  {
    hide Blank;
  }

  lemma InsertKeeps(s: State, c: CallId, addr: nat)
    requires Inv(s) && NamesRight(s) && Enabled(s, Insert(c, addr))
    ensures Inv(Apply(s, Insert(c, addr))) && NamesRight(Apply(s, Insert(c, addr)))
  {
    hide Blank;
  }

  lemma ProcessStepKeeps(s: State, e: Step)
    requires Inv(s) && NamesRight(s) && Enabled(s, e) && (e.Exit? || e.Reap? || e.Release?)
    ensures Inv(Apply(s, e)) && NamesRight(Apply(s, e))
  {
    hide Blank;
    var t := Apply(s, e);
    forall a | a in t.table
      ensures EntryRight(t, a)
    {
      assert EntryRight(s, a);
    }
  }

  lemma StepKeeps(s: State, e: Step)
    requires Inv(s) && NamesRight(s) && Enabled(s, e)
    ensures Inv(Apply(s, e)) && NamesRight(Apply(s, e))
  {
    hide Inv, NamesRight, Apply, Enabled;
    match e
    case Start(c) => StartKeeps(s, c);
    case Insert(c, addr) => InsertKeeps(s, c, addr);
    case Exit(_) => ProcessStepKeeps(s, e);
    case Reap(_) => ProcessStepKeeps(s, e);
    case Release(_, _) => ProcessStepKeeps(s, e);
    case _ => PhaseStepKeeps(s, e);
  }

  lemma {:induction false} RunKeeps(s: State, es: seq<Step>)
    requires Inv(s) && NamesRight(s) && ValidRun(s, es)
    ensures Inv(Run(s, es)) && NamesRight(Run(s, es))
    decreases |es|
  {
    hide Inv, NamesRight, Apply, Enabled;
    if es != [] {
      StepKeeps(s, es[0]);
      RunKeeps(Apply(s, es[0]), es[1..]);
    }
  }

  // ---- Old exits, newer instances -------------------------------------------

  /** An entry changes in three ways only: its agent is released, its own process is reaped
      after ending, or another call for the agent inserts over it. */
  lemma EntryChangesOnlyBy(s: State, e: Step, a: AgentId)
    requires Inv(s) && Enabled(s, e) && a in s.table
    requires a !in Apply(s, e).table || Apply(s, e).table[a] != s.table[a]
    ensures || (e.Release? && e.agent == a)
            || (e == Reap(s.table[a].proc) && s.table[a].proc !in s.alive)
            || (e.Insert? && s.calls[e.c].agent == a && e.c in s.calls)
  {
    hide Blank;
  }

  /** Nothing in the run releases the agent, reaps the process of its entry, or inserts an
      instance for the agent itself. */
  predicate Undisturbed(s: State, es: seq<Step>, a: AgentId)
    requires ValidRun(s, es) && a in s.table
    decreases |es|
  {
    es == [] ||
    (&& es[0] != Reap(s.table[a].proc)
     && !(es[0].Release? && es[0].agent == a)
     && !(es[0].Insert? && es[0].c in s.calls && s.calls[es[0].c].agent == a)
     && (a in Apply(s, es[0]).table ==> Undisturbed(Apply(s, es[0]), es[1..], a)))
  }

  /** So over any run, whatever other agents do, an older process of the agent may end and be
      reaped at any moment without touching the newer instance. */
  lemma {:induction false} NewerInstanceStays(s: State, es: seq<Step>, a: AgentId)
    requires Inv(s) && NamesRight(s) && ValidRun(s, es) && a in s.table && Undisturbed(s, es, a)
    ensures a in Run(s, es).table && Run(s, es).table[a] == s.table[a]
    decreases |es|
  {
    hide Inv, NamesRight, Apply, Enabled;
    if es != [] {
      StepKeeps(s, es[0]);
      assert a in Apply(s, es[0]).table && Apply(s, es[0]).table[a] == s.table[a] by {
        if a !in Apply(s, es[0]).table || Apply(s, es[0]).table[a] != s.table[a] {
          EntryChangesOnlyBy(s, es[0], a);
        }
      }
      NewerInstanceStays(Apply(s, es[0]), es[1..], a);
    }
  }

  // ---- One process for calls that do not overlap ----------------------------

  predicate InProgress(s: State, c: CallId)
  {
    c in s.calls && (s.calls[c].phase.Missed? || s.calls[c].phase.Running?)
  }

  /** The agent has an entry with a live process, and no call for it is between its two
      sections. */
  ghost predicate Settled(s: State, a: AgentId)
  {
    a in s.table && s.table[a].proc in s.alive && forall c :: InProgress(s, c) ==> s.calls[c].agent != a
  }

  ghost function StartedFor(s: State, a: AgentId): set<nat>
  {
    set p | p in s.owner && s.owner[p] == a
  }

  lemma SettledStep(s: State, e: Step, a: AgentId)
    requires Inv(s) && Enabled(s, e) && Settled(s, a)
    requires e != Exit(s.table[a].proc) && !(e.Release? && e.agent == a)
    ensures var t := Apply(s, e);
            && Settled(t, a) && t.table[a] == s.table[a] && StartedFor(t, a) == StartedFor(s, a)
            && (forall c :: c in t.calls && c !in s.calls && t.calls[c].agent == a ==>
                  t.calls[c].phase == Done(s.table[a].addr))
            && (forall c :: c in s.calls ==> c in t.calls && (s.calls[c].agent == a ==> t.calls[c] == s.calls[c]))
  {
    hide Blank;
    assert EntryRight(s, a);
    forall b | b in s.table && b != a
      ensures s.table[b].proc != s.table[a].proc
    {
      assert EntryRight(s, b);
    }
    assert forall p :: p in s.owner ==> p != s.next;
  }

  /** Once one call for an agent has returned and no other is under way, calls for it, in
      whatever number and overlap, start nothing and return the address of the first, as long
      as the agent is not released and its process does not end. */
  lemma {:induction false} OneProcess(s: State, es: seq<Step>, a: AgentId)
    requires Inv(s) && NamesRight(s) && ValidRun(s, es) && Settled(s, a)
    requires forall i :: 0 <= i < |es| ==> es[i] != Exit(s.table[a].proc) && !(es[i].Release? && es[i].agent == a)
    ensures var t := Run(s, es);
            && t.table.Keys >= {a} && t.table[a] == s.table[a] && StartedFor(t, a) == StartedFor(s, a)
            && forall c :: c in t.calls && c !in s.calls && t.calls[c].agent == a ==>
                 t.calls[c].phase == Done(s.table[a].addr)
    decreases |es|
  {
    hide Inv, NamesRight, Apply, Enabled, Settled;
    if es == [] {
      SettledHasEntry(s, a);
    } else {
      var t := Apply(s, es[0]);
      StepKeeps(s, es[0]);
      SettledHasEntry(s, a);
      SettledStep(s, es[0], a);
      OneProcess(t, es[1..], a);
      forall c | c in t.calls
        ensures Run(s, es).calls.Keys >= {c} && Run(s, es).calls[c].agent == t.calls[c].agent
        ensures t.calls[c].phase.Done? ==> Run(s, es).calls[c] == t.calls[c]
      {
        CallsStay(t, es[1..], c);
      }
    }
  }

  lemma SettledHasEntry(s: State, a: AgentId)
    requires Settled(s, a)
    ensures a in s.table
  {
  }

  /** Calls keep their agent, and finished ones are never touched again. */
  lemma {:induction false} CallsStay(s: State, es: seq<Step>, c: CallId)
    requires ValidRun(s, es) && c in s.calls
    ensures var t := Run(s, es);
            && c in t.calls && t.calls[c].agent == s.calls[c].agent
            && (s.calls[c].phase.Done? || s.calls[c].phase.Failed? ==> t.calls[c] == s.calls[c])
    decreases |es|
  {
    hide Blank;
    if es != [] {
      CallsStay(Apply(s, es[0]), es[1..], c);
    }
  }

  // ---- What overlapping calls cost ------------------------------------------

  /** A live process that no entry leads to and no call is readying. */
  ghost predicate Orphan(s: State, p: nat)
  {
    && p in s.alive && p in s.owner
    && (forall a :: a in s.table ==> s.table[a].proc != p)
    && (forall c :: c in s.calls ==> s.calls[c].phase != Running(p))
  }

  /** The two ways to lose a process: another call inserts over its entry, or a release takes
      the entry away and fails to kill. */
  predicate Loses(s: State, e: Step, p: nat)
  {
    || (e.Insert? && e.c in s.calls && s.calls[e.c].agent in s.table && s.table[s.calls[e.c].agent].proc == p)
    || (e.Release? && !e.killed && !Blank(e.agent) && e.agent in s.table && s.table[e.agent].proc == p)
  }

  /** A step makes an orphan of a live process exactly in one of these ways. */
  lemma OrphansIff(s: State, e: Step, p: nat)
    requires Inv(s) && NamesRight(s) && Enabled(s, e) && p in s.alive && !Orphan(s, p)
    ensures Orphan(Apply(s, e), p) <==> Loses(s, e, p)
  {
    hide Blank;
    if e.Insert? {
      InsertOrphansIff(s, e.c, e.addr, p);
    } else if e.Release? {
      ReleaseOrphansIff(s, e.agent, e.killed, p);
    } else {
      OthersOrphanNothing(s, e, p);
    }
  }

  lemma InsertOrphansIff(s: State, c: CallId, addr: nat, p: nat)
    requires Inv(s) && Enabled(s, Insert(c, addr)) && p in s.alive && !Orphan(s, p)
    ensures Orphan(Apply(s, Insert(c, addr)), p) <==> Loses(s, Insert(c, addr), p)
  {
    var t := Apply(s, Insert(c, addr));
    var a := s.calls[c].agent;
    assert RunningRight(s, c);
    if a in s.table && s.table[a].proc == p {
      assert EntryRight(s, a);
      forall b | b in t.table
        ensures t.table[b].proc != p
      {
        if b != a { assert EntryRight(s, b); }
      }
    } else if exists b :: b in s.table && s.table[b].proc == p {
      var b :| b in s.table && s.table[b].proc == p;
      assert t.table[b].proc == p;
    } else {
      var d :| d in s.calls && s.calls[d].phase == Running(p);
      if d == c { assert t.table[a].proc == p; } else { assert t.calls[d].phase == Running(p); }
    }
  }

  lemma ReleaseOrphansIff(s: State, a: AgentId, killed: bool, p: nat)
    requires Inv(s) && p in s.alive && !Orphan(s, p)
    ensures Orphan(Apply(s, Release(a, killed)), p) <==> Loses(s, Release(a, killed), p)
  {
    hide Blank;
    var t := Apply(s, Release(a, killed));
    if exists b :: b in s.table && s.table[b].proc == p {
      var b :| b in s.table && s.table[b].proc == p;
      assert EntryRight(s, b);
      if b != a {
        assert b in t.table && t.table[b].proc == p;
        assert a in s.table ==> EntryRight(s, a);
      } else {
        forall d | d in s.table && d != a
          ensures s.table[d].proc != p
        {
          assert EntryRight(s, d);
        }
        forall c | c in s.calls
          ensures s.calls[c].phase != Running(p)
        {
          assert s.calls[c].phase.Running? ==> RunningRight(s, c);
        }
      }
    } else {
      var d :| d in s.calls && s.calls[d].phase == Running(p);
      assert t.calls[d].phase == Running(p);
    }
  }

  lemma OthersOrphanNothing(s: State, e: Step, p: nat)
    requires Inv(s) && Enabled(s, e) && p in s.alive && !Orphan(s, p) && !e.Insert? && !e.Release?
    ensures !Orphan(Apply(s, e), p)
  {
    hide Blank;
    var t := Apply(s, e);
    if exists b :: b in s.table && s.table[b].proc == p {
      var b :| b in s.table && s.table[b].proc == p;
      assert e.Reap? ==> e.proc != p;
      assert b in t.table && t.table[b].proc == p;
    } else {
      var d :| d in s.calls && s.calls[d].phase == Running(p);
      if p in t.alive { assert d in t.calls && t.calls[d].phase == Running(p); }
    }
  }

  /** Somewhere in the run the process is lost. */
  predicate LostIn(s: State, es: seq<Step>, p: nat)
    requires ValidRun(s, es)
    decreases |es|
  {
    es != [] && (Loses(s, es[0], p) || LostIn(Apply(s, es[0]), es[1..], p))
  }

  /** Over every run, a process alive at the end is an orphan exactly when it was lost on the
      way. */
  lemma {:induction false} OrphanedIff(s: State, es: seq<Step>, p: nat)
    requires Inv(s) && NamesRight(s) && ValidRun(s, es) && !Orphan(s, p) && p in Run(s, es).alive
    ensures Orphan(Run(s, es), p) <==> LostIn(s, es, p)
    decreases |es|
  {
    hide Inv, NamesRight, Apply, Enabled, Orphan, Loses;
    if es != [] {
      var t := Apply(s, es[0]);
      StepKeeps(s, es[0]);
      if p in s.alive {
        OrphansIff(s, es[0], p);
      } else {
        NotYetLost(s, es[0], p);
        if Loses(s, es[0], p) { DeadStays(t, es[1..], p); }
      }
      if Orphan(t, p) {
        OrphanIsOwned(t, p);
        StaysAlive(t, es[1..], p);
        OrphanForever(t, es[1..], p);
      } else {
        OrphanedIff(t, es[1..], p);
      }
    }
  }

  lemma OrphanIsOwned(s: State, p: nat)
    requires Orphan(s, p)
    ensures p in s.owner
  {
  }

  /** A process that has ended does not come back. */
  lemma {:induction false} DeadStays(s: State, es: seq<Step>, p: nat)
    requires Inv(s) && NamesRight(s) && ValidRun(s, es) && p in s.owner && p !in s.alive
    ensures p !in Run(s, es).alive
    decreases |es|
  {
    hide Inv, NamesRight, Apply, Enabled;
    if es != [] {
      DeadStep(s, es[0], p);
      StepKeeps(s, es[0]);
      DeadStays(Apply(s, es[0]), es[1..], p);
    }
  }

  lemma DeadStep(s: State, e: Step, p: nat)
    requires Inv(s) && Enabled(s, e) && p in s.owner
    ensures p in Apply(s, e).owner
    ensures p !in s.alive ==> p !in Apply(s, e).alive
    ensures e == Exit(p) ==> p !in Apply(s, e).alive
  {
    hide Blank;
  }

  lemma {:induction false} StaysAlive(s: State, es: seq<Step>, p: nat)
    requires Inv(s) && NamesRight(s) && ValidRun(s, es) && p in s.owner && p in Run(s, es).alive
    ensures forall i :: 0 <= i < |es| ==> es[i] != Exit(p)
    decreases |es|
  {
    hide Inv, NamesRight, Apply, Enabled;
    if es != [] {
      var t := Apply(s, es[0]);
      StepKeeps(s, es[0]);
      DeadStep(s, es[0], p);
      if es[0] == Exit(p) { DeadStays(t, es[1..], p); }
      StaysAlive(t, es[1..], p);
      assert forall i :: 1 <= i < |es| ==> es[i] == es[1..][i - 1];
    }
  }

  lemma NotYetLost(s: State, e: Step, p: nat)
    requires Inv(s) && Enabled(s, e) && p !in s.alive
    ensures !Orphan(Apply(s, e), p)
    ensures Loses(s, e, p) ==> p in Apply(s, e).owner && p !in Apply(s, e).alive
  {
    hide Blank;
    if e.Start? { assert Apply(s, e).calls[e.c].phase == Running(s.next); }
    assert e.Insert? && s.calls[e.c].agent in s.table ==> EntryRight(s, s.calls[e.c].agent);
    assert e.Release? && e.agent in s.table ==> EntryRight(s, e.agent);
  }

  /** No release ever reaches an orphan: it lives until it ends by itself. */
  lemma {:induction false} OrphanForever(s: State, es: seq<Step>, p: nat)
    requires Inv(s) && NamesRight(s) && ValidRun(s, es) && Orphan(s, p)
    requires forall i :: 0 <= i < |es| ==> es[i] != Exit(p)
    ensures Orphan(Run(s, es), p)
    decreases |es|
  {
    if es != [] {
      OrphanStep(s, es[0], p);
      hide Inv, NamesRight, Apply, Enabled, Orphan;
      StepKeeps(s, es[0]);
      OrphanForever(Apply(s, es[0]), es[1..], p);
    }
  }

  lemma OrphanStep(s: State, e: Step, p: nat)
    requires Inv(s) && Enabled(s, e) && Orphan(s, p) && e != Exit(p)
    ensures Orphan(Apply(s, e), p)
  {
    hide Blank, EntryRight, RunningRight;
  }

  // ---- What is returned, and what is ended ----------------------------------

  /** When a call ends with an address, it is that of its agent's entry at that moment; and if
      the call inserts the entry, the entry is for the process it has started. */
  lemma ReturnsEntry(s: State, e: Step, c: CallId)
    requires Inv(s) && Enabled(s, e)
    requires c in Apply(s, e).calls && Apply(s, e).calls[c].phase.Done?
    requires c in s.calls ==> !s.calls[c].phase.Done?
    ensures var t := Apply(s, e);
            var a := t.calls[c].agent;
            && a in t.table && t.table[a].addr == t.calls[c].phase.addr && t.table - {a} == s.table - {a}
            && if c in s.calls then s.calls[c] == Call(a, Running(t.table[a].proc)) else t.table == s.table
  {
    hide Blank;
    var t := Apply(s, e);
    assert t.table - {t.calls[c].agent} == s.table - {t.calls[c].agent};
  }

  /** A call that gives up or whose browser does not come up has failed for good, and leaves no
      entry and no process. */
  lemma FailedCallLeavesNothing(s: State, e: Step, c: CallId, es: seq<Step>)
    requires Inv(s) && NamesRight(s) && Enabled(s, e) && (e == GiveUp(c) || e == NotReady(c))
    requires ValidRun(Apply(s, e), es)
    ensures var t := Apply(s, e);
            && t.table == s.table && c in Run(t, es).calls && Run(t, es).calls[c].phase == Failed
            && (e == GiveUp(c) ==> t.alive == s.alive)
            && (e == NotReady(c) ==>
                  var p := s.calls[c].phase.proc;
                  t.alive == s.alive - {p} && p !in Run(t, es).alive
                  && forall a :: a in t.table ==> t.table[a].proc != p)
  {
    hide Blank;
    var t := Apply(s, e);
    StepKeeps(s, e);
    CallsStay(t, es, c);
    if e == NotReady(c) {
      assert RunningRight(s, c);
      assert forall a :: a in t.table ==> EntryRight(s, a);
      DeadStays(t, es, s.calls[c].phase.proc);
    }
  }

  /** Releasing an agent that has an entry takes just that entry away, and its process ends
      there, for good, exactly when the kill succeeds or it had ended before. A call that comes
      next starts a new one. */
  lemma ReleaseEndsIff(s: State, a: AgentId, killed: bool, c: CallId)
    requires Inv(s) && NamesRight(s) && a in s.table && c !in s.calls
    ensures var p, t := s.table[a].proc, Apply(s, Release(a, killed));
            && t.table == s.table - {a}
            && (p !in t.alive <==> killed || p !in s.alive) && t.alive - {p} == s.alive - {p}
            && Apply(t, Check(c, a)).calls[c].phase == Missed
            && (p !in t.alive ==> forall es :: ValidRun(t, es) ==> p !in Run(t, es).alive)
  {
    hide Blank, Run, ValidRun;
    assert EntryRight(s, a);
    var p, t := s.table[a].proc, Apply(s, Release(a, killed));
    assert t.alive - {p} == s.alive - {p};
    if p !in t.alive {
      ProcessStepKeeps(s, Release(a, killed));
      forall es | ValidRun(t, es)
        ensures p !in Run(t, es).alive
      {
        DeadStays(t, es, p);
      }
    }
  }

  /** Two calls for one agent that both miss the table start two processes. */
  function Overlapping(a: AgentId): State
  {
    State(map[a := Instance(0, 0)], map[0 := Call(a, Done(0)), 1 := Call(a, Running(1))], map[0 := a, 1 := a],
          {0, 1}, {0}, 2)
  }

  lemma OverlappingReached(a: AgentId)
    requires !Blank(a)
    ensures Inv(Overlapping(a)) && NamesRight(Overlapping(a))
  {
    hide Blank, Inv, NamesRight;
    var s1 := START.(calls := map[0 := Call(a, Missed)]);
    var s2 := START.(calls := map[0 := Call(a, Missed), 1 := Call(a, Missed)]);
    var s3 := State(map[], map[0 := Call(a, Running(0)), 1 := Call(a, Missed)], map[0 := a], {0}, {}, 1);
    var s4 := State(map[], map[0 := Call(a, Running(0)), 1 := Call(a, Running(1))], map[0 := a, 1 := a], {0, 1}, {}, 2);
    StartRight();
    Advance(START, Check(0, a), s1);
    Advance(s1, Check(1, a), s2);
    Advance(s2, Start(0), s3);
    Advance(s3, Start(1), s4);
    Advance(s4, Insert(0, 0), Overlapping(a));
  }

  lemma Advance(s: State, e: Step, t: State)
    requires Inv(s) && NamesRight(s) && Enabled(s, e) && Apply(s, e) == t
    ensures Inv(t) && NamesRight(t)
  {
    StepKeeps(s, e);
  }

  lemma StartRight()
    ensures Inv(START) && NamesRight(START)
  {
  }

  /** So overlapping calls can leave a browser running that no release can end. */
  lemma OverlapLeaks(a: AgentId)
    requires !Blank(a)
    ensures Enabled(Overlapping(a), Insert(1, 1)) && Orphan(Apply(Overlapping(a), Insert(1, 1)), 0)
  {
    var s := Overlapping(a);
    OverlappingReached(a);
    assert !Orphan(s, 0) by { assert s.table[a].proc == 0; }
    hide Inv, Orphan;
    InsertOrphansIff(s, 1, 1, 0);
  }
}
