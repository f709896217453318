/** The allocator of browser proxies: one listening port per agent out of a fixed range, each
    search starting behind the port found last. */
module PortAllocator {
  import opened Wrappers

  type AgentId = string

  const PORT_START: nat := 8700
  const PORT_END: nat := 8800
  const PORTS: nat := PORT_END - PORT_START + 1

  predicate InRange(port: int)
  {
    PORT_START <= port <= PORT_END
  }

  /** The port tried at an attempt, counting round from the hint. */
  function Tried(hint: int, attempt: nat): int
    requires InRange(hint)
  {
    PORT_START + (hint - PORT_START + attempt) % PORTS
  }

  function After(port: int): int
  {
    if port + 1 > PORT_END then PORT_START else port + 1
  }

  /** The search is a tour of the range: the attempts reach every port once, in order, going
      round at the end. */
  lemma TourIsCyclic(hint: int, attempt: nat)
    requires InRange(hint) && attempt < PORTS
    ensures InRange(Tried(hint, attempt))
    ensures Tried(hint, attempt) == if hint + attempt <= PORT_END then hint + attempt else hint + attempt - PORTS
    ensures Tried(hint, 0) == hint
    ensures Tried(hint, attempt + 1) == After(Tried(hint, attempt))
  {
  }

  function AttemptFor(hint: int, port: int): (k: nat)
    requires InRange(hint) && InRange(port)
    ensures k < PORTS
  {
    if port >= hint then port - hint else port - hint + PORTS
  }

  /** Every port has just one attempt. */
  lemma EachPortOnce(hint: int, port: int, attempt: nat)
    requires InRange(hint) && InRange(port) && attempt < PORTS
    ensures Tried(hint, attempt) == port <==> attempt == AttemptFor(hint, port)
  {
    TourIsCyclic(hint, attempt);
  }

  /** The allocator and the ports that cannot be bound: by a listener of its own, running or
      being shut down, or by someone else on the machine. */
  datatype State = State(instances: map<AgentId, int>, hint: int, closing: set<int>, foreign: set<int>)

  const START := State(map[], PORT_START, {}, {})

  function Held(s: State): set<int>
  {
    s.instances.Values + s.closing
  }

  /** What binding a port would say, decided by the operating system. */
  predicate Free(s: State, port: int)
  {
    port !in Held(s) && port !in s.foreign
  }

  ghost predicate FirstFree(s: State, port: int)
    requires InRange(s.hint)
  {
    exists k :: 0 <= k < PORTS && Tried(s.hint, k) == port && Free(s, port)
                && forall j :: 0 <= j < k ==> !Free(s, Tried(s.hint, j))
  }

  function Search(s: State, attempt: nat): (port: Option<int>)
    requires InRange(s.hint) && attempt <= PORTS
    ensures port.Some? ==> InRange(port.value) && Free(s, port.value)
    decreases PORTS - attempt
  {
    if attempt == PORTS then None
    else if Free(s, Tried(s.hint, attempt)) then
      TourIsCyclic(s.hint, attempt);
      Some(Tried(s.hint, attempt))
    else Search(s, attempt + 1)
  }

  /** The search finds the first free port from the hint on, and fails exactly when no port of
      the range is free. */
  lemma SearchIff(s: State, port: int)
    requires InRange(s.hint)
    ensures Search(s, 0) == Some(port) <==> FirstFree(s, port)
    ensures Search(s, 0) == None <==> forall p :: InRange(p) ==> !Free(s, p)
  {
    SearchFrom(s, 0, port);
    if Search(s, 0).None? {
      forall p | InRange(p)
        ensures !Free(s, p)
      {
        EachPortOnce(s.hint, p, AttemptFor(s.hint, p));
      }
    }
  }

  lemma {:induction false} SearchFrom(s: State, attempt: nat, port: int)
    requires InRange(s.hint) && attempt <= PORTS
    requires forall j :: 0 <= j < attempt ==> !Free(s, Tried(s.hint, j))
    ensures Search(s, attempt) == Some(port) <==> FirstFree(s, port)
    ensures Search(s, attempt) == None <==> forall j :: 0 <= j < PORTS ==> !Free(s, Tried(s.hint, j))
    decreases PORTS - attempt
  {
    hide Free, Tried;
    if attempt < PORTS && !Free(s, Tried(s.hint, attempt)) {
      SearchFrom(s, attempt + 1, port);
    }
  }

  function AfterAcquire(s: State, a: AgentId): (State, Option<int>)
    requires InRange(s.hint)
  {
    if a in s.instances then (s, Some(s.instances[a]))
    else
      var port := Search(s, 0);
      if port.None? then (s, None)
      else (s.(instances := s.instances[a := port.value], hint := After(port.value)), port)
  }

  /** The entry goes first; the listener is closed behind it. */
  function AfterRelease(s: State, a: AgentId): State
  {
    if a !in s.instances then s
    else s.(instances := s.instances - {a}, closing := s.closing + {s.instances[a]})
  }

  // ---- The allocator as it runs ---------------------------------------------

  class ProxyAllocator {
    var instances: map<AgentId, int>
    var nextPortHint: int
    ghost var closing: set<int>
    ghost var foreign: set<int>

    constructor ()
      ensures Abs() == START
    {
      instances, nextPortHint, closing, foreign := map[], PORT_START, {}, {};
    }

    ghost function Abs(): State
      reads this
    {
      State(instances, nextPortHint, closing, foreign)
    }

    /** One call of `listen` per port: the answers of the operating system. */
    method ListenNext(listen: int -> bool) returns (port: Option<int>)
      requires InRange(nextPortHint)
      requires forall p :: InRange(p) ==> (listen(p) <==> Free(Abs(), p))
      modifies this`nextPortHint
      ensures port == Search(old(Abs()), 0)
      ensures nextPortHint == if port.Some? then After(port.value) else old(nextPortHint)
      ensures InRange(nextPortHint)
    {
      ghost var s := Abs();
      var attempt := 0;
      while attempt <= PORT_END - PORT_START
        invariant attempt <= PORTS && nextPortHint == s.hint && Abs() == s
        invariant Search(s, 0) == Search(s, attempt)
      {
        var p := PORT_START + (nextPortHint - PORT_START + attempt) % (PORT_END - PORT_START + 1);
        TourIsCyclic(s.hint, attempt);
        if listen(p) {
          nextPortHint := p + 1;
          if nextPortHint > PORT_END {
            nextPortHint := PORT_START;
          }
          return Some(p);
        }
        attempt := attempt + 1;
      }
      return None;
    }

    method Acquire(a: AgentId, listen: int -> bool) returns (port: Option<int>)
      requires InRange(nextPortHint)
      requires forall p :: InRange(p) ==> (listen(p) <==> Free(Abs(), p))
      modifies this`nextPortHint, this`instances
      ensures (Abs(), port) == AfterAcquire(old(Abs()), a)
    {
      if a in instances {
        return Some(instances[a]);
      }
      port := ListenNext(listen);
      if port.Some? {
        instances := instances[a := port.value];
      }
    }

    method Release(a: AgentId)
      modifies this`instances, this`closing
      ensures Abs() == AfterRelease(old(Abs()), a)
    {
      if a in instances {
        closing := closing + {instances[a]};
        instances := instances - {a};
      }
    }
  }

  // ---- Runs -----------------------------------------------------------------

  /** `Closed` is the moment a listener of a released agent is gone, `Others` a change in
      which ports the rest of the machine has bound. */
  datatype Step = Get(a: AgentId) | Put(a: AgentId) | Closed(port: int) | Others(bound: set<int>)

  /** Nobody else binds a port the allocator holds. */
  predicate Enabled(s: State, e: Step)
  {
    e.Others? ==> e.bound !! Held(s)
  }

  function Apply(s: State, e: Step): State
    requires InRange(s.hint)
  {
    match e
    case Get(a) => AfterAcquire(s, a).0
    case Put(a) => AfterRelease(s, a)
    case Closed(port) => s.(closing := s.closing - {port})
    case Others(bound) => if Enabled(s, e) then s.(foreign := bound) else s
  }

  /** Live agents hold ports of the range, each its own, and none that is still being
      closed. */
  ghost predicate Inv(s: State)
  {
    && InRange(s.hint)
    && (forall a :: a in s.instances ==>
          InRange(s.instances[a]) && s.instances[a] !in s.closing && s.instances[a] !in s.foreign)
    && (forall a, b :: a in s.instances && b in s.instances && a != b ==> s.instances[a] != s.instances[b])
  }

  lemma StepKeeps(s: State, e: Step)
    requires Inv(s)
    ensures Inv(Apply(s, e))
  {
    hide Search;
    if e.Get? && e.a !in s.instances && Search(s, 0).Some? {
      var port := Search(s, 0).value;
      assert Free(s, port);
      assert forall a :: a in s.instances ==> s.instances[a] in s.instances.Values;
    }
  }

  function Run(s: State, es: seq<Step>): State
    requires Inv(s)
    decreases |es|
  {
    if es == [] then s
    else
      StepKeeps(s, es[0]);
      Run(Apply(s, es[0]), es[1..])
  }

  /** Over every run of acquiring and releasing, the hint stays in the range and live agents
      hold distinct ports. */
  lemma {:induction false} DistinctPorts(s: State, es: seq<Step>)
    requires Inv(s)
    ensures Inv(Run(s, es))
    decreases |es|
  {
    hide Apply;
    if es != [] {
      StepKeeps(s, es[0]);
      DistinctPorts(Apply(s, es[0]), es[1..]);
    }
  }

  /** An agent keeps its port through whatever others do until it is released. */
  lemma {:induction false} PortIsKept(s: State, es: seq<Step>, a: AgentId)
    requires Inv(s) && a in s.instances
    requires forall i :: 0 <= i < |es| ==> es[i] != Put(a)
    ensures a in Run(s, es).instances && Run(s, es).instances[a] == s.instances[a]
    decreases |es|
  {
    if es != [] {
      StepKeeps(s, es[0]);
      PortIsKept(Apply(s, es[0]), es[1..], a);
    }
  }

  /** Acquiring fails exactly for an agent without a port when the whole range is taken, and
      then changes nothing. */
  lemma AcquireFailsIff(s: State, a: AgentId)
    requires InRange(s.hint)
    ensures AfterAcquire(s, a).1 == None <==> a !in s.instances && forall p :: InRange(p) ==> !Free(s, p)
    ensures AfterAcquire(s, a).1 == None ==> AfterAcquire(s, a).0 == s
  {
    SearchIff(s, 0);
  }

  /** What acquiring returns is the agent's entry, and nobody else's entry changes. */
  lemma AcquiredIsRecorded(s: State, a: AgentId)
    requires InRange(s.hint)
    ensures var (t, port) := AfterAcquire(s, a);
            && t.instances - {a} == s.instances - {a}
            && (a in t.instances <==> port.Some?) && (port.Some? ==> t.instances[a] == port.value)
  {
    hide Search;
    var (t, port) := AfterAcquire(s, a);
    assert t.instances - {a} == s.instances - {a};
  }

  /** An agent that got a port gets the same one again whatever happens in between, until it is
      released. A release takes its entry away and nobody else's, and once the listener is
      closed the port can be had by anyone, unless the rest of the machine has taken it. */
  lemma PortUntilRelease(s: State, es: seq<Step>, a: AgentId)
    requires Inv(s) && AfterAcquire(s, a).1.Some?
    requires Inv(AfterAcquire(s, a).0) && forall i :: 0 <= i < |es| ==> es[i] != Put(a)
    ensures var port := AfterAcquire(s, a).1;
            var t := Last(AfterAcquire(s, a).0, es);
            var released := AfterRelease(t, a);
            && AfterAcquire(t, a) == (t, port)
            && a !in released.instances && released.instances == t.instances - {a} && !Free(released, port.value)
            && (Free(Apply(released, Closed(port.value)), port.value) <==> port.value !in released.foreign)
  {
    hide Search;
    AcquiredIsRecorded(s, a);
    PortIsKept(AfterAcquire(s, a).0, es, a);
  }

  /** The search for an agent without a port comes to port q. */
  predicate ComesTo(s: State, a: AgentId, q: int)
    requires InRange(s.hint) && InRange(q)
  {
    var found := Search(s, 0);
    a !in s.instances && (found.None? || AttemptFor(s.hint, q) <= AttemptFor(s.hint, found.value))
  }

  /** Then q is handed out, or it was not free. */
  lemma ComesToMeans(s: State, a: AgentId, q: int)
    requires InRange(s.hint) && InRange(q) && ComesTo(s, a, q)
    ensures Free(s, q) ==> AfterAcquire(s, a).1 == Some(q)
  {
    var found := Search(s, 0);
    SearchIff(s, if found.Some? then found.value else 0);
    hide Search, Free;
    EachPortOnce(s.hint, q, AttemptFor(s.hint, q));
    if found.Some? {
      var k :| 0 <= k < PORTS && Tried(s.hint, k) == found.value
               && forall j :: 0 <= j < k ==> !Free(s, Tried(s.hint, j));
      EachPortOnce(s.hint, found.value, k);
      TourIsCyclic(s.hint, k);
    }
  }

  /** Some search of the run comes to q. */
  ghost predicate ComesToIn(s: State, es: seq<Step>, q: int)
    requires Inv(s) && InRange(q)
    decreases |es|
  {
    es != [] &&
    ((es[0].Get? && ComesTo(s, es[0].a, q)) || (StepKeeps(s, es[0]); ComesToIn(Apply(s, es[0]), es[1..], q)))
  }

  /** Positions are counted from the port behind p; p itself is the last. */
  function Position(p: int, q: int): (k: nat)
    requires InRange(p) && InRange(q)
    ensures k < PORTS && (k == PORTS - 1 <==> q == p)
  {
    AttemptFor(After(p), q)
  }

  lemma {:induction false} StillAhead(s: State, es: seq<Step>, p: int, q: int, a: AgentId)
    requires Inv(s) && InRange(p) && InRange(q) && p != q && Position(p, s.hint) <= Position(p, q)
    requires a !in Run(s, es).instances && AfterAcquire(Last(s, es), a).1 == Some(p)
    ensures ComesToIn(s, es + [Get(a)], q)
    decreases |es|
  {
    hide Search;
    if es == [] {
      assert [] + [Get(a)] == [Get(a)];
    } else {
      var e := es[0];
      assert (es + [Get(a)])[0] == e && (es + [Get(a)])[1..] == es[1..] + [Get(a)];
      StepKeeps(s, e);
      if !(e.Get? && ComesTo(s, e.a, q)) {
        StillAhead(Apply(s, e), es[1..], p, q, a);
      }
    }
  }

  function Last(s: State, es: seq<Step>): (t: State)
    requires Inv(s)
    ensures Inv(t) && t == Run(s, es)
  {
    DistinctPorts(s, es);
    Run(s, es)
  }

  /** The allocator goes round: between two times a port is handed out, over any run, some
      search has come to every other port, and so handed it out or found it taken. */
  lemma RoundRobin(s: State, b: AgentId, es: seq<Step>, a: AgentId, p: int, q: int)
    requires Inv(s) && InRange(q) && p != q
    requires b !in s.instances && AfterAcquire(s, b).1 == Some(p)
    requires var t := Apply(s, Get(b));
             Inv(t) && a !in Run(t, es).instances && AfterAcquire(Last(t, es), a).1 == Some(p)
    ensures ComesToIn(Apply(s, Get(b)), es + [Get(a)], q)
  {
    var t := Apply(s, Get(b));
    assert InRange(p) by { assert Search(s, 0) == Some(p); }
    hide Search;
    StillAhead(t, es, p, q, a);
  }

  /** In particular a port that is handed out and given back at once is not the next one handed
      out while another is free. */
  lemma ReuseIsLast(s: State, a: AgentId, b: AgentId, p: int)
    requires Inv(s) && a !in s.instances && AfterAcquire(s, a).1.Some? && b != a && b !in s.instances
    requires InRange(p) && Free(s, p) && p != AfterAcquire(s, a).1.value
    ensures var port := AfterAcquire(s, a).1.value;
            var back := Apply(AfterRelease(AfterAcquire(s, a).0, a), Closed(port));
            AfterAcquire(back, b).1.Some? && AfterAcquire(back, b).1 != Some(port)
  {
    var port := AfterAcquire(s, a).1.value;
    var back := Apply(AfterRelease(AfterAcquire(s, a).0, a), Closed(port));
    assert back.instances == s.instances;
    assert back.hint == After(port);
    assert Free(back, p);
    SearchIff(back, port);
    hide Search;
    if FirstFree(back, port) {
      EachPortOnce(back.hint, port, PORTS - 1);
      TourIsCyclic(back.hint, PORTS - 1);
      EachPortOnce(back.hint, p, AttemptFor(back.hint, p));
      assert AttemptFor(back.hint, port) == PORTS - 1;
      assert AttemptFor(back.hint, p) < PORTS - 1;
      forall k | 0 <= k < PORTS && Tried(back.hint, k) == port
        ensures k == PORTS - 1
      {
        EachPortOnce(back.hint, port, k);
      }
      assert false;
    }
  }
}
