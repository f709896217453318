/** What holds of every run of the read loop, for every byte stream and every clock. */
module RouterLaws {
  import opened Wrappers
  import opened Mus
  import opened Frame
  import opened RateLimiter
  import opened Router

  // ---- Frames in, frames out ------------------------------------------------

  function FramesOf(rounds: seq<Round>): seq<Frame>
  {
    if rounds == [] then [] else [rounds[0].frame] + FramesOf(rounds[1..])
  }

  /** The first round of a loop, and the loop behind it. */
  lemma FirstRound(agentId: bytes, amb: Ambient, i: nat, last: uint64, lim: Option<Limiter>, s: bytes)
      returns (r: Round, lim': Option<Limiter>, rest: bytes)
    requires Loop(agentId, amb, i, last, lim, s).rounds != []
    ensures ReadFrame(s) == Got(r.frame, rest) && |rest| < |s|
    ensures r == Judge(agentId, amb.clock(2 * i), amb.clock(2 * i + 1), last, ChargeMaybe(lim, 2, amb.clock(2 * i)),
                       r.frame)
    ensures lim' == NextLimiter(r, ChargeMaybe(lim, 2, amb.clock(2 * i)))
    ensures Loop(agentId, amb, i, last, lim, s) == Prepend(r, Loop(agentId, amb, i + 1, NextLast(r), lim', rest))
    ensures Loop(agentId, amb, i, last, lim, s).rounds[1..] == Loop(agentId, amb, i + 1, NextLast(r), lim', rest).rounds
    ensures Loop(agentId, amb, i, last, lim, s).rounds[0] == r
  {
    hide ReadFrame, Judge, NextLast, NextLimiter, ChargeMaybe, Passes;
    ReadFrameExtend(s, []);
    var peeked := ChargeMaybe(lim, 2, amb.clock(2 * i));
    r := Judge(agentId, amb.clock(2 * i), amb.clock(2 * i + 1), last, peeked, ReadFrame(s).value);
    lim', rest := NextLimiter(r, peeked), ReadFrame(s).rest;
    JudgeKeeps(agentId, amb.clock(2 * i), amb.clock(2 * i + 1), last, peeked, ReadFrame(s).value);
  }

  lemma JudgeKeeps(agentId: bytes, peeked: int, at: int, last: uint64, lim: Option<Limiter>, f: Frame)
    ensures var r := Judge(agentId, peeked, at, last, lim, f);
            r.frame == f && r.prev == last && r.peeked == peeked && r.at == at
  {
  }

  /** The loop judges the frames of the stream in order, skipping none; if it stops because
      the stream does, it has judged all of them. */
  lemma {:induction false} JudgesEveryFrame(agentId: bytes, amb: Ambient, i: nat, last: uint64, lim: Option<Limiter>,
                                            s: bytes)
    ensures var run := Loop(agentId, amb, i, last, lim, s);
            var all := ReadAll(s);
            && FramesOf(run.rounds) <= all.0
            && (run.exit == Closed || run.exit.ReadFailed? ==> FramesOf(run.rounds) == all.0)
            && (run.exit.ReadFailed? ==> run.exit.error == all.1)
    decreases |s|
  {
    hide Loop, ReadFrame, Judge, NextLast, NextLimiter, ChargeMaybe;
    if Loop(agentId, amb, i, last, lim, s).rounds != [] {
      var r, lim', rest := FirstRound(agentId, amb, i, last, lim, s);
      JudgesEveryFrame(agentId, amb, i + 1, NextLast(r), lim', rest);
    } else {
      NoRound(agentId, amb, i, last, lim, s);
    }
  }

  lemma NoRound(agentId: bytes, amb: Ambient, i: nat, last: uint64, lim: Option<Limiter>, s: bytes)
    requires Loop(agentId, amb, i, last, lim, s).rounds == []
    ensures var run := Loop(agentId, amb, i, last, lim, s);
            && (run.exit == Closed ==> ReadFrame(s).Broken?)
            && (run.exit.ReadFailed? ==> ReadFrame(s).Broken? && ReadFrame(s).error == run.exit.error)
  {
    hide Judge, NextLast, NextLimiter, ChargeMaybe, Passes;
    if |s| < 2 { ShortRead(s); }
    hide ReadFrame;
  }

  lemma ShortRead(s: bytes)
    requires |s| < 2
    ensures ReadFrame(s) == Broken(StreamEnd, [])
  {
  }

  /** `out` arises from `frames` by leaving out some and stamping the others. */
  predicate StampedSubsequence(agentId: bytes, out: seq<Frame>, frames: seq<Frame>)
  {
    if out == [] then true
    else if frames == [] then false
    else if && out[0].payload == frames[0].payload && out[0].header == frames[0].header.(fromId := agentId)
            && StampedSubsequence(agentId, out[1..], frames[1..]) then true
    else StampedSubsequence(agentId, out, frames[1..])
  }

  /** What is delivered is a subsequence of what was decoded, with payload, destination and
      sequence number untouched and the pipe's identity as sender. */
  lemma {:induction false} DeliversStamped(agentId: bytes, rounds: seq<Round>)
    ensures StampedSubsequence(agentId, DeliveredOf(agentId, rounds), FramesOf(rounds))
    ensures forall j :: 0 <= j < |DeliveredOf(agentId, rounds)| ==>
              DeliveredOf(agentId, rounds)[j].header.fromId == agentId
  {
    if rounds != [] {
      DeliversStamped(agentId, rounds[1..]);
      var more := DeliveredOf(agentId, rounds[1..]);
      assert [] + more == more;
      assert FramesOf(rounds)[1..] == FramesOf(rounds[1..]);
      if rounds[0].verdict.Delivered? {
        assert ([Stamp(agentId, rounds[0].frame)] + more)[1..] == more;
      }
    }
  }

  // ---- Accounting -----------------------------------------------------------

  function Count(rounds: seq<Round>, v: Verdict): nat
  {
    if rounds == [] then 0 else (if rounds[0].verdict == v then 1 else 0) + Count(rounds[1..], v)
  }

  function Imposters(agentId: bytes, rounds: seq<Round>): nat
  {
    if rounds == [] then 0
    else (if rounds[0].frame.header.fromId != agentId then 1 else 0) + Imposters(agentId, rounds[1..])
  }

  datatype Kind = Overwrite | Rewind | Flood

  function KindOf(e: Event): Kind
  {
    match e
    case IdentityOverwrite(_) => Overwrite
    case SeqNoRewind(_, _) => Rewind
    case PipeFlood => Flood
  }

  function Emitted(events: seq<Event>, kind: Kind): nat
  {
    if events == [] then 0 else (if KindOf(events[0]) == kind then 1 else 0) + Emitted(events[1..], kind)
  }

  lemma {:induction false} EmittedJoin(a: seq<Event>, b: seq<Event>, kind: Kind)
    ensures Emitted(a + b, kind) == Emitted(a, kind) + Emitted(b, kind)
  {
    if a == [] {
      assert a + b == b;
    } else {
      EmittedJoin(a[1..], b, kind);
      assert (a + b)[1..] == a[1..] + b;
    }
  }

  /** How many events of a kind one judged frame causes. */
  function Owed(agentId: bytes, r: Round, kind: Kind): nat
  {
    match kind
    case Overwrite => if r.frame.header.fromId != agentId then 1 else 0
    case Rewind => if r.verdict == Rewound then 1 else 0
    case Flood => if r.verdict == OverBudget then 1 else 0
  }

  lemma RoundEmits(agentId: bytes, r: Round, kind: Kind)
    ensures Emitted(EventsOfRound(agentId, r), kind) == Owed(agentId, r, kind)
  {
    var events := EventsOfRound(agentId, r);
    assert |events| <= 2;
    if events != [] {
      assert Emitted(events, kind) == (if KindOf(events[0]) == kind then 1 else 0) + Emitted(events[1..], kind);
      if |events| == 2 {
        assert events[1..] == [events[1]];
        assert [events[1]][1..] == [];
      }
    }
  }

  /** Every decoded frame is delivered, rewind-dropped or budget-dropped, and every drop is
      matched by exactly one event of its kind; the flood that ends the loop emits one more,
      and every frame under a foreign identity one overwrite, dropped or not. */
  lemma Accounting(agentId: bytes, run: Run)
    ensures |run.rounds| ==
            |DeliveredOf(agentId, run.rounds)| + Count(run.rounds, Rewound) + Count(run.rounds, OverBudget)
    ensures Emitted(EventsOf(agentId, run), Rewind) == Count(run.rounds, Rewound)
    ensures Emitted(EventsOf(agentId, run), Flood) ==
            Count(run.rounds, OverBudget) + (if run.exit == Flooded then 1 else 0)
    ensures Emitted(EventsOf(agentId, run), Overwrite) == Imposters(agentId, run.rounds)
  {
    hide EventsOfRounds;
    RoundsAccount(agentId, run.rounds);
    var events := EventsOfRounds(agentId, run.rounds);
    if run.exit == Flooded {
      EmittedJoin(events, [PipeFlood], Rewind);
      EmittedJoin(events, [PipeFlood], Flood);
      EmittedJoin(events, [PipeFlood], Overwrite);
      assert [PipeFlood][1..] == [];
    } else {
      assert events + [] == events;
    }
  }

  lemma {:induction false} RoundsAccount(agentId: bytes, rounds: seq<Round>)
    ensures |rounds| == |DeliveredOf(agentId, rounds)| + Count(rounds, Rewound) + Count(rounds, OverBudget)
    ensures Emitted(EventsOfRounds(agentId, rounds), Rewind) == Count(rounds, Rewound)
    ensures Emitted(EventsOfRounds(agentId, rounds), Flood) == Count(rounds, OverBudget)
    ensures Emitted(EventsOfRounds(agentId, rounds), Overwrite) == Imposters(agentId, rounds)
  {
    hide EventsOfRound;
    if rounds != [] {
      RoundsAccount(agentId, rounds[1..]);
      forall kind: Kind
        ensures Emitted(EventsOfRounds(agentId, rounds), kind) ==
                Owed(agentId, rounds[0], kind) + Emitted(EventsOfRounds(agentId, rounds[1..]), kind)
      {
        RoundEmits(agentId, rounds[0], kind);
        EmittedJoin(EventsOfRound(agentId, rounds[0]), EventsOfRounds(agentId, rounds[1..]), kind);
      }
    }
  }

  /** The round calls for the event. */
  predicate Reports(agentId: bytes, r: Round, e: Event)
  {
    match e
    case IdentityOverwrite(claimed) => claimed != agentId && claimed == r.frame.header.fromId
    case SeqNoRewind(seqNo, prev) => r.verdict == Rewound && seqNo == r.frame.header.seqNo && prev == r.prev
    case PipeFlood => r.verdict == OverBudget
  }

  /** The events of a run name the frames they are about, and none is missing. */
  lemma EventsAreReports(agentId: bytes, run: Run, e: Event)
    ensures e in EventsOf(agentId, run) <==>
            || (exists j :: 0 <= j < |run.rounds| && Reports(agentId, run.rounds[j], e))
            || (e == PipeFlood && run.exit == Flooded)
  {
    hide EventsOfRounds, Reports;
    RoundsReport(agentId, run.rounds, e);
  }

  lemma {:induction false} RoundsReport(agentId: bytes, rounds: seq<Round>, e: Event)
    ensures e in EventsOfRounds(agentId, rounds) <==>
            exists j :: 0 <= j < |rounds| && Reports(agentId, rounds[j], e)
  {
    if rounds != [] {
      RoundsReport(agentId, rounds[1..], e);
      assert e in EventsOfRound(agentId, rounds[0]) <==> Reports(agentId, rounds[0], e);
      hide EventsOfRound, Reports;
      assert forall j :: 0 <= j < |rounds| - 1 ==> rounds[1..][j] == rounds[j + 1];
    }
  }

  // ---- Order ----------------------------------------------------------------

  function MaxSeqNo(last: uint64, fs: seq<Frame>): (m: uint64)
    ensures last <= m
    decreases |fs|
  {
    if fs == [] then last
    else MaxSeqNo(if fs[0].header.seqNo > last then fs[0].header.seqNo else last, fs[1..])
  }

  /** Exactly which frames the order gate drops: those not above the largest sequence number
      decoded before them, delivered or not, once that is positive. */
  lemma {:induction false} RewoundIff(agentId: bytes, amb: Ambient, i: nat, last: uint64, lim: Option<Limiter>,
                                      s: bytes, j: nat)
    requires j < |Loop(agentId, amb, i, last, lim, s).rounds|
    ensures var rounds := Loop(agentId, amb, i, last, lim, s).rounds;
            var highest := MaxSeqNo(last, FramesOf(rounds[..j]));
            && rounds[j].prev == highest
            && (rounds[j].verdict == Rewound <==> (rounds[j].frame.header.seqNo <= highest && highest > 0))
    decreases |s|
  {
    hide Loop, ReadFrame, ChargeMaybe, Passes, FrameBytes, NextLimiter;
    var rounds := Loop(agentId, amb, i, last, lim, s).rounds;
    var r, lim', rest := FirstRound(agentId, amb, i, last, lim, s);
    if j > 0 {
      RewoundIff(agentId, amb, i + 1, NextLast(r), lim', rest, j - 1);
      assert rounds[..j][1..] == rounds[1..][..j - 1];
      assert rounds[..j][0] == r;
    } else {
      assert rounds[..0] == [];
    }
  }

  /** Starting after `last`: as long as nothing positive has been seen zeros may come, then
      every number exceeds the one before. */
  predicate Rising(last: uint64, fs: seq<Frame>)
    decreases |fs|
  {
    fs == [] ||
    ((fs[0].header.seqNo > last || (last == 0 && fs[0].header.seqNo == 0)) && Rising(fs[0].header.seqNo, fs[1..]))
  }

  lemma {:induction false} LoopRises(agentId: bytes, amb: Ambient, i: nat, last: uint64, lim: Option<Limiter>, s: bytes)
    ensures Rising(last, DeliveredOf(agentId, Loop(agentId, amb, i, last, lim, s).rounds))
    decreases |s|
  {
    hide Loop, ReadFrame, ChargeMaybe, Passes, FrameBytes, NextLimiter;
    var rounds := Loop(agentId, amb, i, last, lim, s).rounds;
    if rounds != [] {
      var r, lim', rest := FirstRound(agentId, amb, i, last, lim, s);
      LoopRises(agentId, amb, i + 1, NextLast(r), lim', rest);
      var more := DeliveredOf(agentId, rounds[1..]);
      assert [] + more == more;
      assert r.verdict.Delivered? ==> ([Stamp(agentId, r.frame)] + more)[1..] == more;
    }
  }

  lemma {:induction false} RisingAbove(last: uint64, fs: seq<Frame>, j: nat)
    requires Rising(last, fs) && j < |fs|
    ensures last < fs[j].header.seqNo || last == fs[j].header.seqNo == 0
    decreases j
  {
    if j > 0 { RisingAbove(fs[0].header.seqNo, fs[1..], j - 1); }
  }

  lemma {:induction false} RisingPairs(last: uint64, fs: seq<Frame>, i: nat, j: nat)
    requires Rising(last, fs) && i < j < |fs|
    ensures fs[i].header.seqNo < fs[j].header.seqNo || fs[i].header.seqNo == fs[j].header.seqNo == 0
    decreases j
  {
    if i > 0 {
      RisingPairs(fs[0].header.seqNo, fs[1..], i - 1, j - 1);
    } else {
      RisingAbove(fs[0].header.seqNo, fs[1..], j - 1);
    }
  }

  /** The delivered sequence numbers are a run of zeros followed by strictly increasing
      positive ones: of any two, the later is larger or both are zero. */
  lemma SequenceRises(agentId: bytes, amb: Ambient, i: nat, last: uint64, lim: Option<Limiter>, s: bytes, x: nat,
                      y: nat)
    requires x < y < |DeliveredOf(agentId, Loop(agentId, amb, i, last, lim, s).rounds)|
    ensures var fs := DeliveredOf(agentId, Loop(agentId, amb, i, last, lim, s).rounds);
            fs[x].header.seqNo < fs[y].header.seqNo || fs[x].header.seqNo == fs[y].header.seqNo == 0
  {
    hide Loop, DeliveredOf;
    LoopRises(agentId, amb, i, last, lim, s);
    RisingPairs(last, DeliveredOf(agentId, Loop(agentId, amb, i, last, lim, s).rounds), x, y);
  }

  // ---- Budget ---------------------------------------------------------------

  ghost predicate Monotone(clock: nat -> int)
  {
    forall x: nat, y: nat :: x <= y ==> clock(x) <= clock(y)
  }

  /** The limiter calls behind the judged frames of a limited pipe. */
  function CallsOf(rounds: seq<Round>): seq<Call>
  {
    if rounds == [] then []
    else [Call(2, rounds[0].peeked)]
         + (if rounds[0].verdict == Rewound then [] else [Call(rounds[0].charge, rounds[0].at)])
         + CallsOf(rounds[1..])
  }

  /** The bytes of the frames delivered in the half-open second that begins at a. */
  function DeliveredIn(rounds: seq<Round>, a: int): nat
  {
    if rounds == [] then 0
    else (if rounds[0].verdict.Delivered? && a <= rounds[0].at < a + SECOND then rounds[0].charge else 0)
         + DeliveredIn(rounds[1..], a)
  }

  /** The limiter calls of a run come in clock order, and the delivered bytes are among
      those the limiter granted. */
  lemma {:induction false} CallsOfLoop(agentId: bytes, amb: Ambient, i: nat, last: uint64, l: Limiter, s: bytes,
                                       a: int, t: int)
    requires Monotone(amb.clock) && t <= amb.clock(2 * i)
    ensures var rounds := Loop(agentId, amb, i, last, Some(l), s).rounds;
            Ordered(t, CallsOf(rounds)) && DeliveredIn(rounds, a) <= GrantedIn(l, CallsOf(rounds), a)
    decreases |s|
  {
    hide Loop, ReadFrame, FrameBytes, Charge, WithinBudget;
    var rounds := Loop(agentId, amb, i, last, Some(l), s).rounds;
    if rounds != [] {
      var r, lim', rest := FirstRound(agentId, amb, i, last, Some(l), s);
      var more := rounds[1..];
      var l1 := Charge(l, 2, r.peeked);
      assert r.peeked <= r.at <= amb.clock(2 * (i + 1));
      var calls := CallsOf(more);
      if r.verdict == Rewound {
        CallsOfLoop(agentId, amb, i + 1, NextLast(r), l1, rest, a, r.peeked);
        PrependCall(t, l, Call(2, r.peeked), calls, a);
        assert CallsOf(rounds) == [Call(2, r.peeked)] + calls;
      } else {
        CallsOfLoop(agentId, amb, i + 1, NextLast(r), Charge(l1, r.charge, r.at), rest, a, r.at);
        PrependCall(r.peeked, l1, Call(r.charge, r.at), calls, a);
        PrependCall(t, l, Call(2, r.peeked), [Call(r.charge, r.at)] + calls, a);
        assert CallsOf(rounds) == [Call(2, r.peeked)] + ([Call(r.charge, r.at)] + calls);
      }
    }
  }

  lemma PrependCall(t: int, l: Limiter, c: Call, calls: seq<Call>, a: int)
    requires t <= c.now && Ordered(c.now, calls)
    ensures Ordered(t, [c] + calls)
    ensures var l' := Charge(l, c.n, c.now);
            GrantedIn(l, [c] + calls, a) ==
            (if WithinBudget(l') && a <= c.now < a + SECOND then c.n else 0) + GrantedIn(l', calls, a)
  {
    assert ([c] + calls)[1..] == calls;
  }

  /** No half-open second sees more than twice the limit delivered, whatever arrives. */
  lemma DeliveryRateBound(agentId: bytes, amb: Ambient, last: uint64, l: Limiter, s: bytes, a: int)
    requires Monotone(amb.clock) && l.windowStart <= amb.clock(0)
    requires NoWrap(l, CallsOf(Loop(agentId, amb, 0, last, Some(l), s).rounds))
    ensures DeliveredIn(Loop(agentId, amb, 0, last, Some(l), s).rounds, a) <= 2 * l.limitPerSec
  {
    hide Loop;
    CallsOfLoop(agentId, amb, 0, last, l, s, a, l.windowStart);
    RateBound(l, CallsOf(Loop(agentId, amb, 0, last, Some(l), s).rounds), a);
  }

  /** The limiter as a judged frame leaves it. */
  function LimiterAfter(l: Limiter, r: Round): Limiter
  {
    var l1 := Charge(l, 2, r.peeked);
    if r.verdict == Rewound then l1 else Charge(l1, r.charge, r.at)
  }

  /** The bytes of the frames delivered in the limiter's window that began at w. */
  function DeliveredInWindow(l: Limiter, rounds: seq<Round>, w: int): nat
    decreases |rounds|
  {
    if rounds == [] then 0
    else
      var l' := LimiterAfter(l, rounds[0]);
      (if rounds[0].verdict.Delivered? && l'.windowStart == w then rounds[0].charge else 0)
      + DeliveredInWindow(l', rounds[1..], w)
  }

  lemma {:induction false} WindowCallsOfLoop(agentId: bytes, amb: Ambient, i: nat, last: uint64, l: Limiter, s: bytes,
                                             w: int)
    ensures var rounds := Loop(agentId, amb, i, last, Some(l), s).rounds;
            DeliveredInWindow(l, rounds, w) <= GrantedInWindow(l, CallsOf(rounds), w)
    decreases |s|
  {
    hide Loop, ReadFrame, FrameBytes, Charge, WithinBudget;
    var rounds := Loop(agentId, amb, i, last, Some(l), s).rounds;
    if rounds != [] {
      var r, lim', rest := FirstRound(agentId, amb, i, last, Some(l), s);
      var l1 := Charge(l, 2, r.peeked);
      var calls := CallsOf(rounds[1..]);
      WindowCallsOfLoop(agentId, amb, i + 1, NextLast(r), LimiterAfter(l, r), rest, w);
      if r.verdict == Rewound {
        PrependWindowCall(l, Call(2, r.peeked), calls, w);
        assert CallsOf(rounds) == [Call(2, r.peeked)] + calls;
      } else {
        PrependWindowCall(l1, Call(r.charge, r.at), calls, w);
        PrependWindowCall(l, Call(2, r.peeked), [Call(r.charge, r.at)] + calls, w);
        assert CallsOf(rounds) == [Call(2, r.peeked)] + ([Call(r.charge, r.at)] + calls);
      }
    }
  }

  lemma PrependWindowCall(l: Limiter, c: Call, calls: seq<Call>, w: int)
    ensures var l' := Charge(l, c.n, c.now);
            GrantedInWindow(l, [c] + calls, w) ==
            (if WithinBudget(l') && l'.windowStart == w then c.n else 0) + GrantedInWindow(l', calls, w)
  {
    assert ([c] + calls)[1..] == calls;
  }

  /** Within any one window of the limiter at most the limit is delivered. */
  lemma DeliveryWindowBound(agentId: bytes, amb: Ambient, last: uint64, l: Limiter, s: bytes, w: int)
    requires Monotone(amb.clock) && l.windowStart <= amb.clock(0)
    requires NoWrap(l, CallsOf(Loop(agentId, amb, 0, last, Some(l), s).rounds))
    ensures DeliveredInWindow(l, Loop(agentId, amb, 0, last, Some(l), s).rounds, w) <= l.limitPerSec
  {
    hide Loop;
    CallsOfLoop(agentId, amb, 0, last, l, s, 0, l.windowStart);
    WindowCallsOfLoop(agentId, amb, 0, last, l, s, w);
    WindowBound(l, CallsOf(Loop(agentId, amb, 0, last, Some(l), s).rounds), w);
  }

  /** After an over-budget frame the loop judges another one only in a new window. */
  lemma OverBudgetEndsWindow(agentId: bytes, amb: Ambient, i: nat, last: uint64, l: Limiter, s: bytes)
    requires var rounds := Loop(agentId, amb, i, last, Some(l), s).rounds;
             |rounds| > 1 && rounds[0].verdict == OverBudget
    ensures var r := Loop(agentId, amb, i, last, Some(l), s).rounds[0];
            var lim := NextLimiter(r, Some(Charge(l, 2, r.peeked))).value;
            lim.bytesInWindow + 2 < TWO_64 ==>
            Loop(agentId, amb, i, last, Some(l), s).rounds[1].peeked - lim.windowStart >= SECOND
  {
    hide Loop, ReadFrame, FrameBytes, Charge, WithinBudget;
    var rounds := Loop(agentId, amb, i, last, Some(l), s).rounds;
    var r, lim', rest := FirstRound(agentId, amb, i, last, Some(l), s);
    SecondPeek(agentId, amb, i + 1, NextLast(r), lim'.value, rest);
  }

  lemma SecondPeek(agentId: bytes, amb: Ambient, i: nat, last: uint64, l: Limiter, s: bytes)
    requires Loop(agentId, amb, i, last, Some(l), s).rounds != [] && !WithinBudget(l)
    ensures l.bytesInWindow + 2 < TWO_64 ==>
            Loop(agentId, amb, i, last, Some(l), s).rounds[0].peeked - l.windowStart >= SECOND
  {
    hide ReadFrame, Judge, NextLast, NextLimiter;
    var r, lim', rest := FirstRound(agentId, amb, i, last, Some(l), s);
    JudgeKeeps(agentId, amb.clock(2 * i), amb.clock(2 * i + 1), last, ChargeMaybe(Some(l), 2, amb.clock(2 * i)),
               r.frame);
    if l.bytesInWindow + 2 < TWO_64 { AddNoWrap(l.bytesInWindow, 2); }
  }

  // ---- The end of the loop --------------------------------------------------

  /** What is left of a stream once n frames have been read from it. */
  function LeftAfter(s: bytes, n: nat): bytes
    decreases n
  {
    if n == 0 then s else match ReadFrame(s) case Broken(_, _) => [] case Got(_, rest) => LeftAfter(rest, n - 1)
  }

  /** The limiter after a list of calls. */
  function After(l: Limiter, calls: seq<Call>): Limiter
    decreases |calls|
  {
    if calls == [] then l else After(Charge(l, calls[0].n, calls[0].now), calls[1..])
  }

  predicate OverLimit(lim: Option<Limiter>, calls: seq<Call>)
  {
    lim.Some? && !WithinBudget(After(lim.value, calls))
  }

  /** The peek before frame n is refused, after the limiter calls for the frames before it. */
  predicate PeekRefused(amb: Ambient, lim: Option<Limiter>, n: nat, before: seq<Round>)
  {
    OverLimit(lim, CallsOf(before) + [Call(2, amb.clock(2 * n))])
  }

  lemma {:induction false} AfterJoin(l: Limiter, a: seq<Call>, b: seq<Call>)
    ensures After(l, a + b) == After(After(l, a), b)
    decreases |a|
  {
    hide Charge;
    if a == [] {
      assert a + b == b;
    } else {
      assert (a + b)[1..] == a[1..] + b;
      AfterJoin(Charge(l, a[0].n, a[0].now), a[1..], b);
    }
  }

  /** The calls for one frame leave the limiter as its judgement does. */
  lemma AfterRound(l: Limiter, r: Round, before: seq<Round>, more: seq<Call>)
    ensures var peeked := Some(Charge(l, 2, r.peeked));
            NextLimiter(r, peeked).Some?
            && After(l, CallsOf([r] + before) + more) == After(NextLimiter(r, peeked).value, CallsOf(before) + more)
  {
    hide Charge;
    assert ([r] + before)[1..] == before;
    var own := [Call(2, r.peeked)] + if r.verdict == Rewound then [] else [Call(r.charge, r.at)];
    assert CallsOf([r] + before) + more == own + (CallsOf(before) + more);
    AfterJoin(l, own, CallsOf(before) + more);
    if r.verdict == Rewound {
      assert own == [Call(2, r.peeked)] && own[1..] == [];
    } else {
      assert own[1..] == [Call(r.charge, r.at)] && own[1..][1..] == [];
    }
  }

  lemma NoLimiter(r: Round)
    ensures NextLimiter(r, None) == None
  {
  }

  lemma OverLimitShift(lim: Option<Limiter>, r: Round, before: seq<Round>, more: seq<Call>)
    ensures OverLimit(lim, CallsOf([r] + before) + more) <==>
            OverLimit(NextLimiter(r, ChargeMaybe(lim, 2, r.peeked)), CallsOf(before) + more)
  {
    hide After, Charge, NextLimiter, CallsOf, WithinBudget;
    if lim.Some? {
      AfterRound(lim.value, r, before, more);
    } else {
      NoLimiter(r);
    }
  }

  lemma PeekAlone(lim: Option<Limiter>, now: int)
    ensures OverLimit(lim, CallsOf([]) + [Call(2, now)]) <==> !Passes(ChargeMaybe(lim, 2, now))
  {
    hide Charge;
    var calls := [Call(2, now)];
    assert CallsOf([]) + calls == calls && calls[1..] == [];
    if lim.Some? { assert After(lim.value, calls) == After(Charge(lim.value, 2, now), []); }
  }

  /** Why the loop ended, by its context, the bytes left and the limiter calls made. */
  ghost predicate EndsFor(amb: Ambient, lim: Option<Limiter>, s: bytes, i: nat, run: Run)
  {
    var n := i + |run.rounds|;
    var left := LeftAfter(s, |run.rounds|);
    var refused := PeekRefused(amb, lim, n, run.rounds);
    && (run.exit == Cancelled <==> amb.cancelled(n))
    && (run.exit == Closed <==> !amb.cancelled(n) && |left| < 2)
    && (run.exit == Flooded <==> !amb.cancelled(n) && |left| >= 2 && refused)
    && (run.exit.ReadFailed? ==> ReadFrame(left).Broken? && run.exit.error == ReadFrame(left).error)
  }

  /** The loop went past frame number i + k. */
  predicate GoesOn(amb: Ambient, lim: Option<Limiter>, s: bytes, i: nat, rounds: seq<Round>, k: nat)
    requires k < |rounds|
  {
    !amb.cancelled(i + k) && |LeftAfter(s, k)| >= 2 && !PeekRefused(amb, lim, i + k, rounds[..k])
  }

  /** The exit, exactly: cancelled when the context is, closed when the stream is at its end,
      flooded when the last peek goes over the limit, and otherwise on a broken frame. No
      frame is judged before which one of the first three held, and a loop ended by its
      budget says so last. */
  lemma {:induction false} ExitIff(agentId: bytes, amb: Ambient, i: nat, last: uint64, lim: Option<Limiter>, s: bytes)
    ensures var run := Loop(agentId, amb, i, last, lim, s);
            && EndsFor(amb, lim, s, i, run)
            && (forall k :: 0 <= k < |run.rounds| ==> GoesOn(amb, lim, s, i, run.rounds, k))
            && (run.exit == Flooded ==>
                  EventsOf(agentId, run) == EventsOfRounds(agentId, run.rounds) + [PipeFlood])
    decreases |s|
  {
    hide Loop, ReadFrame, Judge, NextLast, NextLimiter, ChargeMaybe, EndsFor, GoesOn;
    var run := Loop(agentId, amb, i, last, lim, s);
    if run.rounds == [] {
      EndsAtOnce(agentId, amb, i, last, lim, s);
    } else {
      var r, lim', rest := FirstRound(agentId, amb, i, last, lim, s);
      JudgeKeeps(agentId, amb.clock(2 * i), amb.clock(2 * i + 1), last, ChargeMaybe(lim, 2, amb.clock(2 * i)), r.frame);
      ExitIff(agentId, amb, i + 1, NextLast(r), lim', rest);
      var run' := Loop(agentId, amb, i + 1, NextLast(r), lim', rest);
      EndsLater(amb, i, lim, s, r, run', rest);
      forall k | 0 <= k < |run.rounds|
        ensures GoesOn(amb, lim, s, i, run.rounds, k)
      {
        if k == 0 {
          GoesOnAtOnce(agentId, amb, i, last, lim, s);
        } else {
          GoesOnLater(amb, i, lim, s, r, run'.rounds, rest, k - 1);
        }
      }
    }
  }

  lemma EndsAtOnce(agentId: bytes, amb: Ambient, i: nat, last: uint64, lim: Option<Limiter>, s: bytes)
    requires Loop(agentId, amb, i, last, lim, s).rounds == []
    ensures EndsFor(amb, lim, s, i, Loop(agentId, amb, i, last, lim, s))
  {
    hide ReadFrame, Judge, NextLast, NextLimiter, ChargeMaybe, Passes, OverLimit, CallsOf;
    PeekAlone(lim, amb.clock(2 * i));
    assert LeftAfter(s, 0) == s;
  }

  lemma EndsLater(amb: Ambient, i: nat, lim: Option<Limiter>, s: bytes, r: Round, run: Run, rest: bytes)
    requires ReadFrame(s) == Got(r.frame, rest) && r.peeked == amb.clock(2 * i)
    requires EndsFor(amb, NextLimiter(r, ChargeMaybe(lim, 2, r.peeked)), rest, i + 1, run)
    ensures EndsFor(amb, lim, s, i, Prepend(r, run))
  {
    hide ReadFrame, NextLimiter, ChargeMaybe, OverLimit, CallsOf;
    assert LeftAfter(s, |run.rounds| + 1) == LeftAfter(rest, |run.rounds|);
    OverLimitShift(lim, r, run.rounds, [Call(2, amb.clock(2 * (i + 1 + |run.rounds|)))]);
  }

  lemma GoesOnAtOnce(agentId: bytes, amb: Ambient, i: nat, last: uint64, lim: Option<Limiter>, s: bytes)
    requires Loop(agentId, amb, i, last, lim, s).rounds != []
    ensures GoesOn(amb, lim, s, i, Loop(agentId, amb, i, last, lim, s).rounds, 0)
  {
    hide ReadFrame, Judge, NextLast, NextLimiter, ChargeMaybe, Passes, OverLimit, CallsOf;
    PeekAlone(lim, amb.clock(2 * i));
    assert Loop(agentId, amb, i, last, lim, s).rounds[..0] == [];
    assert LeftAfter(s, 0) == s;
  }

  lemma GoesOnLater(amb: Ambient, i: nat, lim: Option<Limiter>, s: bytes, r: Round, rounds: seq<Round>, rest: bytes,
                    k: nat)
    requires ReadFrame(s) == Got(r.frame, rest) && r.peeked == amb.clock(2 * i) && k < |rounds|
    requires GoesOn(amb, NextLimiter(r, ChargeMaybe(lim, 2, r.peeked)), rest, i + 1, rounds, k)
    ensures GoesOn(amb, lim, s, i, [r] + rounds, k + 1)
  {
    hide ReadFrame, NextLimiter, ChargeMaybe, OverLimit, CallsOf;
    assert LeftAfter(s, k + 1) == LeftAfter(rest, k);
    assert ([r] + rounds)[..k + 1] == [r] + rounds[..k];
    OverLimitShift(lim, r, rounds[..k], [Call(2, amb.clock(2 * (i + 1 + k)))]);
  }

  /** A frame is charged the bytes of its header under the pipe's identity and of its
      payload. */
  predicate ChargedAsSent(agentId: bytes, r: Round)
  {
    var h := Stamp(agentId, r.frame).header;
    Addressable(h) ==> r.charge == |MarshalHeader(h)| + h.payloadLen
  }

  /** Which frames the budget drops, exactly: those that do not rewind and whose own charge,
      after all calls before it, is over the limit. */
  lemma {:induction false} OverBudgetIff(agentId: bytes, amb: Ambient, i: nat, last: uint64, lim: Option<Limiter>,
                                         s: bytes, j: nat)
    requires j < |Loop(agentId, amb, i, last, lim, s).rounds|
    ensures var rounds := Loop(agentId, amb, i, last, lim, s).rounds;
            var r := rounds[j];
            && r.peeked == amb.clock(2 * (i + j)) && r.at == amb.clock(2 * (i + j) + 1)
            && ChargedAsSent(agentId, r)
            && (r.verdict == OverBudget <==> r.verdict != Rewound && OverLimit(lim, CallsOf(rounds[..j + 1])))
    decreases |s|
  {
    hide Loop, ReadFrame, Judge, NextLimiter, ChargeMaybe, NextLast, OverLimit, ChargedAsSent, CallsOf;
    var rounds := Loop(agentId, amb, i, last, lim, s).rounds;
    var r, lim', rest := FirstRound(agentId, amb, i, last, lim, s);
    JudgeKeeps(agentId, amb.clock(2 * i), amb.clock(2 * i + 1), last, ChargeMaybe(lim, 2, amb.clock(2 * i)), r.frame);
    if j > 0 {
      OverBudgetIff(agentId, amb, i + 1, NextLast(r), lim', rest, j - 1);
      assert rounds[..j + 1] == [r] + rounds[1..][..j];
      OverLimitShift(lim, r, rounds[1..][..j], []);
      assert CallsOf([r] + rounds[1..][..j]) + [] == CallsOf([r] + rounds[1..][..j]);
      assert CallsOf(rounds[1..][..j]) + [] == CallsOf(rounds[1..][..j]);
    } else {
      assert rounds[..1] == [r];
      ChargedOnce(agentId, amb.clock(2 * i), amb.clock(2 * i + 1), last, lim, r.frame);
    }
  }

  lemma NothingMore(lim: Option<Limiter>)
    ensures OverLimit(lim, CallsOf([])) <==> !Passes(lim)
  {
  }

  lemma ChargedOnce(agentId: bytes, peeked: int, at: int, last: uint64, lim: Option<Limiter>, f: Frame)
    ensures var r := Judge(agentId, peeked, at, last, ChargeMaybe(lim, 2, peeked), f);
            && ChargedAsSent(agentId, r)
            && (r.verdict == OverBudget <==> r.verdict != Rewound && OverLimit(lim, CallsOf([r])))
  {
    hide ChargeMaybe, MarshalHeader, HeaderSize, OverLimit, CallsOf, Passes;
    var r := Judge(agentId, peeked, at, last, ChargeMaybe(lim, 2, peeked), f);
    var h := Stamp(agentId, f).header;
    if Addressable(h) { HeaderSizeIsLength(h); }
    OverLimitShift(lim, r, [], []);
    assert [r] + [] == [r];
    assert CallsOf([r]) + [] == CallsOf([r]);
    assert CallsOf([]) + [] == CallsOf([]);
    NothingMore(NextLimiter(r, ChargeMaybe(lim, 2, peeked)));
  }

  // ---- The charge -----------------------------------------------------------

  /** A frame is charged no more than its wire bytes exactly when the stamped identity is not
      longer than the claimed one; a shorter claim is charged for bytes that never came. */
  lemma ChargeAtMostWireIff(agentId: bytes, f: Frame)
    requires Carried(f) && |agentId| < TWO_64
    ensures FrameBytes(agentId, Sent(f)) <= |WriteFrame(f)| <==> |agentId| <= |f.header.fromId|
  {
    hide MarshalHeader, VarintLen;
    assert Sent(f).header.payloadLen == |f.payload|;
    HeaderSizeIsLength(Sent(f).header);
    VarintLenMonotone(|agentId|, |f.header.fromId|);
    VarintLenMonotone(|f.header.fromId|, |agentId|);
  }

  lemma VarintLenMonotone(a: nat, b: nat)
    ensures a <= b ==> VarintLen(a) <= VarintLen(b)
  {
    if a <= b {
      VarintLenIsLength(a);
      VarintLenIsLength(b);
      EncodeLength(b, |EncodeVarint(b)|);
      EncodeLength(a, |EncodeVarint(b)|);
    }
  }

  /** For any bytes on the wire, canonical or not, a frame under the pipe's own identity is
      never overcharged. */
  lemma OwnFrameNeverOvercharged(agentId: bytes, s: bytes)
    requires ReadFrame(s).Got? && ReadFrame(s).value.header.fromId == agentId
    ensures FrameBytes(agentId, ReadFrame(s).value) <= |s| - |ReadFrame(s).rest|
  {
    HeaderSizeAtMostWire(s);
  }
}
