/** The read loop of one pipe: decode a frame, stamp the pipe's identity on it, enforce the
    order of sequence numbers, charge the byte budget, deliver. */
module Router {
  import opened Wrappers
  import opened Mus
  import opened Frame
  import opened RateLimiter

  /** The security events the loop emits. */
  datatype Event = IdentityOverwrite(claimed: bytes) | SeqNoRewind(seqNo: uint64, prev: uint64) | PipeFlood

  datatype Verdict = Delivered | Rewound | OverBudget

  /** One decoded frame: the last sequence number before it, when the limiter was asked and
      for how much, and what became of the frame. */
  datatype Round = Round(frame: Frame, prev: uint64, peeked: int, at: int, charge: nat, verdict: Verdict)

  datatype Exit = Cancelled | Closed | Flooded | ReadFailed(error: FrameError)

  datatype Run = Run(rounds: seq<Round>, exit: Exit)

  /** The loop reads the clock once per limiter call and polls its context once per frame. */
  datatype Ambient = Ambient(clock: nat -> int, cancelled: nat -> bool)

  function Stamp(agentId: bytes, f: Frame): Frame
  {
    f.(header := f.header.(fromId := agentId))
  }

  /** The bytes charged for a frame: those of its canonical encoding under the stamped
      identity. */
  function FrameBytes(agentId: bytes, f: Frame): nat
  {
    HeaderSize(Stamp(agentId, f).header) + f.header.payloadLen
  }

  predicate Rewinds(seqNo: uint64, last: uint64)
  {
    seqNo <= last && last > 0
  }

  /** A pipe without a limiter is never refused. */
  function ChargeMaybe(l: Option<Limiter>, n: nat, now: int): Option<Limiter>
  {
    if l.None? then None else Some(Charge(l.value, n, now))
  }

  predicate Passes(l: Option<Limiter>)
  {
    l.None? || WithinBudget(l.value)
  }

  /** The judgement of one frame, given the limiter after its peek was charged. */
  function Judge(agentId: bytes, peeked: int, at: int, last: uint64, lim: Option<Limiter>, f: Frame): Round
  {
    var n := FrameBytes(agentId, f);
    Round(f, last, peeked, at, n,
          if Rewinds(f.header.seqNo, last) then Rewound
          else if Passes(ChargeMaybe(lim, n, at)) then Delivered
          else OverBudget)
  }

  /** The state one frame leaves behind. The sequence number is taken over before the
      budget is looked at. */
  function NextLast(r: Round): uint64
  {
    if r.verdict == Rewound then r.prev else r.frame.header.seqNo
  }

  function NextLimiter(r: Round, lim: Option<Limiter>): Option<Limiter>
  {
    if r.verdict == Rewound then lim else ChargeMaybe(lim, r.charge, r.at)
  }

  /** The loop over the rest of the stream s, from frame number i on. */
  function Loop(agentId: bytes, amb: Ambient, i: nat, last: uint64, lim: Option<Limiter>, s: bytes): Run
    decreases |s|
  {
    var peeked := ChargeMaybe(lim, 2, amb.clock(2 * i));
    var f := ReadFrame(s);
    if amb.cancelled(i) then Run([], Cancelled)
    else if |s| < 2 then Run([], Closed)
    else if !Passes(peeked) then Run([], Flooded)
    else if f.Broken? then Run([], ReadFailed(f.error))
    else
      ReadFrameExtend(s, []);
      var r := Judge(agentId, amb.clock(2 * i), amb.clock(2 * i + 1), last, peeked, f.value);
      Prepend(r, Loop(agentId, amb, i + 1, NextLast(r), NextLimiter(r, peeked), f.rest))
  }

  function Prepend(r: Round, run: Run): Run
  {
    run.(rounds := [r] + run.rounds)
  }

  /** What the handlers get to see of the judged frames. */
  function DeliveredOf(agentId: bytes, rounds: seq<Round>): seq<Frame>
  {
    if rounds == [] then []
    else (if rounds[0].verdict.Delivered? then [Stamp(agentId, rounds[0].frame)] else [])
         + DeliveredOf(agentId, rounds[1..])
  }

  /** What the security sink gets to see of one judged frame. */
  function EventsOfRound(agentId: bytes, r: Round): seq<Event>
  {
    (if r.frame.header.fromId != agentId then [IdentityOverwrite(r.frame.header.fromId)] else [])
    + match r.verdict
      case Delivered => []
      case Rewound => [SeqNoRewind(r.frame.header.seqNo, r.prev)]
      case OverBudget => [PipeFlood]
  }

  function EventsOfRounds(agentId: bytes, rounds: seq<Round>): seq<Event>
  {
    if rounds == [] then [] else EventsOfRound(agentId, rounds[0]) + EventsOfRounds(agentId, rounds[1..])
  }

  function EventsOf(agentId: bytes, run: Run): seq<Event>
  {
    EventsOfRounds(agentId, run.rounds) + (if run.exit == Flooded then [PipeFlood] else [])
  }

  // ---- The loop as it runs --------------------------------------------------

  class Pipe {
    const agentId: bytes
    const reader: Reader
    const limiter: ByteRateLimiter?
    var lastSeqNo: uint64

    constructor (agentId: bytes, reader: Reader, limiter: ByteRateLimiter?)
      ensures this.agentId == agentId && this.reader == reader && this.limiter == limiter && lastSeqNo == 0
    {
      this.agentId, this.reader, this.limiter, lastSeqNo := agentId, reader, limiter, 0;
    }

    function Limit(): Option<Limiter>
      reads limiter
    {
      if limiter == null then None else Some(limiter.State())
    }

    /** The loop's question to the limiter, if there is one. */
    method Allow(n: nat, now: int) returns (ok: bool)
      modifies limiter
      ensures Limit() == ChargeMaybe(old(Limit()), n, now)
      ensures ok <==> Passes(Limit())
    {
      if limiter == null {
        return true;
      }
      ModAdd(0, n);
      ok := limiter.Allow(n % TWO_64, now);
      ChargeModulo(old(limiter.State()), n, now);
    }

    /** The loop, with the frames handed to the handlers and the events handed to the
        security sink as it goes. */
    method ReadLoop(amb: Ambient) returns (delivered: seq<Frame>, events: seq<Event>, run: Run)
      modifies this`lastSeqNo, reader, limiter
      ensures run == Loop(agentId, amb, 0, old(lastSeqNo), old(Limit()), old(reader.data))
      ensures delivered == DeliveredOf(agentId, run.rounds)
      ensures events == EventsOf(agentId, run)
    {
      hide Loop, EventsOfRound;
      ghost var whole := Loop(agentId, amb, 0, lastSeqNo, Limit(), reader.data);
      delivered, events := [], [];
      var rounds: seq<Round> := [];
      var i := 0;
      AppendNothing(whole);
      while true
        invariant whole == AppendTo(rounds, Loop(agentId, amb, i, lastSeqNo, Limit(), reader.data))
        invariant delivered == DeliveredOf(agentId, rounds)
        invariant events == EventsOfRounds(agentId, rounds)
        decreases |reader.data|
      {
        var ready, f, exit := Fetch(amb, i);
        if !ready {
          run := Run(rounds, exit);
          assert rounds + [] == rounds;
          if exit == Flooded {
            events := events + [PipeFlood];
          }
          return;
        }
        var r, ds, es := Handle(amb.clock(2 * i), amb.clock(2 * i + 1), f);
        AppendMore(rounds, r, Loop(agentId, amb, i + 1, lastSeqNo, Limit(), reader.data));
        DeliveredSnoc(agentId, rounds, r);
        EventsSnoc(agentId, rounds, r);
        rounds, delivered, events, i := rounds + [r], delivered + ds, events + es, i + 1;
      }
    }

    /** The first half of an iteration: the next frame, or the reason why there is none. */
    method Fetch(amb: Ambient, i: nat) returns (ready: bool, f: Frame, exit: Exit)
      modifies reader, limiter
      ensures !ready ==> Loop(agentId, amb, i, lastSeqNo, old(Limit()), old(reader.data)) == Run([], exit)
      ensures ready ==>
                && |reader.data| < |old(reader.data)|
                && Limit() == ChargeMaybe(old(Limit()), 2, amb.clock(2 * i))
                && var r := Judge(agentId, amb.clock(2 * i), amb.clock(2 * i + 1), lastSeqNo, Limit(), f);
                   Loop(agentId, amb, i, lastSeqNo, old(Limit()), old(reader.data)) ==
                   Prepend(r, Loop(agentId, amb, i + 1, NextLast(r), NextLimiter(r, Limit()), reader.data))
    {
      hide ReadFrame, ChargeMaybe, Passes, Judge, NextLast, NextLimiter;
      ghost var s := reader.data;
      ready, f, exit := false, Frame(Header(0, 0, [], [], 0, 0), []), Closed;
      if amb.cancelled(i) {
        exit := Cancelled;
        return;
      }
      if |reader.data| < 2 {
        return;
      }
      var ok := Allow(2, amb.clock(2 * i));
      if !ok {
        exit := Flooded;
        return;
      }
      var got := UnmarshalFrame(reader);
      if got.Broken? {
        exit := ReadFailed(got.error);
        return;
      }
      ReadFrameExtend(s, []);
      ready, f := true, got.value;
    }

    /** The second half: identity, order and budget. */
    method Handle(peeked: int, at: int, f: Frame) returns (r: Round, delivered: seq<Frame>, events: seq<Event>)
      modifies this`lastSeqNo, limiter
      ensures r == Judge(agentId, peeked, at, old(lastSeqNo), old(Limit()), f)
      ensures lastSeqNo == NextLast(r) && Limit() == NextLimiter(r, old(Limit()))
      ensures delivered == DeliveredOf(agentId, [r])
      ensures events == EventsOfRound(agentId, r)
    {
      hide ChargeMaybe, Passes, HeaderSize;
      delivered, events := [], [];
      var hdr := f.header;
      if hdr.fromId != agentId {
        events := events + [IdentityOverwrite(hdr.fromId)];
        hdr := hdr.(fromId := agentId);
      }
      var n := HeaderSize(hdr) + hdr.payloadLen;
      assert hdr == Stamp(agentId, f).header;
      var prev := lastSeqNo;
      if hdr.seqNo <= prev && prev > 0 {
        r := Round(f, prev, peeked, at, n, Rewound);
        events := events + [SeqNoRewind(hdr.seqNo, prev)];
        return;
      }
      lastSeqNo := hdr.seqNo;
      var ok := Allow(n, at);
      if !ok {
        r := Round(f, prev, peeked, at, n, OverBudget);
        events := events + [PipeFlood];
        return;
      }
      r := Round(f, prev, peeked, at, n, Delivered);
      delivered := [f.(header := hdr)];
      assert [r][1..] == [];
    }
  }

  lemma ChargeModulo(l: Limiter, n: nat, now: int)
    ensures Charge(l, n % TWO_64, now) == Charge(l, n, now)
  {
  }

  function AppendTo(rounds: seq<Round>, run: Run): Run
  {
    run.(rounds := rounds + run.rounds)
  }

  lemma AppendNothing(run: Run)
    ensures AppendTo([], run) == run
  {
    assert [] + run.rounds == run.rounds;
  }

  lemma AppendMore(rounds: seq<Round>, r: Round, run: Run)
    ensures AppendTo(rounds, Prepend(r, run)) == AppendTo(rounds + [r], run)
  {
    assert rounds + ([r] + run.rounds) == (rounds + [r]) + run.rounds;
  }

  lemma DeliveredCons(agentId: bytes, r: Round, rounds: seq<Round>)
    ensures DeliveredOf(agentId, [r] + rounds) ==
            (if r.verdict.Delivered? then [Stamp(agentId, r.frame)] else []) + DeliveredOf(agentId, rounds)
  {
    assert ([r] + rounds)[1..] == rounds;
  }

  lemma {:induction false} DeliveredSnoc(agentId: bytes, rounds: seq<Round>, r: Round)
    ensures DeliveredOf(agentId, rounds + [r]) == DeliveredOf(agentId, rounds) + DeliveredOf(agentId, [r])
  {
    hide Stamp;
    if rounds == [] {
      assert [] + [r] == [r];
    } else {
      hide DeliveredOf;
      DeliveredCons(agentId, rounds[0], rounds[1..] + [r]);
      DeliveredCons(agentId, rounds[0], rounds[1..]);
      DeliveredSnoc(agentId, rounds[1..], r);
      assert [rounds[0]] + (rounds[1..] + [r]) == rounds + [r];
      assert [rounds[0]] + rounds[1..] == rounds;
    }
  }

  lemma {:induction false} EventsSnoc(agentId: bytes, rounds: seq<Round>, r: Round)
    ensures EventsOfRounds(agentId, rounds + [r]) == EventsOfRounds(agentId, rounds) + EventsOfRound(agentId, r)
  {
    hide EventsOfRound;
    if rounds == [] {
      assert [] + [r] == [r] && [r][1..] == [];
    } else {
      assert (rounds + [r])[1..] == rounds[1..] + [r];
      EventsSnoc(agentId, rounds[1..], r);
    }
  }
}
