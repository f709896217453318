/** The byte budget of one pipe: a counter that restarts when a call comes a second or more
    after its window began. */
module RateLimiter {
  import opened Mus

  const SECOND: nat := 1_000_000_000 // nanoseconds

  datatype Limiter = Limiter(windowStart: int, bytesInWindow: uint64, limitPerSec: uint64)

  /** The state after a call of `Allow` with n bytes. */
  function Charge(l: Limiter, n: nat, now: int): Limiter
  {
    if now - l.windowStart >= SECOND then l.(windowStart := now, bytesInWindow := Add64(0, n))
    else l.(bytesInWindow := Add64(l.bytesInWindow, n))
  }

  predicate WithinBudget(l: Limiter)
  {
    l.bytesInWindow <= l.limitPerSec
  }

  class ByteRateLimiter {
    var windowStart: int
    var bytesInWindow: uint64
    const limitPerSec: uint64

    constructor (bytesPerSec: uint64, now: int)
      ensures State() == Limiter(now, 0, bytesPerSec)
    {
      windowStart, bytesInWindow, limitPerSec := now, 0, bytesPerSec;
    }

    function State(): Limiter
      reads this
    {
      Limiter(windowStart, bytesInWindow, limitPerSec)
    }

    method Allow(n: uint64, now: int) returns (ok: bool)
      modifies this
      ensures State() == Charge(old(State()), n, now)
      ensures ok <==> WithinBudget(State())
    {
      if now - windowStart >= SECOND {
        windowStart := now;
        bytesInWindow := 0;
      }
      bytesInWindow := (bytesInWindow + n) % TWO_64;
      ok := bytesInWindow <= limitPerSec;
    }
  }

  // ---- Runs of calls --------------------------------------------------------

  datatype Call = Call(n: nat, now: int)

  /** The calls come at non-decreasing times, none before t. */
  predicate Ordered(t: int, calls: seq<Call>)
    decreases |calls|
  {
    calls == [] || (t <= calls[0].now && Ordered(calls[0].now, calls[1..]))
  }

  /** In no window of the calls does the 64-bit counter wrap. */
  predicate NoWrap(l: Limiter, calls: seq<Call>)
    decreases |calls|
  {
    calls == [] ||
    ((if calls[0].now - l.windowStart >= SECOND then 0 else l.bytesInWindow) + calls[0].n < TWO_64
     && NoWrap(Charge(l, calls[0].n, calls[0].now), calls[1..]))
  }

  function Verdicts(l: Limiter, calls: seq<Call>): (vs: seq<bool>)
    ensures |vs| == |calls|
    decreases |calls|
  {
    if calls == [] then []
    else
      var l' := Charge(l, calls[0].n, calls[0].now);
      [WithinBudget(l')] + Verdicts(l', calls[1..])
  }

  /** The bytes granted during the half-open second that begins at a. */
  function GrantedIn(l: Limiter, calls: seq<Call>, a: int): nat
    decreases |calls|
  {
    if calls == [] then 0
    else
      var l' := Charge(l, calls[0].n, calls[0].now);
      (if WithinBudget(l') && a <= calls[0].now < a + SECOND then calls[0].n else 0)
      + GrantedIn(l', calls[1..], a)
  }

  lemma AddNoWrap(a: nat, b: nat)
    requires a + b < TWO_64
    ensures Add64(a, b) == a + b
  {
  }

  /** Once a window has refused a call it refuses every later one. */
  lemma {:induction false} DenialLasts(l: Limiter, calls: seq<Call>, k: nat)
    requires NoWrap(l, calls) && !WithinBudget(l) && k < |calls|
    requires forall i :: 0 <= i < |calls| ==> calls[i].now - l.windowStart < SECOND
    ensures !Verdicts(l, calls)[k]
    decreases |calls|
  {
    AddNoWrap(l.bytesInWindow, calls[0].n);
    if k > 0 {
      assert forall i :: 0 <= i < |calls[1..]| ==> calls[1..][i] == calls[i + 1];
      DenialLasts(Charge(l, calls[0].n, calls[0].now), calls[1..], k - 1);
    }
  }

  /** Without the no-wrap proviso that can fail, and only so: the refused window grants the
      next call exactly when the sum passes 2^64 and lands within the limit again. */
  lemma GrantAfterDenialIff(l: Limiter, n: uint64, now: int)
    requires !WithinBudget(l) && now - l.windowStart < SECOND
    ensures WithinBudget(Charge(l, n, now)) <==>
            (l.bytesInWindow + n >= TWO_64 && l.bytesInWindow + n - TWO_64 <= l.limitPerSec)
  {
    if l.bytesInWindow + n < TWO_64 {
      AddNoWrap(l.bytesInWindow, n);
    } else {
      assert (l.bytesInWindow + n) % TWO_64 == l.bytesInWindow + n - TWO_64;
    }
  }

  function Left(l: Limiter): nat
  {
    if WithinBudget(l) then l.limitPerSec - l.bytesInWindow else 0
  }

  /** The invariant behind the rate bound. A window that began at or after a is the last one
      that can grant in [a, a + 1s); before any call at a or later two may still come. */
  lemma {:induction false} GrantedBound(l: Limiter, calls: seq<Call>, a: int, t: int)
    requires l.windowStart <= t && Ordered(t, calls) && NoWrap(l, calls)
    ensures GrantedIn(l, calls, a) <=
            if l.windowStart >= a then Left(l)
            else if t >= a then Left(l) + l.limitPerSec
            else 2 * l.limitPerSec
    decreases |calls|
  {
    if calls != [] {
      var c := calls[0];
      var l' := Charge(l, c.n, c.now);
      AddNoWrap(if c.now - l.windowStart >= SECOND then 0 else l.bytesInWindow, c.n);
      if a + SECOND <= c.now {
        LateCallsOutside(l, calls, a, t);
      } else {
        GrantedBound(l', calls[1..], a, c.now);
      }
    }
  }

  lemma {:induction false} LateCallsOutside(l: Limiter, calls: seq<Call>, a: int, t: int)
    requires Ordered(t, calls) && (calls != [] ==> a + SECOND <= calls[0].now)
    ensures GrantedIn(l, calls, a) == 0
    decreases |calls|
  {
    if calls != [] {
      LateCallsOutside(Charge(l, calls[0].n, calls[0].now), calls[1..], a, calls[0].now);
    }
  }

  /** No half-open second sees more than twice the limit granted. */
  lemma RateBound(l: Limiter, calls: seq<Call>, a: int)
    requires Ordered(l.windowStart, calls) && NoWrap(l, calls)
    ensures GrantedIn(l, calls, a) <= 2 * l.limitPerSec
  {
    GrantedBound(l, calls, a, l.windowStart);
  }

  /** The bytes granted by the calls that fall in the limiter's window that began at w. */
  function GrantedInWindow(l: Limiter, calls: seq<Call>, w: int): nat
    decreases |calls|
  {
    if calls == [] then 0
    else
      var l' := Charge(l, calls[0].n, calls[0].now);
      (if WithinBudget(l') && l'.windowStart == w then calls[0].n else 0) + GrantedInWindow(l', calls[1..], w)
  }

  /** Every single window of a run grants at most the limit: the one the run starts in what is
      left of it, later ones a full budget each. */
  lemma {:induction false} WindowBound(l: Limiter, calls: seq<Call>, w: int)
    requires Ordered(l.windowStart, calls) && NoWrap(l, calls)
    ensures GrantedInWindow(l, calls, w) <=
            if l.windowStart == w then Left(l) else if l.windowStart < w then l.limitPerSec else 0
    decreases |calls|
  {
    if calls != [] {
      var c := calls[0];
      AddNoWrap(if c.now - l.windowStart >= SECOND then 0 else l.bytesInWindow, c.n);
      OrderedFromEarlier(Charge(l, c.n, c.now).windowStart, c.now, calls[1..]);
      WindowBound(Charge(l, c.n, c.now), calls[1..], w);
    }
  }

  lemma OrderedFromEarlier(t: int, u: int, calls: seq<Call>)
    requires t <= u && Ordered(u, calls)
    ensures Ordered(t, calls)
  {
  }

  /** Twice the limit is reached: a full budget late in one window, another one at the start
      of the next. */
  lemma RateBoundTight(limit: uint64)
    ensures var l := Limiter(0, 0, limit);
            var calls := [Call(limit, SECOND - 1), Call(limit, SECOND)];
            Ordered(0, calls) && NoWrap(l, calls) && GrantedIn(l, calls, SECOND - 1) == 2 * limit
  {
    var l := Limiter(0, 0, limit);
    var c0, c1 := Call(limit, SECOND - 1), Call(limit, SECOND);
    var l1 := Charge(l, c0.n, c0.now);
    assert [c0, c1][1..] == [c1] && [c1][1..] == [];
    assert GrantedIn(l1, [c1], SECOND - 1) == limit;
    assert GrantedIn(l, [c0, c1], SECOND - 1) == limit + GrantedIn(l1, [c1], SECOND - 1);
  }
}
