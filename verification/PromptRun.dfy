/** One prompt in the Ward: attempts of the LLM subprocess, retried while they end for invalid
    arguments, and the loop detector and schema check that tool calls of an attempt pass
    before they are forwarded. */
module PromptRun {
  import opened Wrappers
  import opened Mus
  import SchemaCodec

  datatype Kind = SchemaInvalid | LoopDetected | MalformedToolCall | Timeout | SubprocessCrash

  /** A request that cannot be decoded or names no capability is malformed. */
  datatype ToolCall = Invoke(capability: bytes, args: bytes) | Malformed

  datatype Gate = Forwarded | Aborted(kind: Kind)

  /** FNV-1a is not modelled: nothing below depends on the hash function. */
  type Hash = bytes -> uint64

  /** The detector hashes the name and the arguments one after the other. */
  function KeyOf(hash: Hash, name: bytes, args: bytes): uint64
  {
    hash(name + args)
  }

  // ---- The gates of one attempt ---------------------------------------------

  function Occurrences(keys: seq<uint64>, key: uint64): nat
  {
    if keys == [] then 0 else Occurrences(keys[..|keys| - 1], key) + if keys[|keys| - 1] == key then 1 else 0
  }

  function KeysOf(hash: Hash, calls: seq<ToolCall>): seq<uint64>
  {
    if calls == [] then []
    else
      var c := calls[|calls| - 1];
      KeysOf(hash, calls[..|calls| - 1]) + if c.Invoke? then [KeyOf(hash, c.capability, c.args)] else []
  }

  /** What the gates say to a call that follows others of the same attempt: the count is of
      calls with the same key so far, this one among them. */
  function GateOf(hash: Hash, threshold: int, schemas: SchemaCodec.Schemas, before: seq<ToolCall>, c: ToolCall): Gate
  {
    if c.Malformed? then Aborted(MalformedToolCall)
    else
      var key := KeyOf(hash, c.capability, c.args);
      if Occurrences(KeysOf(hash, before), key) + 1 >= threshold then Aborted(LoopDetected)
      else if !SchemaCodec.ValidArgs(schemas, c.capability, c.args) then Aborted(SchemaInvalid)
      else Forwarded
  }

  function Gates(hash: Hash, threshold: int, schemas: SchemaCodec.Schemas, calls: seq<ToolCall>): (gs: seq<Gate>)
    ensures |gs| == |calls|
  {
    if calls == [] then []
    else
      var n := |calls| - 1;
      Gates(hash, threshold, schemas, calls[..n]) + [GateOf(hash, threshold, schemas, calls[..n], calls[n])]
  }

  /** What aborted the attempt, as the cell holds it at the end: the last reason stored. */
  function AbortOf(gs: seq<Gate>): Option<Kind>
  {
    if gs == [] then None
    else if gs[|gs| - 1].Aborted? then Some(gs[|gs| - 1].kind)
    else AbortOf(gs[..|gs| - 1])
  }

  lemma OccurrencesMore(keys: seq<uint64>, key: uint64)
    ensures Occurrences(keys + [key], key) == Occurrences(keys, key) + 1
  {
    assert (keys + [key])[..|keys|] == keys;
  }

  /** One more call of an attempt. */
  lemma OneMore(hash: Hash, threshold: int, schemas: SchemaCodec.Schemas, before: seq<ToolCall>, c: ToolCall)
    ensures var gate := GateOf(hash, threshold, schemas, before, c);
            var gs := Gates(hash, threshold, schemas, before);
            && KeysOf(hash, before + [c]) ==
               KeysOf(hash, before) + (if c.Invoke? then [KeyOf(hash, c.capability, c.args)] else [])
            && AbortOf(Gates(hash, threshold, schemas, before + [c])) ==
               if gate.Aborted? then Some(gate.kind) else AbortOf(gs)
  {
    hide GateOf;
    assert (before + [c])[..|before|] == before;
    var gs := Gates(hash, threshold, schemas, before);
    var gate := GateOf(hash, threshold, schemas, before, c);
    assert (gs + [gate])[..|gs|] == gs;
  }

  class LoopDetector {
    const threshold: int
    const hash: Hash
    var counts: map<uint64, nat>
    ghost var seen: seq<uint64>

    constructor (threshold: int, hash: Hash)
      ensures this.threshold == threshold && this.hash == hash && seen == [] && Valid()
    {
      this.threshold, this.hash, counts, seen := threshold, hash, map[], [];
    }

    ghost predicate Valid()
      reads this
    {
      forall key :: Occurrences(seen, key) == if key in counts then counts[key] else 0
    }

    method Check(name: bytes, args: bytes) returns (looped: bool)
      requires Valid()
      modifies this
      ensures Valid() && seen == old(seen) + [KeyOf(hash, name, args)]
      ensures looped <==> Occurrences(seen, KeyOf(hash, name, args)) >= threshold
    {
      var key := KeyOf(hash, name, args);
      counts := counts[key := (if key in counts then counts[key] else 0) + 1];
      seen := seen + [key];
      assert seen[..|seen| - 1] == old(seen);
      looped := counts[key] >= threshold;
    }
  }

  /** The cells the tool server and the subprocess runner share. */
  class Ward {
    const threshold: int
    const hash: Hash
    const schemas: SchemaCodec.Schemas
    var activeLoop: LoopDetector?
    var activeAbort: Option<Kind>

    constructor (threshold: int, hash: Hash, schemas: SchemaCodec.Schemas)
      ensures this.threshold == threshold && this.hash == hash && this.schemas == schemas
      ensures activeLoop == null && activeAbort == None
    {
      this.threshold, this.hash, this.schemas, activeLoop, activeAbort := threshold, hash, schemas, null, None;
    }

    /** The detector has seen exactly the calls so far, and the cell holds the last reason. */
    ghost predicate Follows(calls: seq<ToolCall>)
      reads this, activeLoop
    {
      && activeLoop != null && activeLoop.Valid()
      && activeLoop.threshold == threshold && activeLoop.hash == hash
      && activeLoop.seen == KeysOf(hash, calls)
      && activeAbort == AbortOf(Gates(hash, threshold, schemas, calls))
    }

    method HandleCall(ghost before: seq<ToolCall>, c: ToolCall) returns (gate: Gate)
      requires Follows(before)
      modifies this`activeAbort, activeLoop
      ensures gate == GateOf(hash, threshold, schemas, before, c)
      ensures Follows(before + [c])
    {
      hide SchemaCodec.ValidArgs, Gates, AbortOf, KeysOf, Occurrences;
      gate := Forwarded;
      OneMore(hash, threshold, schemas, before, c);
      if c.Malformed? {
        gate := Aborted(MalformedToolCall);
      } else {
        var looped := activeLoop.Check(c.capability, c.args);
        OccurrencesMore(old(activeLoop.seen), KeyOf(hash, c.capability, c.args));
        if looped {
          gate := Aborted(LoopDetected);
        } else {
          var ok := SchemaCodec.ValidateToolArgs(schemas, c.capability, c.args);
          if !ok {
            gate := Aborted(SchemaInvalid);
          }
        }
      }
      if gate.Aborted? {
        activeAbort := Some(gate.kind);
      }
    }

    /** One attempt: a fresh detector and an empty cell, the calls, and the way the subprocess
        ends. */
    method RunOnce(a: Attempt) returns (gates: seq<Gate>, result: Option<Kind>)
      modifies this
      ensures gates == if a.starts then Gates(hash, threshold, schemas, a.calls) else []
      ensures result == ResultOf(hash, threshold, schemas, a)
    {
      gates := [];
      if !a.starts {
        return gates, Some(SubprocessCrash);
      }
      activeLoop := new LoopDetector(threshold, hash);
      activeAbort := None;
      for i := 0 to |a.calls|
        invariant fresh(activeLoop) && Follows(a.calls[..i])
        invariant gates == Gates(hash, threshold, schemas, a.calls[..i])
      {
        var gate := HandleCall(a.calls[..i], a.calls[i]);
        assert a.calls[..i] + [a.calls[i]] == a.calls[..i + 1];
        assert a.calls[..i + 1][..i] == a.calls[..i];
        gates := gates + [gate];
      }
      assert a.calls[..|a.calls|] == a.calls;
      activeLoop := null;
      if a.exitOk {
        return gates, None;
      }
      var kind := activeAbort;
      activeAbort := None;
      result := if kind.Some? then kind else if a.cancelled then Some(Timeout) else Some(SubprocessCrash);
    }

    /** The retry loop. `attempts` is how the subprocess behaves each time it is run. */
    method RunPrompt(attempts: nat -> Attempt, retries: int) returns (made: nat, result: Option<Kind>)
      modifies this
      ensures Retried(hash, threshold, schemas, attempts, retries, made, result)
    {
      var remaining := retries;
      made := 0;
      while true
        invariant remaining == retries - made && made <= Allowed(retries) - 1
        invariant forall i :: 0 <= i < made ==> ResultOf(hash, threshold, schemas, attempts(i)) == Some(SchemaInvalid)
        decreases Allowed(retries) - made
      {
        var gates;
        gates, result := RunOnce(attempts(made));
        made := made + 1;
        if result != Some(SchemaInvalid) || remaining <= 0 {
          return;
        }
        remaining := remaining - 1;
      }
    }
  }

  /** `starts` is whether the subprocess could be started at all. */
  datatype Attempt = Attempt(starts: bool, calls: seq<ToolCall>, exitOk: bool, cancelled: bool)

  function ResultOf(hash: Hash, threshold: int, schemas: SchemaCodec.Schemas, a: Attempt): Option<Kind>
  {
    if !a.starts then Some(SubprocessCrash)
    else if a.exitOk then None
    else
      var abort := AbortOf(Gates(hash, threshold, schemas, a.calls));
      if abort.Some? then abort else if a.cancelled then Some(Timeout) else Some(SubprocessCrash)
  }

  function Allowed(retries: int): nat
  {
    1 + if retries > 0 then retries else 0
  }

  /** Every attempt but the last ended for invalid arguments, and the last one did not, unless
      the retries are used up. */
  ghost predicate Retried(hash: Hash, threshold: int, schemas: SchemaCodec.Schemas, attempts: nat -> Attempt,
                          retries: int, made: nat, result: Option<Kind>)
  {
    && 1 <= made && (made == 1 || made <= 1 + retries)
    && (forall i :: 0 <= i < made - 1 ==> ResultOf(hash, threshold, schemas, attempts(i)) == Some(SchemaInvalid))
    && result == ResultOf(hash, threshold, schemas, attempts(made - 1))
    && (result != Some(SchemaInvalid) || made >= 1 + retries)
  }

  /** That settles the number of attempts and the result. */
  lemma RetriedIsUnique(hash: Hash, threshold: int, schemas: SchemaCodec.Schemas, attempts: nat -> Attempt,
                        retries: int, made: nat, result: Option<Kind>, made': nat, result': Option<Kind>)
    requires Retried(hash, threshold, schemas, attempts, retries, made, result)
    requires Retried(hash, threshold, schemas, attempts, retries, made', result')
    ensures made == made' && result == result'
  {
    hide ResultOf;
    var last: nat, last': nat := made - 1, made' - 1;
    var r := ResultOf(hash, threshold, schemas, attempts(last));
    var r' := ResultOf(hash, threshold, schemas, attempts(last'));
    assert last < last' ==> r == Some(SchemaInvalid);
    assert last' < last ==> r' == Some(SchemaInvalid);
  }

  // ---- What decides a gate, and an attempt ----------------------------------

  /** The calls with a key, by their positions. */
  ghost function CallsWith(hash: Hash, calls: seq<ToolCall>, key: uint64): set<nat>
  {
    set i: nat | i < |calls| && calls[i].Invoke? && KeyOf(hash, calls[i].capability, calls[i].args) == key
  }

  lemma {:induction false} OccurrencesAreCalls(hash: Hash, calls: seq<ToolCall>, key: uint64)
    ensures Occurrences(KeysOf(hash, calls), key) == |CallsWith(hash, calls, key)|
  {
    if calls == [] {
      assert CallsWith(hash, calls, key) == {};
    } else {
      var n := |calls| - 1;
      OccurrencesAreCalls(hash, calls[..n], key);
      var c, before := calls[n], KeysOf(hash, calls[..n]);
      var counts := c.Invoke? && KeyOf(hash, c.capability, c.args) == key;
      assert CallsWith(hash, calls, key) == CallsWith(hash, calls[..n], key) + if counts then {n} else {};
      assert before + [] == before;
      if c.Invoke? { assert (before + [KeyOf(hash, c.capability, c.args)])[..|before|] == before; }
    }
  }

  predicate Decodes(fields: seq<SchemaCodec.FieldType>, args: bytes)
  {
    var p := SchemaCodec.UnmarshalArgs(fields, args);
    p.Parsed? && p.rest == []
  }

  /** A call is malformed, or the threshold is reached by the number of calls with its key, or
      it goes through exactly when it has no schema or its arguments decode with nothing left. */
  lemma GateIff(hash: Hash, threshold: int, schemas: SchemaCodec.Schemas, calls: seq<ToolCall>, i: nat)
    requires i < |calls|
    ensures var c, gate := calls[i], Gates(hash, threshold, schemas, calls)[i];
            && (gate == Aborted(MalformedToolCall) <==> c == Malformed)
            && (c != Malformed ==>
                  var key := KeyOf(hash, c.capability, c.args);
                  && (gate == Aborted(LoopDetected) <==> |CallsWith(hash, calls[..i + 1], key)| >= threshold)
                  && (gate == Forwarded <==>
                        && |CallsWith(hash, calls[..i + 1], key)| < threshold
                        && (c.capability in schemas ==> Decodes(schemas[c.capability], c.args)))
                  && (gate.Aborted? && gate.kind != LoopDetected ==> gate.kind == SchemaInvalid))
  {
    hide SchemaCodec.UnmarshalArgs, Gates, CallsWith;
    GateAt(hash, threshold, schemas, calls, i);
    var c := calls[i];
    if c.Invoke? {
      var key := KeyOf(hash, c.capability, c.args);
      OccurrencesAreCalls(hash, calls[..i + 1], key);
      assert calls[..i + 1][..i] == calls[..i];
      OccurrencesMore(KeysOf(hash, calls[..i]), key);
    }
  }

  lemma {:induction false} GateAt(hash: Hash, threshold: int, schemas: SchemaCodec.Schemas, calls: seq<ToolCall>,
                                  i: nat)
    requires i < |calls|
    ensures Gates(hash, threshold, schemas, calls)[i] == GateOf(hash, threshold, schemas, calls[..i], calls[i])
  {
    hide GateOf;
    var n := |calls| - 1;
    if i < n {
      GateAt(hash, threshold, schemas, calls[..n], i);
      assert calls[..n][..i] == calls[..i];
    }
  }

  lemma {:induction false} AbortIs(gs: seq<Gate>, i: nat)
    ensures AbortOf(gs) == None <==> forall j :: 0 <= j < |gs| ==> gs[j] == Forwarded
    ensures i < |gs| && gs[i].Aborted? && (forall j :: i < j < |gs| ==> gs[j] == Forwarded) ==>
              AbortOf(gs) == Some(gs[i].kind)
  {
    if gs != [] {
      AbortIs(gs[..|gs| - 1], i);
      assert forall j :: 0 <= j < |gs| - 1 ==> gs[..|gs| - 1][j] == gs[j];
    }
  }

  /** How an attempt ends: well exactly when the subprocess does, for the reason of the last
      aborted call if there is one, and otherwise by the context or a crash. */
  lemma ResultIff(hash: Hash, threshold: int, schemas: SchemaCodec.Schemas, a: Attempt, i: nat)
    ensures var gs := Gates(hash, threshold, schemas, a.calls);
            var result := ResultOf(hash, threshold, schemas, a);
            var unaborted := forall j :: 0 <= j < |gs| ==> gs[j] == Forwarded;
            && (result == None <==> a.starts && a.exitOk)
            && (result == Some(Timeout) <==> a.starts && !a.exitOk && unaborted && a.cancelled)
            && (result == Some(SubprocessCrash) <==> !a.starts || (!a.exitOk && unaborted && !a.cancelled))
            && (a.starts && !a.exitOk && i < |gs| && gs[i].Aborted? && (forall j :: i < j < |gs| ==> gs[j] == Forwarded)
                ==> result == Some(gs[i].kind))
  {
    hide Gates, AbortOf, GateOf;
    var gs := Gates(hash, threshold, schemas, a.calls);
    AbortIs(gs, i);
    AbortKind(hash, threshold, schemas, a.calls);
  }

  lemma {:induction false} AbortKind(hash: Hash, threshold: int, schemas: SchemaCodec.Schemas, calls: seq<ToolCall>)
    ensures var abort := AbortOf(Gates(hash, threshold, schemas, calls));
            abort != Some(Timeout) && abort != Some(SubprocessCrash)
  {
    hide SchemaCodec.ValidArgs;
    if calls != [] {
      var n := |calls| - 1;
      AbortKind(hash, threshold, schemas, calls[..n]);
      assert Gates(hash, threshold, schemas, calls)[..n] == Gates(hash, threshold, schemas, calls[..n]);
    }
  }

  // ---- How often a call is forwarded ----------------------------------------

  /** How many calls with the key are forwarded in an attempt. */
  function ForwardedWith(hash: Hash, threshold: int, schemas: SchemaCodec.Schemas, calls: seq<ToolCall>,
                         key: uint64): nat
  {
    if calls == [] then 0
    else
      var n := |calls| - 1;
      ForwardedWith(hash, threshold, schemas, calls[..n], key)
      + if calls[n].Invoke? && KeyOf(hash, calls[n].capability, calls[n].args) == key
           && GateOf(hash, threshold, schemas, calls[..n], calls[n]) == Forwarded then 1 else 0
  }

  /** How often one capability is forwarded with the same arguments. */
  function ForwardedPair(hash: Hash, threshold: int, schemas: SchemaCodec.Schemas, calls: seq<ToolCall>,
                         name: bytes, args: bytes): nat
  {
    if calls == [] then 0
    else
      var n := |calls| - 1;
      ForwardedPair(hash, threshold, schemas, calls[..n], name, args)
      + if calls[n] == Invoke(name, args) && GateOf(hash, threshold, schemas, calls[..n], calls[n]) == Forwarded
        then 1 else 0
  }

  function AtMost(threshold: int): nat
  {
    if threshold > 1 then threshold - 1 else 0
  }

  lemma {:induction false} KeyBound(hash: Hash, threshold: int, schemas: SchemaCodec.Schemas, calls: seq<ToolCall>,
                                    key: uint64)
    ensures var f := ForwardedWith(hash, threshold, schemas, calls, key);
            f <= AtMost(threshold) && f <= Occurrences(KeysOf(hash, calls), key)
  {
    hide SchemaCodec.ValidArgs;
    if calls != [] {
      var n := |calls| - 1;
      KeyBound(hash, threshold, schemas, calls[..n], key);
      var ks := KeysOf(hash, calls[..n]);
      assert ks + [] == ks;
      if calls[n].Invoke? {
        var k := KeyOf(hash, calls[n].capability, calls[n].args);
        assert (ks + [k])[..|ks|] == ks;
      }
    }
  }

  /** One capability with the same arguments is forwarded at most threshold - 1 times in an
      attempt, for any hash function. */
  lemma {:induction false} PairBound(hash: Hash, threshold: int, schemas: SchemaCodec.Schemas, calls: seq<ToolCall>,
                                     name: bytes, args: bytes)
    ensures ForwardedPair(hash, threshold, schemas, calls, name, args) <=
            ForwardedWith(hash, threshold, schemas, calls, KeyOf(hash, name, args)) <= AtMost(threshold)
  {
    hide GateOf;
    KeyBound(hash, threshold, schemas, calls, KeyOf(hash, name, args));
    if calls != [] {
      PairBound(hash, threshold, schemas, calls[..|calls| - 1], name, args);
    }
  }

  function Repeated(c: ToolCall, n: nat): (cs: seq<ToolCall>)
    ensures |cs| == n
  {
    if n == 0 then [] else Repeated(c, n - 1) + [c]
  }

  /** The bound is met: the same valid call, made n times and nothing else, is forwarded as
      often as the threshold lets it. */
  lemma {:induction false} RepeatedCall(hash: Hash, threshold: int, schemas: SchemaCodec.Schemas, name: bytes,
                                        args: bytes, n: nat)
    requires SchemaCodec.ValidArgs(schemas, name, args)
    ensures ForwardedPair(hash, threshold, schemas, Repeated(Invoke(name, args), n), name, args) ==
            if n < AtMost(threshold) then n else AtMost(threshold)
  {
    hide SchemaCodec.ValidArgs, Occurrences, KeysOf, ForwardedPair;
    var c := Invoke(name, args);
    if n == 0 {
      NoneForwarded(hash, threshold, schemas, name, args);
    } else {
      RepeatedCall(hash, threshold, schemas, name, args, n - 1);
      RepeatedKeys(hash, c, n - 1);
      ForwardedMore(hash, threshold, schemas, Repeated(c, n - 1), name, args);
    }
  }

  lemma NoneForwarded(hash: Hash, threshold: int, schemas: SchemaCodec.Schemas, name: bytes, args: bytes)
    ensures ForwardedPair(hash, threshold, schemas, [], name, args) == 0
  {
  }

  lemma ForwardedMore(hash: Hash, threshold: int, schemas: SchemaCodec.Schemas, before: seq<ToolCall>, name: bytes,
                      args: bytes)
    requires SchemaCodec.ValidArgs(schemas, name, args)
    ensures ForwardedPair(hash, threshold, schemas, before + [Invoke(name, args)], name, args) ==
            ForwardedPair(hash, threshold, schemas, before, name, args)
            + if Occurrences(KeysOf(hash, before), KeyOf(hash, name, args)) + 1 < threshold then 1 else 0
  {
    hide SchemaCodec.ValidArgs, Occurrences, KeysOf;
    assert (before + [Invoke(name, args)])[..|before|] == before;
  }

  lemma NoKeys(hash: Hash, key: uint64)
    ensures Occurrences(KeysOf(hash, []), key) == 0
  {
  }

  lemma KeysMore(hash: Hash, before: seq<ToolCall>, c: ToolCall)
    requires c.Invoke?
    ensures KeysOf(hash, before + [c]) == KeysOf(hash, before) + [KeyOf(hash, c.capability, c.args)]
  {
    assert (before + [c])[..|before|] == before;
  }

  lemma {:induction false} RepeatedKeys(hash: Hash, c: ToolCall, n: nat)
    requires c.Invoke?
    ensures Occurrences(KeysOf(hash, Repeated(c, n)), KeyOf(hash, c.capability, c.args)) == n
  {
    hide Occurrences, KeysOf;
    var key := KeyOf(hash, c.capability, c.args);
    if n == 0 {
      NoKeys(hash, key);
    } else {
      RepeatedKeys(hash, c, n - 1);
      KeysMore(hash, Repeated(c, n - 1), c);
      OccurrencesMore(KeysOf(hash, Repeated(c, n - 1)), key);
    }
  }

  function TotalForwarded(hash: Hash, threshold: int, schemas: SchemaCodec.Schemas, attempts: nat -> Attempt, made: nat,
                          name: bytes, args: bytes): nat
  {
    if made == 0 then 0
    else
      var a := attempts(made - 1);
      TotalForwarded(hash, threshold, schemas, attempts, made - 1, name, args)
      + if a.starts then ForwardedPair(hash, threshold, schemas, a.calls, name, args) else 0
  }

  /** So over a whole prompt it is forwarded at most threshold - 1 times per attempt, and
      there are at most 1 + retries attempts. */
  lemma {:induction false} PromptBound(hash: Hash, threshold: int, schemas: SchemaCodec.Schemas,
                                       attempts: nat -> Attempt, made: nat, name: bytes, args: bytes)
    ensures TotalForwarded(hash, threshold, schemas, attempts, made, name, args) <= made * AtMost(threshold)
  {
    hide ForwardedPair, ForwardedWith, AtMost;
    if made > 0 {
      PromptBound(hash, threshold, schemas, attempts, made - 1, name, args);
      PairBound(hash, threshold, schemas, attempts(made - 1).calls, name, args);
      assert made * AtMost(threshold) == (made - 1) * AtMost(threshold) + AtMost(threshold);
    }
  }

  lemma PromptTotal(hash: Hash, threshold: int, schemas: SchemaCodec.Schemas, attempts: nat -> Attempt, retries: int,
                    made: nat, result: Option<Kind>, name: bytes, args: bytes)
    requires Retried(hash, threshold, schemas, attempts, retries, made, result)
    ensures TotalForwarded(hash, threshold, schemas, attempts, made, name, args) <= Allowed(retries) * AtMost(threshold)
  {
    PromptBound(hash, threshold, schemas, attempts, made, name, args);
    ProductGrows(made, Allowed(retries), AtMost(threshold));
  }

  lemma ProductGrows(a: nat, b: nat, k: nat)
    requires a <= b
    ensures a * k <= b * k
  {
  }

  /** Two calls share a count under every hash exactly when their names and arguments run
      together to the same bytes. */
  lemma ShareIff(name: bytes, args: bytes, name': bytes, args': bytes)
    ensures (forall hash: Hash :: KeyOf(hash, name, args) == KeyOf(hash, name', args')) <==>
            name + args == name' + args'
  {
    var text := name + args;
    var marker: Hash := s => if s == text then 1 else 0;
    assert KeyOf(marker, name, args) == 1;
    assert KeyOf(marker, name', args') == 1 <==> name' + args' == text;
  }

  /** Such calls use up each other's forwards: when the one has had all threshold - 1 of them,
      the other is taken for a loop, whatever the hash. */
  lemma RunTogether(hash: Hash, threshold: int, schemas: SchemaCodec.Schemas, name: bytes, args: bytes,
                    name': bytes, args': bytes, before: seq<ToolCall>)
    requires name + args == name' + args'
    requires ForwardedPair(hash, threshold, schemas, before, name, args) == AtMost(threshold)
    ensures GateOf(hash, threshold, schemas, before, Invoke(name', args')) == Aborted(LoopDetected)
  {
    PairBound(hash, threshold, schemas, before, name, args);
    KeyBound(hash, threshold, schemas, before, KeyOf(hash, name, args));
    hide ForwardedPair, ForwardedWith, Occurrences, KeysOf;
  }

  /** An attempt that ends for invalid arguments made a call with arguments its capability's
      schema does not accept. */
  lemma {:induction false} InvalidCallBehind(hash: Hash, threshold: int, schemas: SchemaCodec.Schemas,
                                             calls: seq<ToolCall>)
    requires AbortOf(Gates(hash, threshold, schemas, calls)) == Some(SchemaInvalid)
    ensures exists i :: 0 <= i < |calls| && calls[i].Invoke?
                        && !SchemaCodec.ValidArgs(schemas, calls[i].capability, calls[i].args)
  {
    hide SchemaCodec.ValidArgs;
    var n := |calls| - 1;
    var gs := Gates(hash, threshold, schemas, calls);
    assert gs[..n] == Gates(hash, threshold, schemas, calls[..n]);
    if gs[n].Forwarded? {
      InvalidCallBehind(hash, threshold, schemas, calls[..n]);
    } else {
      assert calls[n].Invoke?;
    }
  }
}
