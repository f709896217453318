/** Creations and destructions that overlap: the work of `Provisioning` in the pieces between
    which other requests and reapers can run. */
module Overlap {
  import opened Wrappers
  import opened Mus
  import P = Provisioning

  /** Where a creation stands. `Piped` has added the pipe with that number and not yet recorded
      it. */
  datatype Stage =
    | Reserved | Housed | Headless | Listed | Published | Piped(ward: nat)
    | Unwinding(left: seq<P.Undo>)
    | Over

  datatype Job =
    | Creating(q: P.CreateRequest, env: P.Env, stage: Stage)
    | Destroying(id: P.Id, destroyOk: bool, housed: bool, left: Rest)

  /** What a destruction that has taken the agent out of the table still has to do. */
  datatype Rest = PipeAndAll | AclAndAll | BrowserAndAll | Nothing

  datatype System = System(tables: P.State, jobs: map<nat, Job>)

  const EMPTY := System(P.START, map[])

  datatype Step =
    | Begin(j: nat, q: P.CreateRequest, env: P.Env)
    | BeginDestroy(j: nat, id: P.Id, destroyOk: bool)
    | Advance(j: nat)
    | Reap(ward: nat)

  // ---- Steps ----------------------------------------------------------------

  predicate IsOver(job: Job)
  {
    if job.Creating? then job.stage == Over else job.left == Nothing
  }

  predicate Enabled(s: System, e: Step)
  {
    match e
    case Begin(j, q, _) => j !in s.jobs && P.Refusal(s.tables, q.id) == None
    case BeginDestroy(j, id, _) => j !in s.jobs && id in s.tables.agents
    case Advance(j) => j in s.jobs && !IsOver(s.jobs[j])
    case Reap(ward) => ward in s.tables.wards
  }

  /** The next piece of a creation. */
  function Create(root: bytes, mode: P.Browser, t: P.State, q: P.CreateRequest, env: P.Env, stage: Stage)
    : (P.State, Stage)
    requires stage != Over
  {
    var id := q.id;
    var cfg := P.ConfigFor(q, env.provisioned.kdl);
    match stage
    case Reserved =>
      (P.Housed(t, q, env).(agents := t.agents),
       if P.Spawning(env.fails) then Housed else Unwinding(P.Stack(mode, env.fails)))
    case Housed => (t.(headless := P.WithHeadless(mode, t.headless, id, cfg.headless)), Headless)
    case Headless => (t.(acls := t.acls[id := P.AclFor(root, cfg)]), Listed)
    case Listed => (t.(agents := t.agents[id := P.Agent(Some(id), Some(P.Kept(cfg)), None)]), Published)
    case Published =>
      if env.fails != P.Nowhere then (t, Unwinding(P.Stack(mode, env.fails)))
      else (t.(pipes := t.pipes[id := t.nextWard], nextWard := t.nextWard + 1), Piped(t.nextWard))
    case Piped(n) =>
      // the slot is filled in if it is still there, and the reaper starts to wait
      (t.(agents := if id in t.agents then t.agents[id := t.agents[id].(pipe := Some(n))] else t.agents,
          wards := t.wards[n := id]), Over)
    case Unwinding(us) =>
      if us == [] then (t.(agents := t.agents - {id}), Over)
      else (P.Undone(mode, t, id, env.destroyOk, us[|us| - 1]), Unwinding(us[..|us| - 1]))
  }

  /** The next piece of a destruction. */
  function Destroy(mode: P.Browser, t: P.State, id: P.Id, destroyOk: bool, housed: bool, left: Rest): (P.State, Rest)
    requires left != Nothing
  {
    match left
    case PipeAndAll => (t.(pipes := t.pipes - {id}), AclAndAll)
    case AclAndAll => (t.(acls := t.acls - {id}), BrowserAndAll)
    case BrowserAndAll =>
      var released := P.Release(mode, t, id);
      (if housed && destroyOk then released.(subvols := released.subvols - {id}) else released, Nothing)
  }

  function Apply(root: bytes, mode: P.Browser, s: System, e: Step): System
  {
    if !Enabled(s, e) then s
    else
      match e
      case Begin(j, q, env) =>
        System(s.tables.(agents := s.tables.agents[q.id := P.Agent(None, None, None)]),
               s.jobs[j := Creating(q, env, Reserved)])
      case BeginDestroy(j, id, destroyOk) =>
        System(s.tables.(agents := s.tables.agents - {id}),
               s.jobs[j := Destroying(id, destroyOk, s.tables.agents[id].subvol.Some?, PipeAndAll)])
      case Advance(j) => Advanced(root, mode, s, j)
      case Reap(ward) => s.(tables := P.AfterReap(s.tables, ward))
  }

  function Advanced(root: bytes, mode: P.Browser, s: System, j: nat): System
    requires j in s.jobs && !IsOver(s.jobs[j])
  {
    match s.jobs[j]
    case Creating(q, env, stage) =>
      var (t, next) := Create(root, mode, s.tables, q, env, stage);
      System(t, s.jobs[j := Creating(q, env, next)])
    case Destroying(id, destroyOk, housed, left) =>
      var (t, next) := Destroy(mode, s.tables, id, destroyOk, housed, left);
      System(t, s.jobs[j := Destroying(id, destroyOk, housed, next)])
  }

  /** Any steps, in any order; one that is not enabled does nothing. */
  function Run(root: bytes, mode: P.Browser, es: seq<Step>): System
  {
    if es == [] then EMPTY else Apply(root, mode, Run(root, mode, es[..|es| - 1]), es[|es| - 1])
  }

  // ---- What moves an agent's slot and pipe ----------------------------------

  predicate Creates(s: System, e: Step, id: P.Id, stage: Stage)
  {
    e.Advance? && e.j in s.jobs && s.jobs[e.j].Creating? && s.jobs[e.j].q.id == id && s.jobs[e.j].stage == stage
  }

  predicate Publishes(s: System, e: Step, id: P.Id)
  {
    Creates(s, e, id, Listed)
  }

  predicate Frees(s: System, e: Step, id: P.Id)
  {
    Creates(s, e, id, Unwinding([]))
  }

  predicate Inserts(s: System, e: Step, id: P.Id)
  {
    Enabled(s, e) && ((e.Begin? && e.q.id == id) || Publishes(s, e, id))
  }

  predicate Removes(s: System, e: Step, id: P.Id)
  {
    Enabled(s, e) && ((e.BeginDestroy? && e.id == id) || Frees(s, e, id))
  }

  predicate AddsPipe(s: System, e: Step, id: P.Id)
  {
    Creates(s, e, id, Published) && s.jobs[e.j].env.fails == P.Nowhere
  }

  predicate DropsPipe(s: System, e: Step, id: P.Id)
  {
    || (e.Advance? && e.j in s.jobs && s.jobs[e.j].Destroying?
        && s.jobs[e.j].id == id && s.jobs[e.j].left == PipeAndAll)
    || (e.Reap? && e.ward in s.tables.wards && s.tables.wards[e.ward] == id)
  }

  lemma CreateMovesSlots(root: bytes, mode: P.Browser, t: P.State, q: P.CreateRequest, env: P.Env, stage: Stage,
                         id: P.Id)
    requires stage != Over
    ensures id in Create(root, mode, t, q, env, stage).0.agents <==>
            (stage == Listed && q.id == id) || (id in t.agents && !(stage == Unwinding([]) && q.id == id))
  {
    hide P.ConfigFor, P.AclFor, P.Kept, P.Housed, P.Undone, P.WithHeadless, P.Stack;
    if stage.Unwinding? && stage.left != [] { UndoneMoves(mode, t, q.id, env.destroyOk, stage.left[|stage.left| - 1]); }
  }

  lemma CreateMovesPipes(root: bytes, mode: P.Browser, t: P.State, q: P.CreateRequest, env: P.Env, stage: Stage,
                         id: P.Id)
    requires stage != Over
    ensures id in Create(root, mode, t, q, env, stage).0.pipes <==>
            (stage == Published && env.fails == P.Nowhere && q.id == id) || id in t.pipes
  {
    hide P.ConfigFor, P.AclFor, P.Kept, P.Housed, P.Undone, P.WithHeadless, P.Stack;
    HousedMoves(t, q, env);
    if stage.Unwinding? && stage.left != [] { UndoneMoves(mode, t, q.id, env.destroyOk, stage.left[|stage.left| - 1]); }
  }

  lemma HousedMoves(t: P.State, q: P.CreateRequest, env: P.Env)
    ensures P.Housed(t, q, env).pipes == t.pipes
  {
    hide P.Furnished;
  }

  lemma UndoneMoves(mode: P.Browser, t: P.State, id: P.Id, destroyOk: bool, u: P.Undo)
    ensures P.Undone(mode, t, id, destroyOk, u).agents == t.agents
            && P.Undone(mode, t, id, destroyOk, u).pipes == t.pipes
  {
  }

  lemma DestroyMoves(mode: P.Browser, t: P.State, d: P.Id, destroyOk: bool, housed: bool, left: Rest, id: P.Id)
    requires left != Nothing
    ensures var t' := Destroy(mode, t, d, destroyOk, housed, left).0;
            t'.agents == t.agents && (id in t'.pipes <==> id in t.pipes && !(left == PipeAndAll && d == id))
  {
  }

  lemma SlotStep(root: bytes, mode: P.Browser, s: System, e: Step, id: P.Id)
    ensures id in Apply(root, mode, s, e).tables.agents <==>
            Inserts(s, e, id) || (id in s.tables.agents && !Removes(s, e, id))
  {
    hide Create, Destroy, P.Refusal;
    if e.Advance? && Enabled(s, e) {
      match s.jobs[e.j]
      case Creating(q, env, stage) => CreateMovesSlots(root, mode, s.tables, q, env, stage, id);
      case Destroying(d, ok, housed, left) => DestroyMoves(mode, s.tables, d, ok, housed, left, id);
    }
  }

  lemma PipeStep(root: bytes, mode: P.Browser, s: System, e: Step, id: P.Id)
    ensures id in Apply(root, mode, s, e).tables.pipes <==>
            AddsPipe(s, e, id) || (id in s.tables.pipes && !DropsPipe(s, e, id))
  {
    hide Create, Destroy, P.Refusal;
    if e.Advance? && Enabled(s, e) {
      match s.jobs[e.j]
      case Creating(q, env, stage) => CreateMovesPipes(root, mode, s.tables, q, env, stage, id);
      case Destroying(d, ok, housed, left) => DestroyMoves(mode, s.tables, d, ok, housed, left, id);
    }
  }

  // ---- Histories ------------------------------------------------------------

  /** The system when step i of the history is taken. */
  function Before(root: bytes, mode: P.Browser, es: seq<Step>, i: nat): System
    requires i <= |es|
  {
    Run(root, mode, es[..i])
  }

  lemma BeforeIsPast(root: bytes, mode: P.Browser, es: seq<Step>, n: nat, i: nat)
    requires i <= n <= |es|
    ensures Before(root, mode, es[..n], i) == Before(root, mode, es, i)
  {
    assert es[..n][..i] == es[..i];
  }

  /** Step i added the agent's pipe, and nothing dropped it since. */
  ghost predicate PipeStands(root: bytes, mode: P.Browser, es: seq<Step>, i: nat, id: P.Id)
  {
    && i < |es| && AddsPipe(Before(root, mode, es, i), es[i], id)
    && forall m :: i < m < |es| ==> !DropsPipe(Before(root, mode, es, m), es[m], id)
  }

  /** Step k removed the agent's slot, and none was inserted since. */
  ghost predicate SlotGone(root: bytes, mode: P.Browser, es: seq<Step>, k: nat, id: P.Id)
  {
    && k < |es| && Removes(Before(root, mode, es, k), es[k], id)
    && forall m :: k < m < |es| ==> !Inserts(Before(root, mode, es, m), es[m], id)
  }

  /** Step p published the agent for job j. */
  predicate PublishedBy(root: bytes, mode: P.Browser, es: seq<Step>, p: nat, j: nat, id: P.Id)
  {
    p < |es| && es[p] == Advance(j) && Publishes(Before(root, mode, es, p), es[p], id)
  }

  /** What a longer history says of its past. */
  lemma PastStands(root: bytes, mode: P.Browser, es: seq<Step>, n: nat, i: nat, id: P.Id)
    requires |es| == n + 1 && i < n
    ensures PipeStands(root, mode, es, i, id) <==>
            PipeStands(root, mode, es[..n], i, id) && !DropsPipe(Before(root, mode, es, n), es[n], id)
    ensures SlotGone(root, mode, es, i, id) <==>
            SlotGone(root, mode, es[..n], i, id) && !Inserts(Before(root, mode, es, n), es[n], id)
  {
    hide Before, AddsPipe, DropsPipe, Inserts, Removes;
    forall m: nat | m <= n
      ensures Before(root, mode, es[..n], m) == Before(root, mode, es, m)
    {
      BeforeIsPast(root, mode, es, n, m);
    }
    assert forall m :: 0 <= m < n ==> es[..n][m] == es[m];
  }

  lemma {:induction false} PipeIff(root: bytes, mode: P.Browser, es: seq<Step>, id: P.Id)
    ensures id in Run(root, mode, es).tables.pipes <==> exists i :: PipeStands(root, mode, es, i, id)
  {
    hide Apply, AddsPipe, DropsPipe;
    if es != [] {
      var n := |es| - 1;
      PipeIff(root, mode, es[..n], id);
      PipeStep(root, mode, Run(root, mode, es[..n]), es[n], id);
      forall i: nat | i < n
        ensures PipeStands(root, mode, es, i, id) <==>
                PipeStands(root, mode, es[..n], i, id) && !DropsPipe(Before(root, mode, es, n), es[n], id)
      {
        PastStands(root, mode, es, n, i, id);
      }
      hide Run, PipeStands;
      LastStands(root, mode, es, n, id);
      if i :| PipeStands(root, mode, es[..n], i, id) { StandsWithin(root, mode, es[..n], i, id); }
      if i :| PipeStands(root, mode, es, i, id) { StandsWithin(root, mode, es, i, id); }
    }
  }

  lemma LastStands(root: bytes, mode: P.Browser, es: seq<Step>, n: nat, id: P.Id)
    requires |es| == n + 1
    ensures PipeStands(root, mode, es, n, id) <==> AddsPipe(Before(root, mode, es, n), es[n], id)
    ensures SlotGone(root, mode, es, n, id) <==> Removes(Before(root, mode, es, n), es[n], id)
  {
    hide Before, AddsPipe, Removes;
  }

  lemma StandsWithin(root: bytes, mode: P.Browser, es: seq<Step>, i: nat, id: P.Id)
    requires PipeStands(root, mode, es, i, id)
    ensures i < |es|
  {
    hide Before, AddsPipe, DropsPipe;
  }

  /** A slot that was inserted and is not there any more was removed, and not inserted
      since. */
  lemma {:induction false} GoneSince(root: bytes, mode: P.Browser, es: seq<Step>, p: nat, id: P.Id) returns (k: nat)
    requires p < |es| && Inserts(Before(root, mode, es, p), es[p], id) && id !in Run(root, mode, es).tables.agents
    ensures p < k && SlotGone(root, mode, es, k, id)
  {
    hide Apply, Inserts, Removes, SlotGone;
    var n := |es| - 1;
    SlotStep(root, mode, Run(root, mode, es[..n]), es[n], id);
    assert Before(root, mode, es, n) == Run(root, mode, es[..n]);
    LastStands(root, mode, es, n, id);
    if Removes(Before(root, mode, es, n), es[n], id) && p < n {
      k := n;
    } else {
      assert p < n;
      BeforeIsPast(root, mode, es, n, p);
      k := GoneSince(root, mode, es[..n], p, id);
      GoneWithin(root, mode, es[..n], k, id);
      PastStands(root, mode, es, n, k, id);
    }
  }

  lemma GoneWithin(root: bytes, mode: P.Browser, es: seq<Step>, k: nat, id: P.Id)
    requires SlotGone(root, mode, es, k, id)
    ensures k < |es|
  {
    hide Before, Inserts, Removes;
  }

  lemma {:induction false} GoneIsAbsent(root: bytes, mode: P.Browser, es: seq<Step>, k: nat, id: P.Id)
    requires SlotGone(root, mode, es, k, id)
    ensures id !in Run(root, mode, es).tables.agents
  {
    hide Apply, Inserts, Removes, SlotGone;
    GoneWithin(root, mode, es, k, id);
    var n := |es| - 1;
    SlotStep(root, mode, Run(root, mode, es[..n]), es[n], id);
    assert Before(root, mode, es, n) == Run(root, mode, es[..n]);
    if k < n {
      PastStands(root, mode, es, n, k, id);
      GoneIsAbsent(root, mode, es[..n], k, id);
    } else {
      LastStands(root, mode, es, n, id);
      RemovesOnly(Run(root, mode, es[..n]), es[n], id);
    }
  }

  lemma RemovesOnly(s: System, e: Step, id: P.Id)
    requires Removes(s, e, id)
    ensures !Inserts(s, e, id)
  {
    hide P.Refusal;
  }

  /** A creation that is past publication has published. */
  lemma {:induction false} WasPublished(root: bytes, mode: P.Browser, es: seq<Step>, j: nat) returns (p: nat)
    requires var s := Run(root, mode, es);
             j in s.jobs && s.jobs[j].Creating? && (s.jobs[j].stage == Published || s.jobs[j].stage.Piped?)
    ensures PublishedBy(root, mode, es, p, j, Run(root, mode, es).jobs[j].q.id)
  {
    hide Apply;
    var n := |es| - 1;
    var s := Run(root, mode, es[..n]);
    JobStep(root, mode, s, es[n], j);
    assert Before(root, mode, es, n) == s;
    if es[n] == Advance(j) && j in s.jobs && s.jobs[j].Creating? && s.jobs[j].stage == Listed {
      p := n;
    } else {
      p := WasPublished(root, mode, es[..n], j);
      BeforeIsPast(root, mode, es, n, p);
    }
  }

  /** How a job that is past publication came to be there. */
  lemma JobStep(root: bytes, mode: P.Browser, s: System, e: Step, j: nat)
    requires var t := Apply(root, mode, s, e);
             j in t.jobs && t.jobs[j].Creating? && (t.jobs[j].stage == Published || t.jobs[j].stage.Piped?)
    ensures j in s.jobs && s.jobs[j].Creating? && s.jobs[j].q == Apply(root, mode, s, e).jobs[j].q
    ensures (e == Advance(j) && s.jobs[j].stage == Listed) || s.jobs[j].stage == Published || s.jobs[j].stage.Piped?
  {
    hide P.ConfigFor, P.AclFor, P.Kept, P.Furnished, P.WithHeadless, P.Stack, P.Refusal, P.Housed, P.Release, Destroy;
  }

  // ---- When a pipe is left without an agent ---------------------------------

  predicate Orphan(s: System, id: P.Id)
  {
    id in s.tables.pipes && id !in s.tables.agents
  }

  /** A creation publishes the agent in step p and adds its pipe in step i, the pipe is not
      dropped since, and step k behind the publication removes the slot, which is not inserted
      since. */
  ghost predicate Overtaken(root: bytes, mode: P.Browser, es: seq<Step>, id: P.Id, j: nat, p: nat, i: nat, k: nat)
  {
    && p < i < |es| && p < k && PublishedBy(root, mode, es, p, j, id) && es[i] == Advance(j)
    && PipeStands(root, mode, es, i, id) && SlotGone(root, mode, es, k, id)
  }

  /** Over every interleaving, an agent's name is left with a pipe and no agent exactly when
      one of its creations was overtaken: its slot went between publication and now, and the
      pipe it added was neither dropped nor reaped. */
  lemma OrphanIff(root: bytes, mode: P.Browser, es: seq<Step>, id: P.Id)
    ensures Orphan(Run(root, mode, es), id) <==> exists j, p, i, k :: Overtaken(root, mode, es, id, j, p, i, k)
  {
    hide Run, PipeStands, SlotGone, PublishedBy;
    PipeIff(root, mode, es, id);
    if Orphan(Run(root, mode, es), id) {
      var i: nat :| PipeStands(root, mode, es, i, id);
      StandsWithin(root, mode, es, i, id);
      var p := PublishedBefore(root, mode, es, i, id);
      PublishedInserts(root, mode, es, p, es[i].j, id);
      var k := GoneSince(root, mode, es, p, id);
      assert Overtaken(root, mode, es, id, es[i].j, p, i, k);
    }
    if j, p, i, k :| Overtaken(root, mode, es, id, j, p, i, k) {
      GoneIsAbsent(root, mode, es, k, id);
    }
  }

  lemma PublishedInserts(root: bytes, mode: P.Browser, es: seq<Step>, p: nat, j: nat, id: P.Id)
    requires PublishedBy(root, mode, es, p, j, id)
    ensures p < |es| && Inserts(Before(root, mode, es, p), es[p], id)
  {
    hide Before;
  }

  lemma PublishedBefore(root: bytes, mode: P.Browser, es: seq<Step>, i: nat, id: P.Id) returns (p: nat)
    requires PipeStands(root, mode, es, i, id) && i < |es|
    ensures es[i].Advance? && p < i && PublishedBy(root, mode, es, p, es[i].j, id)
  {
    hide Run;
    p := WasPublished(root, mode, es[..i], es[i].j);
    BeforeIsPast(root, mode, es, i, p);
  }

  // ---- Without failing creations it takes a destruction ---------------------

  /** No creation of the agent gave its slot back. */
  ghost predicate NoneFreed(root: bytes, mode: P.Browser, es: seq<Step>, id: P.Id)
  {
    forall m :: 0 <= m < |es| ==> !Frees(Before(root, mode, es, m), es[m], id)
  }

  ghost predicate Quiet(s: System)
  {
    forall j :: j in s.jobs ==> IsOver(s.jobs[j])
  }

  /** The destruction that began in step k. */
  predicate DestroyBegan(root: bytes, mode: P.Browser, es: seq<Step>, k: nat, id: P.Id)
  {
    k < |es| && es[k].BeginDestroy? && es[k].id == id && Enabled(Before(root, mode, es, k), es[k])
  }

  /** When all creations and destructions are finished and no creation of the agent failed,
      its name is left with a pipe and no agent exactly when a destruction fell between the
      publication and the pipe of a creation, with no reap or other destruction since the pipe
      was added and no creation since the slot was taken. */
  lemma OrphanedByDestroyIff(root: bytes, mode: P.Browser, es: seq<Step>, id: P.Id)
    requires Quiet(Run(root, mode, es)) && NoneFreed(root, mode, es, id)
    ensures Orphan(Run(root, mode, es), id) <==>
            exists j, p, i, k ::
              Overtaken(root, mode, es, id, j, p, i, k) && k < i && DestroyBegan(root, mode, es, k, id)
  {
    hide Run, Overtaken, DestroyBegan, Quiet, NoneFreed;
    OrphanIff(root, mode, es, id);
    if j, p, i, k :| Overtaken(root, mode, es, id, j, p, i, k) {
      TakenByDestroy(root, mode, es, id, j, p, i, k);
    }
  }

  lemma TakenByDestroy(root: bytes, mode: P.Browser, es: seq<Step>, id: P.Id, j: nat, p: nat, i: nat, k: nat)
    requires Overtaken(root, mode, es, id, j, p, i, k) && Quiet(Run(root, mode, es)) && NoneFreed(root, mode, es, id)
    ensures k < i && DestroyBegan(root, mode, es, k, id)
  {
    hide Run, Before, AddsPipe, Inserts, PublishedBy, DropsPipe;
    JobBegun(Before(root, mode, es, k), es[k], id);
    DestroyStays(root, mode, es, k, id);
    var m := PipeDropped(root, mode, es, k, id);
    AddsIsCreating(Before(root, mode, es, i), es[i], id);
  }

  lemma AddsIsCreating(s: System, e: Step, id: P.Id)
    requires AddsPipe(s, e, id)
    ensures !DropsPipe(s, e, id)
  {
  }

  lemma JobBegun(s: System, e: Step, id: P.Id)
    requires Removes(s, e, id) && !Frees(s, e, id)
    ensures e.BeginDestroy? && e.id == id && Enabled(s, e)
  {
  }

  /** A destruction keeps its name; it drops the pipe first. */
  lemma DestroyStep(root: bytes, mode: P.Browser, s: System, e: Step, d: nat)
    requires d in s.jobs && s.jobs[d].Destroying?
    ensures var t := Apply(root, mode, s, e);
            && d in t.jobs && t.jobs[d].Destroying? && t.jobs[d].id == s.jobs[d].id
            && (s.jobs[d].left == PipeAndAll && t.jobs[d].left != PipeAndAll ==> DropsPipe(s, e, s.jobs[d].id))
  {
    hide Create, P.Refusal, P.Release;
  }

  lemma BegunHasPipe(root: bytes, mode: P.Browser, s: System, e: Step)
    requires e.BeginDestroy? && Enabled(s, e)
    ensures var t := Apply(root, mode, s, e);
            e.j in t.jobs && t.jobs[e.j].Destroying? && t.jobs[e.j].id == e.id && t.jobs[e.j].left == PipeAndAll
  {
  }

  lemma {:induction false} DestroyStays(root: bytes, mode: P.Browser, es: seq<Step>, k: nat, id: P.Id)
    requires DestroyBegan(root, mode, es, k, id)
    ensures var s := Run(root, mode, es); es[k].j in s.jobs && s.jobs[es[k].j].Destroying? && s.jobs[es[k].j].id == id
  {
    hide Apply, Enabled;
    var n := |es| - 1;
    var s := Run(root, mode, es[..n]);
    if k == n {
      BegunHasPipe(root, mode, s, es[n]);
    } else {
      BeforeIsPast(root, mode, es, n, k);
      DestroyStays(root, mode, es[..n], k, id);
      DestroyStep(root, mode, s, es[n], es[k].j);
    }
  }

  /** A destruction that has dropped the pipe did so behind its begin. */
  lemma {:induction false} PipeDropped(root: bytes, mode: P.Browser, es: seq<Step>, k: nat, id: P.Id) returns (m: nat)
    requires DestroyBegan(root, mode, es, k, id)
    requires var s := Run(root, mode, es);
             es[k].j in s.jobs && s.jobs[es[k].j].Destroying? && s.jobs[es[k].j].left != PipeAndAll
    ensures k < m < |es| && DropsPipe(Before(root, mode, es, m), es[m], id)
  {
    hide Apply, Enabled, DropsPipe;
    var n := |es| - 1;
    var d := es[k].j;
    var s := Run(root, mode, es[..n]);
    assert Before(root, mode, es, n) == s;
    m := n;
    if k == n {
      BegunHasPipe(root, mode, s, es[n]);
    } else {
      BeforeIsPast(root, mode, es, n, k);
      DestroyStays(root, mode, es[..n], k, id);
      DestroyStep(root, mode, s, es[n], d);
      if s.jobs[d].left != PipeAndAll {
        m := PipeDropped(root, mode, es[..n], k, id);
        BeforeIsPast(root, mode, es, n, m);
      }
    }
  }

  // ---- A destruction can fall there -----------------------------------------

  /** The stage behind each stage of a creation that does not fail. */
  function Onward(stage: Stage, nextWard: nat): Stage
    requires stage != Over && !stage.Unwinding?
  {
    match stage
    case Reserved => Housed
    case Housed => Headless
    case Headless => Listed
    case Listed => Published
    case Published => Piped(nextWard)
    case Piped(_) => Over
  }

  lemma GoesOn(root: bytes, mode: P.Browser, s: System, j: nat)
    requires j in s.jobs && s.jobs[j].Creating? && s.jobs[j].stage != Over && !s.jobs[j].stage.Unwinding?
    requires s.jobs[j].env.fails == P.Nowhere
    ensures var t := Apply(root, mode, s, Advance(j)); var job := s.jobs[j];
            t.jobs == s.jobs[j := Creating(job.q, job.env, Onward(job.stage, s.tables.nextWard))]
  {
    hide P.ConfigFor, P.AclFor, P.Kept, P.Housed, P.WithHeadless, P.Stack;
  }

  function OverlapSteps(q: P.CreateRequest, env: P.Env): seq<Step>
  {
    [Begin(0, q, env), Advance(0), Advance(0), Advance(0), Advance(0),
     BeginDestroy(1, q.id, true), Advance(1), Advance(1), Advance(1), Advance(0), Advance(0)]
  }

  /** The same step n times. */
  function Again(root: bytes, mode: P.Browser, s: System, e: Step, n: nat): System
  {
    if n == 0 then s else Apply(root, mode, Again(root, mode, s, e, n - 1), e)
  }

  lemma AgainIs(root: bytes, mode: P.Browser, s: System, e: Step)
    ensures var two := Apply(root, mode, Apply(root, mode, s, e), e);
            var three := Apply(root, mode, two, e);
            && Again(root, mode, s, e, 2) == two
            && Again(root, mode, s, e, 3) == three
            && Again(root, mode, s, e, 4) == Apply(root, mode, three, e)
  {
    hide Apply;
    assert Again(root, mode, s, e, 1) == Apply(root, mode, s, e);
    assert Again(root, mode, s, e, 2) == Apply(root, mode, Again(root, mode, s, e, 1), e);
    assert Again(root, mode, s, e, 3) == Apply(root, mode, Again(root, mode, s, e, 2), e);
    assert Again(root, mode, s, e, 4) == Apply(root, mode, Again(root, mode, s, e, 3), e);
  }

  lemma RunMore(root: bytes, mode: P.Browser, es: seq<Step>, n: nat)
    requires n < |es|
    ensures Run(root, mode, es[..n + 1]) == Apply(root, mode, Run(root, mode, es[..n]), es[n])
  {
    assert es[..n + 1][..n] == es[..n];
  }

  /** Creating and destroying the same agent at the same time, with nothing failing, can end
      with a Ward that has a pipe and no agent. */
  lemma OverlapOrphans(root: bytes, mode: P.Browser, q: P.CreateRequest, env: P.Env)
    requires P.ValidId(q.id) && env.fails == P.Nowhere
    ensures var s := Run(root, mode, OverlapSteps(q, env)); Orphan(s, q.id) && Quiet(s)
  {
    hide P.ValidId, Apply, Inserts, Removes, AddsPipe, DropsPipe, Enabled, Create;
    var es, id := OverlapSteps(q, env), q.id;
    var s1 := Apply(root, mode, EMPTY, es[0]);
    BeginsAs(root, mode, EMPTY, 0, q, env);
    var s5 := ToPublished(root, mode, s1, 0);
    var s6 := Apply(root, mode, s5, es[5]);
    TakesSlot(root, mode, s5, 1, id);
    var s9 := ToNothing(root, mode, s6, 1);
    var s10 := Apply(root, mode, s9, Advance(0));
    GoesOn(root, mode, s9, 0);
    PipeAdded(root, mode, s9, 0);
    var s11 := Apply(root, mode, s10, Advance(0));
    GoesOn(root, mode, s10, 0);
    PipeKept(root, mode, s10, 0);
    RunsThrough(root, mode, q, env);
    AgainIs(root, mode, s9, Advance(0));
  }

  lemma BeginsAs(root: bytes, mode: P.Browser, s: System, j: nat, q: P.CreateRequest, env: P.Env)
    requires j !in s.jobs && P.ValidId(q.id) && q.id !in s.tables.agents
    ensures var t := Apply(root, mode, s, Begin(j, q, env));
            t.jobs == s.jobs[j := Creating(q, env, Reserved)] && t.tables.pipes == s.tables.pipes
  {
  }

  /** Four steps to publication. */
  lemma ToPublished(root: bytes, mode: P.Browser, s: System, j: nat) returns (t: System)
    requires j in s.jobs && s.jobs[j].Creating? && s.jobs[j].stage == Reserved && s.jobs[j].env.fails == P.Nowhere
    ensures t == Again(root, mode, s, Advance(j), 4)
    ensures t.jobs == s.jobs[j := Creating(s.jobs[j].q, s.jobs[j].env, Published)] && s.jobs[j].q.id in t.tables.agents
  {
    hide Apply;
    var a := Apply(root, mode, s, Advance(j));
    GoesOn(root, mode, s, j);
    var b := Apply(root, mode, a, Advance(j));
    GoesOn(root, mode, a, j);
    var c := Apply(root, mode, b, Advance(j));
    GoesOn(root, mode, b, j);
    t := Apply(root, mode, c, Advance(j));
    AgainIs(root, mode, s, Advance(j));
    GoesOn(root, mode, c, j);
    SlotStep(root, mode, c, Advance(j), s.jobs[j].q.id);
  }

  lemma TakesSlot(root: bytes, mode: P.Browser, s: System, d: nat, id: P.Id)
    requires d !in s.jobs && id in s.tables.agents
    ensures var t := Apply(root, mode, s, BeginDestroy(d, id, true));
            && id !in t.tables.agents
            && t.jobs == s.jobs[d := Destroying(id, true, s.tables.agents[id].subvol.Some?, PipeAndAll)]
  {
  }

  /** Three steps to the end of a destruction. */
  lemma ToNothing(root: bytes, mode: P.Browser, s: System, d: nat) returns (t: System)
    requires d in s.jobs && s.jobs[d].Destroying? && s.jobs[d].left == PipeAndAll
    ensures t == Again(root, mode, s, Advance(d), 3)
    ensures var job := s.jobs[d]; t.jobs == s.jobs[d := Destroying(job.id, job.destroyOk, job.housed, Nothing)]
    ensures t.tables.agents == s.tables.agents
    ensures t.tables == DestroyedRest(mode, s.tables, s.jobs[d].id, s.jobs[d].housed && s.jobs[d].destroyOk)
  {
    hide P.Release;
    var id := s.jobs[d].id;
    ReleaseMoves(mode, s.tables.(pipes := s.tables.pipes - {id}, acls := s.tables.acls - {id}), id);
    AgainIs(root, mode, s, Advance(d));
    var a := Apply(root, mode, s, Advance(d));
    var b := Apply(root, mode, a, Advance(d));
    t := Apply(root, mode, b, Advance(d));
  }

  lemma ReleaseMoves(mode: P.Browser, t: P.State, id: P.Id)
    ensures P.Release(mode, t, id).agents == t.agents
  {
  }

  function DestroyedRest(mode: P.Browser, t: P.State, id: P.Id, destroyed: bool): P.State
  {
    var released := P.Release(mode, t.(pipes := t.pipes - {id}, acls := t.acls - {id}), id);
    if destroyed then released.(subvols := released.subvols - {id}) else released
  }

  lemma PipeAdded(root: bytes, mode: P.Browser, s: System, j: nat)
    requires j in s.jobs && s.jobs[j].Creating? && s.jobs[j].stage == Published && s.jobs[j].env.fails == P.Nowhere
    ensures var t := Apply(root, mode, s, Advance(j)); var id := s.jobs[j].q.id;
            id in t.tables.pipes && t.tables.agents == s.tables.agents
  {
    hide P.ConfigFor, P.AclFor, P.Kept, P.Housed, P.WithHeadless, P.Stack;
  }

  lemma PipeKept(root: bytes, mode: P.Browser, s: System, j: nat)
    requires j in s.jobs && s.jobs[j].Creating? && s.jobs[j].stage.Piped?
    ensures var t := Apply(root, mode, s, Advance(j)); var id := s.jobs[j].q.id;
            t.tables.pipes == s.tables.pipes && (id !in s.tables.agents ==> id !in t.tables.agents)
  {
    hide P.ConfigFor, P.AclFor, P.Kept, P.Housed, P.WithHeadless, P.Stack;
  }

  lemma RunsThrough(root: bytes, mode: P.Browser, q: P.CreateRequest, env: P.Env)
    ensures var s1 := Apply(root, mode, EMPTY, Begin(0, q, env));
            var s5 := Again(root, mode, s1, Advance(0), 4);
            var s6 := Apply(root, mode, s5, BeginDestroy(1, q.id, true));
            var s9 := Again(root, mode, s6, Advance(1), 3);
            Run(root, mode, OverlapSteps(q, env)) == Again(root, mode, s9, Advance(0), 2)
  {
    hide Apply;
    var es := OverlapSteps(q, env);
    assert es[..0] == [] && es[..11] == es;
    var s1 := Apply(root, mode, EMPTY, Begin(0, q, env));
    var s5 := Again(root, mode, s1, Advance(0), 4);
    var s6 := Apply(root, mode, s5, BeginDestroy(1, q.id, true));
    AgainIs(root, mode, s1, Advance(0));
    AgainIs(root, mode, s6, Advance(1));
    AgainIs(root, mode, Again(root, mode, s6, Advance(1), 3), Advance(0));
    RunMore(root, mode, es, 0);
    RunMore(root, mode, es, 1);
    RunMore(root, mode, es, 2);
    RunMore(root, mode, es, 3);
    RunMore(root, mode, es, 4);
    RunMore(root, mode, es, 5);
    RunMore(root, mode, es, 6);
    RunMore(root, mode, es, 7);
    RunMore(root, mode, es, 8);
    RunMore(root, mode, es, 9);
    RunMore(root, mode, es, 10);
    assert Run(root, mode, []) == EMPTY;
    hide Run;
  }

  // ---- Alone, the pieces are the whole --------------------------------------

  /** A creation's next n pieces with nothing in between. */
  function Work(root: bytes, mode: P.Browser, t: P.State, q: P.CreateRequest, env: P.Env, stage: Stage, n: nat)
    : (P.State, Stage)
    decreases n
  {
    if n == 0 || stage == Over then (t, stage)
    else
      var (t', stage') := Create(root, mode, t, q, env, stage);
      Work(root, mode, t', q, env, stage', n - 1)
  }

  lemma {:induction false} UnwindWork(root: bytes, mode: P.Browser, t: P.State, q: P.CreateRequest, env: P.Env,
                                      us: seq<P.Undo>)
    ensures var u := P.Unwound(mode, t, q.id, env.destroyOk, us);
            Work(root, mode, t, q, env, Unwinding(us), |us| + 1) == (u.(agents := u.agents - {q.id}), Over)
    decreases |us|
  {
    hide P.ConfigFor, P.AclFor, P.Kept, P.Housed, P.WithHeadless, P.Stack, P.Undone;
    if us != [] {
      UnwindWork(root, mode, P.Undone(mode, t, q.id, env.destroyOk, us[|us| - 1]), q, env, us[..|us| - 1]);
    }
  }

  /** From the furnished directory to the failure to spawn, or to the end. */
  lemma FromHoused(root: bytes, mode: P.Browser, t: P.State, q: P.CreateRequest, env: P.Env)
    requires P.Spawning(env.fails)
    ensures var published := P.Published(root, mode, t, P.ConfigFor(q, env.provisioned.kdl));
            if env.fails == P.Nowhere then Work(root, mode, t, q, env, Housed, 5) == (P.Spawned(published, q.id), Over)
            else Work(root, mode, t, q, env, Housed, 4) == (published, Unwinding(P.Stack(mode, env.fails)))
  {
    hide P.ConfigFor, P.AclFor, P.Kept, P.WithHeadless, P.Stack, P.Housed, P.Undone, Work;
    var cfg := P.ConfigFor(q, env.provisioned.kdl);
    var headless := t.(headless := P.WithHeadless(mode, t.headless, q.id, cfg.headless));
    var listed := headless.(acls := headless.acls[q.id := P.AclFor(root, cfg)]);
    var published := P.Published(root, mode, t, cfg);
    var n := if env.fails == P.Nowhere then 1 else 0;
    WorkOne(root, mode, t, q, env, Housed, n + 3);
    WorkOne(root, mode, headless, q, env, Headless, n + 2);
    WorkOne(root, mode, listed, q, env, Listed, n + 1);
    WorkOne(root, mode, published, q, env, Published, n);
    if env.fails == P.Nowhere {
      var piped := published.(pipes := published.pipes[q.id := published.nextWard], nextWard := published.nextWard + 1);
      WorkOne(root, mode, piped, q, env, Piped(published.nextWard), 0);
      WorkNone(root, mode, P.Spawned(published, q.id), q, env, Over);
    } else {
      WorkNone(root, mode, published, q, env, Unwinding(P.Stack(mode, env.fails)));
    }
  }

  lemma FirstPiece(root: bytes, mode: P.Browser, s: P.State, q: P.CreateRequest, env: P.Env)
    ensures var t := s.(agents := s.agents[q.id := P.Agent(None, None, None)]);
            Create(root, mode, t, q, env, Reserved) ==
            (P.Housed(s, q, env), if P.Spawning(env.fails) then Housed else Unwinding(P.Stack(mode, env.fails)))
  {
    hide P.Furnished, P.Stack;
  }

  /** The pieces up to the failure, or to the end. */
  lemma ForwardWork(root: bytes, mode: P.Browser, s: P.State, q: P.CreateRequest, env: P.Env)
    ensures var t := s.(agents := s.agents[q.id := P.Agent(None, None, None)]);
            var n := if env.fails == P.Nowhere then 6 else if P.Spawning(env.fails) then 5 else 1;
            Work(root, mode, t, q, env, Reserved, n) ==
            (P.Built(root, mode, s, q, env),
             if env.fails == P.Nowhere then Over else Unwinding(P.Stack(mode, env.fails)))
  {
    hide P.ConfigFor, P.Housed, P.Published, P.Spawned, P.Stack, Work, Create;
    var t := s.(agents := s.agents[q.id := P.Agent(None, None, None)]);
    var housed := P.Housed(s, q, env);
    FirstPiece(root, mode, s, q, env);
    WorkOne(root, mode, t, q, env, Reserved,
            if env.fails == P.Nowhere then 5 else if P.Spawning(env.fails) then 4 else 0);
    if P.Spawning(env.fails) {
      FromHoused(root, mode, housed, q, env);
    } else {
      WorkNone(root, mode, housed, q, env, Unwinding(P.Stack(mode, env.fails)));
    }
  }

  lemma WorkOne(root: bytes, mode: P.Browser, t: P.State, q: P.CreateRequest, env: P.Env, stage: Stage, n: nat)
    requires stage != Over
    ensures var (t', stage') := Create(root, mode, t, q, env, stage);
            Work(root, mode, t, q, env, stage, n + 1) == Work(root, mode, t', q, env, stage', n)
  {
    hide Create;
  }

  lemma WorkNone(root: bytes, mode: P.Browser, t: P.State, q: P.CreateRequest, env: P.Env, stage: Stage)
    ensures Work(root, mode, t, q, env, stage, 0) == (t, stage)
  {
  }

  lemma {:induction false} WorkMore(root: bytes, mode: P.Browser, t: P.State, q: P.CreateRequest, env: P.Env,
                                    stage: Stage, n: nat, m: nat)
    ensures var (t', stage') := Work(root, mode, t, q, env, stage, n);
            Work(root, mode, t, q, env, stage, n + m) == Work(root, mode, t', q, env, stage', m)
    decreases n
  {
    hide Create;
    if n > 0 && stage != Over {
      var (t', stage') := Create(root, mode, t, q, env, stage);
      WorkMore(root, mode, t', q, env, stage', n - 1, m);
    }
  }

  /** A creation that nothing interrupts does what the undivided one does, whether it succeeds
      or fails. */
  lemma CreationAlone(root: bytes, mode: P.Browser, s: P.State, q: P.CreateRequest, env: P.Env) returns (n: nat)
    requires P.Refusal(s, q.id) == None
    ensures var t := s.(agents := s.agents[q.id := P.Agent(None, None, None)]);
            Work(root, mode, t, q, env, Reserved, n) == (P.AfterCreate(root, mode, s, q, env).0, Over)
  {
    hide P.ConfigFor, P.AclFor, P.Kept, P.WithHeadless, P.Stack, P.Furnished, P.Built, P.AfterFailure, P.ValidId,
         Work, Create;
    var t := s.(agents := s.agents[q.id := P.Agent(None, None, None)]);
    ForwardWork(root, mode, s, q, env);
    if env.fails == P.Nowhere {
      n := 6;
    } else {
      var k := if P.Spawning(env.fails) then 5 else 1;
      var us := P.Stack(mode, env.fails);
      UnwindWork(root, mode, P.Built(root, mode, s, q, env), q, env, us);
      WorkMore(root, mode, t, q, env, Reserved, k, |us| + 1);
      P.UnwindingGivesFailed(root, mode, s, q, env);
      n := k + |us| + 1;
    }
  }

  /** And so does a destruction. */
  lemma DestructionAlone(root: bytes, mode: P.Browser, s: System, d: nat, id: P.Id, destroyOk: bool)
    requires d !in s.jobs && id in s.tables.agents
    ensures var begun := Apply(root, mode, s, BeginDestroy(d, id, destroyOk));
            var t := Again(root, mode, begun, Advance(d), 3);
            t.tables == P.AfterDestroy(mode, s.tables, id, destroyOk)
  {
    hide P.Release;
    var begun := Apply(root, mode, s, BeginDestroy(d, id, destroyOk));
    var t := ToNothing(root, mode, begun, d);
    hide Apply;
  }
}
