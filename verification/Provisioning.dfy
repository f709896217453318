/** The life of an agent in keeperd: creation with a stack of undo actions, destruction, and
    the reapers of Ward processes, which fire whenever a process happens to end. */
module Provisioning {
  import opened Wrappers
  import opened Mus
  import Authority

  type Id = bytes

  const DEFAULT_CPU_SHARES: nat := 1024

  datatype Scope = Scope(entity: bytes, domains: seq<bytes>, suffixes: seq<bytes>, pathPrefixes: seq<bytes>)

  datatype Grant = Grant(name: bytes, scopes: seq<Scope>)

  datatype Config = Config(
    id: Id, provider: bytes, cpuShares: int, memoryMaxBytes: int, retries: int, headless: bool,
    capabilities: seq<Grant>)

  datatype CreateRequest = CreateRequest(id: Id, provider: bytes, template: bytes, cpuShares: int, memoryMaxBytes: int)

  /** An agent's root directory: its configuration file, if there is one, the capability
      links, and whatever else the template brought along. */
  datatype Subvol = Subvol(kdl: Option<Config>, links: set<bytes>, files: nat)

  /** A slot is reserved with no directory and no pipe before the agent is built. */
  datatype Agent = Agent(subvol: Option<Id>, cfg: Option<Config>, pipe: Option<nat>)

  /** keeperd's tables, and the Ward processes that have not been reaped, each under the
      number of its pipe. */
  datatype State = State(
    agents: map<Id, Agent>, acls: map<Id, Authority.Acl>, pipes: map<Id, nat>, subvols: map<Id, Subvol>,
    headless: map<Id, bool>, sessions: set<Id>, wards: map<nat, Id>, nextWard: nat)

  const START := State(map[], map[], map[], map[], map[], {}, map[], 0)

  /** keeperd runs without a browser manager, with one that has no client, or with both. */
  datatype Browser = NoManager | NoClient | Connected

  /** The operations of `agentCreate` that can fail, in their order. */
  datatype Point =
    | Provision | LoadTemplate | WriteKdl | InstallClis
    | SpawnWard | StdinPipe | StdoutPipe | StartWard
    | Nowhere

  /** How the surroundings behave during one creation: where it fails, what provisioning
      leaves (`provisioned`, or `leftover` if it fails), the names linked, and whether a
      cleanup manages to destroy the directory. */
  datatype Env = Env(fails: Point, provisioned: Subvol, leftover: Option<Subvol>, names: set<bytes>, destroyOk: bool)

  datatype Outcome = Created | EmptyId | InvalidId | Exists | FailedAt(point: Point)

  // ---- Agent IDs ------------------------------------------------------------

  predicate IdByte(c: byte, i: nat)
  {
    97 <= c <= 122 || 48 <= c <= 57 || (c == 45 && i > 0)
  }

  predicate ValidId(id: Id)
  {
    1 <= |id| <= 63 && forall i :: 0 <= i < |id| ==> IdByte(id[i], i)
  }

  predicate LetterOrDigit(c: byte)
  {
    97 <= c <= 122 || 48 <= c <= 57
  }

  /** A valid ID is a lower-case letter or digit, and up to 62 more or hyphens behind it. */
  lemma ValidIdIff(id: Id)
    ensures ValidId(id) <==>
            && id != [] && LetterOrDigit(id[0]) && |id[1..]| <= 62
            && forall c :: c in id[1..] ==> LetterOrDigit(c) || c == 45
  {
    if ValidId(id) {
      assert IdByte(id[0], 0);
      forall c | c in id[1..]
        ensures LetterOrDigit(c) || c == 45
      {
        var i :| 0 <= i < |id[1..]| && id[1..][i] == c;
        assert IdByte(id[i + 1], i + 1);
      }
    } else if id != [] && LetterOrDigit(id[0]) && |id[1..]| <= 62 {
      var i: nat :| i < |id| && !IdByte(id[i], i);
      assert i > 0;
      assert id[1..][i - 1] == id[i];
      assert id[i] in id[1..];
    }
  }

  method ValidateAgentId(id: Id) returns (ok: bool)
    ensures ok <==> ValidId(id)
  {
    if |id| == 0 || |id| > 63 {
      return false;
    }
    for i := 0 to |id|
      invariant forall j :: 0 <= j < i ==> IdByte(id[j], j)
    {
      if !IdByte(id[i], i) {
        return false;
      }
    }
    return true;
  }

  // ---- Configuration and access list ----------------------------------------

  const DOMAIN: bytes := [100, 111, 109, 97, 105, 110] // "domain"
  const DOMAIN_SUFFIX: bytes := [100, 111, 109, 97, 105, 110, 45, 115, 117, 102, 102, 105, 120] // "domain-suffix"
  const PATH_PREFIX: bytes := [112, 97, 116, 104, 45, 112, 114, 101, 102, 105, 120] // "path-prefix"
  // "Filesystem_File_Write"
  const FILE_WRITE: bytes := [70, 105, 108, 101, 115, 121, 115, 116, 101, 109, 95, 70, 105, 108, 101, 95, 87, 114,
                              105, 116, 101]
  // "Browser_Page_Read"
  const PAGE_READ: bytes := [66, 114, 111, 119, 115, 101, 114, 95, 80, 97, 103, 101, 95, 82, 101, 97, 100]
  const FILE: bytes := [70, 105, 108, 101] // "File"
  const LINK: bytes := [76, 105, 110, 107] // "Link"
  // "en.wikipedia.org"
  const WIKIPEDIA: bytes := [101, 110, 46, 119, 105, 107, 105, 112, 101, 100, 105, 97, 46, 111, 114, 103]
  const GITHUB: bytes := [103, 105, 116, 104, 117, 98, 46, 99, 111, 109] // "github.com"
  const OUTPUT: bytes := [47, 111, 117, 116, 112, 117, 116] // "/output"

  /** The request, with the browser setting and the grants of the template. */
  function ConfigFor(q: CreateRequest, template: Option<Config>): (cfg: Config)
    ensures cfg.id == q.id
  {
    var shares := if q.cpuShares == 0 then DEFAULT_CPU_SHARES else q.cpuShares;
    match template
    case None => Config(q.id, q.provider, shares, q.memoryMaxBytes, 1, false, [])
    case Some(t) =>
      var retries := if t.retries != 0 then t.retries else 1;
      Config(q.id, q.provider, shares, q.memoryMaxBytes, retries, t.headless, t.capabilities)
  }

  /** A constraint key stands in the map exactly when its list is not empty. */
  predicate ScopeOf(s: Scope, c: Authority.ScopeConstraint)
  {
    && c.entity == s.entity
    && c.constraints.Keys == (if s.domains != [] then {DOMAIN} else {})
                             + (if s.suffixes != [] then {DOMAIN_SUFFIX} else {})
                             + (if s.pathPrefixes != [] then {PATH_PREFIX} else {})
    && (s.domains != [] ==> c.constraints[DOMAIN] == s.domains)
    && (s.suffixes != [] ==> c.constraints[DOMAIN_SUFFIX] == s.suffixes)
    && (s.pathPrefixes != [] ==> c.constraints[PATH_PREFIX] == s.pathPrefixes)
  }

  function Constraint(s: Scope): (c: Authority.ScopeConstraint)
    ensures ScopeOf(s, c)
  {
    var m0: map<bytes, seq<bytes>> := if s.domains != [] then map[DOMAIN := s.domains] else map[];
    var m1 := if s.suffixes != [] then m0[DOMAIN_SUFFIX := s.suffixes] else m0;
    Authority.ScopeConstraint(s.entity, if s.pathPrefixes != [] then m1[PATH_PREFIX := s.pathPrefixes] else m1)
  }

  function EntryOf(g: Grant): Authority.Entry
  {
    Authority.Entry(g.name, seq(|g.scopes|, i requires 0 <= i < |g.scopes| => Constraint(g.scopes[i])))
  }

  function EntriesOf(gs: seq<Grant>): (es: seq<Authority.Entry>)
    ensures |es| == |gs|
  {
    seq(|gs|, i requires 0 <= i < |gs| => EntryOf(gs[i]))
  }

  /** What an agent without configured capabilities gets: its own output directory, and two
      sites. */
  function Fallback(path: bytes): seq<Authority.Entry>
  {
    [Authority.Entry(FILE_WRITE, [Authority.ScopeConstraint(FILE, map[PATH_PREFIX := [path + OUTPUT]])]),
     Authority.Entry(PAGE_READ, [Authority.ScopeConstraint(LINK, map[DOMAIN := [WIKIPEDIA, GITHUB]])])]
  }

  function AclFor(root: bytes, cfg: Config): Authority.Acl
  {
    Authority.Acl(cfg.id, if cfg.capabilities != [] then EntriesOf(cfg.capabilities) else Fallback(root + cfg.id))
  }

  /** The configuration keeperd keeps: the fallback grants are entered without their
      scopes. */
  function Kept(cfg: Config): Config
  {
    if cfg.capabilities != [] then cfg else cfg.(capabilities := [Grant(FILE_WRITE, []), Grant(PAGE_READ, [])])
  }

  // ---- What one creation does -----------------------------------------------

  predicate Spawning(p: Point)
  {
    p == SpawnWard || p == StdinPipe || p == StdoutPipe || p == StartWard || p == Nowhere
  }

  /** The directory when the point is reached. */
  function Furnished(q: CreateRequest, env: Env): Subvol
  {
    var written := env.provisioned.(kdl := Some(ConfigFor(q, env.provisioned.kdl)));
    match env.fails
    case Provision => env.provisioned
    case LoadTemplate => env.provisioned
    case WriteKdl => env.provisioned
    case InstallClis => written
    case _ => written.(links := written.links + env.names)
  }

  function WithHeadless(mode: Browser, headless: map<Id, bool>, id: Id, value: bool): map<Id, bool>
  {
    if mode == NoManager then headless else headless[id := value]
  }

  /** The three stages of the work, each on the state the one before left. */
  function Housed(s: State, q: CreateRequest, env: Env): State
  {
    s.(agents := s.agents[q.id := Agent(None, None, None)],
       subvols := if env.fails != Provision then s.subvols[q.id := Furnished(q, env)]
                  else if env.leftover.Some? then s.subvols[q.id := env.leftover.value]
                  else s.subvols)
  }

  function Published(root: bytes, mode: Browser, s: State, cfg: Config): State
  {
    s.(headless := WithHeadless(mode, s.headless, cfg.id, cfg.headless),
       acls := s.acls[cfg.id := AclFor(root, cfg)],
       agents := s.agents[cfg.id := Agent(Some(cfg.id), Some(Kept(cfg)), None)])
  }

  function Spawned(s: State, id: Id): State
    requires id in s.agents
  {
    s.(pipes := s.pipes[id := s.nextWard], agents := s.agents[id := s.agents[id].(pipe := Some(s.nextWard))],
       wards := s.wards[s.nextWard := id], nextWard := s.nextWard + 1)
  }

  /** The state in which the work stops, at the failure or at the end. */
  function Built(root: bytes, mode: Browser, s: State, q: CreateRequest, env: Env): State
  {
    var housed := Housed(s, q, env);
    if !Spawning(env.fails) then housed
    else
      var published := Published(root, mode, housed, ConfigFor(q, env.provisioned.kdl));
      if env.fails != Nowhere then published else Spawned(published, q.id)
  }

  /** A successful creation enters the agent everywhere. */
  lemma BuiltIn(root: bytes, mode: Browser, s: State, q: CreateRequest, env: Env)
    requires env.fails == Nowhere
    ensures var cfg := ConfigFor(q, env.provisioned.kdl);
            Built(root, mode, s, q, env) ==
            State(s.agents[q.id := Agent(Some(q.id), Some(Kept(cfg)), Some(s.nextWard))],
                  s.acls[q.id := AclFor(root, cfg)], s.pipes[q.id := s.nextWard], s.subvols[q.id := Furnished(q, env)],
                  WithHeadless(mode, s.headless, q.id, cfg.headless), s.sessions,
                  s.wards[s.nextWard := q.id], s.nextWard + 1)
  {
    hide AclFor, Kept, Furnished, WithHeadless;
    var cfg := ConfigFor(q, env.provisioned.kdl);
    hide ConfigFor;
    var agent := Agent(Some(q.id), Some(Kept(cfg)), Some(s.nextWard));
    assert Built(root, mode, s, q, env).agents == s.agents[q.id := agent];
  }

  datatype Undo = DropSubvol | ReleaseBrowser | DropAcl

  /** The undo actions pushed before the failure. */
  function Stack(mode: Browser, p: Point): seq<Undo>
  {
    if p == Provision then []
    else if !Spawning(p) then [DropSubvol]
    else if mode == NoManager then [DropSubvol, DropAcl]
    else [DropSubvol, ReleaseBrowser, DropAcl]
  }

  /** The browser manager's release does nothing without a client. */
  function Release(mode: Browser, s: State, id: Id): State
  {
    if mode != Connected || id == [] then s else s.(headless := s.headless - {id}, sessions := s.sessions - {id})
  }

  function Undone(mode: Browser, s: State, id: Id, destroyOk: bool, u: Undo): State
  {
    match u
    case DropSubvol => if destroyOk then s.(subvols := s.subvols - {id}) else s
    case ReleaseBrowser => Release(mode, s, id)
    case DropAcl => s.(acls := s.acls - {id})
  }

  function Unwound(mode: Browser, s: State, id: Id, destroyOk: bool, us: seq<Undo>): State
    decreases |us|
  {
    if us == [] then s
    else Unwound(mode, Undone(mode, s, id, destroyOk, us[|us| - 1]), id, destroyOk, us[..|us| - 1])
  }

  /** The state after a creation that failed behind the reservation, said outright. */
  function AfterFailure(root: bytes, mode: Browser, s: State, q: CreateRequest, env: Env): State
  {
    var id := q.id;
    var cfg := ConfigFor(q, env.provisioned.kdl);
    s.(agents := s.agents - {id},
       subvols := if env.fails == Provision then
                    (if env.leftover.Some? then s.subvols[id := env.leftover.value] else s.subvols)
                  else if env.destroyOk then s.subvols - {id}
                  else s.subvols[id := Furnished(q, env)],
       acls := if Spawning(env.fails) then s.acls - {id} else s.acls,
       headless := if !Spawning(env.fails) then s.headless
                   else if mode == Connected && id != [] then s.headless - {id}
                   else WithHeadless(mode, s.headless, id, cfg.headless),
       sessions := if Spawning(env.fails) && mode == Connected && id != [] then s.sessions - {id} else s.sessions)
  }

  lemma UnwindingGivesFailed(root: bytes, mode: Browser, s: State, q: CreateRequest, env: Env)
    requires env.fails != Nowhere && q.id !in s.agents
    ensures var t := Unwound(mode, Built(root, mode, s, q, env), q.id, env.destroyOk, Stack(mode, env.fails));
            t.(agents := t.agents - {q.id}) == AfterFailure(root, mode, s, q, env)
  {
    hide AclFor, ConfigFor, Kept, Furnished, Unwound, Stack, Undone, AfterFailure, Published, WithHeadless, Housed;
    var t := Built(root, mode, s, q, env);
    UnwindStack(mode, t, q.id, env.destroyOk, env.fails);
    if env.fails == Provision {
      EarlyFailure(root, mode, s, q, env);
    } else if !Spawning(env.fails) {
      EarlyFailure(root, mode, s, q, env);
    } else {
      LateFailure(root, mode, s, q, env);
    }
  }

  lemma EarlyFailure(root: bytes, mode: Browser, s: State, q: CreateRequest, env: Env)
    requires !Spawning(env.fails) && q.id !in s.agents
    ensures var t := Housed(s, q, env);
            var u := if env.fails == Provision then t else Undone(mode, t, q.id, env.destroyOk, DropSubvol);
            u.(agents := u.agents - {q.id}) == AfterFailure(root, mode, s, q, env)
  {
    hide AclFor, ConfigFor, Furnished, WithHeadless;
    assert s.agents[q.id := Agent(None, None, None)] - {q.id} == s.agents - {q.id};
    assert s.subvols[q.id := Furnished(q, env)] - {q.id} == s.subvols - {q.id};
  }

  lemma LateFailure(root: bytes, mode: Browser, s: State, q: CreateRequest, env: Env)
    requires Spawning(env.fails) && q.id !in s.agents
    ensures var t := Published(root, mode, Housed(s, q, env), ConfigFor(q, env.provisioned.kdl));
            var v := Undone(mode, Undone(mode, t, q.id, env.destroyOk, DropAcl), q.id, env.destroyOk, ReleaseBrowser);
            var u := Undone(mode, v, q.id, env.destroyOk, DropSubvol);
            u.(agents := u.agents - {q.id}) == AfterFailure(root, mode, s, q, env)
  {
    var cfg := ConfigFor(q, env.provisioned.kdl);
    hide AclFor, ConfigFor, Kept, Furnished;
    PutAndRemoved(s.agents[q.id := Agent(None, None, None)], q.id, Agent(Some(q.id), Some(Kept(cfg)), None));
    PutAndRemoved(s.agents, q.id, Agent(None, None, None));
    PutAndRemoved(s.subvols, q.id, Furnished(q, env));
    PutAndRemoved(s.acls, q.id, AclFor(root, cfg));
    PutAndRemoved(s.headless, q.id, cfg.headless);
  }

  lemma PutAndRemoved<T>(m: map<Id, T>, id: Id, t: T)
    ensures m[id := t] - {id} == m - {id}
  {
  }

  lemma UnwindStack(mode: Browser, t: State, id: Id, destroyOk: bool, p: Point)
    ensures var r := if !Spawning(p) then t
                     else Undone(mode, Undone(mode, t, id, destroyOk, DropAcl), id, destroyOk, ReleaseBrowser);
            Unwound(mode, t, id, destroyOk, Stack(mode, p)) ==
            if p == Provision then t else Undone(mode, r, id, destroyOk, DropSubvol)
  {
    hide Undone;
    var r := Undone(mode, t, id, destroyOk, DropAcl);
    assert [DropSubvol][..0] == [];
    assert [DropSubvol, DropAcl][..1] == [DropSubvol];
    assert [DropSubvol, ReleaseBrowser, DropAcl][..2] == [DropSubvol, ReleaseBrowser];
    assert [DropSubvol, ReleaseBrowser][..1] == [DropSubvol];
    NothingToRelease(mode, r, id, destroyOk);
  }

  lemma NothingToRelease(mode: Browser, t: State, id: Id, destroyOk: bool)
    ensures mode == NoManager ==> Undone(mode, t, id, destroyOk, ReleaseBrowser) == t
  {
  }

  function Refusal(s: State, id: Id): Option<Outcome>
  {
    if id == [] then Some(EmptyId)
    else if !ValidId(id) then Some(InvalidId)
    else if id in s.agents then Some(Exists)
    else None
  }

  function AfterCreate(root: bytes, mode: Browser, s: State, q: CreateRequest, env: Env): (State, Outcome)
  {
    var refusal := Refusal(s, q.id);
    if refusal.Some? then (s, refusal.value)
    else if env.fails == Nowhere then (Built(root, mode, s, q, env), Created)
    else (AfterFailure(root, mode, s, q, env), FailedAt(env.fails))
  }

  function AfterDestroy(mode: Browser, s: State, id: Id, destroyOk: bool): State
  {
    if id !in s.agents then s
    else
      var gone := s.(agents := s.agents - {id}, pipes := s.pipes - {id}, acls := s.acls - {id});
      var released := Release(mode, gone, id);
      if s.agents[id].subvol.Some? && destroyOk then released.(subvols := released.subvols - {id}) else released
  }

  /** The process under the number ends: its reaper deregisters a pipe by the agent's name
      only. */
  function AfterReap(s: State, ward: nat): State
  {
    if ward !in s.wards then s else s.(pipes := s.pipes - {s.wards[ward]}, wards := s.wards - {ward})
  }

  /** A page is read for an agent that has an access list. */
  function AfterBrowse(mode: Browser, s: State, id: Id): State
  {
    if mode == Connected && id in s.acls then s.(sessions := s.sessions + {id}) else s
  }

  // ---- keeperd as it runs ---------------------------------------------------

  class Daemon {
    const root: bytes
    const mode: Browser
    var agents: map<Id, Agent>
    var acls: map<Id, Authority.Acl>
    var pipes: map<Id, nat>
    var subvols: map<Id, Subvol>
    var headless: map<Id, bool>
    var sessions: set<Id>
    var wards: map<nat, Id>
    var nextWard: nat

    constructor (root: bytes, mode: Browser)
      ensures Abs() == START && this.root == root && this.mode == mode
    {
      this.root, this.mode := root, mode;
      agents, acls, pipes, subvols := map[], map[], map[], map[];
      headless, sessions, wards, nextWard := map[], {}, map[], 0;
    }

    function Abs(): State
      reads this
    {
      State(agents, acls, pipes, subvols, headless, sessions, wards, nextWard)
    }

    method AgentCreate(q: CreateRequest, env: Env) returns (outcome: Outcome)
      modifies this
      ensures (Abs(), outcome) == AfterCreate(root, mode, old(Abs()), q, env)
    {
      hide Built, AfterFailure, Unwound;
      if q.id == [] {
        return EmptyId;
      }
      var valid := ValidateAgentId(q.id);
      if !valid {
        return InvalidId;
      }
      if q.id in agents {
        return Exists;
      }
      ghost var s := Abs();
      agents := agents[q.id := Agent(None, None, None)];
      var cleanup := Build(s, q, env);
      if env.fails == Nowhere {
        return Created;
      }
      Unwind(q.id, env.destroyOk, cleanup);
      agents := agents - {q.id};
      UnwindingGivesFailed(root, mode, s, q, env);
      outcome := FailedAt(env.fails);
    }

    /** The work behind the reservation, up to the failure; s is the state before it. */
    method Build(ghost s: State, q: CreateRequest, env: Env) returns (cleanup: seq<Undo>)
      requires Abs() == s.(agents := s.agents[q.id := Agent(None, None, None)])
      modifies this
      ensures Abs() == Built(root, mode, s, q, env)
      ensures cleanup == Stack(mode, env.fails)
    {
      hide ConfigFor, Furnished, Published, Spawned;
      cleanup := [];
      House(s, q, env);
      if env.fails == Provision {
        return;
      }
      cleanup := cleanup + [DropSubvol];
      if !Spawning(env.fails) {
        return;
      }
      var cfg := ConfigFor(q, env.provisioned.kdl);
      Publish(cfg);
      if mode != NoManager {
        cleanup := cleanup + [ReleaseBrowser];
      }
      cleanup := cleanup + [DropAcl];
      if env.fails == Nowhere {
        SpawnAgent(q.id);
      }
    }

    method House(ghost s: State, q: CreateRequest, env: Env)
      requires Abs() == s.(agents := s.agents[q.id := Agent(None, None, None)])
      modifies this`subvols
      ensures Abs() == Housed(s, q, env)
    {
      hide ConfigFor;
      if env.fails == Provision {
        if env.leftover.Some? {
          subvols := subvols[q.id := env.leftover.value];
        }
        return;
      }
      subvols := subvols[q.id := env.provisioned];
      if env.fails == LoadTemplate {
        return;
      }
      var cfg := ConfigFor(q, env.provisioned.kdl);
      if env.fails == WriteKdl {
        return;
      }
      subvols := subvols[q.id := env.provisioned.(kdl := Some(cfg))];
      if env.fails == InstallClis {
        return;
      }
      subvols := subvols[q.id := subvols[q.id].(links := subvols[q.id].links + env.names)];
    }

    method Publish(cfg: Config)
      modifies this`headless, this`acls, this`agents
      ensures Abs() == Published(root, mode, old(Abs()), cfg) && cfg.id in agents
    {
      if mode != NoManager {
        headless := headless[cfg.id := cfg.headless];
      }
      acls := acls[cfg.id := AclFor(root, cfg)];
      agents := agents[cfg.id := Agent(Some(cfg.id), Some(Kept(cfg)), None)];
    }

    /** The process is up: nothing that follows can fail the creation. */
    method SpawnAgent(id: Id)
      requires id in agents
      modifies this
      ensures Abs() == Spawned(old(Abs()), id)
    {
      pipes := pipes[id := nextWard];
      agents := agents[id := agents[id].(pipe := Some(nextWard))];
      wards := wards[nextWard := id];
      nextWard := nextWard + 1;
    }

    /** The undo actions, last one first. */
    method Unwind(id: Id, destroyOk: bool, cleanup: seq<Undo>)
      modifies this
      ensures Abs() == Unwound(mode, old(Abs()), id, destroyOk, cleanup)
    {
      ghost var whole := Unwound(mode, Abs(), id, destroyOk, cleanup);
      var i := |cleanup|;
      assert cleanup[..i] == cleanup;
      while i > 0
        invariant 0 <= i <= |cleanup|
        invariant whole == Unwound(mode, Abs(), id, destroyOk, cleanup[..i])
      {
        i := i - 1;
        assert cleanup[..i + 1][..i] == cleanup[..i];
        RunUndo(id, destroyOk, cleanup[i]);
      }
    }

    method RunUndo(id: Id, destroyOk: bool, u: Undo)
      modifies this
      ensures Abs() == Undone(mode, old(Abs()), id, destroyOk, u)
    {
      match u
      case DropSubvol =>
        if destroyOk {
          subvols := subvols - {id};
        }
      case ReleaseBrowser => ReleaseSession(id);
      case DropAcl => acls := acls - {id};
    }

    method ReleaseSession(id: Id)
      modifies this
      ensures Abs() == Release(mode, old(Abs()), id)
    {
      if mode != Connected || id == [] {
        return;
      }
      sessions := sessions - {id};
      headless := headless - {id};
    }

    method AgentDestroy(id: Id, destroyOk: bool) returns (found: bool)
      modifies this
      ensures found <==> id in old(agents)
      ensures Abs() == AfterDestroy(mode, old(Abs()), id, destroyOk)
    {
      if id !in agents {
        return false;
      }
      var agent := agents[id];
      agents := agents - {id};
      pipes := pipes - {id};
      acls := acls - {id};
      ReleaseSession(id);
      if agent.subvol.Some? && destroyOk {
        subvols := subvols - {id};
      }
      found := true;
    }

    /** What follows the end of a Ward process. */
    method Reaper(ward: nat)
      requires ward in wards
      modifies this
      ensures Abs() == AfterReap(old(Abs()), ward)
    {
      pipes := pipes - {wards[ward]};
      wards := wards - {ward};
    }
  }

  // ---- All or nothing -------------------------------------------------------

  /** What holds between the tables whenever no creation or destruction is under way. */
  ghost predicate Inv(mode: Browser, s: State)
  {
    && [] !in s.agents
    && s.acls.Keys == s.agents.Keys
    && s.pipes.Keys <= s.agents.Keys <= s.subvols.Keys
    && (forall a :: a in s.pipes ==> s.agents[a].pipe == Some(s.pipes[a]))
    && (forall a :: a in s.agents ==>
          s.agents[a].subvol == Some(a) && s.agents[a].pipe.Some? && s.agents[a].pipe.value < s.nextWard)
    && (mode == Connected ==> s.headless.Keys == s.agents.Keys)
    && (mode == NoManager ==> s.headless == map[])
    && s.sessions <= s.agents.Keys
    && (mode != Connected ==> s.sessions == {})
    && (forall w :: w in s.wards ==> w < s.nextWard)
  }

  /** A creation that does not succeed leaves the agents, access lists, pipes, browser
      sessions and processes exactly as they were, for this agent and for all others. */
  lemma FailedCreateRestores(root: bytes, mode: Browser, s: State, q: CreateRequest, env: Env)
    requires Inv(mode, s)
    requires AfterCreate(root, mode, s, q, env).1 != Created
    ensures var t := AfterCreate(root, mode, s, q, env).0;
            && t.agents == s.agents && t.acls == s.acls && t.pipes == s.pipes && t.sessions == s.sessions
            && t.wards == s.wards && t.nextWard == s.nextWard
            && t.headless - {q.id} == s.headless - {q.id} && (mode != NoClient ==> t.headless == s.headless)
            && t.subvols - {q.id} == s.subvols - {q.id}
  {
    hide Inv, Built, ValidId, AfterFailure;
    if Refusal(s, q.id).None? { FailureRestores(root, mode, s, q, env); }
  }

  lemma FailureRestores(root: bytes, mode: Browser, s: State, q: CreateRequest, env: Env)
    requires Inv(mode, s) && q.id !in s.agents && q.id != []
    ensures var t := AfterFailure(root, mode, s, q, env);
            && t.agents == s.agents && t.acls == s.acls && t.pipes == s.pipes && t.sessions == s.sessions
            && t.wards == s.wards && t.nextWard == s.nextWard
            && t.headless - {q.id} == s.headless - {q.id} && (mode != NoClient ==> t.headless == s.headless)
            && t.subvols - {q.id} == s.subvols - {q.id}
  {
    hide ConfigFor, Furnished;
    assert s.acls - {q.id} == s.acls;
    assert mode == Connected ==> s.headless - {q.id} == s.headless;
  }

  /** The headless setting is restored unless the manager has no client: then its release
      does nothing, and the setting stays behind. */
  lemma HeadlessRestoredIff(root: bytes, mode: Browser, s: State, q: CreateRequest, env: Env)
    requires Inv(mode, s)
    requires AfterCreate(root, mode, s, q, env).1.FailedAt?
    ensures AfterCreate(root, mode, s, q, env).0.headless == s.headless <==>
            (mode == NoClient && Spawning(env.fails) ==>
               Holds(s.headless, q.id, ConfigFor(q, env.provisioned.kdl).headless))
  {
    hide AclFor, ConfigFor, Kept, Furnished, ValidId;
    var value := ConfigFor(q, env.provisioned.kdl).headless;
    assert s.headless[q.id := value][q.id] == value;
    assert q.id in s.headless && s.headless[q.id] == value ==> s.headless[q.id := value] == s.headless;
  }

  /** When a failed creation leaves the directories as they were, for every point of failure:
      if provisioning itself failed, when it left no copy behind, or one like what was there;
      otherwise, if the cleanup could destroy the directory, when the agent had none before;
      and if it could not, when the directory was there already and just as it is left now. */
  lemma SubvolRestoredIff(root: bytes, mode: Browser, s: State, q: CreateRequest, env: Env)
    requires AfterCreate(root, mode, s, q, env).1.FailedAt?
    ensures AfterCreate(root, mode, s, q, env).0.subvols == s.subvols <==>
            if env.fails == Provision then env.leftover.None? || Holds(s.subvols, q.id, env.leftover.value)
            else if env.destroyOk then q.id !in s.subvols
            else Holds(s.subvols, q.id, Furnished(q, env))
  {
    hide AclFor, ConfigFor, Kept, Furnished, ValidId, WithHeadless;
    if env.leftover.Some? { PutIsSameIff(s.subvols, q.id, env.leftover.value); }
    PutIsSameIff(s.subvols, q.id, Furnished(q, env));
    assert q.id !in s.subvols - {q.id};
    assert q.id !in s.subvols ==> s.subvols - {q.id} == s.subvols;
  }

  predicate Holds<T(==)>(m: map<Id, T>, id: Id, t: T)
  {
    id in m && m[id] == t
  }

  lemma PutIsSameIff<T>(m: map<Id, T>, id: Id, t: T)
    ensures m[id := t] == m <==> Holds(m, id, t)
  {
    assert m[id := t][id] == t;
  }

  /** Refused requests change nothing at all. */
  lemma RefusedChangesNothing(root: bytes, mode: Browser, s: State, q: CreateRequest, env: Env)
    ensures var (t, outcome) := AfterCreate(root, mode, s, q, env);
            && (outcome == EmptyId <==> q.id == [])
            && (outcome == InvalidId <==> q.id != [] && !ValidId(q.id))
            && (outcome == Exists <==> ValidId(q.id) && q.id in s.agents)
            && (outcome == Created <==> ValidId(q.id) && q.id !in s.agents && env.fails == Nowhere)
            && (outcome == EmptyId || outcome == InvalidId || outcome == Exists || outcome == Created
                || outcome == FailedAt(env.fails))
            && (!ValidId(q.id) || q.id in s.agents ==> t == s)
  {
    hide Built, AfterFailure;
  }

  // ---- Creation undone by destruction ---------------------------------------

  /** The tables without the record of processes. */
  ghost predicate SameTables(s: State, t: State)
  {
    s.agents == t.agents && s.acls == t.acls && s.pipes == t.pipes && s.subvols == t.subvols
    && s.headless == t.headless && s.sessions == t.sessions
  }

  /** Creating an agent and destroying it is the identity on all tables exactly when the
      directory comes out as it was, and, without a browser client, the headless setting was
      there before with the same value. */
  lemma CreateThenDestroyIff(root: bytes, mode: Browser, s: State, q: CreateRequest, env: Env, destroyOk: bool)
    requires Inv(mode, s)
    requires AfterCreate(root, mode, s, q, env).1 == Created
    ensures SameTables(s, AfterDestroy(mode, AfterCreate(root, mode, s, q, env).0, q.id, destroyOk)) <==>
            (if destroyOk then q.id !in s.subvols else Holds(s.subvols, q.id, Furnished(q, env)))
            && (mode == NoClient ==> Holds(s.headless, q.id, ConfigFor(q, env.provisioned.kdl).headless))
  {
    var cfg := ConfigFor(q, env.provisioned.kdl);
    hide AclFor, ConfigFor, Kept, Furnished, ValidId, Built, AfterFailure, Inv, AfterDestroy, WithHeadless;
    BuiltIn(root, mode, s, q, env);
    AbsentEverywhere(mode, s, q.id);
    CreatedAndDestroyed(mode, s, q.id, Kept(cfg), AclFor(root, cfg), Furnished(q, env), cfg.headless, destroyOk);
  }

  lemma CreatedAndDestroyed(mode: Browser, s: State, id: Id, cfg: Config, acl: Authority.Acl, subvol: Subvol,
                            headless: bool, destroyOk: bool)
    requires id != [] && id !in s.agents && id !in s.acls && id !in s.pipes && s.sessions - {id} == s.sessions
    requires mode == Connected ==> id !in s.headless
    ensures var t := State(s.agents[id := Agent(Some(id), Some(cfg), Some(s.nextWard))], s.acls[id := acl],
                           s.pipes[id := s.nextWard], s.subvols[id := subvol],
                           WithHeadless(mode, s.headless, id, headless), s.sessions,
                           s.wards[s.nextWard := id], s.nextWard + 1);
            SameTables(s, AfterDestroy(mode, t, id, destroyOk)) <==>
            (if destroyOk then id !in s.subvols else Holds(s.subvols, id, subvol))
            && (mode == NoClient ==> Holds(s.headless, id, headless))
  {
    hide Holds;
    AddedAndRemoved(s.agents, id, Agent(Some(id), Some(cfg), Some(s.nextWard)));
    AddedAndRemoved(s.acls, id, acl);
    AddedAndRemoved(s.pipes, id, s.nextWard);
    if id !in s.subvols { AddedAndRemoved(s.subvols, id, subvol); }
    assert id !in s.subvols[id := subvol] - {id};
    PutIsSameIff(s.subvols, id, subvol);
    if mode == Connected { AddedAndRemoved(s.headless, id, headless); }
    PutIsSameIff(s.headless, id, headless);
  }

  lemma AbsentEverywhere(mode: Browser, s: State, id: Id)
    requires Inv(mode, s) && id !in s.agents
    ensures id !in s.acls && id !in s.pipes && (mode == Connected ==> id !in s.headless)
            && s.sessions - {id} == s.sessions
  {
  }

  lemma AddedAndRemoved<T>(m: map<Id, T>, id: Id, t: T)
    requires id !in m
    ensures m[id := t] - {id} == m
  {
  }

  // ---- Runs -----------------------------------------------------------------

  datatype Step =
    | Create(req: CreateRequest, env: Env)
    | Destroy(id: Id, destroyOk: bool)
    | Reap(ward: nat)
    | Browse(id: Id)

  function Apply(root: bytes, mode: Browser, s: State, e: Step): State
  {
    match e
    case Create(req, env) => AfterCreate(root, mode, s, req, env).0
    case Destroy(id, destroyOk) => AfterDestroy(mode, s, id, destroyOk)
    case Reap(ward) => AfterReap(s, ward)
    case Browse(id) => AfterBrowse(mode, s, id)
  }

  function Run(root: bytes, mode: Browser, es: seq<Step>): State
  {
    if es == [] then START else Apply(root, mode, Run(root, mode, es[..|es| - 1]), es[|es| - 1])
  }

  lemma CreateKeeps(root: bytes, mode: Browser, s: State, q: CreateRequest, env: Env)
    requires Inv(mode, s)
    ensures Inv(mode, AfterCreate(root, mode, s, q, env).0)
  {
    hide AclFor, ConfigFor, Kept, Furnished, ValidId, Built, AfterFailure, Inv, WithHeadless;
    var t := AfterCreate(root, mode, s, q, env).0;
    if AfterCreate(root, mode, s, q, env).1 == Created {
      BuiltIn(root, mode, s, q, env);
      var cfg := ConfigFor(q, env.provisioned.kdl);
      AddedKeeps(mode, s, q.id, Kept(cfg), AclFor(root, cfg), Furnished(q, env), cfg.headless);
    } else if Refusal(s, q.id).None? {
      FailedCreateRestores(root, mode, s, q, env);
      SameDirectories(mode, s, t, q.id);
    }
  }

  lemma AddedKeeps(mode: Browser, s: State, id: Id, cfg: Config, acl: Authority.Acl, subvol: Subvol, headless: bool)
    requires Inv(mode, s) && id !in s.agents && id != []
    ensures Inv(mode, State(s.agents[id := Agent(Some(id), Some(cfg), Some(s.nextWard))], s.acls[id := acl],
                            s.pipes[id := s.nextWard],
                            s.subvols[id := subvol], WithHeadless(mode, s.headless, id, headless), s.sessions,
                            s.wards[s.nextWard := id], s.nextWard + 1))
  {
  }

  lemma SameDirectories(mode: Browser, s: State, t: State, id: Id)
    requires Inv(mode, s) && id !in s.agents
    requires t == s.(subvols := t.subvols, headless := t.headless)
    requires t.subvols - {id} == s.subvols - {id} && (mode != NoClient ==> t.headless == s.headless)
    ensures Inv(mode, t)
  {
    assert forall a :: a in s.agents ==> a in s.subvols - {id};
    assert forall a :: a in t.subvols - {id} ==> a in t.subvols;
  }

  lemma DestroyKeeps(mode: Browser, s: State, id: Id, destroyOk: bool)
    requires Inv(mode, s)
    ensures Inv(mode, AfterDestroy(mode, s, id, destroyOk))
  {
  }

  lemma ReapKeeps(mode: Browser, s: State, ward: nat)
    requires Inv(mode, s)
    ensures Inv(mode, AfterReap(s, ward))
  {
  }

  lemma BrowseKeeps(mode: Browser, s: State, id: Id)
    requires Inv(mode, s)
    ensures Inv(mode, AfterBrowse(mode, s, id))
  {
  }

  lemma {:induction false} RunKeeps(root: bytes, mode: Browser, es: seq<Step>)
    ensures Inv(mode, Run(root, mode, es))
  {
    hide Inv, AfterCreate, AfterDestroy, AfterReap, AfterBrowse;
    if es == [] {
      StartRight(mode);
    } else {
      var n := |es| - 1;
      RunKeeps(root, mode, es[..n]);
      var s := Run(root, mode, es[..n]);
      match es[n]
      case Create(req, env) => CreateKeeps(root, mode, s, req, env);
      case Destroy(id, destroyOk) => DestroyKeeps(mode, s, id, destroyOk);
      case Reap(ward) => ReapKeeps(mode, s, ward);
      case Browse(id) => BrowseKeeps(mode, s, id);
    }
  }

  lemma StartRight(mode: Browser)
    ensures Inv(mode, START)
  {
  }

  // ---- Which agents have their pipe -----------------------------------------

  /** A reaper of some Ward of the agent, of this life of the agent or of an earlier one, has
      fired since the agent was last created. */
  predicate ReapedSince(root: bytes, mode: Browser, es: seq<Step>, a: Id)
  {
    es != [] &&
    var n := |es| - 1;
    var s := Run(root, mode, es[..n]);
    match es[n]
    case Create(req, env) =>
      !(req.id == a && AfterCreate(root, mode, s, req, env).1 == Created) && ReapedSince(root, mode, es[..n], a)
    case Reap(ward) => (ward in s.wards && s.wards[ward] == a) || ReapedSince(root, mode, es[..n], a)
    case _ => ReapedSince(root, mode, es[..n], a)
  }

  lemma PipeOnCreate(root: bytes, mode: Browser, s: State, q: CreateRequest, env: Env, a: Id)
    requires Inv(mode, s)
    ensures var (t, outcome) := AfterCreate(root, mode, s, q, env);
            if outcome == Created && q.id == a then a in t.agents && a in t.pipes
            else (a in t.agents <==> a in s.agents) && (a in t.pipes <==> a in s.pipes)
  {
    hide AclFor, ConfigFor, Kept, Furnished, ValidId, Built, AfterFailure, Inv;
    if AfterCreate(root, mode, s, q, env).1 == Created {
      BuiltIn(root, mode, s, q, env);
    } else {
      FailedCreateRestores(root, mode, s, q, env);
    }
  }

  lemma PipeOnOther(mode: Browser, s: State, id: Id, destroyOk: bool, ward: nat, a: Id)
    ensures var t := AfterDestroy(mode, s, id, destroyOk);
            (a in t.agents ==> a in s.agents) && (a in t.agents ==> (a in t.pipes <==> a in s.pipes))
    ensures var t := AfterReap(s, ward);
            t.agents == s.agents && (a in t.pipes <==> a in s.pipes && !(ward in s.wards && s.wards[ward] == a))
    ensures var t := AfterBrowse(mode, s, id); t.agents == s.agents && t.pipes == s.pipes
  {
  }

  /** How one step moves an agent's pipe. */
  lemma PipeStep(root: bytes, mode: Browser, s: State, e: Step, a: Id)
    requires Inv(mode, s) && a in Apply(root, mode, s, e).agents
    ensures var made := e.Create? && e.req.id == a && AfterCreate(root, mode, s, e.req, e.env).1 == Created;
            var reaped := e.Reap? && e.ward in s.wards && s.wards[e.ward] == a;
            && (made ==> a in Apply(root, mode, s, e).pipes)
            && (!made ==> a in s.agents)
            && (reaped ==> a !in Apply(root, mode, s, e).pipes)
            && (!made && !reaped ==> (a in Apply(root, mode, s, e).pipes <==> a in s.pipes))
  {
    hide AfterCreate, AfterDestroy, AfterReap, AfterBrowse, Inv;
    match e
    case Create(req, env) => PipeOnCreate(root, mode, s, req, env, a);
    case Destroy(id, destroyOk) => PipeOnOther(mode, s, id, destroyOk, 0, a);
    case Reap(ward) => PipeOnOther(mode, s, [], false, ward, a);
    case Browse(id) => PipeOnOther(mode, s, id, false, 0, a);
  }

  /** Over every run, a live agent has a pipe exactly when no reaper of its name has fired
      since it was created. */
  lemma {:induction false} PipeKeptIff(root: bytes, mode: Browser, es: seq<Step>, a: Id)
    requires a in Run(root, mode, es).agents
    ensures a in Run(root, mode, es).pipes <==> !ReapedSince(root, mode, es, a)
  {
    hide Inv, AfterCreate, AfterDestroy, AfterReap, AfterBrowse, Apply;
    if es != [] {
      var n := |es| - 1;
      var s := Run(root, mode, es[..n]);
      RunKeeps(root, mode, es[..n]);
      PipeStep(root, mode, s, es[n], a);
      if a in s.agents { PipeKeptIff(root, mode, es[..n], a); }
    }
  }

  /** So a slow reaper cuts off the agent's next life: destroy an agent, create it again, and
      let the first Ward end only then. The new Ward runs on, and nothing can be sent to it. */
  lemma StaleReaperEvicts(root: bytes, mode: Browser, s: State, q: CreateRequest, env: Env, w: nat, destroyOk: bool)
    requires Inv(mode, s) && q.id in s.agents && ValidId(q.id) && w in s.wards && s.wards[w] == q.id
             && env.fails == Nowhere
    ensures var again := AfterCreate(root, mode, AfterDestroy(mode, s, q.id, destroyOk), q, env);
            var t := AfterReap(again.0, w);
            && again.1 == Created
            && q.id in t.agents && q.id in t.acls
            && s.nextWard in t.wards && t.wards[s.nextWard] == q.id && t.agents[q.id].pipe == Some(s.nextWard)
            && q.id in again.0.pipes && q.id !in t.pipes
  {
    hide AclFor, ConfigFor, Kept, Furnished, ValidId;
  }

  // ---- What a created agent may do ------------------------------------------

  /** The new agent's list grants exactly its configured capabilities, or else the fallback;
      the fallback is not what is written to the agent's configuration file. */
  lemma CreatedAuthority(root: bytes, mode: Browser, s: State, q: CreateRequest, env: Env, name: bytes)
    requires AfterCreate(root, mode, s, q, env).1 == Created
    ensures var t := AfterCreate(root, mode, s, q, env).0;
            var configured := if env.provisioned.kdl.None? then [] else env.provisioned.kdl.value.capabilities;
            && t.acls[q.id].agentId == q.id
            && t.subvols[q.id].kdl.Some? && t.subvols[q.id].kdl.value.capabilities == configured
            && (configured != [] ==>
                  (t.agents[q.id].cfg.value.capabilities == configured
                   && GrantsOf(configured, t.acls[q.id].entries)
                   && (Authority.FirstMatch(t.acls[q.id].entries, name).Some? <==>
                         exists i :: 0 <= i < |configured| && configured[i].name == name)))
            && (configured == [] ==>
                  (t.acls[q.id].entries == Fallback(root + q.id)
                   && t.agents[q.id].cfg.value.capabilities != configured))
  {
    hide ValidId, Authority.FirstMatch, EntryOf, Fallback;
    var configured := if env.provisioned.kdl.None? then [] else env.provisioned.kdl.value.capabilities;
    if configured != [] { GrantsAreEntries(configured, name); }
  }

  /** An agent's configuration carries over to another agent that is created with the first
      one's directory as template: the browser setting, the grants and, never zero, the number
      of retries, all of which the first one has from its own template. Name, provider and limits
      are those of the request, and CPU shares are never zero. */
  lemma TemplateCarriesOver(root: bytes, mode: Browser, s: State, q: CreateRequest, env: Env,
                            s': State, q': CreateRequest, env': Env)
    requires AfterCreate(root, mode, s, q, env).1 == Created && AfterCreate(root, mode, s', q', env').1 == Created
    requires env'.provisioned == AfterCreate(root, mode, s, q, env).0.subvols[q.id]
    ensures var one := AfterCreate(root, mode, s, q, env).0.subvols[q.id];
            var two := AfterCreate(root, mode, s', q', env').0.subvols[q'.id];
            && one.kdl.Some? && two.kdl.Some? && two.files == one.files && one.links + env'.names == two.links
            && var a, b := one.kdl.value, two.kdl.value;
               && (env.provisioned.kdl.Some? ==>
                     && a.headless == env.provisioned.kdl.value.headless
                     && a.capabilities == env.provisioned.kdl.value.capabilities
                     && (env.provisioned.kdl.value.retries != 0 ==> a.retries == env.provisioned.kdl.value.retries))
               && (env.provisioned.kdl == None ==> !a.headless && a.capabilities == [] && a.retries == 1)
               && b.headless == a.headless && b.capabilities == a.capabilities && b.retries == a.retries != 0
               && b.id == q'.id && b.provider == q'.provider && b.memoryMaxBytes == q'.memoryMaxBytes
               && b.cpuShares != 0 && (q'.cpuShares != 0 ==> b.cpuShares == q'.cpuShares)
  {
    hide ValidId, AclFor, Kept, WithHeadless, Built, AfterFailure;
    BuiltIn(root, mode, s, q, env);
    BuiltIn(root, mode, s', q', env');
  }

  /** The entries are the grants one for one, with all their scopes. */
  predicate GrantsOf(gs: seq<Grant>, es: seq<Authority.Entry>)
  {
    |es| == |gs| && forall i :: 0 <= i < |gs| ==>
      es[i].capability == gs[i].name && |es[i].constraints| == |gs[i].scopes|
      && forall j :: 0 <= j < |gs[i].scopes| ==> ScopeOf(gs[i].scopes[j], es[i].constraints[j])
  }

  lemma GrantsAreEntries(gs: seq<Grant>, name: bytes)
    ensures GrantsOf(gs, EntriesOf(gs))
    ensures Authority.FirstMatch(EntriesOf(gs), name).Some? <==> exists i :: 0 <= i < |gs| && gs[i].name == name
  {
    hide Constraint;
    Authority.FirstMatchIff(EntriesOf(gs), name, []);
    assert forall i :: 0 <= i < |gs| ==> EntriesOf(gs)[i].capability == gs[i].name;
  }
}
