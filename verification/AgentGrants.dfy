/** What an agent created without capabilities of its own may do: the fallback grants, taken
    through the access list to the write and to the page read they allow. */
module AgentGrants {
  import opened Wrappers
  import opened Mus
  import opened Text
  import Authority
  import PathScope
  import Provisioning
  import UrlPolicy

  const OUTPUT_NAME: bytes := [111, 117, 116, 112, 117, 116] // "output"
  const KDL_NAME: bytes := [97, 103, 101, 110, 116, 46, 107, 100, 108] // "agent.kdl"

  /** The creation succeeds, and the template brings no capabilities. */
  ghost predicate WithoutCapabilities(root: bytes, mode: Provisioning.Browser, s: Provisioning.State,
                                      q: Provisioning.CreateRequest, env: Provisioning.Env)
  {
    && Provisioning.AfterCreate(root, mode, s, q, env).1 == Provisioning.Created
    && (env.provisioned.kdl.Some? ==> env.provisioned.kdl.value.capabilities == [])
  }

  /** What the new agent's list grants by a name. */
  function Granted(root: bytes, mode: Provisioning.Browser, s: Provisioning.State, q: Provisioning.CreateRequest,
                   env: Provisioning.Env, name: bytes): Option<seq<Authority.ScopeConstraint>>
  {
    var acls := Provisioning.AfterCreate(root, mode, s, q, env).0.acls;
    if q.id in acls then Authority.FirstMatch(acls[q.id].entries, name) else None
  }

  /** The agent's directory lies under the root, which is written with a slash at its end. */
  function Home(root: bytes, id: Provisioning.Id): Path
  {
    Components(root) + [id]
  }

  // ---- The grants -----------------------------------------------------------

  lemma EntriesAreFallback(root: bytes, mode: Provisioning.Browser, s: Provisioning.State,
                           q: Provisioning.CreateRequest, env: Provisioning.Env)
    requires WithoutCapabilities(root, mode, s, q, env)
    ensures var t := Provisioning.AfterCreate(root, mode, s, q, env).0;
            q.id in t.acls && t.acls[q.id].entries == Provisioning.Fallback(root + q.id)
    ensures Provisioning.ValidId(q.id)
  {
    hide Provisioning.Fallback, Provisioning.ValidId;
  }

  /** Two entries, each found under its own name only. */
  lemma FoundByName(a: Authority.Entry, b: Authority.Entry, name: bytes)
    requires a.capability != b.capability
    ensures Authority.FirstMatch([a, b], name) == if name == a.capability then Some(a.constraints)
                                                  else if name == b.capability then Some(b.constraints)
                                                  else None
  {
    var entries := [a, b];
    assert entries[1..] == [b] && [b][1..] == [];
    assert Authority.FirstMatch([b], name) == if name == b.capability then Some(b.constraints) else None;
  }

  /** The constraints of each of the two grants. */
  lemma GrantedAs(root: bytes, mode: Provisioning.Browser, s: Provisioning.State, q: Provisioning.CreateRequest,
                  env: Provisioning.Env, name: bytes)
    requires WithoutCapabilities(root, mode, s, q, env)
    ensures var entries := Provisioning.Fallback(root + q.id);
            Granted(root, mode, s, q, env, name) ==
            if name == Provisioning.FILE_WRITE then Some(entries[0].constraints)
            else if name == Provisioning.PAGE_READ then Some(entries[1].constraints)
            else None
  {
    hide Provisioning.AfterCreate, Authority.FirstMatch;
    EntriesAreFallback(root, mode, s, q, env);
    var entries := Provisioning.Fallback(root + q.id);
    assert |Provisioning.FILE_WRITE| != |Provisioning.PAGE_READ|;
    FoundByName(entries[0], entries[1], name);
  }

  // ---- The file grant -------------------------------------------------------

  lemma SlashlessId(id: Provisioning.Id)
    requires Provisioning.ValidId(id)
    ensures Plain(id)
  {
    forall i | 0 <= i < |id|
      ensures id[i] != SLASH && id[i] != DOT
    {
      assert Provisioning.IdByte(id[i], i);
    }
    assert id[0] != DOT;
  }

  lemma NamePlain(c: bytes)
    requires Plain(c)
    ensures Split(c) == [c]
    ensures Stack([c]) == [c]
  {
    SplitNamed(c, []);
    assert c + [] == c;
    assert Split([])[1..] == [];
    assert [c][..0] == [];
    assert Stack([]) == [];
  }

  /** A text ending in a slash, followed by names with a slash between them. */
  lemma NamesBelow(root: bytes, a: bytes, b: bytes)
    requires root != [] && root[|root| - 1] == SLASH && Plain(a) && Plain(b)
    ensures Components(root + a + [SLASH] + b) == Components(root) + [a, b]
  {
    hide Split, Stack, Plain, Slashless;
    var r := root[..|root| - 1];
    assert root == r + [SLASH];
    assert root + a == r + [SLASH] + a;
    NamePlain(a);
    NamePlain(b);
    SplitJoined(r, a);
    SplitJoined(r + [SLASH] + a, b);
    PlainNames(a, b);
    var names: Path := [a, b];
    assert Split(root + a + [SLASH] + b) == Split(r) + names;
    StackAppend(Split(r), names);
    StackPlain(names);
    RootItself(r);
  }

  lemma PlainNames(a: bytes, b: bytes)
    requires Plain(a) && Plain(b)
    ensures AllPlain([a, b]) && Slashless(a) && Slashless(b) && a != UP && b != UP
  {
  }

  lemma RootItself(r: bytes)
    ensures Components(r + [SLASH]) == Stack(Split(r))
  {
    hide Split;
    SplitJoined(r, []);
    assert r + [SLASH] + [] == r + [SLASH];
    NothingToSplit();
    StackAppend(Split(r), [[]]);
    assert Stack(Split(r)) + [] == Stack(Split(r));
    assert Stack([[]]) == [] by {
      var p: Path := [[]];
      assert p[..0] == [];
      assert Stack(p[..0]) == [];
    }
  }

  /** The scope of the file grant is the directory "output" in the agent's own. */
  lemma FileGrantScope(root: bytes, mode: Provisioning.Browser, s: Provisioning.State, q: Provisioning.CreateRequest,
                       env: Provisioning.Env, scope: bytes)
    requires WithoutCapabilities(root, mode, s, q, env) && root != [] && root[|root| - 1] == SLASH
    ensures var granted := Granted(root, mode, s, q, env, Provisioning.FILE_WRITE);
            granted.Some?
            && (PathScope.IsPathPrefix(granted.value, scope) ==>
                  Components(scope) == Home(root, q.id) + [OUTPUT_NAME])
  {
    hide Components, Provisioning.AfterCreate, Granted;
    GrantedAs(root, mode, s, q, env, Provisioning.FILE_WRITE);
    EntriesAreFallback(root, mode, s, q, env);
    SlashlessId(q.id);
    NamesBelow(root, q.id, OUTPUT_NAME);
    var cs := Provisioning.Fallback(root + q.id)[0].constraints;
    assert PathScope.OnFiles(cs[0]);
    assert root + q.id + Provisioning.OUTPUT == root + q.id + [SLASH] + OUTPUT_NAME;
    assert Components(root) + [q.id, OUTPUT_NAME] == Home(root, q.id) + [OUTPUT_NAME];
  }

  /** Whatever such an agent asks to be written, as long as no link and no file is on the way
      to its output directory, nothing changes but what is in that directory, and the missing
      directories on the way to it. Its configuration file is not touched. */
  lemma FileGrantConfines(root: bytes, mode: Provisioning.Browser, s: Provisioning.State, q: Provisioning.CreateRequest,
                          env: Provisioning.Env, scope: bytes,
                          fs: PathScope.FileSystem, links: nat, evalLinks: nat, path: bytes, append: bool,
                          content: bytes, p: Path)
    requires WithoutCapabilities(root, mode, s, q, env) && root != [] && root[|root| - 1] == SLASH
    requires Granted(root, mode, s, q, env, Provisioning.FILE_WRITE).Some?
             && PathScope.IsPathPrefix(Granted(root, mode, s, q, env, Provisioning.FILE_WRITE).value, scope)
    requires PathScope.WellFormed(fs) && PathScope.Straight(fs, Home(root, q.id) + [OUTPUT_NAME])
    requires PathScope.Differs(fs, PathScope.Executed(fs, links, evalLinks, scope, path, append, content), p)
    ensures PathScope.InPlaceOf(fs, PathScope.Executed(fs, links, evalLinks, scope, path, append, content),
                                Home(root, q.id) + [OUTPUT_NAME], p)
    ensures p != Home(root, q.id) + [KDL_NAME]
  {
    hide PathScope.Decide, PathScope.AfterWrite, PathScope.WellFormed, PathScope.Straight, PathScope.Differs,
         Granted, WithoutCapabilities, Components, PathScope.IsPathPrefix;
    FileGrantScope(root, mode, s, q, env, scope);
    SameDiffers(fs, p);
    PathScope.WriteInScopeIff(fs, links, evalLinks, scope, path, append, content, p);
    Apart(Home(root, q.id));
  }

  lemma Apart(home: Path)
    ensures !(home + [OUTPUT_NAME] <= home + [KDL_NAME]) && !(home + [KDL_NAME] <= home + [OUTPUT_NAME])
  {
    assert |OUTPUT_NAME| != |KDL_NAME|;
    assert (home + [OUTPUT_NAME])[|home|] != (home + [KDL_NAME])[|home|];
  }

  lemma SameDiffers(fs: PathScope.FileSystem, p: Path)
    ensures !PathScope.Differs(fs, fs, p)
  {
  }

  /** And it does get its write: a relative path without ".." is written below the output
      directory, if no link and no file is on the way and it is no directory. */
  lemma FileGrantSuffices(root: bytes, mode: Provisioning.Browser, s: Provisioning.State, q: Provisioning.CreateRequest,
                          env: Provisioning.Env, scope: bytes,
                          fs: PathScope.FileSystem, links: nat, evalLinks: nat, path: bytes, append: bool,
                          content: bytes)
    requires WithoutCapabilities(root, mode, s, q, env) && root != [] && root[|root| - 1] == SLASH
    requires Granted(root, mode, s, q, env, Provisioning.FILE_WRITE).Some?
             && PathScope.IsPathPrefix(Granted(root, mode, s, q, env, Provisioning.FILE_WRITE).value, scope)
    requires path != [] && path[0] != SLASH && !HasUp(path) && PathScope.WellFormed(fs)
    requires var t := Home(root, q.id) + [OUTPUT_NAME] + Components(path);
             PathScope.Straight(fs, t) && (t in fs ==> fs[t].File?)
    ensures var t := Home(root, q.id) + [OUTPUT_NAME] + Components(path);
            var fs' := PathScope.Executed(fs, links, evalLinks, scope, path, append, content);
            t in fs' && fs'[t] == PathScope.File(if append && t in fs then fs[t].content + content else content)
  {
    hide Granted, WithoutCapabilities, Components, PathScope.IsPathPrefix, PathScope.WellFormed, PathScope.Straight,
         PathScope.Executed, HasUp;
    FileGrantScope(root, mode, s, q, env, scope);
    PathScope.StraightIsWritten(fs, links, evalLinks, scope, path, append, content);
  }

  // ---- The page grant -------------------------------------------------------

  /** The page grant lets in the pages of two hosts, whatever their path. Both the capability
      and the browser proxy say so, the latter for the trimmed names. */
  lemma PageGrantIff(root: bytes, mode: Provisioning.Browser, s: Provisioning.State, q: Provisioning.CreateRequest,
                     env: Provisioning.Env, lib: UrlPolicy.Lib, url: bytes)
    requires WithoutCapabilities(root, mode, s, q, env)
    ensures var granted := Granted(root, mode, s, q, env, Provisioning.PAGE_READ);
            && granted.Some?
            && var scope := UrlPolicy.Normalized(granted.value);
               && (UrlPolicy.ScopeAllows(lib, scope, url) <==>
                     UrlPolicy.Hosted(lib, url)
                     && (UrlPolicy.HostOf(lib, url) == lib.lower(Provisioning.WIKIPEDIA)
                         || UrlPolicy.HostOf(lib, url) == lib.lower(Provisioning.GITHUB)))
               && (UrlPolicy.PolicyAllows(lib, UrlPolicy.WhitelistPolicy(scope), url) <==>
                     UrlPolicy.Hosted(lib, url)
                     && (UrlPolicy.HostOf(lib, url) == lib.lower(lib.trim(Provisioning.WIKIPEDIA))
                         || UrlPolicy.HostOf(lib, url) == lib.lower(lib.trim(Provisioning.GITHUB))))
  {
    hide WithoutCapabilities, Granted, UrlPolicy.HostOf, UrlPolicy.PathOf, UrlPolicy.Hosted;
    GrantedAs(root, mode, s, q, env, Provisioning.PAGE_READ);
    var cs := Provisioning.Fallback(root + q.id)[1].constraints;
    assert |Provisioning.FILE_WRITE| != |Provisioning.PAGE_READ|;
    PageScope(cs);
    TwoHosts(lib, url, Provisioning.WIKIPEDIA, Provisioning.GITHUB);
  }

  lemma PageScope(cs: seq<Authority.ScopeConstraint>)
    requires cs == [Authority.ScopeConstraint(
                      Provisioning.LINK, map[Provisioning.DOMAIN := [Provisioning.WIKIPEDIA, Provisioning.GITHUB]])]
    ensures UrlPolicy.Normalized(cs) == UrlPolicy.Scope([Provisioning.WIKIPEDIA, Provisioning.GITHUB], [], [])
  {
    assert |Provisioning.DOMAIN_SUFFIX| != |Provisioning.DOMAIN| && |Provisioning.PATH_PREFIX| != |Provisioning.DOMAIN|;
    assert cs[..0] == [];
    forall key: bytes
      ensures UrlPolicy.Collected(cs, key) == UrlPolicy.ValuesOf(cs[0], key)
    {
      assert UrlPolicy.Collected(cs[..0], key) == [];
      assert [] + UrlPolicy.ValuesOf(cs[0], key) == UrlPolicy.ValuesOf(cs[0], key);
    }
  }

  lemma TwoHosts(lib: UrlPolicy.Lib, url: bytes, a: bytes, b: bytes)
    ensures var scope := UrlPolicy.Scope([a, b], [], []);
            && (UrlPolicy.ScopeAllows(lib, scope, url) <==>
                  UrlPolicy.Hosted(lib, url)
                  && (UrlPolicy.HostOf(lib, url) == lib.lower(a) || UrlPolicy.HostOf(lib, url) == lib.lower(b)))
            && (UrlPolicy.PolicyAllows(lib, UrlPolicy.WhitelistPolicy(scope), url) <==>
                  UrlPolicy.Hosted(lib, url)
                  && (UrlPolicy.HostOf(lib, url) == lib.lower(lib.trim(a))
                      || UrlPolicy.HostOf(lib, url) == lib.lower(lib.trim(b))))
  {
    hide UrlPolicy.HostOf, UrlPolicy.PathOf, UrlPolicy.Hosted;
    var hosts := [a, b];
    assert hosts[0] == a && hosts[1] == b;
  }
}
