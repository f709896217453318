/** The two places where the URL of a page read is judged: the scope of the grant in the
    capability, and the whitelist policy in the browser proxy. */
module UrlPolicy {
  import opened Wrappers
  import opened Mus
  import opened Text
  import Authority
  import Provisioning

  datatype Url = Url(scheme: bytes, host: bytes, path: bytes)

  /** The library functions both policies rest on: lower-casing, trimming white space, and
      parsing, which may fail. */
  datatype Lib = Lib(lower: bytes -> bytes, trim: bytes -> bytes, parse: bytes -> Option<Url>)

  datatype Scope = Scope(domains: seq<bytes>, suffixes: seq<bytes>, pathPrefixes: seq<bytes>)

  datatype Policy = Policy(prefixes: seq<bytes>, domains: seq<bytes>, suffixes: seq<bytes>, pathPrefixes: seq<bytes>)

  const QUERY: byte := 63 // '?'
  const HASH: byte := 35 // '#'

  // ---- Normalising the constraints ------------------------------------------

  /** The values of one key in all constraints on links, in order. */
  function Collected(cs: seq<Authority.ScopeConstraint>, key: bytes): seq<bytes>
  {
    if cs == [] then []
    else Collected(cs[..|cs| - 1], key) + ValuesOf(cs[|cs| - 1], key)
  }

  function ValuesOf(c: Authority.ScopeConstraint, key: bytes): seq<bytes>
  {
    if c.entity == Provisioning.LINK && key in c.constraints then c.constraints[key] else []
  }

  function Normalized(cs: seq<Authority.ScopeConstraint>): Scope
  {
    Scope(Collected(cs, Provisioning.DOMAIN), Collected(cs, Provisioning.DOMAIN_SUFFIX),
          Collected(cs, Provisioning.PATH_PREFIX))
  }

  method NormalizeBrowserScope(cs: seq<Authority.ScopeConstraint>) returns (scope: Scope)
    ensures scope == Normalized(cs)
  {
    scope := Scope([], [], []);
    for i := 0 to |cs|
      invariant scope == Normalized(cs[..i])
    {
      assert cs[..i + 1][..i] == cs[..i];
      if cs[i].entity != Provisioning.LINK {
        continue;
      }
      scope := Scope(scope.domains + ValuesOf(cs[i], Provisioning.DOMAIN),
                     scope.suffixes + ValuesOf(cs[i], Provisioning.DOMAIN_SUFFIX),
                     scope.pathPrefixes + ValuesOf(cs[i], Provisioning.PATH_PREFIX));
    }
    assert cs[..|cs|] == cs;
  }

  lemma {:induction false} CollectedIff(cs: seq<Authority.ScopeConstraint>, key: bytes, x: bytes)
    ensures x in Collected(cs, key) <==> exists i :: 0 <= i < |cs| && x in ValuesOf(cs[i], key)
  {
    if cs != [] {
      var n := |cs| - 1;
      CollectedIff(cs[..n], key, x);
      assert forall i :: 0 <= i < n ==> cs[..n][i] == cs[i];
    }
  }

  lemma {:induction false} NothingCollectedIff(cs: seq<Authority.ScopeConstraint>, key: bytes)
    ensures Collected(cs, key) == [] <==> forall i :: 0 <= i < |cs| ==> ValuesOf(cs[i], key) == []
  {
    if cs != [] {
      NothingCollectedIff(cs[..|cs| - 1], key);
      assert forall i :: 0 <= i < |cs| - 1 ==> cs[..|cs| - 1][i] == cs[i];
    }
  }

  // ---- The scope's decision -------------------------------------------------

  predicate Hosted(lib: Lib, url: bytes)
  {
    var u := lib.parse(url);
    u.Some? && u.value.scheme != [] && u.value.host != []
  }

  function HostOf(lib: Lib, url: bytes): bytes
    requires Hosted(lib, url)
  {
    lib.lower(lib.parse(url).value.host)
  }

  /** An empty path stands for the root. */
  function PathOf(lib: Lib, url: bytes): bytes
    requires Hosted(lib, url)
  {
    var path := lib.parse(url).value.path;
    if path == [] then [SLASH] else path
  }

  predicate UnderSuffix(host: bytes, suffix: bytes)
  {
    host == suffix || HasSuffix(host, [DOT] + suffix)
  }

  lemma EndsIn(sub: bytes, c: byte, suffix: bytes)
    ensures HasSuffix(sub + [c] + suffix, [DOT] + suffix) <==> c == DOT
  {
    var host := sub + [c] + suffix;
    assert host[|sub|..] == [c] + suffix;
    assert ([c] + suffix)[0] == c && ([DOT] + suffix)[0] == DOT;
  }

  /** A suffix stands for itself and for everything a dot away from it: what ends in the suffix
      without a dot in front of it, like evilexample.com for example.com, is not under it. */
  lemma UnderSuffixIff(host: bytes, suffix: bytes)
    ensures UnderSuffix(host, suffix) <==> host == suffix || exists sub: bytes :: host == sub + [DOT] + suffix
    ensures forall more: bytes :: host == more + suffix && more != [] ==>
              (UnderSuffix(host, suffix) <==> more[|more| - 1] == DOT)
  {
    if HasSuffix(host, [DOT] + suffix) {
      var sub := host[..|host| - |suffix| - 1];
      assert host == sub + [DOT] + suffix;
    }
    hide HasSuffix;
    forall sub: bytes | host == sub + [DOT] + suffix
      ensures HasSuffix(host, [DOT] + suffix)
    {
      EndsIn(sub, DOT, suffix);
    }
    forall more: bytes | host == more + suffix && more != []
      ensures HasSuffix(host, [DOT] + suffix) <==> more[|more| - 1] == DOT
    {
      EndsIn(more[..|more| - 1], more[|more| - 1], suffix);
      assert more == more[..|more| - 1] + [more[|more| - 1]];
    }
  }

  predicate PathAllowed(path: bytes, prefixes: seq<bytes>)
  {
    prefixes == [] || exists i :: 0 <= i < |prefixes| && HasPrefix(path, prefixes[i])
  }

  predicate ScopeHost(lib: Lib, s: Scope, host: bytes)
  {
    || (exists i :: 0 <= i < |s.domains| && host == lib.lower(s.domains[i]))
    || (exists i :: 0 <= i < |s.suffixes| && UnderSuffix(host, lib.lower(s.suffixes[i])))
  }

  predicate ScopeAllows(lib: Lib, s: Scope, url: bytes)
  {
    Hosted(lib, url) && ScopeHost(lib, s, HostOf(lib, url)) && PathAllowed(PathOf(lib, url), s.pathPrefixes)
  }

  /** A URL without a path is judged like the root page of its host. */
  lemma EmptyPathIsRoot(lib: Lib, s: Scope, url: bytes, page: bytes)
    requires lib.parse(url).Some? && lib.parse(url).value.path == []
    requires lib.parse(page) == Some(lib.parse(url).value.(path := [SLASH]))
    ensures ScopeAllows(lib, s, url) <==> ScopeAllows(lib, s, page)
    ensures PolicyAllows(lib, WhitelistPolicy(s), url) <==> PolicyAllows(lib, WhitelistPolicy(s), page)
  {
    hide UnderSuffix, PathAllowed;
  }

  method MatchPath(path: bytes, prefixes: seq<bytes>) returns (ok: bool)
    ensures ok <==> PathAllowed(path, prefixes)
  {
    if |prefixes| == 0 {
      return true;
    }
    for i := 0 to |prefixes|
      invariant forall j :: 0 <= j < i ==> !HasPrefix(path, prefixes[j])
    {
      if HasPrefix(path, prefixes[i]) {
        return true;
      }
    }
    return false;
  }

  method AllowsUrl(lib: Lib, s: Scope, url: bytes) returns (ok: bool)
    ensures ok <==> ScopeAllows(lib, s, url)
  {
    hide UnderSuffix, PathAllowed;
    if |s.domains| == 0 && |s.suffixes| == 0 && |s.pathPrefixes| == 0 {
      return false;
    }
    if !Hosted(lib, url) {
      return false;
    }
    var domain := HostOf(lib, url);
    var domainAllowed := false;
    for i := 0 to |s.domains|
      invariant !domainAllowed && forall j :: 0 <= j < i ==> domain != lib.lower(s.domains[j])
    {
      if domain == lib.lower(s.domains[i]) {
        domainAllowed := true;
        break;
      }
    }
    assert domainAllowed ==> ScopeHost(lib, s, domain);
    if !domainAllowed {
      for i := 0 to |s.suffixes|
        invariant !domainAllowed && forall j :: 0 <= j < i ==> !UnderSuffix(domain, lib.lower(s.suffixes[j]))
      {
        if UnderSuffix(domain, lib.lower(s.suffixes[i])) {
          domainAllowed := true;
          break;
        }
      }
    }
    if !domainAllowed {
      return false;
    }
    ok := MatchPath(PathOf(lib, url), s.pathPrefixes);
  }

  // ---- The proxy's decision -------------------------------------------------

  function Candidate(lib: Lib, prefix: bytes): bytes
  {
    lib.trim(lib.lower(prefix))
  }

  predicate Delimiter(c: byte)
  {
    c == SLASH || c == QUERY || c == HASH
  }

  /** The text starts with the candidate and goes on at a boundary. */
  predicate AtBoundary(needle: bytes, candidate: bytes)
  {
    && candidate != [] && HasPrefix(needle, candidate)
    && (|needle| == |candidate| || Delimiter(needle[|candidate|]) || Delimiter(candidate[|candidate| - 1]))
  }

  predicate ByPrefix(lib: Lib, p: Policy, url: bytes)
  {
    exists i :: 0 <= i < |p.prefixes| && AtBoundary(lib.lower(url), Candidate(lib, p.prefixes[i]))
  }

  method AllowsByPrefix(lib: Lib, p: Policy, url: bytes) returns (ok: bool)
    ensures ok <==> ByPrefix(lib, p, url)
  {
    var needle := lib.lower(url);
    for i := 0 to |p.prefixes|
      invariant forall j :: 0 <= j < i ==> !AtBoundary(needle, Candidate(lib, p.prefixes[j]))
    {
      var candidate := Candidate(lib, p.prefixes[i]);
      if candidate == [] || !HasPrefix(needle, candidate) {
        continue;
      }
      var rest := needle[|candidate|..];
      var last := candidate[|candidate| - 1];
      if rest == [] || rest[0] == SLASH || rest[0] == QUERY || rest[0] == HASH || last == SLASH || last == QUERY
          || last == HASH {
        assert AtBoundary(needle, Candidate(lib, p.prefixes[i]));
        return true;
      }
    }
    return false;
  }

  predicate PolicySuffix(lib: Lib, host: bytes, s: bytes)
  {
    var suffix := lib.lower(lib.trim(s));
    suffix != [] && UnderSuffix(host, suffix)
  }

  predicate PolicyHost(lib: Lib, p: Policy, host: bytes)
  {
    || (exists i :: 0 <= i < |p.domains| && host == lib.lower(lib.trim(p.domains[i])))
    || (exists i :: 0 <= i < |p.suffixes| && PolicySuffix(lib, host, p.suffixes[i]))
  }

  predicate PolicyAllows(lib: Lib, p: Policy, url: bytes)
  {
    && Hosted(lib, url)
    && (ByPrefix(lib, p, url) || (PolicyHost(lib, p, HostOf(lib, url))
                                  && PathAllowed(PathOf(lib, url), p.pathPrefixes)))
  }

  method Allows(lib: Lib, p: Policy, url: bytes) returns (ok: bool)
    ensures ok <==> PolicyAllows(lib, p, url)
  {
    hide UnderSuffix, PathAllowed, ByPrefix;
    if !Hosted(lib, url) {
      return false;
    }
    var byPrefix := AllowsByPrefix(lib, p, url);
    if byPrefix {
      return true;
    }
    var domain := HostOf(lib, url);
    var domainAllowed := false;
    for i := 0 to |p.domains|
      invariant !domainAllowed && forall j :: 0 <= j < i ==> domain != lib.lower(lib.trim(p.domains[j]))
    {
      if domain == lib.lower(lib.trim(p.domains[i])) {
        domainAllowed := true;
        break;
      }
    }
    assert domainAllowed ==> PolicyHost(lib, p, domain);
    if !domainAllowed {
      for i := 0 to |p.suffixes|
        invariant !domainAllowed && forall j :: 0 <= j < i ==> !PolicySuffix(lib, domain, p.suffixes[j])
      {
        if PolicySuffix(lib, domain, p.suffixes[i]) {
          domainAllowed := true;
          break;
        }
      }
    }
    if !domainAllowed {
      return false;
    }
    ok := MatchPath(PathOf(lib, url), p.pathPrefixes);
  }

  function WhitelistPolicy(s: Scope): Policy
  {
    Policy([], s.domains, s.suffixes, s.pathPrefixes)
  }

  // ---- Do the two agree? ----------------------------------------------------

  predicate Trimmed(lib: Lib, s: Scope)
  {
    && (forall i :: 0 <= i < |s.domains| ==> lib.trim(s.domains[i]) == s.domains[i])
    && (forall i :: 0 <= i < |s.suffixes| ==> lib.trim(s.suffixes[i]) == s.suffixes[i])
  }

  /** Entries that are empty once lower-cased. */
  predicate HasEmptySuffix(lib: Lib, s: Scope)
  {
    exists i :: 0 <= i < |s.suffixes| && lib.lower(s.suffixes[i]) == []
  }

  /** The host matches without the help of an empty suffix. */
  predicate HostByEntry(lib: Lib, s: Scope, host: bytes)
  {
    || (exists i :: 0 <= i < |s.domains| && host == lib.lower(s.domains[i]))
    || (exists i ::
          0 <= i < |s.suffixes| && lib.lower(s.suffixes[i]) != [] && UnderSuffix(host, lib.lower(s.suffixes[i])))
  }

  lemma TrimmedHosts(lib: Lib, s: Scope, host: bytes)
    requires Trimmed(lib, s) && host != []
    ensures PolicyHost(lib, WhitelistPolicy(s), host) <==> HostByEntry(lib, s, host)
    ensures ScopeHost(lib, s, host) <==>
            HostByEntry(lib, s, host) || (HasEmptySuffix(lib, s) && host[|host| - 1] == DOT)
  {
    assert UnderSuffix(host, []) <==> host[|host| - 1] == DOT by {
      assert host[|host| - 1..] == [host[|host| - 1]];
      assert [DOT] + [] == [DOT];
    }
  }

  /** With trimmed entries the two decide alike on a URL unless an empty suffix is all that
      lets its host in, which takes a host that ends with a dot. In particular they agree on
      all URLs when no suffix is empty. */
  lemma AgreeIff(lib: Lib, cs: seq<Authority.ScopeConstraint>, url: bytes)
    requires Trimmed(lib, Normalized(cs))
    requires Hosted(lib, url) ==> HostOf(lib, url) != []
    ensures var s := Normalized(cs);
            (ScopeAllows(lib, s, url) == PolicyAllows(lib, WhitelistPolicy(s), url)) <==>
            !(Hosted(lib, url) && HasEmptySuffix(lib, s) && HostOf(lib, url)[|HostOf(lib, url)| - 1] == DOT
              && !HostByEntry(lib, s, HostOf(lib, url)) && PathAllowed(PathOf(lib, url), s.pathPrefixes))
    ensures var s := Normalized(cs); PolicyAllows(lib, WhitelistPolicy(s), url) ==> ScopeAllows(lib, s, url)
  {
    hide PathAllowed, ScopeHost, PolicyHost, HostByEntry, HasEmptySuffix, Normalized, Trimmed;
    var s := Normalized(cs);
    if Hosted(lib, url) { TrimmedHosts(lib, s, HostOf(lib, url)); }
  }

  lemma AgreeWithoutEmptySuffix(lib: Lib, cs: seq<Authority.ScopeConstraint>, url: bytes)
    requires Trimmed(lib, Normalized(cs)) && !HasEmptySuffix(lib, Normalized(cs))
    requires Hosted(lib, url) ==> HostOf(lib, url) != []
    ensures ScopeAllows(lib, Normalized(cs), url) <==> PolicyAllows(lib, WhitelistPolicy(Normalized(cs)), url)
  {
    AgreeIff(lib, cs, url);
  }

  /** An entry the two policies read differently: a domain that trimming changes, or a suffix
      that trimming changes or that is empty. */
  predicate DomainTurns(lib: Lib, d: bytes)
  {
    lib.lower(lib.trim(d)) != lib.lower(d)
  }

  predicate SuffixTurns(lib: Lib, x: bytes)
  {
    lib.lower(lib.trim(x)) != lib.lower(x) || lib.lower(x) == []
  }

  /** An entry both read alike matches the host. */
  predicate HostByAgreed(lib: Lib, s: Scope, host: bytes)
  {
    || (exists i :: 0 <= i < |s.domains| && !DomainTurns(lib, s.domains[i]) && host == lib.lower(s.domains[i]))
    || (exists i ::
          0 <= i < |s.suffixes| && !SuffixTurns(lib, s.suffixes[i]) && UnderSuffix(host, lib.lower(s.suffixes[i])))
  }

  /** An entry they read differently matches the host as the scope reads it. */
  predicate HostByRaw(lib: Lib, s: Scope, host: bytes)
  {
    || (exists i :: 0 <= i < |s.domains| && DomainTurns(lib, s.domains[i]) && host == lib.lower(s.domains[i]))
    || (exists i ::
          0 <= i < |s.suffixes| && SuffixTurns(lib, s.suffixes[i]) && UnderSuffix(host, lib.lower(s.suffixes[i])))
  }

  /** An entry they read differently matches the host as the proxy reads it. */
  predicate HostByTrimmed(lib: Lib, s: Scope, host: bytes)
  {
    || (exists i :: 0 <= i < |s.domains| && DomainTurns(lib, s.domains[i]) && host == lib.lower(lib.trim(s.domains[i])))
    || (exists i :: 0 <= i < |s.suffixes| && SuffixTurns(lib, s.suffixes[i]) && PolicySuffix(lib, host, s.suffixes[i]))
  }

  lemma HostsByEntries(lib: Lib, s: Scope, host: bytes)
    ensures ScopeHost(lib, s, host) <==> HostByAgreed(lib, s, host) || HostByRaw(lib, s, host)
    ensures PolicyHost(lib, WhitelistPolicy(s), host) <==> HostByAgreed(lib, s, host) || HostByTrimmed(lib, s, host)
  {
    hide UnderSuffix;
  }

  /** For all entries, trimmed or not: the two decide differently on a URL exactly when its
      path is allowed, no entry both read alike has its host, and of those they read
      differently some have it in one reading and none in the other. */
  lemma DisagreeIff(lib: Lib, s: Scope, url: bytes)
    ensures ScopeAllows(lib, s, url) != PolicyAllows(lib, WhitelistPolicy(s), url) <==>
            Hosted(lib, url) && PathAllowed(PathOf(lib, url), s.pathPrefixes)
            && !HostByAgreed(lib, s, HostOf(lib, url))
            && HostByRaw(lib, s, HostOf(lib, url)) != HostByTrimmed(lib, s, HostOf(lib, url))
  {
    hide PathAllowed, ScopeHost, PolicyHost, HostByAgreed, HostByRaw, HostByTrimmed;
    if Hosted(lib, url) { HostsByEntries(lib, s, HostOf(lib, url)); }
  }

  /** A lone domain that only matches once it is trimmed is refused by the scope and accepted
      by the policy. */
  lemma UntrimmedDisagrees(lib: Lib, d: bytes, url: bytes)
    requires Hosted(lib, url) && lib.lower(d) != HostOf(lib, url) == lib.lower(lib.trim(d))
    ensures var s := Scope([d], [], []);
            !ScopeAllows(lib, s, url) && PolicyAllows(lib, WhitelistPolicy(s), url)
  {
    var s := Scope([d], [], []);
    assert WhitelistPolicy(s).domains[0] == d;
  }

  // ---- Monotonicity ---------------------------------------------------------

  predicate Within(a: seq<bytes>, b: seq<bytes>)
  {
    forall i :: 0 <= i < |a| ==> a[i] in b
  }

  /** More domains or suffixes never take a URL away, nor do more path prefixes once there is
      one. */
  lemma Monotone(lib: Lib, s: Scope, t: Scope, url: bytes)
    requires Within(s.domains, t.domains) && Within(s.suffixes, t.suffixes) && Within(s.pathPrefixes, t.pathPrefixes)
    requires s.pathPrefixes == [] ==> t.pathPrefixes == []
    ensures ScopeAllows(lib, s, url) ==> ScopeAllows(lib, t, url)
    ensures PolicyAllows(lib, WhitelistPolicy(s), url) ==> PolicyAllows(lib, WhitelistPolicy(t), url)
  {
    hide UnderSuffix, HasPrefix;
    if Hosted(lib, url) {
      MonotoneHosts(lib, s, t, HostOf(lib, url));
      MonotonePaths(PathOf(lib, url), s.pathPrefixes, t.pathPrefixes);
      hide PathAllowed, ScopeHost, PolicyHost;
    }
  }

  lemma MonotonePaths(path: bytes, a: seq<bytes>, b: seq<bytes>)
    requires Within(a, b) && (a == [] ==> b == [])
    ensures PathAllowed(path, a) ==> PathAllowed(path, b)
  {
    hide HasPrefix;
    if a != [] && PathAllowed(path, a) {
      var i :| 0 <= i < |a| && HasPrefix(path, a[i]);
      var j :| 0 <= j < |b| && b[j] == a[i];
      assert HasPrefix(path, b[j]);
    }
  }

  lemma MonotoneHosts(lib: Lib, s: Scope, t: Scope, host: bytes)
    requires Within(s.domains, t.domains) && Within(s.suffixes, t.suffixes)
    ensures ScopeHost(lib, s, host) ==> ScopeHost(lib, t, host)
    ensures PolicyHost(lib, WhitelistPolicy(s), host) ==> PolicyHost(lib, WhitelistPolicy(t), host)
  {
    hide UnderSuffix;
    forall i | 0 <= i < |s.domains|
      ensures exists j :: 0 <= j < |t.domains| && t.domains[j] == s.domains[i]
    {
      assert s.domains[i] in t.domains;
    }
    forall i | 0 <= i < |s.suffixes|
      ensures exists j :: 0 <= j < |t.suffixes| && t.suffixes[j] == s.suffixes[i]
    {
      assert s.suffixes[i] in t.suffixes;
    }
  }

  /** The first path prefix is different: it takes away every URL it does not cover. */
  lemma FirstPathPrefixNarrows(lib: Lib, s: Scope, prefix: bytes, url: bytes)
    requires s.pathPrefixes == [] && ScopeAllows(lib, s, url)
    ensures ScopeAllows(lib, s.(pathPrefixes := [prefix]), url) <==> HasPrefix(PathOf(lib, url), prefix)
  {
    hide UnderSuffix;
    var t := s.(pathPrefixes := [prefix]);
    assert t.pathPrefixes[0] == prefix;
    assert ScopeHost(lib, t, HostOf(lib, url));
  }

  // ---- Several constraints --------------------------------------------------

  /** The constraint is on links and lists x under the key. */
  predicate Gives(c: Authority.ScopeConstraint, key: bytes, x: bytes)
  {
    c.entity == Provisioning.LINK && key in c.constraints && x in c.constraints[key]
  }

  ghost predicate HostIn(lib: Lib, c: Authority.ScopeConstraint, host: bytes)
  {
    || (exists x :: Gives(c, Provisioning.DOMAIN, x) && host == lib.lower(x))
    || (exists x :: Gives(c, Provisioning.DOMAIN_SUFFIX, x) && UnderSuffix(host, lib.lower(x)))
  }

  ghost predicate PathIn(c: Authority.ScopeConstraint, path: bytes)
  {
    exists x :: Gives(c, Provisioning.PATH_PREFIX, x) && HasPrefix(path, x)
  }

  ghost predicate Pathless(c: Authority.ScopeConstraint)
  {
    forall x :: !Gives(c, Provisioning.PATH_PREFIX, x)
  }

  lemma GivesIff(cs: seq<Authority.ScopeConstraint>, key: bytes)
    ensures forall i, x :: 0 <= i < |cs| ==> (Gives(cs[i], key, x) <==> x in ValuesOf(cs[i], key))
    ensures forall i :: 0 <= i < |cs| && (forall x :: !Gives(cs[i], key, x)) ==> ValuesOf(cs[i], key) == []
  {
    forall i | 0 <= i < |cs| && (forall x :: !Gives(cs[i], key, x))
      ensures ValuesOf(cs[i], key) == []
    {
      var values := ValuesOf(cs[i], key);
      if values != [] { assert Gives(cs[i], key, values[0]); }
    }
  }

  /** The host and the path are looked up in the constraints separately: a URL is allowed when
      some constraint has its host and some constraint, not always the same, its path. */
  lemma AllowedIff(lib: Lib, cs: seq<Authority.ScopeConstraint>, url: bytes)
    requires Hosted(lib, url)
    ensures ScopeAllows(lib, Normalized(cs), url) <==>
            (exists i :: 0 <= i < |cs| && HostIn(lib, cs[i], HostOf(lib, url)))
            && ((forall i :: 0 <= i < |cs| ==> Pathless(cs[i]))
                || exists j :: 0 <= j < |cs| && PathIn(cs[j], PathOf(lib, url)))
  {
    hide HostIn, PathIn, Pathless, ScopeHost, PathAllowed;
    HostsIff(lib, cs, HostOf(lib, url));
    PathsIff(cs, PathOf(lib, url));
  }

  lemma HostsIff(lib: Lib, cs: seq<Authority.ScopeConstraint>, host: bytes)
    ensures ScopeHost(lib, Normalized(cs), host) <==> exists i :: 0 <= i < |cs| && HostIn(lib, cs[i], host)
  {
    GivesIff(cs, Provisioning.DOMAIN);
    GivesIff(cs, Provisioning.DOMAIN_SUFFIX);
    hide UnderSuffix, ValuesOf, Collected, Gives;
    forall x
      ensures x in Collected(cs, Provisioning.DOMAIN) <==>
              exists i :: 0 <= i < |cs| && x in ValuesOf(cs[i], Provisioning.DOMAIN)
      ensures x in Collected(cs, Provisioning.DOMAIN_SUFFIX) <==>
              exists i :: 0 <= i < |cs| && x in ValuesOf(cs[i], Provisioning.DOMAIN_SUFFIX)
    {
      CollectedIff(cs, Provisioning.DOMAIN, x);
      CollectedIff(cs, Provisioning.DOMAIN_SUFFIX, x);
    }
    var s := Normalized(cs);
    if ScopeHost(lib, s, host) {
      if i :| 0 <= i < |s.domains| && host == lib.lower(s.domains[i]) {
        assert s.domains[i] in s.domains;
        var k :| 0 <= k < |cs| && s.domains[i] in ValuesOf(cs[k], Provisioning.DOMAIN);
        assert HostIn(lib, cs[k], host);
      } else {
        var i :| 0 <= i < |s.suffixes| && UnderSuffix(host, lib.lower(s.suffixes[i]));
        assert s.suffixes[i] in s.suffixes;
        var k :| 0 <= k < |cs| && s.suffixes[i] in ValuesOf(cs[k], Provisioning.DOMAIN_SUFFIX);
        assert HostIn(lib, cs[k], host);
      }
    }
    if k :| 0 <= k < |cs| && HostIn(lib, cs[k], host) {
      if x :| Gives(cs[k], Provisioning.DOMAIN, x) && host == lib.lower(x) {
        assert x in s.domains;
        var i :| 0 <= i < |s.domains| && s.domains[i] == x;
      } else {
        var x :| Gives(cs[k], Provisioning.DOMAIN_SUFFIX, x) && UnderSuffix(host, lib.lower(x));
        assert x in s.suffixes;
        var i :| 0 <= i < |s.suffixes| && s.suffixes[i] == x;
      }
    }
  }

  lemma PathsIff(cs: seq<Authority.ScopeConstraint>, path: bytes)
    ensures PathAllowed(path, Normalized(cs).pathPrefixes) <==>
            (forall i :: 0 <= i < |cs| ==> Pathless(cs[i])) || exists j :: 0 <= j < |cs| && PathIn(cs[j], path)
  {
    GivesIff(cs, Provisioning.PATH_PREFIX);
    hide HasPrefix, ValuesOf, Collected, Gives;
    forall x
      ensures x in Collected(cs, Provisioning.PATH_PREFIX) <==>
              exists i :: 0 <= i < |cs| && x in ValuesOf(cs[i], Provisioning.PATH_PREFIX)
    {
      CollectedIff(cs, Provisioning.PATH_PREFIX, x);
    }
    var ps := Normalized(cs).pathPrefixes;
    NothingCollectedIff(cs, Provisioning.PATH_PREFIX);
    if ps != [] {
      if k :| 0 <= k < |ps| && HasPrefix(path, ps[k]) {
        assert ps[k] in ps;
        var j :| 0 <= j < |cs| && ps[k] in ValuesOf(cs[j], Provisioning.PATH_PREFIX);
        assert PathIn(cs[j], path);
      }
    }
    if j :| 0 <= j < |cs| && PathIn(cs[j], path) {
      var x :| Gives(cs[j], Provisioning.PATH_PREFIX, x) && HasPrefix(path, x);
      assert x in ps;
      var k :| 0 <= k < |ps| && ps[k] == x;
    }
  }

  /** So two constraints mix: one for paths under p of host a and one for paths under q of
      host b together let in what neither does, the paths under q of host a. */
  lemma GrantsMix(lib: Lib, a: bytes, p: bytes, b: bytes, q: bytes, url: bytes)
    requires Hosted(lib, url) && HostOf(lib, url) == lib.lower(a) != lib.lower(b)
    requires HasPrefix(PathOf(lib, url), q) && !HasPrefix(PathOf(lib, url), p)
    ensures ScopeAllows(lib, Normalized([LinkTo(a, p), LinkTo(b, q)]), url)
    ensures !ScopeAllows(lib, Normalized([LinkTo(a, p)]), url) && !ScopeAllows(lib, Normalized([LinkTo(b, q)]), url)
  {
    var cs := [LinkTo(a, p), LinkTo(b, q)];
    hide HasPrefix, UnderSuffix;
    assert Gives(cs[0], Provisioning.DOMAIN, a);
    assert HostIn(lib, cs[0], HostOf(lib, url));
    assert Gives(cs[1], Provisioning.PATH_PREFIX, q);
    assert PathIn(cs[1], PathOf(lib, url));
    AllowedIff(lib, cs, url);
    Alone(lib, a, p, url);
    Alone(lib, b, q, url);
  }

  lemma Alone(lib: Lib, a: bytes, p: bytes, url: bytes)
    requires Hosted(lib, url)
    ensures ScopeAllows(lib, Normalized([LinkTo(a, p)]), url) <==>
            HostOf(lib, url) == lib.lower(a) && HasPrefix(PathOf(lib, url), p)
  {
    var c := LinkTo(a, p);
    hide HasPrefix, UnderSuffix;
    assert Gives(c, Provisioning.DOMAIN, a) && Gives(c, Provisioning.PATH_PREFIX, p);
    AllowedIff(lib, [c], url);
    assert HostIn(lib, c, HostOf(lib, url)) <==> HostOf(lib, url) == lib.lower(a);
    assert PathIn(c, PathOf(lib, url)) <==> HasPrefix(PathOf(lib, url), p);
  }

  function LinkTo(domain: bytes, path: bytes): Authority.ScopeConstraint
  {
    Authority.ScopeConstraint(Provisioning.LINK, map[Provisioning.DOMAIN := [domain],
                                                     Provisioning.PATH_PREFIX := [path]])
  }

  // ---- Prefix entries -------------------------------------------------------

  predicate Undelimited(s: bytes)
  {
    forall i :: 0 <= i < |s| ==> s[i] != SLASH && s[i] != QUERY && s[i] != HASH
  }

  predicate EndsPiece(tail: bytes)
  {
    tail == [] || tail[0] == SLASH || tail[0] == QUERY || tail[0] == HASH
  }

  /** Where the first delimiter stands, or the end. */
  function FirstDelimiter(u: bytes): nat
  {
    if u == [] || Delimiter(u[0]) then 0 else 1 + FirstDelimiter(u[1..])
  }

  lemma {:induction false} FirstDelimiterIs(h: bytes, tail: bytes)
    requires Undelimited(h) && EndsPiece(tail)
    ensures FirstDelimiter(h + tail) == |h|
  {
    if h == [] {
      assert [] + tail == tail;
    } else {
      FirstDelimiterIs(h[1..], tail);
      assert (h + tail)[1..] == h[1..] + tail;
    }
  }

  /** An entry that ends in a host, or in any other piece without delimiters, matches a text
      with the same beginning exactly when the piece there is the same, up to its end. So it
      reaches into no longer host: neither "host.evil" nor "host@evil" nor "host:port". */
  lemma PieceMatchesIff(start: bytes, h: bytes, h': bytes, tail: bytes)
    requires h != [] && Undelimited(h) && Undelimited(h') && EndsPiece(tail)
    ensures AtBoundary(start + h' + tail, start + h) <==> h == h'
  {
    var needle := start + h' + tail;
    var candidate := start + h;
    var u := h' + tail;
    assert needle == start + u;
    assert needle[|start|..] == u;
    assert candidate[|candidate| - 1] == h[|h| - 1];
    if h == h' {
      assert needle[..|candidate|] == candidate;
    }
    if AtBoundary(needle, candidate) {
      var rest := needle[|candidate|..];
      assert needle == candidate + rest;
      assert (candidate + rest)[|start|..] == h + rest;
      assert rest != [] ==> rest[0] == needle[|candidate|];
      FirstDelimiterIs(h, rest);
      FirstDelimiterIs(h', tail);
      assert u[..|h|] == h && u[..|h'|] == h';
    }
  }

  /** A list of such entries under one beginning lets in exactly the texts whose piece is that
      of one of them. */
  lemma PrefixStopsAtBoundary(lib: Lib, p: Policy, url: bytes, start: bytes, hosts: seq<bytes>, h: bytes, tail: bytes)
    requires lib.lower(url) == start + h + tail && Undelimited(h) && EndsPiece(tail)
    requires |hosts| == |p.prefixes|
    requires forall i :: 0 <= i < |hosts| ==>
               hosts[i] != [] && Undelimited(hosts[i]) && Candidate(lib, p.prefixes[i]) == start + hosts[i]
    ensures ByPrefix(lib, p, url) <==> h in hosts
  {
    hide AtBoundary, Undelimited;
    forall i | 0 <= i < |hosts|
      ensures AtBoundary(lib.lower(url), Candidate(lib, p.prefixes[i])) <==> hosts[i] == h
    {
      PieceMatchesIff(start, hosts[i], h, tail);
    }
  }
}
