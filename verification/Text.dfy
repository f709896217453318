/** Byte strings: prefixes and suffixes, and slash-separated paths with their lexical
    cleaning. */
module Text {
  import opened Mus

  const DOT: byte := 46 // '.'
  const SLASH: byte := 47 // '/'

  predicate HasPrefix(s: bytes, p: bytes)
  {
    |p| <= |s| && s[..|p|] == p
  }

  predicate HasSuffix(s: bytes, p: bytes)
  {
    |p| <= |s| && s[|s| - |p|..] == p
  }

  // ---- Paths as components --------------------------------------------------

  const HERE: bytes := [DOT]
  const UP: bytes := [DOT, DOT]

  type Path = seq<bytes>

  predicate Slashless(c: bytes)
  {
    SLASH !in c
  }

  /** A component that names something. */
  predicate Plain(c: bytes)
  {
    c != [] && c != HERE && c != UP && Slashless(c)
  }

  predicate AllPlain(p: Path)
  {
    forall i :: 0 <= i < |p| ==> Plain(p[i])
  }

  function Split(s: bytes): (p: Path)
    ensures |p| > 0 && forall i :: 0 <= i < |p| ==> Slashless(p[i])
  {
    if s == [] then [[]]
    else
      var rest := Split(s[1..]);
      if s[0] == SLASH then [[]] + rest else [[s[0]] + rest[0]] + rest[1..]
  }

  /** Cleaning an absolute path: empty and "." components go, ".." takes its predecessor
      away, if there is one. */
  function Stack(p: Path): (q: Path)
    requires forall i :: 0 <= i < |p| ==> Slashless(p[i])
    ensures AllPlain(q)
  {
    if p == [] then []
    else
      var below := Stack(p[..|p| - 1]);
      var c := p[|p| - 1];
      if c == [] || c == HERE then below
      else if c == UP then (if below == [] then [] else below[..|below| - 1])
      else below + [c]
  }

  function Components(s: bytes): Path
  {
    Stack(Split(s))
  }

  function Slashed(p: Path): bytes
  {
    if p == [] then [] else [SLASH] + p[0] + Slashed(p[1..])
  }

  /** The text of an absolute clean path. */
  function Render(p: Path): bytes
  {
    if p == [] then [SLASH] else Slashed(p)
  }

  /** `filepath.Clean` on absolute paths. */
  function Clean(s: bytes): bytes
  {
    Render(Components(s))
  }

  /** `filepath.Join` of an absolute path with a relative one that is not empty. */
  function Join(a: bytes, b: bytes): bytes
  {
    Clean(a + [SLASH] + b)
  }

  lemma SplitCons(c: byte, s: bytes)
    ensures Split([c] + s) == if c == SLASH then [[]] + Split(s) else [[c] + Split(s)[0]] + Split(s)[1..]
  {
    assert ([c] + s)[1..] == s;
  }

  lemma NothingToSplit()
    ensures Split([]) == [[]]
  {
  }

  /** A byte put in front of a split text. */
  function Onto(c: byte, p: Path): Path
    requires p != []
  {
    if c == SLASH then [[]] + p else [[c] + p[0]] + p[1..]
  }

  lemma OntoJoined(c: byte, p: Path, q: Path)
    requires p != []
    ensures Onto(c, p + q) == Onto(c, p) + q
  {
    assert (p + q)[1..] == p[1..] + q;
  }

  lemma {:induction false} SplitJoined(a: bytes, b: bytes)
    ensures Split(a + [SLASH] + b) == Split(a) + Split(b)
  {
    hide Split, Onto;
    if a == [] {
      NothingToSplit();
      SplitCons(SLASH, b);
      assert a + [SLASH] + b == [SLASH] + b;
    } else {
      var t := a[1..];
      SplitJoined(t, b);
      SplitOnto(a[0], t);
      SplitOnto(a[0], t + [SLASH] + b);
      OntoJoined(a[0], Split(t), Split(b));
      assert a + [SLASH] + b == [a[0]] + (t + [SLASH] + b);
      assert [a[0]] + t == a;
    }
  }

  lemma SplitOnto(c: byte, s: bytes)
    ensures Split([c] + s) == Onto(c, Split(s))
  {
    SplitCons(c, s);
  }

  predicate Starts(x: bytes)
  {
    x == [] || x[0] == SLASH
  }

  lemma {:induction false} SplitNamed(c: bytes, y: bytes)
    requires Slashless(c) && Starts(y)
    ensures Split(c + y) == [c] + Split(y)[1..] && Split(y)[0] == []
  {
    if c == [] {
      assert [] + y == y;
    } else {
      SplitNamed(c[1..], y);
      SplitCons(c[0], c[1..] + y);
      hide Split;
      assert c + y == [c[0]] + (c[1..] + y);
      assert [c[0]] + c[1..] == c;
    }
  }

  lemma {:induction false} StackAppend(p: Path, q: Path)
    requires forall i :: 0 <= i < |p| ==> Slashless(p[i])
    requires forall i :: 0 <= i < |q| ==> Slashless(q[i]) && q[i] != UP
    ensures Stack(p + q) == Stack(p) + Stack(q)
  {
    if q == [] {
      assert p + q == p;
    } else {
      var n := |q| - 1;
      StackAppend(p, q[..n]);
      assert (p + q)[..|p + q| - 1] == p + q[..n];
      assert Stack(p) + (Stack(q[..n]) + [q[n]]) == (Stack(p) + Stack(q[..n])) + [q[n]];
    }
  }

  lemma {:induction false} StackPlain(p: Path)
    requires AllPlain(p)
    ensures Stack(p) == p
  {
    if p != [] {
      StackPlain(p[..|p| - 1]);
      assert p[..|p| - 1] + [p[|p| - 1]] == p;
    }
  }

  lemma {:induction false} SplitSlashed(p: Path)
    requires AllPlain(p)
    ensures Split(Slashed(p)) == [[]] + p
  {
    if p == [] {
      assert [[]] + p == [[]];
    } else {
      SplitSlashed(p[1..]);
      SplitNamed(p[0], Slashed(p[1..]));
      SplitCons(SLASH, p[0] + Slashed(p[1..]));
      hide Split;
      assert Slashed(p) == [SLASH] + (p[0] + Slashed(p[1..]));
      assert ([[]] + p[1..])[1..] == p[1..];
      assert [p[0]] + p[1..] == p;
    }
  }

  /** Cleaning is idempotent: the components of a clean path are read back from its text. */
  lemma ComponentsOfRendered(p: Path)
    requires AllPlain(p)
    ensures Components(Render(p)) == p
  {
    if p == [] {
      var nothing: Path := [[]];
      assert Split([SLASH]) == nothing + nothing by { assert [SLASH][1..] == []; }
      StackAppend(nothing, nothing);
    } else {
      var nothing: Path := [[]];
      SplitSlashed(p);
      StackAppend(nothing, p);
      StackPlain(p);
      assert Stack(nothing) == [];
      assert [] + p == p;
    }
  }

  /** Cleaning goes by the last name of a path: an empty name and "." stand for the directory
      itself, ".." for its parent, that of the root being the root, and any other for an entry
      in it. */
  lemma CleanedByName(s: bytes, c: bytes)
    requires Slashless(c)
    ensures var p := Components(s);
            Components(s + [SLASH] + c) ==
            if c == [] || c == HERE then p
            else if c == UP then (if p == [] then [] else p[..|p| - 1])
            else p + [c]
    ensures Components([]) == [] && Components(Clean(s)) == Components(s)
  {
    SplitJoined(s, c);
    SplitNamed(c, []);
    assert c + [] == c;
    assert Split([])[1..] == [];
    assert Split(c) == [c];
    assert (Split(s) + [c])[..|Split(s)|] == Split(s);
    ComponentsOfRendered(Components(s));
  }

  // ---- Containment, as text and as components -------------------------------

  function FirstSlash(u: bytes): nat
  {
    if Starts(u) then 0 else 1 + FirstSlash(u[1..])
  }

  lemma {:induction false} FirstSlashIs(c: bytes, y: bytes)
    requires Slashless(c) && Starts(y)
    ensures FirstSlash(c + y) == |c|
  {
    if c == [] {
      assert [] + y == y;
    } else {
      FirstSlashIs(c[1..], y);
      assert (c + y)[1..] == c[1..] + y;
    }
  }

  /** The name in front of a slash or the end is settled by the text. */
  lemma SameHead(a: bytes, x: bytes, b: bytes, y: bytes)
    requires Slashless(a) && Slashless(b) && x != [] && x[0] == SLASH && Starts(y)
    requires HasPrefix(b + y, a + x)
    ensures a == b && HasPrefix(y, x)
  {
    var u := b + y;
    var rest := u[|a|..];
    assert u[..|a + x|][..|a|] == u[..|a|] && (a + x)[..|a|] == a;
    assert u == a + rest;
    assert rest[0] == u[..|a + x|][|a|] == (a + x)[|a|] == SLASH;
    FirstSlashIs(b, y);
    FirstSlashIs(a, rest);
    assert u[..|b|] == b && u[|b|..] == y;
    assert u[..|a + x|][|a|..] == (a + x)[|a|..] == x;
    assert y[..|x|] == u[..|a + x|][|a|..];
  }

  lemma {:induction false} PrefixIff(s: Path, t: Path)
    requires AllPlain(s) && AllPlain(t)
    ensures HasPrefix(Slashed(t), Slashed(s) + [SLASH]) <==> |s| < |t| && t[..|s|] == s
  {
    if s == [] {
      assert [] + [SLASH] == [SLASH];
      assert t != [] ==> HasPrefix(Slashed(t), [SLASH]);
    } else if t == [] {
    } else {
      PrefixIff(s[1..], t[1..]);
      var x, y := Slashed(s[1..]) + [SLASH], Slashed(t[1..]);
      assert Slashed(s) + [SLASH] == [SLASH] + (s[0] + x);
      assert Slashed(t) == [SLASH] + (t[0] + y);
      HeadAway(t[0] + y, s[0] + x);
      if HasPrefix(t[0] + y, s[0] + x) { SameHead(s[0], x, t[0], y); }
      if s[0] == t[0] && HasPrefix(y, x) {
        assert (t[0] + y)[..|s[0] + x|] == t[0] + y[..|x|];
      }
      ConsPrefix(s, t);
    }
  }

  lemma HeadAway(u: bytes, v: bytes)
    ensures HasPrefix([SLASH] + u, [SLASH] + v) <==> HasPrefix(u, v)
  {
    if |v| <= |u| {
      assert ([SLASH] + u)[..|v| + 1] == [SLASH] + u[..|v|];
      assert ([SLASH] + v)[1..] == v && ([SLASH] + u[..|v|])[1..] == u[..|v|];
    }
  }

  lemma ConsPrefix(s: Path, t: Path)
    requires s != [] && t != []
    ensures |s| < |t| && t[..|s|] == s <==> s[0] == t[0] && |s[1..]| < |t[1..]| && t[1..][..|s| - 1] == s[1..]
  {
    if |s| < |t| {
      assert t[..|s|] == [t[0]] + t[1..][..|s| - 1];
      assert s == [s[0]] + s[1..];
    }
  }

  /** The check the code makes on the texts of two clean paths. */
  predicate TextUnder(scope: bytes, path: bytes)
  {
    HasPrefix(path, scope + [SLASH]) || path == scope
  }

  /** It says that the path's components extend the scope's. The root is an exception: its
      text with a slash behind it is the start of no clean path, so only the root itself is
      under it. */
  lemma UnderIff(s: Path, t: Path)
    requires AllPlain(s) && AllPlain(t)
    ensures TextUnder(Render(s), Render(t)) <==> if s == [] then t == [] else s <= t
  {
    ComponentsOfRendered(s);
    ComponentsOfRendered(t);
    hide Components, Slashed;
    if s == [] {
      NothingUnderRoot(t);
    } else if t == [] {
      SlashedLength(s);
    } else {
      PrefixIff(s, t);
      assert s <= t <==> s == t || (|s| < |t| && t[..|s|] == s);
    }
  }

  lemma SlashedLength(p: Path)
    requires AllPlain(p) && p != []
    ensures |Slashed(p)| >= 2 && Slashed(p)[1] != SLASH
  {
    assert Slashed(p)[1] == p[0][0];
  }

  lemma NothingUnderRoot(t: Path)
    requires AllPlain(t)
    ensures TextUnder(Render([]), Render(t)) <==> t == []
  {
    if t != [] {
      SlashedLength(t);
      hide Slashed;
      assert Slashed(t)[..2][1] != ([SLASH] + [SLASH])[1];
    }
  }

  // ---- Containment without ".." ---------------------------------------------

  predicate HasUp(p: bytes)
  {
    exists i :: 0 <= i < |Split(p)| && Split(p)[i] == UP
  }

  method ContainsDotDot(p: bytes) returns (found: bool)
    ensures found <==> HasUp(p)
  {
    var parts := Split(p);
    for i := 0 to |parts|
      invariant forall j :: 0 <= j < i ==> parts[j] != UP
    {
      if parts[i] == UP {
        return true;
      }
    }
    return false;
  }

  /** Joining a path without ".." components appends its components: it cannot leave the
      scope lexically. */
  lemma JoinStays(scope: bytes, p: bytes)
    requires !HasUp(p)
    ensures Components(Join(scope, p)) == Components(scope) + Components(p)
  {
    SplitJoined(scope, p);
    StackAppend(Split(scope), Split(p));
    ComponentsOfRendered(Stack(Split(scope) + Split(p)));
  }
}
