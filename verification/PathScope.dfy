/** Writing a file below an agent's directory: the lexical containment check, the walk that
    looks for symlinks leading out, and what the write then does to the file system. */
module PathScope {
  import opened Wrappers
  import opened Mus
  import opened Text
  import Authority
  import Provisioning

  // ---- The file system ------------------------------------------------------

  /** A link holds an absolute or relative target, in components that may be "..", "." or
      empty. */
  datatype Node = Dir | File(content: bytes) | Link(absolute: bool, target: Path)

  /** Nodes by their real path: the way from the root through directories only. */
  type FileSystem = map<Path, Node>

  predicate IsDir(fs: FileSystem, p: Path)
  {
    p in fs && fs[p].Dir?
  }

  function Parent(p: Path): Path
  {
    if p == [] then [] else p[..|p| - 1]
  }

  predicate InPlace(fs: FileSystem, p: Path)
  {
    AllPlain(p) && IsDir(fs, Parent(p))
  }

  ghost predicate WellFormed(fs: FileSystem)
  {
    IsDir(fs, []) && forall p {:trigger InPlace(fs, p)} :: p in fs ==> InPlace(fs, p)
  }

  /** The end of a walk: the real path it leads to, with the number of links that may still be
      followed, or why there is none. A missing name is reported with the directory it is
      missing from and all that was left to walk. */
  datatype Walked = Found(at: Path, left: nat) | Missing(dir: Path, rest: Path) | NotADirectory | TooManyLinks

  /** The kernel's walk from a real directory. ".." leads to the real parent. */
  function Walk(fs: FileSystem, links: nat, cur: Path, todo: Path): Walked
    decreases links, |todo|
  {
    if todo == [] then Found(cur, links)
    else if !IsDir(fs, cur) then NotADirectory
    else
      var c, rest := todo[0], todo[1..];
      if c == [] || c == HERE then Walk(fs, links, cur, rest)
      else if c == UP then Walk(fs, links, Parent(cur), rest)
      else if cur + [c] !in fs then Missing(cur, todo)
      else
        match fs[cur + [c]]
        case Link(absolute, target) =>
          if links == 0 then TooManyLinks
          else Walk(fs, links - 1, if absolute then [] else cur, target + rest)
        case _ => Walk(fs, links, cur + [c], rest)
  }

  /** `Lstat`: the last component is not followed. */
  datatype Stat = Present(node: Node) | Absent | Failed

  function Lstat(fs: FileSystem, links: nat, p: Path): Stat
  {
    if p == [] then (if [] in fs then Present(fs[[]]) else Absent)
    else
      var w := Walk(fs, links, [], Parent(p));
      if w.Missing? then Absent
      else if !w.Found? || !IsDir(fs, w.at) then Failed
      else
        var child := w.at + [p[|p| - 1]];
        if child in fs then Present(fs[child]) else Absent
  }

  // ---- The check ------------------------------------------------------------

  /** Lstat at this prefix says that nothing is there. */
  predicate AbsentAt(fs: FileSystem, links: nat, t: Path, k: nat)
    requires k <= |t|
  {
    Lstat(fs, links, t[..k]).Absent?
  }

  /** A prefix is in order if it is no link, or one that resolves to a path in the scope. The
      resolver counts links by a limit of its own. */
  predicate InOrder(fs: FileSystem, links: nat, evalLinks: nat, s: Path, p: Path)
  {
    var st := Lstat(fs, links, p);
    match st
    case Failed => false
    case Absent => true
    case Present(node) =>
      node.Link? ==>
        var w := Walk(fs, evalLinks, [], p);
        w.Found? && TextUnder(Render(s), Render(w.at))
  }

  /** The prefixes the walk looks at: those below the scope up to the first absent one, or the
      scope itself when it is the target. */
  predicate Inspected(fs: FileSystem, links: nat, s: Path, t: Path, j: nat)
    requires |s| <= |t|
  {
    if |t| == |s| then j == |s|
    else |s| < j <= |t| && forall k :: |s| < k < j ==> !AbsentAt(fs, links, t, k)
  }

  predicate NoSymlinkEscape(fs: FileSystem, links: nat, evalLinks: nat, s: Path, t: Path)
    requires |s| <= |t|
  {
    forall j :: 0 <= j <= |t| && Inspected(fs, links, s, t, j) ==> InOrder(fs, links, evalLinks, s, t[..j])
  }

  method CheckNoSymlinkEscape(fs: FileSystem, links: nat, evalLinks: nat, s: Path, t: Path) returns (ok: bool)
    requires s <= t
    ensures ok <==> NoSymlinkEscape(fs, links, evalLinks, s, t)
  {
    hide Lstat, Walk, Render, TextUnder;
    var parts := if s == t then [HERE] else t[|s|..];
    var cur := s;
    assert t[..|s|] == s;
    for i := 0 to |parts|
      invariant s < t ==> cur == t[..|s| + i] && forall k :: |s| < k <= |s| + i ==>
                  !AbsentAt(fs, links, t, k) && InOrder(fs, links, evalLinks, s, t[..k])
      invariant s == t ==> cur == s && (i > 0 ==> InOrder(fs, links, evalLinks, s, t))
    {
      cur := if parts[i] == HERE && s == t then cur else cur + [parts[i]];
      ghost var j := if s == t then |s| else |s| + i + 1;
      assert cur == t[..j];
      assert Inspected(fs, links, s, t, j);
      var st := Lstat(fs, links, cur);
      if st.Absent? {
        assert s < t ==> AbsentAt(fs, links, t, j);
        assert InOrder(fs, links, evalLinks, s, t[..j]);
        break;
      }
      if st.Failed? {
        return false;
      }
      if st.node.Link? {
        var resolved := Walk(fs, evalLinks, [], cur);
        if !resolved.Found? {
          return false;
        }
        if !TextUnder(Render(s), Render(resolved.at)) {
          return false;
        }
      }
      assert InOrder(fs, links, evalLinks, s, cur);
      assert s < t ==> !AbsentAt(fs, links, t, j);
    }
    return true;
  }

  // ---- Walks ----------------------------------------------------------------

  /** A walk is made piece by piece. */
  lemma {:induction false} WalkSplit(fs: FileSystem, links: nat, cur: Path, a: Path, b: Path)
    ensures var w := Walk(fs, links, cur, a);
            Walk(fs, links, cur, a + b) ==
            match w
            case Found(at, left) => Walk(fs, left, at, b)
            case Missing(dir, rest) => Missing(dir, rest + b)
            case NotADirectory => NotADirectory
            case TooManyLinks => TooManyLinks
    decreases links, |a|
  {
    if a == [] {
      assert a + b == b;
    } else if IsDir(fs, cur) {
      var c, rest := a[0], a[1..];
      assert (a + b)[0] == c && (a + b)[1..] == rest + b;
      if c == [] || c == HERE {
        WalkSplit(fs, links, cur, rest, b);
      } else if c == UP {
        WalkSplit(fs, links, Parent(cur), rest, b);
      } else if cur + [c] in fs {
        match fs[cur + [c]]
        case Link(absolute, target) =>
          if links > 0 {
            assert target + (rest + b) == (target + rest) + b;
            WalkSplit(fs, links - 1, if absolute then [] else cur, target + rest, b);
          }
        case Dir => WalkSplit(fs, links, cur + [c], rest, b);
        case File(_) => WalkSplit(fs, links, cur + [c], rest, b);
      }
    }
  }

  function WithMore(w: Walked, extra: nat): Walked
  {
    if w.Found? then Found(w.at, w.left + extra) else w
  }

  /** A higher limit on links changes nothing for a walk that kept to the lower one. */
  lemma {:induction false} MoreLinks(fs: FileSystem, links: nat, cur: Path, todo: Path, extra: nat)
    requires !Walk(fs, links, cur, todo).TooManyLinks?
    ensures Walk(fs, links + extra, cur, todo) == WithMore(Walk(fs, links, cur, todo), extra)
    decreases links, |todo|
  {
    if todo != [] && IsDir(fs, cur) {
      var c, rest := todo[0], todo[1..];
      if c == [] || c == HERE {
        MoreLinks(fs, links, cur, rest, extra);
      } else if c == UP {
        MoreLinks(fs, links, Parent(cur), rest, extra);
      } else if cur + [c] in fs {
        match fs[cur + [c]]
        case Link(absolute, target) => MoreLinks(fs, links - 1, if absolute then [] else cur, target + rest, extra);
        case Dir => MoreLinks(fs, links, cur + [c], rest, extra);
        case File(_) => MoreLinks(fs, links, cur + [c], rest, extra);
      }
    }
  }

  lemma RootIsDir(fs: FileSystem)
    requires WellFormed(fs)
    ensures [] in fs && IsDir(fs, [])
  {
  }

  lemma ParentIsDir(fs: FileSystem, p: Path)
    requires WellFormed(fs) && p in fs
    ensures IsDir(fs, Parent(p)) && Parent(p) in fs && AllPlain(p)
  {
    assert InPlace(fs, p);
  }

  /** Walks stay on real paths, and end at no link. */
  lemma {:induction false} WalkIsReal(fs: FileSystem, links: nat, cur: Path, todo: Path)
    requires WellFormed(fs) && cur in fs && !fs[cur].Link?
    ensures var w := Walk(fs, links, cur, todo);
            (w.Found? ==> w.at in fs && !fs[w.at].Link?) && (w.Missing? ==> IsDir(fs, w.dir))
    decreases links, |todo|
  {
    hide WellFormed, Parent;
    RootIsDir(fs);
    ParentIsDir(fs, cur);
    if todo != [] && IsDir(fs, cur) {
      var c, rest := todo[0], todo[1..];
      if c == [] || c == HERE {
        WalkIsReal(fs, links, cur, rest);
      } else if c == UP {
        WalkIsReal(fs, links, Parent(cur), rest);
      } else if cur + [c] in fs {
        match fs[cur + [c]]
        case Link(absolute, target) =>
          if links > 0 { WalkIsReal(fs, links - 1, if absolute then [] else cur, target + rest); }
        case Dir => WalkIsReal(fs, links, cur + [c], rest);
        case File(_) => WalkIsReal(fs, links, cur + [c], rest);
      }
    }
  }

  /** A directory's real path leads to it through no link. */
  lemma {:induction false} RealPath(fs: FileSystem, links: nat, s: Path)
    requires WellFormed(fs) && IsDir(fs, s)
    ensures Walk(fs, links, [], s) == Found(s, links)
  {
    hide WellFormed, Walk;
    if s == [] {
      NothingToWalk(fs, links, s);
    } else {
      var n := |s| - 1;
      ParentIsDir(fs, s);
      assert Plain(s[n]);
      RealPath(fs, links, s[..n]);
      WalkSplit(fs, links, [], s[..n], [s[n]]);
      assert s[..n] + [s[n]] == s;
      OneStep(fs, links, s[..n], s[n]);
    }
  }

  lemma NothingToWalk(fs: FileSystem, links: nat, cur: Path)
    ensures Walk(fs, links, cur, []) == Found(cur, links)
  {
  }

  /** One named component. */
  lemma OneStep(fs: FileSystem, links: nat, cur: Path, c: bytes)
    requires IsDir(fs, cur) && Plain(c)
    ensures cur + [c] in fs && !fs[cur + [c]].Link? ==> Walk(fs, links, cur, [c]) == Found(cur + [c], links)
  {
    assert [c][1..] == [];
  }

  /** A link stands for its target: walked from the link's own directory, or from the root if
      the target is absolute. */
  lemma LinkIsTarget(fs: FileSystem, links: nat, dir: Path, c: bytes, absolute: bool, target: Path)
    requires WellFormed(fs) && IsDir(fs, dir) && dir + [c] in fs && fs[dir + [c]] == Link(absolute, target)
    ensures Walk(fs, links, [], dir + [c]) ==
            if links == 0 then TooManyLinks else Walk(fs, links - 1, [], if absolute then target else dir + target)
  {
    hide WellFormed;
    ParentIsDir(fs, dir + [c]);
    assert Plain((dir + [c])[|dir|]);
    WalkSplit(fs, links, [], dir, [c]);
    RealPath(fs, links, dir);
    assert [c][1..] == [];
    assert target + [] == target;
    if links > 0 {
      WalkSplit(fs, links - 1, [], dir, target);
      RealPath(fs, links - 1, dir);
    }
  }

  /** The real path of a file leads to it. */
  lemma RealFile(fs: FileSystem, links: nat, p: Path)
    requires WellFormed(fs) && p in fs && fs[p].File?
    ensures Walk(fs, links, [], p) == Found(p, links)
  {
    hide Walk, WellFormed;
    RootIsDir(fs);
    ParentIsDir(fs, p);
    var n := |p| - 1;
    RealPath(fs, links, p[..n]);
    WalkSplit(fs, links, [], p[..n], [p[n]]);
    assert p[..n] + [p[n]] == p;
    OneStep(fs, links, p[..n], p[n]);
  }

  lemma {:induction false} AncestorIsDir(fs: FileSystem, p: Path, a: Path)
    requires WellFormed(fs) && p in fs && a < p
    ensures IsDir(fs, a)
    decreases |p|
  {
    hide WellFormed, AllPlain;
    ParentIsDir(fs, p);
    if a != Parent(p) { AncestorIsDir(fs, Parent(p), a); }
  }

  /** What lies on the real path of a node is walked to by its own path. */
  lemma OnRealPath(fs: FileSystem, links: nat, p: Path, a: Path)
    requires WellFormed(fs) && p in fs && !fs[p].Link? && a <= p
    ensures Walk(fs, links, [], a) == Found(a, links)
  {
    hide Walk, WellFormed;
    if a < p {
      AncestorIsDir(fs, p, a);
      RealPath(fs, links, a);
    } else {
      assert a == p;
      if fs[p].Dir? { RealPath(fs, links, p); } else { RealFile(fs, links, p); }
    }
  }

  // ---- The check is sound ---------------------------------------------------

  /** The walk of a path breaks off at one of the path's own components, with nothing but
      those left, and not inside the target of a dangling link. */
  predicate OwnMissing(fs: FileSystem, links: nat, t: Path)
  {
    var w := Walk(fs, links, [], t);
    w.Missing? && 0 < |w.rest| <= |t| && w.rest == t[|t| - |w.rest|..]
    && var v := Walk(fs, links, [], t[..|t| - |w.rest|]);
       v.Found? && v.at == w.dir
  }

  /** Where the target leads: to a node below r, or to a name of its own missing from a
      directory below r. */
  predicate Contained(fs: FileSystem, links: nat, r: Path, t: Path)
  {
    var w := Walk(fs, links, [], t);
    && (w.Found? ==> r <= w.at)
    && (w.Missing? ==> r <= w.dir && OwnMissing(fs, links, t))
  }

  /** What the walk knows at prefix i. The limit m is above both limits in use. */
  ghost predicate Safely(fs: FileSystem, m: nat, r: Path, t: Path, i: nat)
    requires i <= |t|
  {
    var w := Walk(fs, m, [], t[..i]);
    w.Found? && r <= w.at && w.at in fs
  }

  lemma {:induction false} WalkSafely(fs: FileSystem, links: nat, evalLinks: nat, m: nat, s: Path, r: Path, t: Path,
                                      i: nat)
    requires WellFormed(fs) && AllPlain(s) && AllPlain(t) && links <= m && evalLinks <= m
    requires Walk(fs, m, [], s).Found? && Walk(fs, m, [], s).at == r
    requires |s| <= i <= |t| && NoSymlinkEscape(fs, links, evalLinks, s, t)
    requires Safely(fs, m, r, t, i) && forall k :: |s| < k <= i ==> !AbsentAt(fs, links, t, k)
    ensures Contained(fs, m, r, t)
    decreases |t| - i
  {
    hide Walk, WellFormed, Lstat, InOrder, AbsentAt;
    if i == |t| {
      assert t[..i] == t;
    } else {
      assert Inspected(fs, links, s, t, i + 1);
      assert t[..i + 1] == t[..i] + [t[i]];
      if AbsentAt(fs, links, t, i + 1) {
        MissingFrom(fs, links, m, r, t, i);
      } else {
        IsPresent(fs, links, evalLinks, s, t, i + 1);
        NextPrefix(fs, links, evalLinks, m, s, r, t[..i], t[i]);
        WalkSafely(fs, links, evalLinks, m, s, r, t, i + 1);
      }
    }
  }

  lemma IsPresent(fs: FileSystem, links: nat, evalLinks: nat, s: Path, t: Path, k: nat)
    requires k <= |t| && InOrder(fs, links, evalLinks, s, t[..k]) && !AbsentAt(fs, links, t, k)
    ensures Lstat(fs, links, t[..k]).Present?
  {
    hide Lstat, Walk, Render;
  }

  /** What a present prefix that is in order leads to lies below what the scope leads to. If
      it is a link, its real target is below the scope's text, so the scope is a real path and
      leads to itself. */
  lemma NextPrefix(fs: FileSystem, links: nat, evalLinks: nat, m: nat, s: Path, r: Path, p: Path, c: bytes)
    requires WellFormed(fs) && AllPlain(s) && Plain(c) && links <= m && evalLinks <= m
    requires Walk(fs, m, [], s).Found? && Walk(fs, m, [], s).at == r
    requires Walk(fs, m, [], p).Found? && r <= Walk(fs, m, [], p).at
    requires InOrder(fs, links, evalLinks, s, p + [c]) && Lstat(fs, links, p + [c]).Present?
    ensures var w := Walk(fs, m, [], p + [c]); w.Found? && r <= w.at && w.at in fs
  {
    hide Walk, WellFormed;
    var q := p + [c];
    assert Parent(q) == p;
    var v := Walk(fs, links, [], p);
    MoreLinks(fs, links, [], p, m - links);
    RootIsDir(fs);
    if Lstat(fs, links, q).node.Link? {
      var w := Walk(fs, evalLinks, [], q);
      MoreLinks(fs, evalLinks, [], q, m - evalLinks);
      WalkIsReal(fs, evalLinks, [], q);
      ParentIsDir(fs, w.at);
      UnderIff(s, w.at);
      OnRealPath(fs, m, w.at, s);
    } else {
      WalkSplit(fs, m, [], p, [c]);
      OneStep(fs, v.left + (m - links), v.at, c);
    }
  }

  /** The first absent prefix ends the walk in a directory below r. */
  lemma MissingFrom(fs: FileSystem, links: nat, m: nat, r: Path, t: Path, i: nat)
    requires WellFormed(fs) && AllPlain(t) && links <= m && i < |t|
    requires Safely(fs, m, r, t, i) && AbsentAt(fs, links, t, i + 1)
    ensures Contained(fs, m, r, t)
  {
    hide Walk, WellFormed;
    var p, c := t[..i], t[i];
    assert t[..i + 1] == p + [c] && Parent(p + [c]) == p;
    if !Walk(fs, links, [], p).TooManyLinks? { MoreLinks(fs, links, [], p, m - links); }
    var v := Walk(fs, m, [], p);
    WalkSplit(fs, m, [], p, t[i..]);
    assert p + t[i..] == t;
    MissingHere(fs, v.left, v.at, t[i..]);
    assert t[i..] == t[|t| - |t[i..]|..] && t[..|t| - |t[i..]|] == p;
  }

  lemma MissingHere(fs: FileSystem, links: nat, cur: Path, todo: Path)
    requires IsDir(fs, cur) && todo != [] && Plain(todo[0]) && cur + [todo[0]] !in fs
    ensures Walk(fs, links, cur, todo) == Missing(cur, todo)
  {
  }

  /** Contained for a higher limit, contained for a lower one. */
  lemma ContainedBelow(fs: FileSystem, links: nat, more: nat, s: Path, t: Path)
    requires Contained(fs, links + more, s, t)
    ensures Contained(fs, links, s, t)
  {
    hide Walk;
    var w := Walk(fs, links, [], t);
    if !w.TooManyLinks? {
      MoreLinks(fs, links, [], t, more);
      if w.Missing? {
        var p := t[..|t| - |w.rest|];
        assert p + w.rest == t;
        WalkSplit(fs, links, [], p, w.rest);
        MoreLinks(fs, links, [], p, more);
      }
    }
  }

  /** The check is sound on every static file system and for every scope, whatever limit on
      links the kernel has: if it passes and the scope is there, by its own path or through
      links, walking the target through all its links leads below the node the scope leads to;
      and if the scope is missing, so is the target, from the same directory on. */
  lemma CheckIsSound(fs: FileSystem, links: nat, evalLinks: nat, s: Path, t: Path, anyLinks: nat)
    requires WellFormed(fs) && AllPlain(t) && s <= t
    requires NoSymlinkEscape(fs, links, evalLinks, s, t)
    ensures var v := Walk(fs, anyLinks, [], s);
            && (v.Found? ==> Contained(fs, anyLinks, v.at, t))
            && (v.Missing? ==> Walk(fs, anyLinks, [], t) == Missing(v.dir, v.rest + t[|s|..]))
  {
    hide Walk, WellFormed, NoSymlinkEscape, Contained;
    var v := Walk(fs, anyLinks, [], s);
    assert s + t[|s|..] == t;
    WalkSplit(fs, anyLinks, [], s, t[|s|..]);
    if v.Found? {
      var m := anyLinks + (links + evalLinks);
      MoreLinks(fs, anyLinks, [], s, links + evalLinks);
      RootIsDir(fs);
      WalkIsReal(fs, anyLinks, [], s);
      assert t[..|s|] == s;
      assert AllPlain(s);
      WalkSafely(fs, links, evalLinks, m, s, v.at, t, |s|);
      ContainedBelow(fs, anyLinks, links + evalLinks, v.at, t);
    }
  }

  /** Where the scope is, or will be once its missing directories are made: its own path, if
      no link and no file is on the way, and some other path or none otherwise. */
  function Place(fs: FileSystem, links: nat, s: Path): Option<Path>
  {
    var w := Walk(fs, links, [], s);
    if w.Found? then Some(w.at)
    else if OwnMissing(fs, links, s) then Some(w.dir + w.rest)
    else None
  }

  predicate Straight(fs: FileSystem, s: Path)
  {
    forall k :: 0 <= k <= |s| && s[..k] in fs ==> !fs[s[..k]].Link? && (k < |s| ==> fs[s[..k]].Dir?)
  }

  // ---- The write ------------------------------------------------------------

  function NewContent(was: bytes, append: bool, content: bytes): bytes
  {
    if append then was + content else content
  }

  /** The directories made and the file created for the missing names. */
  function Created(fs: FileSystem, dir: Path, rest: Path, content: bytes): FileSystem
    requires rest != []
    decreases |rest|
  {
    var next := dir + [rest[0]];
    if |rest| == 1 then fs[next := File(content)] else Created(fs[next := Dir], next, rest[1..], content)
  }

  /** Making the missing directories and writing the file. A target that is a directory, that
      cannot be walked, or whose walk ends in a dangling link is an error and leaves everything
      as it is. */
  function AfterWrite(fs: FileSystem, links: nat, t: Path, append: bool, content: bytes): FileSystem
  {
    var w := Walk(fs, links, [], t);
    if w.Found? then
      if w.at in fs && fs[w.at].File? then fs[w.at := File(NewContent(fs[w.at].content, append, content))] else fs
    else if OwnMissing(fs, links, t) then Created(fs, w.dir, w.rest, content)
    else fs
  }

  predicate Differs(fs: FileSystem, fs': FileSystem, p: Path)
  {
    (p in fs) != (p in fs') || (p in fs && p in fs' && fs[p] != fs'[p])
  }

  /** A node the write creates: one of the missing names, with a directory for all but the
      last. */
  predicate IsNew(fs: FileSystem, fs': FileSystem, dir: Path, rest: Path, p: Path)
  {
    && dir < p <= dir + rest && p !in fs && p in fs'
    && (p != dir + rest ==> fs'[p] == Dir)
  }

  lemma {:induction false} CreatedConfined(fs: FileSystem, dir: Path, rest: Path, content: bytes, p: Path)
    requires WellFormed(fs) && IsDir(fs, dir) && rest != [] && AllPlain(rest) && dir + [rest[0]] !in fs
    requires Differs(fs, Created(fs, dir, rest, content), p)
    ensures IsNew(fs, Created(fs, dir, rest, content), dir, rest, p)
    decreases |rest|
  {
    hide WellFormed, Plain;
    var next := dir + [rest[0]];
    var fs' := Created(fs, dir, rest, content);
    if |rest| == 1 {
      assert dir + rest == next;
    } else {
      AddedNode(fs, dir, rest[0], Dir);
      NoGrandchild(fs, dir, rest[0], rest[1]);
      assert next + [rest[1]] != next;
      assert next + rest[1..] == dir + rest;
      if p == next {
        CreatedIsWellFormed(fs[next := Dir], next, rest[1..], content);
      } else {
        CreatedConfined(fs[next := Dir], next, rest[1..], content, p);
      }
    }
  }

  /** What a write changes below a node the scope leads to. */
  lemma WriteBelow(fs: FileSystem, links: nat, r: Path, t: Path, append: bool, content: bytes, p: Path)
    requires WellFormed(fs) && AllPlain(t) && Contained(fs, links, r, t)
    requires Differs(fs, AfterWrite(fs, links, t, append, content), p)
    ensures r <= p
  {
    hide Walk, Created, WellFormed, AllPlain;
    var w := Walk(fs, links, [], t);
    if w.Missing? {
      MissingIsNew(fs, links, t, append, content, p);
    }
  }

  lemma MissingIsNew(fs: FileSystem, links: nat, t: Path, append: bool, content: bytes, p: Path)
    requires WellFormed(fs) && AllPlain(t) && Walk(fs, links, [], t).Missing?
    requires Differs(fs, AfterWrite(fs, links, t, append, content), p)
    ensures OwnMissing(fs, links, t)
    ensures var w := Walk(fs, links, [], t);
            w.rest != [] && IsDir(fs, w.dir) && w.dir + [w.rest[0]] !in fs && w.dir + [w.rest[0]] <= p
            && IsNew(fs, AfterWrite(fs, links, t, append, content), w.dir, w.rest, p)
  {
    hide Walk, Created, WellFormed;
    var w := Walk(fs, links, [], t);
    RootIsDir(fs);
    WalkIsReal(fs, links, [], t);
    MissingIsAbsent(fs, links, [], t);
    CreatedConfined(fs, w.dir, w.rest, content, p);
  }

  // ---- Execute --------------------------------------------------------------

  predicate OnFiles(c: Authority.ScopeConstraint)
  {
    (c.entity == Provisioning.FILE || c.entity == FOLDER)
    && Provisioning.PATH_PREFIX in c.constraints && c.constraints[Provisioning.PATH_PREFIX] != []
  }

  const FOLDER: bytes := [70, 111, 108, 100, 101, 114] // "Folder"

  /** The first path prefix of the first constraint on files or folders that has one. */
  predicate IsPathPrefix(cs: seq<Authority.ScopeConstraint>, scope: bytes)
  {
    if exists i :: 0 <= i < |cs| && OnFiles(cs[i]) then
      exists i :: 0 <= i < |cs| && OnFiles(cs[i]) && (forall j :: 0 <= j < i ==> !OnFiles(cs[j]))
                  && scope == cs[i].constraints[Provisioning.PATH_PREFIX][0]
    else scope == []
  }

  method GetPathPrefix(cs: seq<Authority.ScopeConstraint>) returns (scope: bytes)
    ensures IsPathPrefix(cs, scope)
  {
    for i := 0 to |cs|
      invariant forall j :: 0 <= j < i ==> !OnFiles(cs[j])
    {
      if OnFiles(cs[i]) {
        return cs[i].constraints[Provisioning.PATH_PREFIX][0];
      }
    }
    return [];
  }

  datatype Decision =
    | PathRequired | AbsolutePath | DotDot | NoScope | OutsideScope | SymlinkEscape
    | Write(target: Path)

  function Decide(fs: FileSystem, links: nat, evalLinks: nat, scope: bytes, path: bytes): Decision
  {
    if path == [] then PathRequired
    else if path[0] == SLASH then AbsolutePath
    else if HasUp(path) then DotDot
    else if scope == [] then NoScope
    else
      var clean := Clean(Join(scope, path));
      if !TextUnder(Clean(scope), clean) then OutsideScope
      else
        JoinStays(scope, path);
        ComponentsOfRendered(Components(scope) + Components(path));
        if !NoSymlinkEscape(fs, links, evalLinks, Components(scope), Components(clean)) then SymlinkEscape
        else Write(Components(clean))
  }

  /** The file system after a write asked for under a scope. */
  function Executed(fs: FileSystem, links: nat, evalLinks: nat, scope: bytes, path: bytes, append: bool, content: bytes)
    : FileSystem
  {
    var d := Decide(fs, links, evalLinks, scope, path);
    if d.Write? then AfterWrite(fs, links, d.target, append, content) else fs
  }

  method Execute(fs: FileSystem, links: nat, evalLinks: nat, cs: seq<Authority.ScopeConstraint>, path: bytes,
                 append: bool, content: bytes) returns (d: Decision, scope: bytes, fs': FileSystem)
    ensures IsPathPrefix(cs, scope)
    ensures d == Decide(fs, links, evalLinks, scope, path)
    ensures fs' == Executed(fs, links, evalLinks, scope, path, append, content)
  {
    hide NoSymlinkEscape, HasUp, TextUnder, Clean, Join, Components, AfterWrite, IsPathPrefix;
    fs' := fs;
    scope := GetPathPrefix(cs);
    if path == [] {
      return PathRequired, scope, fs;
    }
    if path[0] == SLASH {
      return AbsolutePath, scope, fs;
    }
    var up := ContainsDotDot(path);
    if up {
      return DotDot, scope, fs;
    }
    if scope == [] {
      return NoScope, scope, fs;
    }
    var clean := Clean(Join(scope, path));
    if !TextUnder(Clean(scope), clean) {
      return OutsideScope, scope, fs;
    }
    TargetExtendsScope(scope, path);
    var ok := CheckNoSymlinkEscape(fs, links, evalLinks, Components(scope), Components(clean));
    if !ok {
      return SymlinkEscape, scope, fs;
    }
    d := Write(Components(clean));
    fs' := AfterWrite(fs, links, d.target, append, content);
  }

  lemma TargetExtendsScope(scope: bytes, path: bytes)
    requires !HasUp(path)
    ensures Components(Clean(Join(scope, path))) == Components(scope) + Components(path)
    ensures Components(scope) <= Components(Clean(Join(scope, path)))
    ensures AllPlain(Components(Clean(Join(scope, path))))
  {
    JoinStays(scope, path);
    hide Components, Render, AllPlain, HasUp;
    ComponentsArePlain(Join(scope, path));
    ComponentsOfRendered(Components(Join(scope, path)));
  }

  lemma ComponentsArePlain(s: bytes)
    ensures AllPlain(Components(s))
  {
  }

  /** The containment check on texts never refuses a path that gets to it, except under the
      root: there it refuses every path that names anything. */
  lemma OutsideIff(fs: FileSystem, links: nat, evalLinks: nat, scope: bytes, path: bytes)
    ensures Decide(fs, links, evalLinks, scope, path) == OutsideScope <==>
            && path != [] && path[0] != SLASH && !HasUp(path)
            && scope != [] && Components(scope) == [] && Components(path) != []
  {
    hide NoSymlinkEscape, Components, Render, HasUp;
    if !HasUp(path) {
      TargetExtendsScope(scope, path);
      ComponentsArePlain(scope);
      ComponentsArePlain(Join(scope, path));
      ComponentsOfRendered(Components(Join(scope, path)));
      UnderIff(Components(scope), Components(Clean(Join(scope, path))));
    }
  }

  /** The refusals, exactly. A write that is not refused goes to the scope's components followed
      by the path's. */
  lemma DecidedIff(fs: FileSystem, links: nat, evalLinks: nat, scope: bytes, path: bytes)
    ensures var d := Decide(fs, links, evalLinks, scope, path);
            var s, t := Components(scope), Components(scope) + Components(path);
            var relative := path != [] && path[0] != SLASH && !HasUp(path);
            && (d == PathRequired <==> path == [])
            && (d == AbsolutePath <==> path != [] && path[0] == SLASH)
            && (d == DotDot <==> path != [] && path[0] != SLASH && HasUp(path))
            && (d == NoScope <==> relative && scope == [])
            && (d == SymlinkEscape <==>
                  && relative && scope != [] && (s == [] ==> t == [])
                  && !NoSymlinkEscape(fs, links, evalLinks, s, t))
            && (d.Write? ==> d == Write(t))
  {
    hide NoSymlinkEscape, Components, Render, HasUp;
    OutsideIff(fs, links, evalLinks, scope, path);
    if !HasUp(path) { TargetExtendsScope(scope, path); }
  }

  /** What a write made in the scope's place changes: nodes in that place, and the missing
      directories on the way to it. */
  predicate InPlaceOf(fs: FileSystem, fs': FileSystem, place: Path, p: Path)
  {
    place <= p || (p <= place && p !in fs && p in fs' && fs'[p] == Dir)
  }

  /** Whatever path an agent asks for, and whatever the scope is, a real directory, one that is
      not there yet or one behind links: a write changes nothing but the scope's place. */
  lemma WriteStaysInPlace(fs: FileSystem, links: nat, evalLinks: nat, scope: bytes, path: bytes,
                          append: bool, content: bytes, p: Path)
    requires WellFormed(fs) && Decide(fs, links, evalLinks, scope, path).Write?
    requires Differs(fs, AfterWrite(fs, links, Decide(fs, links, evalLinks, scope, path).target, append, content), p)
    ensures var fs' := AfterWrite(fs, links, Decide(fs, links, evalLinks, scope, path).target, append, content);
            var place := Place(fs, links, Components(scope));
            place.Some? && InPlaceOf(fs, fs', place.value, p)
  {
    hide NoSymlinkEscape, Components, Clean, Join, HasUp, TextUnder, AfterWrite, Differs, Contained, WellFormed, Walk;
    var s, t := Components(scope), Decide(fs, links, evalLinks, scope, path).target;
    TargetExtendsScope(scope, path);
    var w := Walk(fs, links, [], s);
    if w.Found? {
      CheckIsSound(fs, links, evalLinks, s, t, links);
      WriteBelow(fs, links, w.at, t, append, content, p);
    } else {
      assert s + t[|s|..] == t;
      WalkSplit(fs, links, [], s, t[|s|..]);
      if w.Missing? {
        MissingIsNew(fs, links, t, append, content, p);
        AbsentScope(fs, links, s, t);
        NewInPlace(fs, AfterWrite(fs, links, t, append, content), w.dir, w.rest, t[|s|..], p);
      } else {
        NothingWritten(fs, links, t, append, content, p);
      }
    }
  }

  lemma NothingWritten(fs: FileSystem, links: nat, t: Path, append: bool, content: bytes, p: Path)
    requires var w := Walk(fs, links, [], t); !w.Found? && !w.Missing?
    ensures !Differs(fs, AfterWrite(fs, links, t, append, content), p)
  {
    hide Walk;
  }

  /** A target's own missing component is the scope's when the scope itself is missing. */
  lemma AbsentScope(fs: FileSystem, links: nat, s: Path, t: Path)
    requires s <= t && OwnMissing(fs, links, t) && Walk(fs, links, [], s).Missing?
    ensures var w := Walk(fs, links, [], s);
            OwnMissing(fs, links, s) && Walk(fs, links, [], t) == Missing(w.dir, w.rest + t[|s|..])
  {
    hide Walk;
    assert s + t[|s|..] == t;
    WalkSplit(fs, links, [], s, t[|s|..]);
    var w := Walk(fs, links, [], s);
    var k := |t| - |w.rest + t[|s|..]|;
    assert k == |s| - |w.rest|;
    assert t[..k] == s[..k];
    assert t[k..] == s[k..] + t[|s|..];
    assert (w.rest + t[|s|..])[..|w.rest|] == w.rest && t[k..][..|w.rest|] == s[k..];
    MissingRest(fs, links, [], s);
  }

  lemma {:induction false} MissingRest(fs: FileSystem, links: nat, cur: Path, todo: Path)
    requires Walk(fs, links, cur, todo).Missing?
    ensures Walk(fs, links, cur, todo).rest != []
  {
    MissingIsAbsent(fs, links, cur, todo);
  }

  lemma NewInPlace(fs: FileSystem, fs': FileSystem, dir: Path, rest: Path, more: Path, p: Path)
    requires IsNew(fs, fs', dir, rest + more, p)
    ensures InPlaceOf(fs, fs', dir + rest, p)
  {
    var place := dir + rest;
    assert dir + (rest + more) == place + more;
    if |p| < |place| {
      assert p == (place + more)[..|p|] == place[..|p|];
    } else if |p| == |place| {
      assert p == (place + more)[..|p|] == place;
    } else {
      assert p[..|place|] == (place + more)[..|p|][..|place|] == place;
    }
  }

  // ---- When the place is the scope ------------------------------------------

  lemma StraightPrefix(fs: FileSystem, s: Path, k: nat)
    requires Straight(fs, s) && k <= |s|
    ensures Straight(fs, s[..k])
  {
    forall j | 0 <= j <= k && s[..k][..j] in fs
      ensures s[..j] in fs && !fs[s[..j]].Link? && (j < k ==> fs[s[..j]].Dir?)
    {
      assert s[..k][..j] == s[..j];
    }
    assert forall j :: 0 <= j <= k ==> s[..k][..j] == s[..j];
  }

  /** Along a straight path the walk ends at the path itself, or at its first missing name. */
  lemma {:induction false} StraightWalk(fs: FileSystem, links: nat, s: Path)
    requires WellFormed(fs) && AllPlain(s) && Straight(fs, s)
    ensures if s in fs then Walk(fs, links, [], s) == Found(s, links)
            else OwnMissing(fs, links, s) && Walk(fs, links, [], s).dir + Walk(fs, links, [], s).rest == s
  {
    hide Walk, WellFormed;
    RootIsDir(fs);
    assert s[..|s|] == s;
    if s in fs {
      OnRealPath(fs, links, s, s);
    } else {
      var n := |s| - 1;
      StraightPrefix(fs, s, n);
      StraightWalk(fs, links, s[..n]);
      assert s[..n] + [s[n]] == s;
      WalkSplit(fs, links, [], s[..n], [s[n]]);
      if s[..n] in fs {
        assert fs[s[..n]].Dir?;
        MissingHere(fs, links, s[..n], [s[n]]);
        assert [s[n]] == s[n..];
      } else {
        var v := Walk(fs, links, [], s[..n]);
        var k := n - |v.rest|;
        assert s[..n][..k] == s[..k];
        assert s[..n][k..] + [s[n]] == s[k..];
        assert v.dir + (v.rest + [s[n]]) == (v.dir + v.rest) + [s[n]];
      }
    }
  }

  lemma BelowAbsent(fs: FileSystem, a: Path, q: Path)
    requires WellFormed(fs) && a !in fs && a <= q
    ensures q !in fs
  {
    hide WellFormed;
    if q in fs && a != q { AncestorIsDir(fs, q, a); }
  }

  /** A path next to which a new node was made is straight. */
  lemma StraightBeside(fs: FileSystem, dir: Path, c: bytes, s: Path)
    requires WellFormed(fs) && IsDir(fs, dir) && dir + [c] !in fs && (s <= dir || dir + [c] <= s)
    ensures Straight(fs, s)
  {
    hide WellFormed;
    forall k | |dir| < k <= |s|
      ensures s[..k] !in fs
    {
      assert s[..k][..|dir| + 1] == s[..|dir| + 1] == dir + [c];
      BelowAbsent(fs, dir + [c], s[..k]);
    }
    forall k | 0 <= k <= |s| && k <= |dir|
      ensures IsDir(fs, s[..k])
    {
      assert s[..k] == dir[..k] by {
        if s <= dir { assert dir[..|s|][..k] == dir[..k]; } else { assert s[..|dir| + 1][..k] == dir[..k]; }
      }
      if k < |dir| { AncestorIsDir(fs, dir, dir[..k]); } else { assert dir[..k] == dir; }
    }
  }

  /** A path that leads to a real node, or lies on its real path, is straight. */
  lemma StraightAbove(fs: FileSystem, p: Path, s: Path)
    requires WellFormed(fs) && p in fs && !fs[p].Link? && s <= p
    ensures Straight(fs, s)
  {
    hide WellFormed;
    forall k | 0 <= k <= |s| && s[..k] in fs
      ensures !fs[s[..k]].Link? && (k < |s| ==> fs[s[..k]].Dir?)
    {
      assert s[..k] == p[..k];
      if k < |p| { AncestorIsDir(fs, p, p[..k]); } else { assert p[..k] == p; }
    }
  }

  /** Exactly when no link and no file is on the way to the scope, the writes it allows stay
      in the scope itself, but for the missing directories on the way to it. */
  lemma WriteInScopeIff(fs: FileSystem, links: nat, evalLinks: nat, scope: bytes, path: bytes,
                        append: bool, content: bytes, p: Path)
    requires WellFormed(fs) && Decide(fs, links, evalLinks, scope, path).Write?
    requires Differs(fs, AfterWrite(fs, links, Decide(fs, links, evalLinks, scope, path).target, append, content), p)
    ensures var fs' := AfterWrite(fs, links, Decide(fs, links, evalLinks, scope, path).target, append, content);
            InPlaceOf(fs, fs', Components(scope), p) <==> Straight(fs, Components(scope))
  {
    hide NoSymlinkEscape, Components, Clean, Join, HasUp, TextUnder, AfterWrite, Differs, WellFormed, Walk, Straight;
    var s, t := Components(scope), Decide(fs, links, evalLinks, scope, path).target;
    TargetExtendsScope(scope, path);
    ComponentsArePlain(scope);
    if Straight(fs, s) {
      WriteStaysInPlace(fs, links, evalLinks, scope, path, append, content, p);
      StraightWalk(fs, links, s);
    } else {
      var fs' := AfterWrite(fs, links, t, append, content);
      if InPlaceOf(fs, fs', s, p) {
        ChangedIsBeside(fs, links, t, append, content, p, s);
      }
    }
  }

  lemma ChangedIsBeside(fs: FileSystem, links: nat, t: Path, append: bool, content: bytes, p: Path, s: Path)
    requires WellFormed(fs) && AllPlain(t) && InPlaceOf(fs, AfterWrite(fs, links, t, append, content), s, p)
    requires Differs(fs, AfterWrite(fs, links, t, append, content), p)
    ensures Straight(fs, s)
  {
    hide Walk, Straight, WellFormed, Created;
    var w := Walk(fs, links, [], t);
    if w.Found? {
      assert p == w.at && fs[p].File?;
      StraightAbove(fs, p, s);
    } else {
      assert w.Missing?;
      MissingIsNew(fs, links, t, append, content, p);
      var next := w.dir + [w.rest[0]];
      if s <= p && |s| <= |w.dir| {
        assert p[..|s|] == next[..|s|] == w.dir[..|s|];
      } else if s <= p {
        assert p[..|s|][..|next|] == p[..|next|];
      } else {
        assert s[..|p|][..|next|] == s[..|next|];
      }
      StraightBeside(fs, w.dir, w.rest[0], s);
    }
  }

  /** A scope that is a link into another directory: the check passes for a file below it, and
      the write lands in that directory. */
  lemma LinkedScope(content: bytes)
    ensures var fs: FileSystem := map[[] := Dir, [[111]] := Link(true, [[101]]), [[101]] := Dir];
            var s, t: Path := [[111]], [[111], [102]];
            && NoSymlinkEscape(fs, 40, 255, s, t) && !Straight(fs, s)
            && Differs(fs, AfterWrite(fs, 40, t, false, content), [[101], [102]]) && !(s <= [[101], [102]])
  {
    var fs: FileSystem := map[[] := Dir, [[111]] := Link(true, [[101]]), [[101]] := Dir];
    var o, e, f: bytes := [111], [101], [102];
    var s, t: Path := [o], [o, f];
    assert s[..1] == [o];
    var root: Path := [];
    assert s[1..] == root && [e] + root == [e];
    assert root + [o] == s && root + [e] == [e];
    OneStep(fs, 39, root, e);
    assert Walk(fs, 40, root, s) == Walk(fs, 39, root, [e] + root);
    WalkSplit(fs, 40, [], [o], [f]);
    assert [o] + [f] == t;
    assert [e] + [f] == [e, f];
    MissingHere(fs, 39, [e], [f]);
    assert Walk(fs, 40, [], t) == Missing([e], [f]);
    hide Walk;
    assert t[..1] == [o] && t[1..] == [f];
    assert OwnMissing(fs, 40, t);
    assert Parent(t) == [o];
    assert Lstat(fs, 40, t).Absent?;
    assert t[..2] == t;
    assert forall j :: Inspected(fs, 40, s, t, j) ==> j == 2;
    assert ([e, f])[..1] == [e];
  }

  // ---- The write can be read back -------------------------------------------

  /** The same directories and links, and files that differ in content at most. */
  ghost predicate SameShape(fs: FileSystem, fs': FileSystem)
  {
    fs.Keys == fs'.Keys && forall p :: p in fs ==> fs[p] == fs'[p] || (fs[p].File? && fs'[p].File?)
  }

  lemma {:induction false} WalkBySame(fs: FileSystem, fs': FileSystem, links: nat, cur: Path, todo: Path)
    requires SameShape(fs, fs')
    ensures Walk(fs', links, cur, todo) == Walk(fs, links, cur, todo)
    decreases links, |todo|
  {
    if todo != [] && IsDir(fs, cur) {
      var c, rest := todo[0], todo[1..];
      if c == [] || c == HERE {
        WalkBySame(fs, fs', links, cur, rest);
      } else if c == UP {
        WalkBySame(fs, fs', links, Parent(cur), rest);
      } else if cur + [c] in fs {
        match fs[cur + [c]]
        case Link(absolute, target) =>
          if links > 0 { WalkBySame(fs, fs', links - 1, if absolute then [] else cur, target + rest); }
        case Dir => WalkBySame(fs, fs', links, cur + [c], rest);
        case File(_) => WalkBySame(fs, fs', links, cur + [c], rest);
      }
    }
  }

  ghost predicate Extends(fs: FileSystem, fs': FileSystem)
  {
    forall p :: p in fs ==> p in fs' && fs'[p] == fs[p]
  }

  lemma {:induction false} WalkByMore(fs: FileSystem, fs': FileSystem, links: nat, cur: Path, todo: Path)
    requires Extends(fs, fs') && Walk(fs, links, cur, todo).Found?
    ensures Walk(fs', links, cur, todo) == Walk(fs, links, cur, todo)
    decreases links, |todo|
  {
    if todo != [] {
      var c, rest := todo[0], todo[1..];
      if c == [] || c == HERE {
        WalkByMore(fs, fs', links, cur, rest);
      } else if c == UP {
        WalkByMore(fs, fs', links, Parent(cur), rest);
      } else {
        match fs[cur + [c]]
        case Link(absolute, target) => WalkByMore(fs, fs', links - 1, if absolute then [] else cur, target + rest);
        case Dir => WalkByMore(fs, fs', links, cur + [c], rest);
        case File(_) => WalkByMore(fs, fs', links, cur + [c], rest);
      }
    }
  }

  lemma {:induction false} MissingIsAbsent(fs: FileSystem, links: nat, cur: Path, todo: Path)
    requires Walk(fs, links, cur, todo).Missing?
    ensures var w := Walk(fs, links, cur, todo); w.rest != [] && w.dir + [w.rest[0]] !in fs
    decreases links, |todo|
  {
    var c, rest := todo[0], todo[1..];
    if c == [] || c == HERE {
      MissingIsAbsent(fs, links, cur, rest);
    } else if c == UP {
      MissingIsAbsent(fs, links, Parent(cur), rest);
    } else if cur + [c] in fs {
      match fs[cur + [c]]
      case Link(absolute, target) => MissingIsAbsent(fs, links - 1, if absolute then [] else cur, target + rest);
      case Dir => MissingIsAbsent(fs, links, cur + [c], rest);
      case File(_) => MissingIsAbsent(fs, links, cur + [c], rest);
    }
  }

  /** A node added to a directory. */
  lemma AddedNode(fs: FileSystem, dir: Path, c: bytes, node: Node)
    requires WellFormed(fs) && IsDir(fs, dir) && Plain(c) && dir + [c] !in fs
    ensures WellFormed(fs[dir + [c] := node]) && Extends(fs, fs[dir + [c] := node])
  {
    hide Plain;
    var next := dir + [c];
    assert Parent(next) == dir;
    assert InPlace(fs, dir);
    var fs' := fs[next := node];
    forall p | p in fs'
      ensures InPlace(fs', p)
    {
      if p != next { assert InPlace(fs, p); }
    }
  }

  lemma NoGrandchild(fs: FileSystem, dir: Path, c: bytes, d: bytes)
    requires WellFormed(fs) && dir + [c] !in fs
    ensures dir + [c] + [d] !in fs
  {
    assert Parent(dir + [c] + [d]) == dir + [c];
    hide Parent;
    if dir + [c] + [d] in fs { ParentIsDir(fs, dir + [c] + [d]); }
  }

  lemma {:induction false} CreatedIsWellFormed(fs: FileSystem, dir: Path, rest: Path, content: bytes)
    requires WellFormed(fs) && IsDir(fs, dir) && rest != [] && AllPlain(rest) && dir + [rest[0]] !in fs
    ensures var fs' := Created(fs, dir, rest, content);
            WellFormed(fs') && Extends(fs, fs') && dir + rest in fs' && fs'[dir + rest] == File(content)
    decreases |rest|
  {
    hide WellFormed, Plain;
    var next := dir + [rest[0]];
    AddedNode(fs, dir, rest[0], if |rest| == 1 then File(content) else Dir);
    if |rest| == 1 {
      assert rest == [rest[0]];
    } else {
      NoGrandchild(fs, dir, rest[0], rest[1]);
      assert next + [rest[1]] != next;
      CreatedIsWellFormed(fs[next := Dir], next, rest[1..], content);
      assert next + rest[1..] == dir + rest;
    }
  }

  /** What reading the path gives. */
  function ContentOf(fs: FileSystem, links: nat, t: Path): Option<bytes>
  {
    var w := Walk(fs, links, [], t);
    if w.Found? && w.at in fs && fs[w.at].File? then Some(fs[w.at].content) else None
  }

  /** The path leads to a file, or to a name of its own that is not there. */
  predicate Writable(fs: FileSystem, links: nat, t: Path)
  {
    OwnMissing(fs, links, t) || ContentOf(fs, links, t).Some?
  }

  /** What was written is read back under the target's own path: behind the old content if the
      write appends to a file that is there, and alone otherwise. The file system stays in
      order. */
  lemma WrittenIsRead(fs: FileSystem, links: nat, t: Path, append: bool, content: bytes)
    requires WellFormed(fs) && AllPlain(t) && Writable(fs, links, t)
    ensures var was := ContentOf(fs, links, t);
            var fs' := AfterWrite(fs, links, t, append, content);
            && WellFormed(fs')
            && (append && was.Some? ==> ContentOf(fs', links, t) == Some(was.value + content))
            && (!append || was == None ==> ContentOf(fs', links, t) == Some(content))
  {
    hide Walk, WellFormed, Created;
    var w := Walk(fs, links, [], t);
    if w.Found? {
      Overwritten(fs, w.at, NewContent(fs[w.at].content, append, content));
      WalkBySame(fs, AfterWrite(fs, links, t, append, content), links, [], t);
    } else {
      CreatedAtTarget(fs, links, t, content);
    }
  }

  /** The missing names are made where the walk broke off. */
  lemma CreatedAtTarget(fs: FileSystem, links: nat, t: Path, content: bytes)
    requires WellFormed(fs) && AllPlain(t) && OwnMissing(fs, links, t)
    ensures var w := Walk(fs, links, [], t);
            && w.rest != []
            && var fs' := Created(fs, w.dir, w.rest, content);
               && WellFormed(fs') && Extends(fs, fs') && ContentOf(fs', links, t) == Some(content)
               && w.dir + w.rest in fs' && fs'[w.dir + w.rest].File? && IsDir(fs', w.dir)
  {
    hide Walk, WellFormed, Created;
    var w := Walk(fs, links, [], t);
    RootIsDir(fs);
    WalkIsReal(fs, links, [], t);
    MissingIsAbsent(fs, links, [], t);
    CreatedIsWellFormed(fs, w.dir, w.rest, content);
    CreatedIsRead(fs, Created(fs, w.dir, w.rest, content), links, t[..|t| - |w.rest|], w.dir, w.rest);
    assert t[..|t| - |w.rest|] + w.rest == t;
  }

  lemma Overwritten(fs: FileSystem, at: Path, content: bytes)
    requires WellFormed(fs) && at in fs && fs[at].File?
    ensures var fs' := fs[at := File(content)]; WellFormed(fs') && SameShape(fs, fs')
  {
    hide AllPlain;
    var fs' := fs[at := File(content)];
    forall p | p in fs'
      ensures InPlace(fs', p)
    {
      assert InPlace(fs, p);
    }
  }

  lemma CreatedIsRead(fs: FileSystem, fs': FileSystem, links: nat, p: Path, dir: Path, rest: Path)
    requires WellFormed(fs') && Extends(fs, fs') && dir + rest in fs' && fs'[dir + rest].File? && IsDir(fs', dir)
    requires Walk(fs, links, [], p).Found? && Walk(fs, links, [], p).at == dir
    ensures var w := Walk(fs', links, [], p + rest); w.Found? && w.at == dir + rest
  {
    hide Walk, WellFormed, Extends;
    WalkByMore(fs, fs', links, [], p);
    var left := Walk(fs, links, [], p).left;
    WalkSplit(fs', links, [], p, rest);
    RealPath(fs', left, dir);
    WalkSplit(fs', left, [], dir, rest);
    RealFile(fs', left, dir + rest);
  }

  // ---- One write after another ----------------------------------------------

  lemma LstatBySame(fs: FileSystem, fs': FileSystem, links: nat, p: Path)
    requires SameShape(fs, fs')
    ensures var st, st' := Lstat(fs, links, p), Lstat(fs', links, p);
            st'.Present? == st.Present? && st'.Absent? == st.Absent?
            && (st.Present? ==> st'.node == st.node || (st.node.File? && st'.node.File?))
  {
    hide Walk;
    if p != [] { WalkBySame(fs, fs', links, [], Parent(p)); }
  }

  lemma InOrderBySame(fs: FileSystem, fs': FileSystem, links: nat, evalLinks: nat, s: Path, p: Path)
    requires SameShape(fs, fs')
    ensures InOrder(fs', links, evalLinks, s, p) == InOrder(fs, links, evalLinks, s, p)
  {
    hide Walk, Lstat, Render, TextUnder, SameShape;
    LstatBySame(fs, fs', links, p);
    WalkBySame(fs, fs', evalLinks, [], p);
  }

  lemma CheckBySame(fs: FileSystem, fs': FileSystem, links: nat, evalLinks: nat, s: Path, t: Path)
    requires SameShape(fs, fs') && |s| <= |t|
    ensures NoSymlinkEscape(fs, links, evalLinks, s, t) ==> NoSymlinkEscape(fs', links, evalLinks, s, t)
  {
    hide Walk, Lstat, InOrder, SameShape;
    forall k | 0 <= k <= |t|
      ensures AbsentAt(fs', links, t, k) == AbsentAt(fs, links, t, k)
      ensures InOrder(fs', links, evalLinks, s, t[..k]) == InOrder(fs, links, evalLinks, s, t[..k])
    {
      LstatBySame(fs, fs', links, t[..k]);
      InOrderBySame(fs, fs', links, evalLinks, s, t[..k]);
    }
    assert forall j :: 0 <= j <= |t| && Inspected(fs', links, s, t, j) ==> Inspected(fs, links, s, t, j);
  }

  /** What was there before is looked at as before. */
  lemma LstatByMore(fs: FileSystem, fs': FileSystem, links: nat, p: Path)
    requires Extends(fs, fs') && Lstat(fs, links, p).Present?
    ensures Lstat(fs', links, p) == Lstat(fs, links, p)
  {
    hide Walk;
    if p != [] { WalkByMore(fs, fs', links, [], Parent(p)); }
  }

  lemma InOrderByMore(fs: FileSystem, fs': FileSystem, links: nat, evalLinks: nat, s: Path, p: Path)
    requires Extends(fs, fs') && Lstat(fs, links, p).Present? && InOrder(fs, links, evalLinks, s, p)
    ensures InOrder(fs', links, evalLinks, s, p)
  {
    hide Walk, Lstat, Render, TextUnder, Extends;
    LstatByMore(fs, fs', links, p);
    if Lstat(fs, links, p).node.Link? { WalkByMore(fs, fs', evalLinks, [], p); }
  }

  /** A walk that goes through finds each of the names it goes through. */
  lemma FoundIsPresent(fs: FileSystem, links: nat, p: Path)
    requires WellFormed(fs) && AllPlain(p) && Walk(fs, links, [], p).Found?
    ensures Lstat(fs, links, p).Present?
  {
    hide Walk, WellFormed;
    RootIsDir(fs);
    if p != [] {
      var n := |p| - 1;
      assert p[..n] + [p[n]] == p;
      WalkSplit(fs, links, [], p[..n], [p[n]]);
      var v := Walk(fs, links, [], p[..n]);
      StepThrough(fs, v.left, v.at, p[n]);
    }
  }

  lemma StepThrough(fs: FileSystem, links: nat, cur: Path, c: bytes)
    requires Plain(c) && Walk(fs, links, cur, [c]).Found?
    ensures IsDir(fs, cur) && cur + [c] in fs
  {
  }

  lemma FoundBefore(fs: FileSystem, links: nat, p: Path, j: nat)
    requires j <= |p| && Walk(fs, links, [], p).Found?
    ensures Walk(fs, links, [], p[..j]).Found?
  {
    hide Walk;
    assert p[..j] + p[j..] == p;
    WalkSplit(fs, links, [], p[..j], p[j..]);
  }

  /** Behind the place where the walk broke off, the made names are no links. */
  lemma MadeIsInOrder(fs: FileSystem, links: nat, evalLinks: nat, s: Path, p: Path, dir: Path, more: Path)
    requires WellFormed(fs) && Walk(fs, links, [], p).Found? && Walk(fs, links, [], p).at == dir && more != []
    requires dir + more in fs && !fs[dir + more].Link?
    ensures InOrder(fs, links, evalLinks, s, p + more)
  {
    hide Walk, WellFormed, Render, TextUnder;
    var n := |more| - 1;
    var left := Walk(fs, links, [], p).left;
    assert Parent(p + more) == p + more[..n] && Parent(dir + more) == dir + more[..n];
    WalkSplit(fs, links, [], p, more[..n]);
    ParentIsDir(fs, dir + more);
    RealPath(fs, left, dir + more[..n]);
    AncestorIsDir(fs, dir + more, dir);
    RealPath(fs, left, dir);
    WalkSplit(fs, left, [], dir, more[..n]);
    assert dir + more[..n] + [more[n]] == dir + more;
  }

  lemma CheckAfterCreation(fs: FileSystem, links: nat, evalLinks: nat, s: Path, t: Path, content: bytes)
    requires WellFormed(fs) && AllPlain(t) && s <= t && OwnMissing(fs, links, t)
    requires NoSymlinkEscape(fs, links, evalLinks, s, t)
    ensures var w := Walk(fs, links, [], t);
            NoSymlinkEscape(Created(fs, w.dir, w.rest, content), links, evalLinks, s, t)
  {
    hide Walk, WellFormed, Created, InOrder, Lstat, Extends, ContentOf;
    var w := Walk(fs, links, [], t);
    var fs' := Created(fs, w.dir, w.rest, content);
    CreatedAtTarget(fs, links, t, content);
    var k := |t| - |w.rest|;
    WalkByMore(fs, fs', links, [], t[..k]);
    forall j | 0 <= j <= |t| && Inspected(fs', links, s, t, j)
      ensures InOrder(fs', links, evalLinks, s, t[..j])
    {
      if k < j {
        var more := w.rest[..j - k];
        assert t[..j] == t[..k] + more;
        MadeIsNoLink(fs', w.dir, w.rest, j - k);
        MadeIsInOrder(fs', links, evalLinks, s, t[..k], w.dir, more);
      } else {
        PresentUpTo(fs, links, t, k);
        assert Inspected(fs, links, s, t, j);
        InOrderByMore(fs, fs', links, evalLinks, s, t[..j]);
      }
    }
  }

  lemma PresentUpTo(fs: FileSystem, links: nat, t: Path, k: nat)
    requires WellFormed(fs) && AllPlain(t) && k <= |t| && Walk(fs, links, [], t[..k]).Found?
    ensures forall j :: 0 <= j <= k ==> Lstat(fs, links, t[..j]).Present?
  {
    hide Walk, WellFormed, Lstat;
    forall j | 0 <= j <= k
      ensures Lstat(fs, links, t[..j]).Present?
    {
      assert t[..k][..j] == t[..j];
      FoundBefore(fs, links, t[..k], j);
      FoundIsPresent(fs, links, t[..j]);
    }
  }

  lemma MadeIsNoLink(fs: FileSystem, dir: Path, rest: Path, i: nat)
    requires WellFormed(fs) && dir + rest in fs && fs[dir + rest].File? && 0 < i <= |rest|
    ensures dir + rest[..i] in fs && !fs[dir + rest[..i]].Link?
  {
    hide WellFormed;
    if i < |rest| {
      assert dir + rest[..i] < dir + rest;
      AncestorIsDir(fs, dir + rest, dir + rest[..i]);
    } else {
      assert rest[..i] == rest;
    }
  }

  /** A write that was allowed is allowed again, and leads to the same place. */
  lemma AllowedAgain(fs: FileSystem, links: nat, evalLinks: nat, scope: bytes, path: bytes, append: bool,
                     content: bytes)
    requires WellFormed(fs) && Decide(fs, links, evalLinks, scope, path).Write?
    requires Writable(fs, links, Decide(fs, links, evalLinks, scope, path).target)
    ensures var fs' := Executed(fs, links, evalLinks, scope, path, append, content);
            Decide(fs', links, evalLinks, scope, path) == Decide(fs, links, evalLinks, scope, path)
  {
    hide NoSymlinkEscape, Components, Clean, Join, HasUp, TextUnder, WellFormed, Walk, Created, SameShape;
    var s, t := Components(scope), Decide(fs, links, evalLinks, scope, path).target;
    TargetExtendsScope(scope, path);
    var w := Walk(fs, links, [], t);
    if w.Found? {
      Overwritten(fs, w.at, NewContent(fs[w.at].content, append, content));
      CheckBySame(fs, AfterWrite(fs, links, t, append, content), links, evalLinks, s, t);
    } else {
      CheckAfterCreation(fs, links, evalLinks, s, t, content);
    }
  }

  /** Two writes to one path: the second one is allowed if the first one was, an append leaves
      both contents one behind the other, and an overwrite its own alone. */
  lemma WriteAfterWrite(fs: FileSystem, links: nat, evalLinks: nat, scope: bytes, path: bytes,
                        append: bool, content: bytes, append': bool, content': bytes)
    requires WellFormed(fs) && Decide(fs, links, evalLinks, scope, path).Write?
    requires Writable(fs, links, Decide(fs, links, evalLinks, scope, path).target)
    ensures var t := Decide(fs, links, evalLinks, scope, path).target;
            var one := Executed(fs, links, evalLinks, scope, path, append, content);
            var two := Executed(one, links, evalLinks, scope, path, append', content');
            var was, first := ContentOf(fs, links, t), ContentOf(one, links, t);
            && t == Components(scope) + Components(path)
            && first == Some(if append && was.Some? then was.value + content else content)
            && ContentOf(two, links, t) == Some(if append' then first.value + content' else content')
  {
    hide NoSymlinkEscape, Components, Clean, Join, HasUp, TextUnder, WellFormed, Walk, AfterWrite, ContentOf;
    var t := Decide(fs, links, evalLinks, scope, path).target;
    var one := Executed(fs, links, evalLinks, scope, path, append, content);
    TargetExtendsScope(scope, path);
    AllowedAgain(fs, links, evalLinks, scope, path, append, content);
    WrittenIsRead(fs, links, t, append, content);
    WrittenIsRead(one, links, t, append', content');
  }

  // ---- What is not refused --------------------------------------------------

  lemma LstatStraight(fs: FileSystem, links: nat, t: Path, j: nat)
    requires WellFormed(fs) && AllPlain(t) && Straight(fs, t) && j <= |t|
    ensures Lstat(fs, links, t[..j]) == if t[..j] in fs then Present(fs[t[..j]]) else Absent
  {
    hide Walk, WellFormed;
    RootIsDir(fs);
    if j > 0 {
      assert t[..j][..j - 1] == t[..j - 1];
      StraightPrefix(fs, t, j - 1);
      StraightWalk(fs, links, t[..j - 1]);
      assert t[..j - 1] + [t[j - 1]] == t[..j];
      if t[..j - 1] !in fs { BelowAbsent(fs, t[..j - 1], t[..j]); }
    }
  }

  /** A relative path without ".." below a scope other than the root is written, if no link and
      no file is on the way to it and it is no directory: every missing directory is made. */
  lemma StraightIsWritten(fs: FileSystem, links: nat, evalLinks: nat, scope: bytes, path: bytes,
                          append: bool, content: bytes)
    requires WellFormed(fs) && path != [] && path[0] != SLASH && !HasUp(path) && Components(scope) != []
    requires var t := Components(scope) + Components(path); Straight(fs, t) && (t in fs ==> fs[t].File?)
    ensures var t := Components(scope) + Components(path);
            var fs' := Executed(fs, links, evalLinks, scope, path, append, content);
            && Decide(fs, links, evalLinks, scope, path) == Write(t)
            && t in fs' && fs'[t] == File(if append && t in fs then fs[t].content + content else content)
  {
    hide NoSymlinkEscape, Components, Clean, Join, HasUp, WellFormed, Walk, Straight, Executed, TextUnder;
    var s, t := Components(scope), Components(scope) + Components(path);
    TargetExtendsScope(scope, path);
    NotOutside(fs, links, evalLinks, scope, path);
    StraightPasses(fs, links, evalLinks, s, t);
    StraightTarget(fs, links, evalLinks, scope, path, append, content, t);
  }

  lemma NotOutside(fs: FileSystem, links: nat, evalLinks: nat, scope: bytes, path: bytes)
    requires Components(scope) != [] && !HasUp(path)
    ensures scope != [] && TextUnder(Clean(scope), Clean(Join(scope, path)))
  {
    hide Components, Render, HasUp, TextUnder;
    TargetExtendsScope(scope, path);
    ComponentsArePlain(scope);
    ComponentsArePlain(Join(scope, path));
    ComponentsOfRendered(Components(Join(scope, path)));
    UnderIff(Components(scope), Components(Clean(Join(scope, path))));
    EmptyText();
  }

  lemma EmptyText()
    ensures Components([]) == []
  {
  }

  lemma StraightPasses(fs: FileSystem, links: nat, evalLinks: nat, s: Path, t: Path)
    requires WellFormed(fs) && AllPlain(t) && Straight(fs, t) && s <= t
    ensures NoSymlinkEscape(fs, links, evalLinks, s, t)
  {
    hide Lstat, Walk, WellFormed, Render, TextUnder;
    forall j | 0 <= j <= |t|
      ensures InOrder(fs, links, evalLinks, s, t[..j])
    {
      LstatStraight(fs, links, t, j);
    }
  }

  lemma StraightTarget(fs: FileSystem, links: nat, evalLinks: nat, scope: bytes, path: bytes, append: bool,
                       content: bytes, t: Path)
    requires WellFormed(fs) && AllPlain(t) && Straight(fs, t) && (t in fs ==> fs[t].File?)
    requires Decide(fs, links, evalLinks, scope, path) == Write(t)
    ensures var fs' := Executed(fs, links, evalLinks, scope, path, append, content);
            t in fs' && fs'[t] == File(if append && t in fs then fs[t].content + content else content)
  {
    hide Decide, WellFormed, Walk, Straight, Created;
    StraightWalk(fs, links, t);
    if t !in fs {
      var w := Walk(fs, links, [], t);
      RootIsDir(fs);
      WalkIsReal(fs, links, [], t);
      MissingIsAbsent(fs, links, [], t);
      CreatedIsWellFormed(fs, w.dir, w.rest, content);
    }
  }
}
