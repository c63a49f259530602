/** Paths: path_parse of fs/fs.c, and wash_path of shell/buildin_cmd.c, which rewrites a path
    without "." and "..".  A path is the bytes of a C string before its terminator. */
module Paths {
  import opened Bytes
  import opened Directory

  type Path = seq<byte>
  type Name = seq<byte>

  predicate NoSlash(n: Name) { SLASH !in n }

  predicate IsComponent(n: Name) { n != [] && NoSlash(n) }

  ghost predicate AllComponents(s: seq<Name>) { forall k :: 0 <= k < |s| ==> IsComponent(s[k]) }

  const UP: Name := [DOT, DOT]
  const HERE: Name := [DOT]

  predicate Ordinary(n: Name) { n != UP && n != HERE }

  ghost predicate AllOrdinary(s: seq<Name>) { forall k :: 0 <= k < |s| ==> Ordinary(s[k]) }

  // ---------------------------------------------------------------- path_parse

  function Skip(p: Path): (r: Path)
    ensures |r| <= |p| && (r == [] || r[0] != SLASH)
  {
    if p != [] && p[0] == SLASH then Skip(p[1..]) else p
  }

  function Head(p: Path): (r: Name)
    ensures |r| <= |p| && r == p[..|r|] && NoSlash(r) && (|r| < |p| ==> p[|r|] == SLASH)
  {
    if p == [] || p[0] == SLASH then [] else [p[0]] + Head(p[1..])
  }

  /** The next name, and what follows it: the empty path stands for NULL. */
  function Parse(p: Path): (r: (Name, Path))
    ensures NoSlash(r.0) && |r.1| <= |p| && (r.0 != [] ==> |r.1| < |p|)
    ensures r.1 == [] || r.1[0] == SLASH
  {
    var q := Skip(p);
    (Head(q), q[|Head(q)|..])
  }

  /** The names that a loop around path_parse sees, up to the first empty one. */
  function Components(p: Path): (r: seq<Name>)
    ensures AllComponents(r)
    decreases |p|
  {
    var (n, rest) := Parse(p);
    if n == [] then [] else [n] + Components(rest)
  }

  method SkipSlashes(p: Path) returns (i: nat)
    ensures i <= |p| && p[i..] == Skip(p)
  {
    i := 0;
    assert p[0..] == p;
    while i < |p| && p[i] == SLASH
      invariant i <= |p| && Skip(p[i..]) == Skip(p)
    {
      assert p[i..][1..] == p[i + 1..];
      i := i + 1;
    }
  }

  lemma HeadStep(p: Path, i: nat)
    requires i < |p| && p[i] != SLASH
    ensures Head(p[i..]) == [p[i]] + Head(p[i + 1..])
  {
    assert p[i..][1..] == p[i + 1..];
  }

  lemma NoHead(p: Path, i: nat)
    requires i <= |p| && (i == |p| || p[i] == SLASH)
    ensures Head(p[i..]) == []
  {
  }

  method TakeName(p: Path, start: nat) returns (name: Name)
    requires start <= |p|
    ensures name == Head(p[start..])
  {
    hide Head;
    var i := start;
    name := [];
    while i < |p| && p[i] != SLASH
      invariant start <= i <= |p| && name + Head(p[i..]) == Head(p[start..])
      decreases |p| - i
    {
      HeadStep(p, i);
      Regroup(name, [p[i]], Head(p[i + 1..]));
      name := name + [p[i]];
      i := i + 1;
    }
    NoHead(p, i);
    assert name + [] == name;
  }

  /** path_parse. */
  method PathParse(p: Path) returns (name: Name, rest: Path)
    ensures (name, rest) == Parse(p)
  {
    var i := SkipSlashes(p);
    name := TakeName(p, i);
    rest := p[i + |name|..];
  }

  // ---------------------------------------------------------------- what the components are

  /** The pieces between slashes. */
  function Pieces(p: Path): (r: seq<Name>)
    ensures r != []
  {
    if p == [] then [[]]
    else
      var r := Pieces(p[1..]);
      if p[0] == SLASH then [[]] + r else [[p[0]] + r[0]] + r[1..]
  }

  function NonEmpty(s: seq<Name>): seq<Name> {
    if s == [] then [] else (if s[0] == [] then [] else [s[0]]) + NonEmpty(s[1..])
  }

  lemma {:induction false} PiecesOf(p: Path)
    ensures Pieces(p)[0] == Head(p)
    ensures NonEmpty(Pieces(p)[1..]) == Components(p[|Head(p)|..])
    decreases |p|
  {
    if p == [] {
    } else if p[0] == SLASH {
      PiecesAre(p[1..]);
      assert Pieces(p)[1..] == Pieces(p[1..]);
      assert Skip(p) == Skip(p[1..]);
    } else {
      PiecesOf(p[1..]);
      assert p[|Head(p)|..] == p[1..][|Head(p[1..])|..];
      assert Pieces(p)[1..] == Pieces(p[1..])[1..];
    }
  }

  /** The components of a path are the pieces between slashes that are not empty. */
  lemma {:induction false} PiecesAre(p: Path)
    ensures NonEmpty(Pieces(p)) == Components(p)
    decreases |p|
  {
    if p != [] {
      if p[0] == SLASH {
        PiecesAre(p[1..]);
        assert Pieces(p)[1..] == Pieces(p[1..]);
        assert Skip(p) == Skip(p[1..]);
      } else {
        PiecesOf(p[1..]);
        assert p[|Head(p)|..] == p[1..][|Head(p[1..])|..];
        assert Pieces(p)[1..] == Pieces(p[1..])[1..];
      }
    }
  }

  // ---------------------------------------------------------------- rendering

  /** One component of an absolute path. */
  function Slashed(n: Name): Path { [SLASH] + n }

  function Joined(s: seq<Name>): Path {
    if s == [] then [] else Joined(s[..|s| - 1]) + Slashed(s[|s| - 1])
  }

  function Render(s: seq<Name>): Path { if s == [] then [SLASH] else Joined(s) }

  lemma Regroup(a: Path, b: Path, c: Path)
    ensures a + b + c == a + (b + c)
  {
  }

  lemma {:induction false} JoinedFront(s: seq<Name>)
    requires s != []
    ensures Joined(s) == Slashed(s[0]) + Joined(s[1..])
  {
    if |s| == 1 {
      assert s[..0] == [] && s[1..] == [];
    } else {
      var m, t, last := s[..|s| - 1], s[1..], s[|s| - 1];
      JoinedFront(m);
      assert m[1..] == t[..|t| - 1] && t[|t| - 1] == last;
      assert Joined(t) == Joined(m[1..]) + Slashed(last);
      Regroup(Slashed(s[0]), Joined(m[1..]), Slashed(last));
    }
  }

  lemma HeadOf(n: Name, rest: Path)
    requires IsComponent(n) && (rest == [] || rest[0] == SLASH)
    ensures Head(n + rest) == n
  {
    if |n| == 1 {
      assert (n + rest)[1..] == rest;
    } else {
      assert (n + rest)[1..] == n[1..] + rest;
      HeadOf(n[1..], rest);
    }
  }

  lemma {:induction false} JoinedComponents(s: seq<Name>)
    requires AllComponents(s)
    ensures Components(Joined(s)) == s
  {
    if s != [] {
      JoinedFront(s);
      JoinedComponents(s[1..]);
      var p, rest := Joined(s), Joined(s[1..]);
      if s[1..] != [] {
        JoinedFront(s[1..]);
      }
      assert p[1..] == s[0] + rest;
      HeadOf(s[0], rest);
      assert Skip(p) == p[1..];
      assert p[1..][|s[0]|..] == rest;
    }
  }

  /** Printing and parsing undo each other. */
  lemma RenderRoundTrip(s: seq<Name>)
    requires AllComponents(s)
    ensures Components(Render(s)) == s
  {
    JoinedComponents(s);
    assert [SLASH][1..] == [];
  }

  lemma SkipMore(a: Path, b: Path)
    ensures Skip(a) == [] ==> Skip(a + [SLASH] + b) == Skip(b)
    ensures Skip(a) != [] ==> Skip(a + [SLASH] + b) == Skip(a) + [SLASH] + b
  {
    if a == [] {
      assert (a + [SLASH] + b)[1..] == b;
    } else if a[0] == SLASH {
      assert (a + [SLASH] + b)[1..] == a[1..] + [SLASH] + b;
      SkipMore(a[1..], b);
    }
  }

  lemma HeadMore(a: Path, b: Path)
    requires a == [] || a[0] != SLASH
    ensures Head(a + [SLASH] + b) == Head(a)
  {
    if a != [] {
      assert (a + [SLASH] + b)[1..] == a[1..] + [SLASH] + b;
      if a[1..] == [] || a[1] != SLASH {
        HeadMore(a[1..], b);
      }
    }
  }

  lemma ComponentsOfSkip(p: Path)
    ensures Components(p) == Components(Skip(p))
  {
    assert Skip(Skip(p)) == Skip(p);
  }

  lemma NextComponent(p: Path)
    requires Skip(p) != []
    ensures Head(Skip(p)) != [] && Components(p) == [Head(Skip(p))] + Components(Skip(p)[|Head(Skip(p))|..])
  {
  }

  lemma NoNext(p: Path)
    requires Skip(p) == []
    ensures Components(p) == []
  {
  }

  lemma AfterHead(q: Path, b: Path, n: nat)
    requires n <= |q|
    ensures (q + [SLASH] + b)[n..] == q[n..] + [SLASH] + b
  {
  }

  /** Two paths put together with a slash between them. */
  lemma {:induction false} ComponentsJoin(a: Path, b: Path)
    ensures Components(a + [SLASH] + b) == Components(a) + Components(b)
    decreases |a|
  {
    hide Components, Skip, Head;
    SkipMore(a, b);
    if Skip(a) == [] {
      ComponentsOfSkip(a + [SLASH] + b);
      ComponentsOfSkip(b);
      NoNext(a);
      assert [] + Components(b) == Components(b);
    } else {
      var q := Skip(a);
      HeadMore(q, b);
      var n := Head(q);
      NextComponent(a);
      NextComponent(a + [SLASH] + b);
      AfterHead(q, b, |n|);
      ComponentsJoin(q[|n|..], b);
      assert [n] + (Components(q[|n|..]) + Components(b)) == [n] + Components(q[|n|..]) + Components(b);
    }
  }

  // ---------------------------------------------------------------- wash_path

  /** A name moves along the stack of directories passed so far. */
  function Move(s: seq<Name>, n: Name): seq<Name> {
    if n == UP then if s == [] then [] else s[..|s| - 1]
    else if n == HERE then s
    else s + [n]
  }

  function Fold(s: seq<Name>, ns: seq<Name>): seq<Name>
    decreases |ns|
  {
    if ns == [] then s else Fold(Move(s, ns[0]), ns[1..])
  }

  /** strrchr(p, '/'), or -1. */
  function LastSlash(p: Path): (r: int)
    ensures -1 <= r < |p| && (r >= 0 ==> p[r] == SLASH) && forall k :: r < k < |p| ==> p[k] != SLASH
  {
    if p == [] then -1 else if p[|p| - 1] == SLASH then |p| - 1 else LastSlash(p[..|p| - 1])
  }

  /** One turn of the loop: the buffer so far, and the next name. */
  function WashStep(p: Path, n: Name): Path
    requires p != []
  {
    if n == UP then
      var k := LastSlash(p);
      if k != 0 then p[..if k < 0 then 0 else k] else p[..1]
    else if n == HERE then p
    else (if p == [SLASH] then p else p + [SLASH]) + n
  }

  lemma LastSlashIs(p: Path, n: Name)
    requires NoSlash(n)
    ensures LastSlash(p + Slashed(n)) == |p|
  {
    hide LastSlash;
    var q := p + Slashed(n);
    assert q[|p|] == SLASH;
    forall k | |p| < k < |q| ensures q[k] != SLASH {
      assert q[k] == n[k - |p| - 1];
    }
  }

  lemma JoinedMore(s: seq<Name>, n: Name)
    ensures Joined(s + [n]) == Joined(s) + Slashed(n)
  {
    assert (s + [n])[..|s|] == s;
  }

  /** ".." takes the last name off, and stays at the root. */
  lemma WashUp(s: seq<Name>)
    requires AllComponents(s)
    ensures Render(s) != [] && WashStep(Render(s), UP) == Render(Move(s, UP))
  {
    hide LastSlash;
    if s == [] {
      LastSlashIs([], []);
      assert [] + Slashed([]) == [SLASH];
    } else {
      var rest, last := s[..|s| - 1], s[|s| - 1];
      LastSlashIs(Joined(rest), last);
      assert Joined(s) == Joined(rest) + Slashed(last);
      if rest == [] {
        assert Joined(s)[..1] == [SLASH];
      } else {
        assert Joined(s)[..|Joined(rest)|] == Joined(rest);
      }
    }
  }

  lemma WashName(s: seq<Name>, n: Name)
    requires AllComponents(s) && IsComponent(n) && Ordinary(n)
    ensures WashStep(Render(s), n) == Render(Move(s, n))
  {
    hide Joined, LastSlash;
    JoinedMore(s, n);
    if s == [] {
      JoinedNone();
      assert [] + Slashed(n) == [SLASH] + n;
    } else {
      JoinedLong(s);
      assert Joined(s) + [SLASH] + n == Joined(s) + Slashed(n);
    }
  }

  lemma JoinedNone()
    ensures Joined([]) == []
  {
  }

  lemma JoinedLong(s: seq<Name>)
    requires AllComponents(s) && s != []
    ensures |Joined(s)| > 1
  {
    hide Joined;
    JoinedMore(s[..|s| - 1], s[|s| - 1]);
    assert s == s[..|s| - 1] + [s[|s| - 1]];
  }

  /** The buffer is the stack, rendered. */
  lemma WashStepIs(s: seq<Name>, n: Name)
    requires AllComponents(s) && IsComponent(n)
    ensures Render(s) != [] && WashStep(Render(s), n) == Render(Move(s, n))
    ensures AllComponents(Move(s, n))
  {
    hide WashStep, Joined;
    WashUp(s);
    if n == HERE {
      WashHere(s);
    } else if n != UP {
      WashName(s, n);
    }
  }

  lemma WashHere(s: seq<Name>)
    requires Render(s) != []
    ensures WashStep(Render(s), HERE) == Render(s)
  {
  }

  lemma FoldMore(s: seq<Name>, ns: seq<Name>, n: Name)
    ensures Fold(s, ns + [n]) == Move(Fold(s, ns), n)
    decreases |ns|
  {
    if ns != [] {
      assert (ns + [n])[1..] == ns[1..] + [n];
      FoldMore(Move(s, ns[0]), ns[1..], n);
    }
  }

  /** wash_path is a stack of names, rendered. */
  method WashPath(p: Path) returns (r: Path)
    ensures r == Render(Fold([], Components(p)))
  {
    var name, rest := PathParse(p);
    if name == [] {
      return [SLASH];
    }
    r := [SLASH];
    ghost var s := [];
    while name != []
      invariant AllComponents(s) && r == Render(s) && NoSlash(name)
      invariant Fold(s, if name == [] then [] else [name] + Components(rest)) == Fold([], Components(p))
      decreases if name == [] then 0 else 1 + |rest|
    {
      WashStepIs(s, name);
      if name == UP {
        var slash := LastSlash(r);
        r := if slash != 0 then r[..if slash < 0 then 0 else slash] else r[..1];
      } else if name != HERE {
        if r != [SLASH] {
          r := r + [SLASH];
        }
        r := r + name;
      }
      assert ([name] + Components(rest))[1..] == Components(rest);
      s := Move(s, name);
      name := [];
      if rest != [] {
        name, rest := PathParse(rest);
      }
    }
  }

  lemma {:induction false} FoldTwice(s: seq<Name>, a: seq<Name>, b: seq<Name>)
    ensures Fold(s, a + b) == Fold(Fold(s, a), b)
    decreases |a|
  {
    if a == [] {
      assert a + b == b;
    } else {
      assert (a + b)[1..] == a[1..] + b;
      FoldTwice(Move(s, a[0]), a[1..], b);
    }
  }

  function Wash(p: Path): Path { Render(Fold([], Components(p))) }

  lemma {:induction false} FoldOrdinary(s: seq<Name>, ns: seq<Name>)
    requires AllComponents(s) && AllOrdinary(s) && AllComponents(ns)
    ensures AllComponents(Fold(s, ns)) && AllOrdinary(Fold(s, ns))
    decreases |ns|
  {
    if ns != [] {
      FoldOrdinary(Move(s, ns[0]), ns[1..]);
    }
  }

  lemma {:induction false} FoldFixed(s: seq<Name>, ns: seq<Name>)
    requires AllOrdinary(ns)
    ensures Fold(s, ns) == s + ns
    decreases |ns|
  {
    if ns != [] {
      FoldFixed(s + [ns[0]], ns[1..]);
      assert s + [ns[0]] + ns[1..] == s + ns;
    }
  }

  /** A washed path has no "." and no "..", and washing it again changes nothing. */
  lemma WashIsClean(p: Path)
    ensures AllOrdinary(Components(Wash(p)))
    ensures Wash(Wash(p)) == Wash(p)
  {
    var s := Fold([], Components(p));
    FoldOrdinary([], Components(p));
    RenderRoundTrip(s);
    FoldFixed([], s);
    assert [] + s == s;
  }

  // ---------------------------------------------------------------- the last name

  function AfterLastSlash(p: Path): Name { p[LastSlash(p) + 1..] }

  /** What follows the last slash of a rendered path is its last name. */
  lemma LastOfJoined(s: seq<Name>)
    requires AllComponents(s) && s != []
    ensures AfterLastSlash(Joined(s)) == s[|s| - 1]
  {
    hide LastSlash, Joined, AfterLastSlash, Slashed;
    JoinedLast(s);
    AfterSlashed(Joined(s[..|s| - 1]), s[|s| - 1]);
  }

  lemma JoinedLast(s: seq<Name>)
    requires s != []
    ensures Joined(s) == Joined(s[..|s| - 1]) + Slashed(s[|s| - 1])
  {
  }

  lemma AfterSlashed(p: Path, n: Name)
    requires IsComponent(n)
    ensures AfterLastSlash(p + Slashed(n)) == n
  {
    hide LastSlash;
    LastSlashIs(p, n);
    assert (p + Slashed(n))[|p| + 1..] == n;
  }

  lemma JustOne(n: Name)
    requires IsComponent(n)
    ensures Components(n) == [n]
  {
    assert n + [] == n;
    HeadOf(n, []);
    assert Skip(n) == n && Components([]) == [];
  }

  /** What follows the last slash of a path that does not end in one is its last name. */
  lemma LastOfPath(p: Path)
    requires p != [] && p[0] == SLASH && p[|p| - 1] != SLASH
    ensures Components(p) != [] && AfterLastSlash(p) == Components(p)[|Components(p)| - 1]
  {
    hide Components, LastSlash;
    var k, n := LastSlash(p), AfterLastSlash(p);
    assert k >= 0;
    assert p == p[..k] + [SLASH] + n;
    assert IsComponent(n) by {
      assert n[|n| - 1] == p[|p| - 1];
      forall j | 0 <= j < |n| ensures n[j] != SLASH {
        assert n[j] == p[k + 1 + j];
      }
    }
    ComponentsJoin(p[..k], n);
    JustOne(n);
  }

  /** path_depth_cnt. */
  method PathDepth(p: Path) returns (depth: nat)
    ensures depth == |Components(p)|
  {
    depth := 0;
    var name, rest := PathParse(p);
    while name != []
      invariant depth + |if name == [] then [] else [name] + Components(rest)| == |Components(p)|
      decreases if name == [] then 0 else 1 + |rest|
    {
      depth := depth + 1;
      name := [];
      if rest != [] {
        name, rest := PathParse(rest);
      }
    }
  }

  // ---------------------------------------------------------------- length

  function Length(s: seq<Name>): nat { if s == [] then 0 else Length(s[..|s| - 1]) + 1 + |s[|s| - 1]| }

  lemma {:induction false} JoinedLength(s: seq<Name>)
    ensures |Joined(s)| == Length(s)
  {
    if s != [] {
      JoinedLength(s[..|s| - 1]);
    }
  }

  lemma {:induction false} ComponentsLength(p: Path, s: seq<Name>)
    requires p != [] && p[0] == SLASH
    ensures Length(Fold(s, Components(p))) <= Length(s) + |p|
    decreases |p|
  {
    var (n, rest) := Parse(p);
    if n != [] {
      var t := Move(s, n);
      assert (s + [n])[..|s|] == s;
      assert Length(t) <= Length(s) + 1 + |n|;
      assert ([n] + Components(rest))[1..] == Components(rest);
      if rest != [] {
        SkipShorter(p);
        ComponentsLength(rest, t);
      } else {
        SkipShorter(p);
      }
    }
  }

  lemma SkipShorter(p: Path)
    requires p != [] && p[0] == SLASH
    ensures |Skip(p)| < |p| && 1 + |Parse(p).0| + |Parse(p).1| <= |p|
  {
  }

  /** The result of wash_path is no longer than the path it is given. */
  lemma WashFits(p: Path)
    requires p != [] && p[0] == SLASH
    ensures |Wash(p)| <= |p|
  {
    ComponentsLength(p, []);
    JoinedLength(Fold([], Components(p)));
  }
}
