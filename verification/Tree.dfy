/** The directory tree: search_file of fs/fs.c on the maps that directories stand for. */
module Tree {
  import opened Directory
  import opened Paths

  type Dir = map<Name, Target>
  type Tree = map<nat, Dir>   // inode number 0 is the root

  // ---------------------------------------------------------------- well-formed trees

  predicate IsDirEntry(t: Tree, d: nat, n: Name) { d in t && n in t[d] && t[d][n].ftype == FT_DIRECTORY }

  /** Name n of directory d is its subdirectory c. */
  ghost predicate Link(t: Tree, d: nat, n: Name, c: nat) {
    IsDirEntry(t, d, n) && Ordinary(n) && t[d][n].ino == c
  }

  ghost predicate Linked(t: Tree, p: nat, d: nat) { exists n :: Link(t, p, n, d) }

  ghost predicate DotsOk(t: Tree, d: nat) {
    && IsDirEntry(t, d, HERE) && t[d][HERE].ino == d
    && IsDirEntry(t, d, UP) && t[d][UP].ino in t
  }

  ghost predicate NamesOk(t: Tree, d: nat)
    requires d in t
  {
    && (forall n :: n in t[d] ==> IsComponent(n) && t[d][n].ftype in {FT_REGULAR, FT_DIRECTORY})
    && (forall n, m :: n in t[d] && m in t[d] && Ordinary(n) && Ordinary(m) && t[d][n].ino == t[d][m].ino ==> n == m)
  }

  /** A subdirectory names its parent, and a directory other than the root is in its parent. */
  ghost predicate KinOk(t: Tree, d: nat)
    requires DotsOk(t, d)
  {
    && (forall n, c :: Link(t, d, n, c) ==> c != 0 && DotsOk(t, c) && t[c][UP].ino == d)
    && (if d == 0 then t[d][UP].ino == 0 else Linked(t, t[d][UP].ino, d))
  }

  /** dep is the distance from the root, so there are no cycles. */
  ghost predicate DepthOk(t: Tree, dep: map<nat, nat>, d: nat)
    requires DotsOk(t, d)
  {
    d in dep && t[d][UP].ino in dep && if d == 0 then dep[d] == 0 else dep[d] == dep[t[d][UP].ino] + 1
  }

  ghost predicate NodeOk(t: Tree, dep: map<nat, nat>, d: nat) {
    DotsOk(t, d) && NamesOk(t, d) && KinOk(t, d) && DepthOk(t, dep, d)
  }

  ghost predicate WellFormed(t: Tree, dep: map<nat, nat>) {
    0 in t && forall d :: d in t ==> NodeOk(t, dep, d)
  }

  // ---------------------------------------------------------------- search_file

  /** How search_file ends.  `at` is the directory that searched_record holds. */
  datatype Found = Missing(at: nat) | Regular(ino: nat, at: nat) | Directory(ino: nat, at: nat) | Unset

  /** The loop of search_file: the directory reached, the one it was found in, the names to come. */
  function Walk(t: Tree, d: nat, at: nat, ns: seq<Name>): Found
    decreases |ns|
  {
    if ns == [] then Directory(d, at)
    else if d !in t || ns[0] !in t[d] then Missing(d)
    else if t[d][ns[0]].ftype == FT_REGULAR then Regular(t[d][ns[0]].ino, d)
    else Walk(t, t[d][ns[0]].ino, d, ns[1..])
  }

  /** search_file.  A path of two or more slashes and nothing else gives back an entry that was
      never filled in. */
  function Search(t: Tree, p: Path): Found {
    if p == [SLASH] || p == [SLASH] + HERE || p == [SLASH] + UP then Directory(0, 0)
    else if Components(p) == [] then Unset
    else Walk(t, 0, 0, Components(p))
  }

  // ---------------------------------------------------------------- paths of directories

  ghost function LinkName(t: Tree, p: nat, d: nat): (n: Name)
    requires Linked(t, p, d)
    ensures Link(t, p, n, d)
  {
    var n :| Link(t, p, n, d); n
  }

  /** Directory d is listed in its parent, which is nearer the root. */
  ghost predicate Climbs(t: Tree, dep: map<nat, nat>, d: nat) {
    && d != 0 && IsDirEntry(t, d, UP) && Linked(t, t[d][UP].ino, d)
    && d in dep && t[d][UP].ino in dep && dep[t[d][UP].ino] < dep[d]
  }

  /** The names from the root to directory d. */
  ghost function PathTo(t: Tree, dep: map<nat, nat>, d: nat): seq<Name>
    decreases if d in dep then dep[d] else 0
  {
    if Climbs(t, dep, d) then PathTo(t, dep, t[d][UP].ino) + [LinkName(t, t[d][UP].ino, d)] else []
  }

  lemma TreeClimbs(t: Tree, dep: map<nat, nat>, d: nat)
    requires WellFormed(t, dep) && d in t && d != 0
    ensures Climbs(t, dep, d) && t[d][UP].ino in t && NamesOk(t, t[d][UP].ino)
  {
    TreeAt(t, dep, d);
    TreeAt(t, dep, t[d][UP].ino);
  }

  lemma {:induction false} PathIsOk(t: Tree, dep: map<nat, nat>, d: nat)
    requires WellFormed(t, dep) && d in t
    ensures AllComponents(PathTo(t, dep, d)) && AllOrdinary(PathTo(t, dep, d)) && (PathTo(t, dep, d) == [] <==> d == 0)
    decreases if d in dep then dep[d] else 0
  {
    hide WellFormed, Linked;
    if d != 0 {
      TreeClimbs(t, dep, d);
      PathIsOk(t, dep, t[d][UP].ino);
      assert Link(t, t[d][UP].ino, LinkName(t, t[d][UP].ino, d), d);
    }
  }

  /** Going through a name of a directory moves its path the way wash_path does. */
  lemma PathMoves(t: Tree, dep: map<nat, nat>, d: nat, n: Name)
    requires WellFormed(t, dep) && IsDirEntry(t, d, n)
    ensures t[d][n].ino in t && PathTo(t, dep, t[d][n].ino) == Move(PathTo(t, dep, d), n)
  {
    hide WellFormed, DepthOk;
    TreeAt(t, dep, d);
    var c := t[d][n].ino;
    if n == UP {
      UpPath(t, dep, d);
    } else if n != HERE {
      assert Link(t, d, n, c);
      TreeAt(t, dep, c);
      ChildPath(t, dep, d, n, c);
    }
  }

  lemma TreeAt(t: Tree, dep: map<nat, nat>, d: nat)
    requires WellFormed(t, dep) && d in t
    ensures DotsOk(t, d) && NamesOk(t, d) && KinOk(t, d) && DepthOk(t, dep, d)
  {
  }

  lemma UpPath(t: Tree, dep: map<nat, nat>, d: nat)
    requires WellFormed(t, dep) && d in t && DotsOk(t, d)
    ensures PathTo(t, dep, t[d][UP].ino) == Move(PathTo(t, dep, d), UP)
  {
    hide WellFormed;
    TreeAt(t, dep, d);
    if d != 0 {
      TreeClimbs(t, dep, d);
    }
  }

  lemma ChildPath(t: Tree, dep: map<nat, nat>, d: nat, n: Name, c: nat)
    requires WellFormed(t, dep) && Link(t, d, n, c) && c in t
    ensures PathTo(t, dep, c) == PathTo(t, dep, d) + [n]
  {
    hide WellFormed;
    TreeAt(t, dep, d);
    TreeClimbs(t, dep, c);
    assert Link(t, d, LinkName(t, d, c), c);
  }

  // ---------------------------------------------------------------- walking through directories

  /** Every name leads to a directory. */
  predicate Leads(t: Tree, d: nat, ns: seq<Name>)
    decreases |ns|
  {
    ns == [] || (IsDirEntry(t, d, ns[0]) && Leads(t, t[d][ns[0]].ino, ns[1..]))
  }

  function Dest(t: Tree, d: nat, ns: seq<Name>): nat
    requires Leads(t, d, ns)
    decreases |ns|
  {
    if ns == [] then d else Dest(t, t[d][ns[0]].ino, ns[1..])
  }

  /** Following ".." on disk and taking names off a stack come to the same place. */
  lemma {:induction false} DestIsFold(t: Tree, dep: map<nat, nat>, d: nat, ns: seq<Name>)
    requires WellFormed(t, dep) && d in t && Leads(t, d, ns)
    ensures Dest(t, d, ns) in t && PathTo(t, dep, Dest(t, d, ns)) == Fold(PathTo(t, dep, d), ns)
    decreases |ns|
  {
    hide WellFormed, PathTo;
    if ns != [] {
      PathMoves(t, dep, d, ns[0]);
      DestIsFold(t, dep, t[d][ns[0]].ino, ns[1..]);
    }
  }

  lemma {:induction false} DestMore(t: Tree, d: nat, ns: seq<Name>, n: Name)
    requires Leads(t, d, ns) && IsDirEntry(t, Dest(t, d, ns), n)
    ensures Leads(t, d, ns + [n]) && Dest(t, d, ns + [n]) == t[Dest(t, d, ns)][n].ino
    decreases |ns|
  {
    if ns == [] {
      assert [n][1..] == [];
    } else {
      assert (ns + [n])[1..] == ns[1..] + [n];
      DestMore(t, t[d][ns[0]].ino, ns[1..], n);
    }
  }

  /** The path of a directory leads to it. */
  lemma {:induction false} PathLeads(t: Tree, dep: map<nat, nat>, d: nat)
    requires WellFormed(t, dep) && d in t
    ensures Leads(t, 0, PathTo(t, dep, d)) && Dest(t, 0, PathTo(t, dep, d)) == d
    decreases if d in dep then dep[d] else 0
  {
    hide WellFormed, Leads, Dest, Linked;
    if d != 0 {
      TreeClimbs(t, dep, d);
      var p := t[d][UP].ino;
      PathLeads(t, dep, p);
      DestMore(t, 0, PathTo(t, dep, p), LinkName(t, p, d));
    } else {
      NoWay(t);
    }
  }

  lemma NoWay(t: Tree)
    ensures Leads(t, 0, []) && Dest(t, 0, []) == 0
  {
  }

  /** The walk over names that lead somewhere goes there, and then on. */
  lemma {:induction false} WalkLeads(t: Tree, d: nat, at: nat, ns: seq<Name>, n: Name) returns (a: nat)
    requires Leads(t, d, ns)
    ensures Walk(t, d, at, ns) == Directory(Dest(t, d, ns), a)
    ensures Walk(t, d, at, ns + [n]) == Walk(t, Dest(t, d, ns), a, [n])
    decreases |ns|
  {
    if ns == [] {
      assert ns + [n] == [n];
      a := at;
    } else {
      assert (ns + [n])[1..] == ns[1..] + [n];
      a := WalkLeads(t, t[d][ns[0]].ino, d, ns[1..], n);
    }
  }

  // ---------------------------------------------------------------- wash_path keeps the meaning

  /** The same inode, of the same kind, or nothing in both. */
  predicate SameFound(a: Found, b: Found) {
    match a
    case Missing(_) => b.Missing?
    case Regular(i, _) => b.Regular? && b.ino == i
    case Directory(i, _) => b.Directory? && b.ino == i
    case Unset => b.Unset?
  }

  lemma OneComponent(n: Name)
    requires IsComponent(n)
    ensures Components([SLASH] + n) == [n]
  {
    var p := [SLASH] + n;
    assert p[1..] == n && Skip(p) == n;
    assert n + [] == n;
    HeadOf(n, []);
    assert Components([]) == [];
  }

  /** The three special cases of search_file agree with its loop. */
  lemma SearchIsWalk(t: Tree, dep: map<nat, nat>, p: Path)
    requires WellFormed(t, dep) && Components(p) != []
    ensures Search(t, p) == Walk(t, 0, 0, Components(p))
  {
    hide Components, WellFormed, Walk;
    RootIsThere(t, dep);
    if p == [SLASH] + HERE {
      OneComponent(HERE);
      LastStep(t, 0, 0, HERE);
    } else if p == [SLASH] + UP {
      OneComponent(UP);
      LastStep(t, 0, 0, UP);
    } else {
      RootHasNone();
    }
  }

  lemma RootHasNone()
    ensures Components([SLASH]) == []
  {
    assert [SLASH][1..] == [];
  }

  /** Wherever every directory on the way exists, search_file finds the same through the path and
      through the washed path, though only the first follows "." and ".." on disk. */
  lemma WashKeepsLeading(t: Tree, dep: map<nat, nat>, p: Path)
    requires WellFormed(t, dep) && Components(p) != []
    requires Leads(t, 0, Components(p)[..|Components(p)| - 1])
    ensures SameFound(Search(t, p), Search(t, Wash(p)))
  {
    hide WellFormed, PathTo, Components, Render, Search, Walk;
    var ns := Components(p);
    var pre, n := ns[..|ns| - 1], ns[|ns| - 1];
    assert ns == pre + [n];
    RootIsThere(t, dep);
    SearchIsWalk(t, dep, p);
    DestIsFold(t, dep, 0, pre);
    FoldMore([], pre, n);
    var d := Dest(t, 0, pre);
    var a := WalkLeads(t, 0, 0, pre, n);
    if Ordinary(n) {
      WashedName(t, dep, d, n, a);
    } else {
      TreeAt(t, dep, d);
      PathMoves(t, dep, d, n);
      WashedDir(t, dep, t[d][n].ino);
      LastStep(t, d, a, n);
    }
  }

  lemma RootIsThere(t: Tree, dep: map<nat, nat>)
    requires WellFormed(t, dep)
    ensures 0 in t && PathTo(t, dep, 0) == []
    ensures IsDirEntry(t, 0, HERE) && t[0][HERE].ino == 0 && IsDirEntry(t, 0, UP) && t[0][UP].ino == 0
  {
    TreeAt(t, dep, 0);
  }

  lemma LastStep(t: Tree, d: nat, a: nat, n: Name)
    requires IsDirEntry(t, d, n)
    ensures Walk(t, d, a, [n]) == Directory(t[d][n].ino, d)
  {
    assert [n][1..] == [];
  }

  lemma LastName(t: Tree, d: nat, a: nat, b: nat, n: Name)
    ensures Walk(t, d, a, [n]) == Walk(t, d, b, [n])
  {
    assert [n][1..] == [];
  }

  /** search_file finds a directory by its path. */
  lemma WashedDir(t: Tree, dep: map<nat, nat>, d: nat)
    requires WellFormed(t, dep) && d in t
    ensures exists a :: Search(t, Render(PathTo(t, dep, d))) == Directory(d, a)
  {
    hide WellFormed, PathTo, Walk, Components;
    var s := PathTo(t, dep, d);
    PathIsOk(t, dep, d);
    if s != [] {
      RenderRoundTrip(s);
      SearchIsWalk(t, dep, Render(s));
      PathLeads(t, dep, d);
      var a := WalkLeads(t, 0, 0, s, []);
    }
  }

  lemma WashedName(t: Tree, dep: map<nat, nat>, d: nat, n: Name, a: nat)
    requires WellFormed(t, dep) && d in t && IsComponent(n)
    ensures SameFound(Walk(t, d, a, [n]), Search(t, Render(PathTo(t, dep, d) + [n])))
  {
    hide Walk, Search, WellFormed, PathTo, Render, Components;
    var s := PathTo(t, dep, d) + [n];
    PathIsOk(t, dep, d);
    RenderRoundTrip(s);
    SearchIsWalk(t, dep, Render(s));
    PathLeads(t, dep, d);
    var b := WalkLeads(t, 0, 0, PathTo(t, dep, d), n);
    LastName(t, d, a, b, n);
  }
}
