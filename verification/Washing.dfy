/** When wash_path of shell/buildin_cmd.c keeps what search_file finds: always, but for a ".." that climbs
    over a name at which search_file stops. */
module Washing {
  import opened Directory
  import opened Paths
  import opened Tree
  import opened TreeOps

  /** On the way through the names no ".." climbs over more than the n names that lie above. */
  predicate Under(n: nat, ns: seq<Name>)
    decreases |ns|
  {
    ns == [] ||
    if ns[0] == UP then n > 0 && Under(n - 1, ns[1..])
    else if ns[0] == HERE then Under(n, ns[1..])
    else Under(n + 1, ns[1..])
  }

  /** Then what lies below stays where it is. */
  lemma {:induction false} FoldUnder(s: seq<Name>, r: seq<Name>, ns: seq<Name>)
    requires Under(|r|, ns)
    ensures Fold(s + r, ns) == s + Fold(r, ns)
    decreases |ns|
  {
    if ns != [] {
      assert Move(s + r, ns[0]) == s + Move(r, ns[0]);
      FoldUnder(s, Move(r, ns[0]), ns[1..]);
    }
  }

  /** Otherwise some ".." takes the name x off, and nothing before it matters any more. */
  lemma {:induction false} FoldClimbs(s: seq<Name>, x: Name, r: seq<Name>, ns: seq<Name>) returns (m: nat)
    requires !Under(|r|, ns)
    ensures m < |ns| && ns[m] == UP && Fold(s + [x] + r, ns) == Fold(s, ns[m + 1..])
    decreases |ns|
  {
    if ns[0] == UP && r == [] {
      assert Move(s + [x] + r, UP) == s;
      return 0;
    }
    assert Move(s + [x] + r, ns[0]) == s + [x] + Move(r, ns[0]);
    m := FoldClimbs(s, x, Move(r, ns[0]), ns[1..]);
    assert ns[1..][m + 1..] == ns[m + 2..];
    m := m + 1;
  }

  /** The walk over names that lead somewhere goes there, and then on. */
  lemma {:induction false} WalkOn(t: Tree, d: nat, at: nat, ns: seq<Name>, rest: seq<Name>) returns (a: nat)
    requires Leads(t, d, ns)
    ensures Walk(t, d, at, ns + rest) == Walk(t, Dest(t, d, ns), a, rest)
    decreases |ns|
  {
    if ns == [] {
      assert ns + rest == rest;
      a := at;
    } else {
      assert (ns + rest)[1..] == ns[1..] + rest;
      a := WalkOn(t, t[d][ns[0]].ino, d, ns[1..], rest);
    }
  }

  /** All names lead to directories, or the last one tried is the first that does not. */
  lemma {:induction false} StopsAt(t: Tree, d: nat, ns: seq<Name>)
    requires !Leads(t, d, ns)
    ensures var j := Tried(t, d, ns);
      0 < j && Leads(t, d, ns[..j - 1]) && !IsDirEntry(t, Dest(t, d, ns[..j - 1]), ns[j - 1])
    decreases |ns|
  {
    if IsDirEntry(t, d, ns[0]) {
      StopsAt(t, t[d][ns[0]].ino, ns[1..]);
      var j := Tried(t, d, ns);
      assert ns[..j - 1][1..] == ns[1..][..j - 2];
    } else {
      assert ns[..0] == [];
    }
  }

  /** At a name that is missing or a regular file, what follows does not matter. */
  lemma Stops(t: Tree, d: nat, a: nat, b: nat, n: Name, r: seq<Name>, q: seq<Name>)
    requires d in t && (n in t[d] ==> t[d][n].ftype == FT_REGULAR)
    ensures SameFound(Walk(t, d, a, [n] + r), Walk(t, d, b, [n] + q))
  {
  }

  /** search_file finds the same inode of the same kind, or nothing, through a path and through the washed
      path, as long as no ".." behind the name at which it stops climbs over that name.  It stops at a name
      that is missing, at a regular file, or nowhere. */
  lemma WashKeepsMeaning(t: Tree, dep: map<nat, nat>, p: Path)
    requires WellFormed(t, dep) && Components(p) != []
    requires Under(0, Components(p)[Tried(t, 0, Components(p))..])
    ensures SameFound(Search(t, p), Search(t, Wash(p)))
  {
    hide WellFormed, PathTo, Components, Render, Search, Walk, Tried, Under, Dest, Leads, Fold;
    var ns := Components(p);
    if Leads(t, 0, ns) {
      LeadsAllBut(t, 0, ns);
      WashKeepsLeading(t, dep, p);
    } else {
      StopsAt(t, 0, ns);
      var j := Tried(t, 0, ns);
      WashKeepsStop(t, dep, p, j);
    }
  }

  lemma {:induction false} LeadsAllBut(t: Tree, d: nat, ns: seq<Name>)
    requires Leads(t, d, ns) && ns != []
    ensures Leads(t, d, ns[..|ns| - 1])
    decreases |ns|
  {
    if |ns| > 1 {
      LeadsAllBut(t, t[d][ns[0]].ino, ns[1..]);
      assert ns[1..][..|ns| - 2] == ns[..|ns| - 1][1..];
    }
  }

  /** The stack when search_file stops at name j - 1: the path of the directory, and the name. */
  lemma StackAtStop(t: Tree, dep: map<nat, nat>, ns: seq<Name>, j: nat)
    requires WellFormed(t, dep) && AllComponents(ns) && 0 < j <= |ns| && Leads(t, 0, ns[..j - 1])
    requires !IsDirEntry(t, Dest(t, 0, ns[..j - 1]), ns[j - 1])
    ensures var d := Dest(t, 0, ns[..j - 1]);
      && d in t && Ordinary(ns[j - 1]) && (ns[j - 1] in t[d] ==> t[d][ns[j - 1]].ftype == FT_REGULAR)
      && Fold([], ns) == Fold(PathTo(t, dep, d) + [ns[j - 1]], ns[j..])
  {
    hide WellFormed, PathTo, Fold, Dest, Leads;
    RootIsThere(t, dep);
    var pre, n := ns[..j - 1], ns[j - 1];
    DestIsFold(t, dep, 0, pre);
    var d := Dest(t, 0, pre);
    TreeAt(t, dep, d);
    FoldMore([], pre, n);
    FoldTwice([], pre + [n], ns[j..]);
    assert pre + [n] + ns[j..] == ns;
  }

  lemma WashKeepsStop(t: Tree, dep: map<nat, nat>, p: Path, j: nat)
    requires WellFormed(t, dep) && 0 < j <= |Components(p)| && Leads(t, 0, Components(p)[..j - 1])
    requires !IsDirEntry(t, Dest(t, 0, Components(p)[..j - 1]), Components(p)[j - 1])
    requires Under(0, Components(p)[j..])
    ensures SameFound(Search(t, p), Search(t, Wash(p)))
  {
    hide WellFormed, PathTo, Components, Render, Search, Walk, Under, Dest, Leads, Fold;
    var ns := Components(p);
    StackAtStop(t, dep, ns, j);
    var pre, n, rest := ns[..j - 1], ns[j - 1], ns[j..];
    var d := Dest(t, 0, pre);
    var stack := PathTo(t, dep, d);
    FoldUnder(stack + [n], [], rest);
    assert stack + [n] + [] == stack + [n];
    var washed := Fold([], ns);
    assert washed == stack + ([n] + Fold([], rest));
    FoldOrdinary([], ns);
    RenderRoundTrip(washed);
    SearchIsWalk(t, dep, p);
    SearchIsWalk(t, dep, Wash(p));
    assert ns == pre + ([n] + rest);
    var a := WalkOn(t, 0, 0, pre, [n] + rest);
    PathLeads(t, dep, d);
    var b := WalkOn(t, 0, 0, stack, [n] + Fold([], rest));
    Stops(t, d, a, b, n, rest, Fold([], rest));
  }

  /** Where a ".." does climb over the name, the washed path is that of the path without the name and all
      that follows up to this "..": whether search_file stopped there is forgotten. */
  lemma WashForgets(t: Tree, dep: map<nat, nat>, p: Path) returns (m: nat)
    requires WellFormed(t, dep) && !Leads(t, 0, Components(p))
    requires !Under(0, Components(p)[Tried(t, 0, Components(p))..])
    ensures var ns, j := Components(p), Tried(t, 0, Components(p));
      0 < j <= m < |ns| && ns[m] == UP && Wash(p) == Render(Fold([], ns[..j - 1] + ns[m + 1..]))
  {
    hide WellFormed, PathTo, Components, Render, Walk, Tried, Under, Dest, Leads, Fold;
    var ns, j := Components(p), Tried(t, 0, Components(p));
    StopsAt(t, 0, ns);
    StackAtStop(t, dep, ns, j);
    RootIsThere(t, dep);
    var pre := ns[..j - 1];
    DestIsFold(t, dep, 0, pre);
    var stack := PathTo(t, dep, Dest(t, 0, pre));
    m := FoldClimbs(stack, ns[j - 1], [], ns[j..]);
    assert stack + [ns[j - 1]] + [] == stack + [ns[j - 1]];
    assert ns[j..][m + 1..] == ns[j + m + 1..];
    FoldTwice([], pre, ns[j + m + 1..]);
    m := j + m;
  }

  // ---------------------------------------------------------------- where washing changes the meaning

  /** "//": search_file gives back an entry it never filled in, but the washed path is the root. */
  lemma SlashesExample(t: Tree)
    ensures Search(t, [SLASH, SLASH]) == Unset && Search(t, Wash([SLASH, SLASH])) == Found.Directory(0, 0)
  {
    var p: Path := [SLASH, SLASH];
    assert p[1..] == [SLASH] && [SLASH][1..] == [];
    assert Skip(p) == [];
  }

  /** "/x/.." on a tree without x: nothing is found, but the washed path is the root. */
  lemma MissingPrefixExample(t: Tree, dep: map<nat, nat>, n: Name)
    requires WellFormed(t, dep) && IsComponent(n) && n !in t[0]
    ensures Components(Joined([n, UP])) == [n, UP] && Tried(t, 0, [n, UP]) == 1 && !Under(0, [n, UP][1..])
    ensures Search(t, Joined([n, UP])).Missing? && Search(t, Wash(Joined([n, UP]))) == Found.Directory(0, 0)
  {
    hide WellFormed;
    var ns := [n, UP];
    JoinedComponents(ns);
    SearchIsWalk(t, dep, Joined(ns));
    RootIsThere(t, dep);
    assert ns[1..] == [UP] && [UP][1..] == [];
    FoldMore([], [], n);
    FoldMore([], [n], UP);
    assert [] + [n] == [n] && [n] + [UP] == ns;
  }
}
