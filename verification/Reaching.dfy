/** What search_file of fs/fs.c finds, said by the directories that the names of a path lead through. */
module Reaching {
  import opened Directory
  import opened Paths
  import opened Tree
  import opened TreeOps
  import opened Washing

  function Front(ns: seq<Name>): seq<Name>
    requires ns != []
  {
    ns[..|ns| - 1]
  }

  /** The names before name j lead to directory `at`. */
  ghost predicate ComesTo(t: Tree, ns: seq<Name>, j: nat, at: nat) {
    j < |ns| && Leads(t, 0, ns[..j]) && Dest(t, 0, ns[..j]) == at && at in t
  }

  /** There, name j is missing. */
  ghost predicate Misses(t: Tree, ns: seq<Name>, j: nat, at: nat) {
    ComesTo(t, ns, j, at) && ns[j] !in t[at]
  }

  /** There, name j is the regular file i. */
  ghost predicate Hits(t: Tree, ns: seq<Name>, j: nat, i: nat, at: nat) {
    ComesTo(t, ns, j, at) && ns[j] in t[at] && t[at][ns[j]].ftype == FT_REGULAR && t[at][ns[j]].ino == i
  }

  ghost predicate MissesSomewhere(t: Tree, ns: seq<Name>, at: nat) { exists j :: Misses(t, ns, j, at) }

  ghost predicate HitsSomewhere(t: Tree, ns: seq<Name>, i: nat, at: nat) { exists j :: Hits(t, ns, j, i, at) }

  /** The search goes through the directories and ends at name j. */
  lemma WalkTo(t: Tree, ns: seq<Name>, j: nat, i: nat, at: nat)
    requires ComesTo(t, ns, j, at)
    ensures Misses(t, ns, j, at) ==> Walk(t, 0, 0, ns) == Missing(at)
    ensures Hits(t, ns, j, i, at) ==> Walk(t, 0, 0, ns) == Regular(i, at)
  {
    hide Leads, Dest;
    var a := WalkOn(t, 0, 0, ns[..j], ns[j..]);
    assert ns == ns[..j] + ns[j..];
  }

  lemma WalkThrough(t: Tree, ns: seq<Name>)
    requires Leads(t, 0, ns)
    ensures Walk(t, 0, 0, ns).Directory? && Walk(t, 0, 0, ns).ino == Dest(t, 0, ns)
  {
    hide Leads, Dest;
    var a := WalkOn(t, 0, 0, ns, []);
    assert ns == ns + [];
  }

  lemma NotDirIsFile(t: Tree, dep: map<nat, nat>, d: nat, n: Name)
    requires WellFormed(t, dep) && d in t && n in t[d] && !IsDirEntry(t, d, n)
    ensures t[d][n].ftype == FT_REGULAR
  {
    hide WellFormed;
    TreeAt(t, dep, d);
  }

  /** Where the search stops, if it stops. */
  lemma StopsThere(t: Tree, dep: map<nat, nat>, ns: seq<Name>) returns (j: nat, at: nat, i: nat)
    requires WellFormed(t, dep) && !Leads(t, 0, ns)
    ensures ComesTo(t, ns, j, at) && (Misses(t, ns, j, at) || Hits(t, ns, j, i, at))
  {
    hide WellFormed, Leads, Dest, Tried, PathTo, Fold;
    StopsAt(t, 0, ns);
    j, i := Tried(t, 0, ns) - 1, 0;
    RootIsThere(t, dep);
    DestIsFold(t, dep, 0, ns[..j]);
    at := Dest(t, 0, ns[..j]);
    if ns[j] in t[at] {
      NotDirIsFile(t, dep, at, ns[j]);
      i := t[at][ns[j]].ino;
    }
  }

  /** search_file finds a directory exactly if all names lead there, a regular file exactly if one of the
      names is that file in the directory that the names before it lead to, whatever follows, and nothing
      exactly if one of the names is missing in the directory that the names before it lead to. */
  lemma SearchExact(t: Tree, dep: map<nat, nat>, p: Path, i: nat, at: nat)
    requires WellFormed(t, dep) && Components(p) != []
    ensures var f, ns := Search(t, p), Components(p);
      && !f.Unset?
      && (f.Directory? && f.ino == i <==> Leads(t, 0, ns) && Dest(t, 0, ns) == i)
      && (f == Regular(i, at) <==> HitsSomewhere(t, ns, i, at))
      && (f == Missing(at) <==> MissesSomewhere(t, ns, at))
  {
    hide WellFormed, Components, Walk, Leads, Dest, Tried, Misses, Hits, Search;
    var ns := Components(p);
    SearchIsWalk(t, dep, p);
    FoundIsReached(t, ns, i, at);
    if Leads(t, 0, ns) {
      WalkThrough(t, ns);
    } else {
      var j, d, c := StopsThere(t, dep, ns);
      WalkTo(t, ns, j, c, d);
    }
  }

  lemma FoundIsReached(t: Tree, ns: seq<Name>, i: nat, at: nat)
    ensures HitsSomewhere(t, ns, i, at) ==> Walk(t, 0, 0, ns) == Regular(i, at)
    ensures MissesSomewhere(t, ns, at) ==> Walk(t, 0, 0, ns) == Missing(at)
  {
    hide Walk, Leads, Dest;
    if HitsSomewhere(t, ns, i, at) {
      var j :| Hits(t, ns, j, i, at);
      WalkTo(t, ns, j, i, at);
    }
    if MissesSomewhere(t, ns, at) {
      var j :| Misses(t, ns, j, at);
      WalkTo(t, ns, j, i, at);
    }
  }

  /** The names tried are those up to the one that does not lead on. */
  lemma {:induction false} TriedTo(t: Tree, d: nat, ns: seq<Name>, j: nat)
    requires j < |ns| && Leads(t, d, ns[..j]) && !IsDirEntry(t, Dest(t, d, ns[..j]), ns[j])
    ensures Tried(t, d, ns) == j + 1
    decreases |ns|
  {
    if j > 0 {
      assert ns[..j][1..] == ns[1..][..j - 1];
      TriedTo(t, t[d][ns[0]].ino, ns[1..], j - 1);
    }
  }

  // ---------------------------------------------------------------- a path to be made

  /** All names but the last lead to a directory, and the last is not in it. */
  ghost predicate CanMake(t: Tree, ns: seq<Name>) {
    ns != [] && Leads(t, 0, Front(ns)) && var d := Dest(t, 0, Front(ns)); d in t && Last(ns) !in t[d]
  }

  /** sys_mkdir and sys_open with O_CREAT go on exactly for the paths that can be made, in the directory that
      all names but the last lead to. */
  lemma MayMakeExact(t: Tree, dep: map<nat, nat>, p: Path)
    requires WellFormed(t, dep)
    ensures var ns := Components(p);
      && (MayMake(t, p) <==> CanMake(t, ns))
      && (MayMake(t, p) ==> Leads(t, 0, Front(ns)) && Search(t, p).at == Dest(t, 0, Front(ns)))
  {
    hide WellFormed, Components, Walk, Leads, Dest, Tried, Search;
    var ns := Components(p);
    if ns == [] {
      NoNames(t, p);
    } else if MayMake(t, p) {
      var at := Search(t, p).at;
      SearchExact(t, dep, p, 0, at);
      var j :| Misses(t, ns, j, at);
      TriedIs(t, ns, j, 0, at);
    } else if CanMake(t, ns) {
      var at := Dest(t, 0, Front(ns));
      assert Misses(t, ns, |ns| - 1, at);
      SearchExact(t, dep, p, 0, at);
      TriedIs(t, ns, |ns| - 1, 0, at);
    }
  }

  lemma NoNames(t: Tree, p: Path)
    requires Components(p) == []
    ensures !MayMake(t, p) && !Search(t, p).Regular? && !Search(t, p).Missing?
  {
  }

  lemma TriedIs(t: Tree, ns: seq<Name>, j: nat, i: nat, at: nat)
    requires Misses(t, ns, j, at) || Hits(t, ns, j, i, at)
    ensures j < |ns| && Tried(t, 0, ns) == j + 1
  {
    hide Leads, Dest, Tried;
    TriedTo(t, 0, ns, j);
  }

  // ---------------------------------------------------------------- a file to be opened

  /** All names but the last lead to a directory, and the last is the regular file i in it. */
  ghost predicate NamesFile(t: Tree, ns: seq<Name>, i: nat) {
    && ns != [] && Leads(t, 0, Front(ns))
    && var d := Dest(t, 0, Front(ns));
    d in t && Last(ns) in t[d] && t[d][Last(ns)].ftype == FT_REGULAR && t[d][Last(ns)].ino == i
  }

  /** sys_open finds the file exactly if the last name is it: a path that goes on behind a file is none. */
  lemma OpenExact(t: Tree, dep: map<nat, nat>, p: Path, i: nat)
    requires WellFormed(t, dep)
    ensures var ns, f := Components(p), Search(t, p);
      f.Regular? && f.ino == i && Tried(t, 0, ns) == |ns| <==> NamesFile(t, ns, i)
  {
    hide WellFormed, Components, Walk, Leads, Dest, Tried, Search;
    var ns, f := Components(p), Search(t, p);
    if ns == [] {
      NoNames(t, p);
    } else if f.Regular? && f.ino == i && Tried(t, 0, ns) == |ns| {
      SearchExact(t, dep, p, i, f.at);
      var j :| Hits(t, ns, j, i, f.at);
      TriedIs(t, ns, j, i, f.at);
    } else if NamesFile(t, ns, i) {
      var at := Dest(t, 0, Front(ns));
      assert Hits(t, ns, |ns| - 1, i, at);
      SearchExact(t, dep, p, i, at);
      assert HitsSomewhere(t, ns, i, at);
      TriedIs(t, ns, |ns| - 1, i, at);
    }
  }
}
