/** search_file on the sectors: it walks the tree that the partition holds. */
module Resolve {
  import opened Options
  import opened Volume
  import opened Directory
  import opened Namespace
  import opened Paths
  import opened Tree
  import opened TreeOps
  import opened Mounted

  /** A path the kernel has room for: absolute, shorter than 512 bytes, names shorter than 16. */
  ghost predicate Fits(p: Path) {
    && p != [] && p[0] == SLASH && |p| < 512 && (forall k :: 0 <= k < |p| ==> p[k] != 0)
    && forall k :: 0 <= k < |Components(p)| ==> |Components(p)[k]| < NAME_LEN
  }

  /** The bytes of a name are bytes of the path. */
  lemma {:induction false} NamesOfPath(p: Path, k: nat)
    requires (forall j :: 0 <= j < |p| ==> p[j] != 0) && k < |Components(p)|
    ensures forall j :: 0 <= j < |Components(p)[k]| ==> Components(p)[k][j] != 0
    decreases |p|
  {
    SkipBytes(p);
    if k > 0 {
      NamesOfPath(Parse(p).1, k - 1);
    }
  }

  lemma SkipBytes(p: Path)
    requires forall j :: 0 <= j < |p| ==> p[j] != 0
    ensures forall j :: 0 <= j < |Skip(p)| ==> Skip(p)[j] != 0
  {
  }

  lemma FitsNames(p: Path, k: nat)
    requires Fits(p) && k < |Components(p)|
    ensures IsName(Components(p)[k]) && IsComponent(Components(p)[k])
  {
    NamesOfPath(p, k);
  }

  /** One name looked up: search_dir_entry finds what the view says. */
  method Step(p: Partition, d: nat, name: Name, ghost v: View, ghost dep: map<nat, nat>) returns (e: Option<DirEntry>)
    requires Global(p.State(), v, dep) && d in v.tree && name != []
    ensures e.Some? <==> name in v.tree[d]
    ensures e.Some? ==> v.tree[d][name] == Target(e.value.ino, e.value.ftype)
    ensures e.Some? && e.value.ftype != FT_REGULAR ==> IsDirEntry(v.tree, d, name) && e.value.ino in v.tree
  {
    hide Global, Slots, DirBlocks, Lookup, DirOf;
    HeldDir(p.State(), v, dep, d);
    DirIsReadable(p.State(), d);
    e := SearchDirEntry(p.disk, p.inodes[d].secs, name);
    SearchIsLookup(p.State(), d, name);
    if e.Some? {
      KindOf(p.State(), v, dep, d, name);
    }
  }

  lemma HeldDir(fs: Fs, v: View, dep: map<nat, nat>, d: nat)
    requires Global(fs, v, dep) && d in v.tree
    ensures IsDir(fs, d) && DirOf(fs, d) == v.tree[d]
  {
  }

  lemma KindOf(fs: Fs, v: View, dep: map<nat, nat>, d: nat, n: Name)
    requires Global(fs, v, dep) && d in v.tree && n in v.tree[d]
    ensures v.tree[d][n].ftype == FT_REGULAR || (IsDirEntry(v.tree, d, n) && v.tree[d][n].ino in v.tree)
    ensures v.tree[d][n].ftype == FT_REGULAR ==> Ordinary(n)
  {
    hide Valid, Holds;
    TreeAt(v.tree, dep, d);
    assert Ordinary(n) ==> Named(v.tree, d, n, v.tree[d][n].ino);
  }

  predicate Special(p: Path) { p == [SLASH] || p == [SLASH] + HERE || p == [SLASH] + UP }

  /** The names searched_path holds. */
  ghost function SearchedNames(t: Tree, p: Path): seq<Name> {
    Components(p)[..Tried(t, 0, Components(p))]
  }

  /** k names of the path have led from the root to directory d, by way of directory at. */
  ghost predicate Came(t: Tree, ns: seq<Name>, k: nat, d: nat, at: nat) {
    && d in t && k <= |ns|
    && Walk(t, d, at, ns[k..]) == Walk(t, 0, 0, ns) && Tried(t, 0, ns) == k + Tried(t, d, ns[k..])
  }

  lemma CameNowhere(t: Tree, ns: seq<Name>)
    requires 0 in t
    ensures Came(t, ns, 0, 0, 0)
  {
    assert ns[0..] == ns;
  }

  lemma CameFurther(t: Tree, ns: seq<Name>, k: nat, d: nat, at: nat)
    requires Came(t, ns, k, d, at) && k < |ns|
    ensures ns[k] !in t[d] ==> Walk(t, 0, 0, ns) == Missing(d) && Tried(t, 0, ns) == k + 1
    ensures ns[k] in t[d] && t[d][ns[k]].ftype == FT_REGULAR ==>
      Walk(t, 0, 0, ns) == Regular(t[d][ns[k]].ino, d) && Tried(t, 0, ns) == k + 1
    ensures IsDirEntry(t, d, ns[k]) && t[d][ns[k]].ino in t ==> Came(t, ns, k + 1, t[d][ns[k]].ino, d)
  {
    assert ns[k..][0] == ns[k] && ns[k..][1..] == ns[k + 1..];
  }

  lemma CameToEnd(t: Tree, ns: seq<Name>, d: nat, at: nat)
    requires Came(t, ns, |ns|, d, at)
    ensures Walk(t, 0, 0, ns) == Found.Directory(d, at) && Tried(t, 0, ns) == |ns|
  {
  }

  /** search_file: the result, and searched_path, which the callers use when nothing is found. */
  method SearchFile(p: Partition, path: Path, ghost v: View, ghost dep: map<nat, nat>)
    returns (r: Found, searched: Path)
    requires Global(p.State(), v, dep)
    ensures r == Search(v.tree, path)
    ensures !Special(path) ==> searched == Joined(SearchedNames(v.tree, path))
  {
    hide Global, Components, Joined, Walk, Tried;
    if path == [SLASH] || path == [SLASH] + HERE || path == [SLASH] + UP {
      return Found.Directory(0, 0), [];
    }
    var name, rest := PathParse(path);
    FirstName(path);
    NothingJoined();
    if name == [] {
      return Unset, [];
    }
    r, searched := SearchNames(p, name, rest, v, dep, Components(path));
  }

  /** The loop, from the first name on. */
  method SearchNames(p: Partition, first: Name, others: Path, ghost v: View, ghost dep: map<nat, nat>,
      ghost ns: seq<Name>)
    returns (r: Found, searched: Path)
    requires Global(p.State(), v, dep) && ns == Left(first, others) && IsFirst(first)
    ensures r == Walk(v.tree, 0, 0, ns) && searched == Joined(ns[..Tried(v.tree, 0, ns)])
  {
    hide Global, Joined, Walk, Tried, Came, Components;
    ghost var t := v.tree;
    RootHeld(p.State(), v, dep);
    var name, rest := first, others;
    var d, at := 0, 0;
    searched := [];
    ghost var k := 0;
    NothingJoined();
    CameNowhere(t, ns);
    while name != []
      invariant d in t && k <= |ns| && Came(t, ns, k, d, at) && ns[k..] == Left(name, rest) && IsFirst(name)
      invariant searched == Joined(ns[..k])
      decreases if name == [] then 0 else 1 + |rest|
    {
      NameAt(ns, k, name, rest);
      CameFurther(t, ns, k, d, at);
      JoinedMore(ns[..k], name);
      searched := searched + [SLASH] + name;
      var e := Step(p, d, name, v, dep);
      if e.None? {
        return Missing(d), searched;
      }
      name := [];
      if rest != [] {
        var more := rest;
        name, rest := PathParse(more);
        FirstName(more);
      }
      k := k + 1;
      if e.value.ftype == FT_REGULAR {
        return Regular(e.value.ino, d), searched;
      }
      d, at := e.value.ino, d;
    }
    assert ns[..k] == ns;
    CameToEnd(t, ns, d, at);
    return Found.Directory(d, at), searched;
  }

  lemma NameAt(ns: seq<Name>, k: nat, name: Name, rest: Path)
    requires k <= |ns| && ns[k..] == Left(name, rest) && name != []
    ensures k < |ns| && ns[k] == name && ns[k + 1..] == Components(rest) && ns[..k + 1] == ns[..k] + [name]
    ensures rest == [] ==> Components(rest) == []
  {
    hide Components;
    LeftFirst(name, rest);
    assert ns[k..][0] == ns[k] && ns[k..][1..] == ns[k + 1..];
  }

  /** The names to come: the one just parsed and those of the rest. */
  ghost function Left(name: Name, rest: Path): seq<Name> { if name == [] then [] else [name] + Components(rest) }

  ghost predicate IsFirst(name: Name) { name == [] || IsComponent(name) }

  lemma LeftFirst(name: Name, rest: Path)
    requires name != []
    ensures Left(name, rest) != [] && Left(name, rest)[0] == name && Left(name, rest)[1..] == Components(rest)
    ensures rest == [] ==> Components(rest) == []
  {
  }

  lemma FirstName(p: Path)
    ensures Left(Parse(p).0, Parse(p).1) == Components(p) && IsFirst(Parse(p).0)
  {
  }

  lemma NothingJoined()
    ensures Joined([]) == []
  {
  }

  lemma RootHeld(fs: Fs, v: View, dep: map<nat, nat>)
    requires Global(fs, v, dep)
    ensures 0 in v.tree
  {
  }

  // ---------------------------------------------------------------- where a search ends at a file

  /** A search that ends at a regular file has followed directories up to it, and ended on its name;
      that is the last name of the path exactly if all names were tried. */
  lemma {:induction false} EndsAtFile(v: View, dep: map<nat, nat>, d: nat, at: nat, ns: seq<Name>)
    requires Good(v, dep) && d in v.tree && Walk(v.tree, d, at, ns).Regular?
    ensures var r, k := Walk(v.tree, d, at, ns), Tried(v.tree, d, ns);
      && 0 < k <= |ns| && Leads(v.tree, d, ns[..k - 1]) && r.at == Dest(v.tree, d, ns[..k - 1]) && r.at in v.tree
      && Named(v.tree, r.at, ns[k - 1], r.ino) && r.ino in v.files
    decreases |ns|
  {
    hide WellFormed, NamedOnce;
    TreeAt(v.tree, dep, d);
    if v.tree[d][ns[0]].ftype == FT_REGULAR {
      assert Named(v.tree, d, ns[0], v.tree[d][ns[0]].ino);
      assert ns[..0] == [];
    } else {
      var c := v.tree[d][ns[0]].ino;
      assert Ordinary(ns[0]) ==> Named(v.tree, d, ns[0], c);
      EndsAtFile(v, dep, c, d, ns[1..]);
      var k := Tried(v.tree, d, ns);
      assert ns[1..][..k - 2] == ns[..k - 1][1..];
    }
  }

  lemma FileFound(v: View, dep: map<nat, nat>, p: Path)
    requires Good(v, dep) && Search(v.tree, p).Regular?
    ensures var r, k := Search(v.tree, p), Tried(v.tree, 0, Components(p));
      && 0 < k <= |Components(p)| && r.at in v.tree
      && Named(v.tree, r.at, Components(p)[k - 1], r.ino) && r.ino in v.files
  {
    hide WellFormed, NamedOnce, Components, Walk, Kinds;
    RootIsThere(v.tree, dep);
    EndsAtFile(v, dep, 0, 0, Components(p));
  }
}
