/** sys_mkdir and sys_rmdir of fs/fs.c on the directory tree. */
module TreeOps {
  import opened Bytes
  import opened Volume
  import opened Directory
  import opened Namespace
  import opened Paths
  import opened Tree

  // ---------------------------------------------------------------- sys_mkdir

  /** How many components search_file puts into searched_path before it gives up. */
  function Tried(t: Tree, d: nat, ns: seq<Name>): (k: nat)
    ensures k <= |ns|
    decreases |ns|
  {
    if ns == [] then 0
    else if !IsDirEntry(t, d, ns[0]) then 1
    else 1 + Tried(t, t[d][ns[0]].ino, ns[1..])
  }

  function Last(ns: seq<Name>): Name
    requires ns != []
  {
    ns[|ns| - 1]
  }

  function AddDir(t: Tree, at: nat, n: Name, i: word): Tree
    requires at in t && at < WORD_LIMIT
  {
    t[at := t[at][n := Target(i, FT_DIRECTORY)]]
     [i := map[HERE := Target(i, FT_DIRECTORY), UP := Target(at, FT_DIRECTORY)]]
  }

  /** sys_mkdir makes a directory when search_file misses the last component and no earlier one. */
  predicate MayMake(t: Tree, p: Path) {
    Search(t, p).Missing? && Tried(t, 0, Components(p)) == |Components(p)|
  }

  lemma {:induction false} MissedLast(t: Tree, d: nat, at: nat, ns: seq<Name>)
    requires Walk(t, d, at, ns).Missing? && Tried(t, d, ns) == |ns|
    ensures ns != [] && Leads(t, d, ns[..|ns| - 1]) && Dest(t, d, ns[..|ns| - 1]) == Walk(t, d, at, ns).at
    ensures Walk(t, d, at, ns).at in t ==> Last(ns) !in t[Walk(t, d, at, ns).at]
    decreases |ns|
  {
    if |ns| == 1 {
      assert ns[1..] == [] && ns[..0] == [];
    } else {
      assert ns[1..][..|ns| - 2] == ns[..|ns| - 1][1..];
      MissedLast(t, t[d][ns[0]].ino, d, ns[1..]);
    }
  }

  /** The name made is the last of the path, new in its directory, and neither "." nor "..". */
  lemma MadeWhere(t: Tree, dep: map<nat, nat>, p: Path)
    requires WellFormed(t, dep) && MayMake(t, p)
    ensures Components(p) != [] && Search(t, p).at in t && Last(Components(p)) !in t[Search(t, p).at]
    ensures Ordinary(Last(Components(p)))
    ensures PathTo(t, dep, Search(t, p).at) == Fold([], Components(p)[..|Components(p)| - 1])
  {
    hide WellFormed, Components, Walk, PathTo, Tried;
    RootIsThere(t, dep);
    SearchIsWalk'(t, dep, p);
    var ns := Components(p);
    MissedLast(t, 0, 0, ns);
    DestIsFold(t, dep, 0, ns[..|ns| - 1]);
    TreeAt(t, dep, Search(t, p).at);
  }

  lemma SearchIsWalk'(t: Tree, dep: map<nat, nat>, p: Path)
    requires WellFormed(t, dep) && Search(t, p).Missing?
    ensures Search(t, p) == Walk(t, 0, 0, Components(p))
  {
  }

  ghost predicate Unused(t: Tree, i: nat) {
    i != 0 && i !in t && forall d, n :: d in t && n in t[d] ==> t[d][n].ino != i
  }

  lemma AddedDots(t: Tree, at: nat, n: Name, i: word, d: nat)
    requires at in t && at < WORD_LIMIT && Unused(t, i) && Ordinary(n) && DotsOk(t, at) && (d in t ==> DotsOk(t, d))
    requires d in t || d == i
    ensures DotsOk(AddDir(t, at, n, i), d) && AddDir(t, at, n, i)[d][UP].ino == if d == i then at else t[d][UP].ino
  {
  }

  lemma AddedLinks(t: Tree, at: nat, n: Name, i: word, d: nat, m: Name, c: nat)
    requires at in t && at < WORD_LIMIT && Unused(t, i) && n !in t[at] && Ordinary(n)
    ensures Link(AddDir(t, at, n, i), d, m, c) <==> Link(t, d, m, c) || (d == at && m == n && c == i)
  {
  }

  lemma AddedNode(t: Tree, dep: map<nat, nat>, at: nat, n: Name, i: word, d: nat)
    requires WellFormed(t, dep) && at in t && at < WORD_LIMIT && Unused(t, i) && n !in t[at] && Ordinary(n)
      && IsComponent(n)
    requires d in t || d == i
    ensures at in dep && NodeOk(AddDir(t, at, n, i), dep[i := dep[at] + 1], d)
  {
    hide WellFormed;
    TreeAt(t, dep, at);
    var t', dep' := AddDir(t, at, n, i), dep[i := dep[at] + 1];
    if d in t {
      TreeAt(t, dep, d);
    }
    AddedDots(t, at, n, i, d);
    AddedNames(t, at, n, i, d);
    forall m, c | Link(t', d, m, c) ensures c != 0 && DotsOk(t', c) && t'[c][UP].ino == d {
      AddedLinks(t, at, n, i, d, m, c);
      if Link(t, d, m, c) {
        AddedDots(t, at, n, i, c);
      } else {
        AddedDots(t, at, n, i, i);
      }
    }
    if d == i {
      AddedLinks(t, at, n, i, at, n, i);
      assert Link(t', at, n, i);
    } else if d != 0 {
      var p := t[d][UP].ino;
      var m :| Link(t, p, m, d);
      AddedLinks(t, at, n, i, p, m, d);
      assert Link(t', p, m, d);
    }
  }

  lemma AddedNames(t: Tree, at: nat, n: Name, i: word, d: nat)
    requires at in t && at < WORD_LIMIT && Unused(t, i) && n !in t[at] && Ordinary(n) && IsComponent(n)
    requires d == i || (d in t && NamesOk(t, d))
    ensures NamesOk(AddDir(t, at, n, i), d)
  {
  }

  /** A new directory one level below the one it is in keeps the tree well formed. */
  lemma AddDirKeepsTree(t: Tree, dep: map<nat, nat>, at: nat, n: Name, i: word)
    requires WellFormed(t, dep) && at in t && at < WORD_LIMIT && n !in t[at] && Ordinary(n) && IsComponent(n)
      && Unused(t, i)
    ensures at in dep && WellFormed(AddDir(t, at, n, i), dep[i := dep[at] + 1])
  {
    hide NodeOk, DotsOk, NamesOk, KinOk, DepthOk;
    AddedNode(t, dep, at, n, i, at);
    var t' := AddDir(t, at, n, i);
    forall d | d in t' ensures NodeOk(t', dep[i := dep[at] + 1], d) {
      AddedNode(t, dep, at, n, i, d);
    }
  }

  /** sys_mkdir keeps the tree well formed. */
  lemma MkdirKeepsTree(t: Tree, dep: map<nat, nat>, p: Path, i: word)
    requires WellFormed(t, dep) && MayMake(t, p) && Unused(t, i) && Search(t, p).at < WORD_LIMIT
    ensures Components(p) != [] && Search(t, p).at in t && Search(t, p).at in dep
    ensures var at := Search(t, p).at;
      WellFormed(AddDir(t, at, Last(Components(p)), i), dep[i := dep[at] + 1])
  {
    hide Components, Search, WellFormed;
    MadeWhere(t, dep, p);
    AddDirKeepsTree(t, dep, Search(t, p).at, Last(Components(p)), i);
  }

  // ---------------------------------------------------------------- sys_rmdir

  /** delete_dir_entry passes over "." and "..". */
  function Unlisted(dir: Dir, d: nat): Dir {
    map n | n in dir && !(Ordinary(n) && dir[n].ino == d) :: dir[n]
  }

  /** dir_remove: the entry in the directory the search ended in, then the inode. */
  function RemoveDir(t: Tree, at: nat, d: nat): Tree
    requires at in t
  {
    t[at := Unlisted(t[at], d)] - {d}
  }

  predicate Empty(t: Tree, d: nat) { d in t && t[d].Keys == {HERE, UP} }

  lemma RemovedNode(t: Tree, dep: map<nat, nat>, at: nat, n: Name, d: nat, c: nat)
    requires WellFormed(t, dep) && Link(t, at, n, d) && Empty(t, d) && c in t && c != d
    ensures NodeOk(RemoveDir(t, at, d), dep, c)
  {
    hide WellFormed, NamesOk;
    var t' := RemoveDir(t, at, d);
    TreeAt(t, dep, c);
    TreeAt(t, dep, at);
    RemovedParent(t, dep, d, c);
    assert DotsOk(t', c);
    RemovedNames(t, at, d, c);
    forall m, x | Link(t', c, m, x) ensures x != 0 && DotsOk(t', x) && t'[x][UP].ino == c {
      assert Link(t, c, m, x);
      TreeAt(t, dep, x);
      RemovedParent(t, dep, d, x);
    }
    if c != 0 {
      var p := t[c][UP].ino;
      var m :| Link(t, p, m, c);
      assert Link(t', p, m, c);
    }
  }

  lemma RemovedNames(t: Tree, at: nat, d: nat, c: nat)
    requires at in t && c in t && c != d && NamesOk(t, c)
    ensures NamesOk(RemoveDir(t, at, d), c)
  {
  }

  /** Nothing is below an empty directory. */
  lemma RemovedParent(t: Tree, dep: map<nat, nat>, d: nat, c: nat)
    requires WellFormed(t, dep) && Empty(t, d) && c in t && c != d && d != 0
    ensures DotsOk(t, c) && t[c][UP].ino != d
  {
    hide WellFormed;
    TreeAt(t, dep, c);
    forall m ensures !Link(t, d, m, c) {
      assert m in t[d] ==> m in t[d].Keys;
    }
  }

  /** An entry in the parent survives: the tree is broken. */
  lemma Dangling(t: Tree, dep: map<nat, nat>, at: nat, d: nat, dep': map<nat, nat>)
    requires WellFormed(t, dep) && at in t && d in t && (d == 0 || at != t[d][UP].ino)
    ensures !WellFormed(RemoveDir(t, at, d), dep')
  {
    hide NodeOk;
    var t' := RemoveDir(t, at, d);
    TreeAt(t, dep, d);
    if d != 0 {
      var p := t[d][UP].ino;
      TreeClimbs(t, dep, d);
      var m :| Link(t, p, m, d);
      assert Link(t', p, m, d);
      BrokenLink(t', dep', p, m, d);
    }
  }

  lemma BrokenLink(t: Tree, dep: map<nat, nat>, p: nat, m: Name, d: nat)
    requires Link(t, p, m, d) && d !in t
    ensures !WellFormed(t, dep)
  {
    if WellFormed(t, dep) {
      TreeAt(t, dep, p);
    }
  }

  lemma DirectoryAt(t: Tree, dep: map<nat, nat>, p: Path)
    requires WellFormed(t, dep) && Components(p) != [] && Search(t, p).Directory?
    ensures var ns, r := Components(p), Search(t, p);
      && Leads(t, 0, ns[..|ns| - 1]) && r.at == Dest(t, 0, ns[..|ns| - 1])
      && IsDirEntry(t, r.at, Last(ns)) && t[r.at][Last(ns)].ino == r.ino
  {
    hide WellFormed, Walk, Components;
    SearchIsWalk(t, dep, p);
    AllTheWay(t, 0, 0, Components(p), dep);
  }

  lemma {:induction false} AllTheWay(t: Tree, d: nat, at: nat, ns: seq<Name>, dep: map<nat, nat>)
    requires WellFormed(t, dep) && ns != [] && Walk(t, d, at, ns).Directory?
    ensures var r := Walk(t, d, at, ns);
      && Leads(t, d, ns[..|ns| - 1]) && r.at == Dest(t, d, ns[..|ns| - 1])
      && IsDirEntry(t, r.at, Last(ns)) && t[r.at][Last(ns)].ino == r.ino
    decreases |ns|
  {
    hide WellFormed;
    TreeAt(t, dep, d);
    if |ns| == 1 {
      assert ns[1..] == [] && ns[..0] == [];
    } else {
      assert ns[1..][..|ns| - 2] == ns[..|ns| - 1][1..];
      AllTheWay(t, t[d][ns[0]].ino, d, ns[1..], dep);
    }
  }

  /** sys_rmdir of an empty directory leaves the tree well formed if and only if the path ends in a
      name: a path that ends in "." (or is the root) frees the directory but not its entry. */
  lemma RmdirExact(t: Tree, dep: map<nat, nat>, p: Path)
    requires WellFormed(t, dep) && Search(t, p).Directory? && Empty(t, Search(t, p).ino)
    ensures Search(t, p).at in t
    ensures (exists dep' :: WellFormed(RemoveDir(t, Search(t, p).at, Search(t, p).ino), dep'))
            <==> (Components(p) != [] && Ordinary(Last(Components(p))))
  {
    hide WellFormed, Components, Walk, PathTo;
    var ns, r := Components(p), Search(t, p);
    RootIsThere(t, dep);
    if ns == [] {
      assert r.ino == 0 && r.at == 0;
      forall dep' ensures !WellFormed(RemoveDir(t, 0, 0), dep') {
        Dangling(t, dep, 0, 0, dep');
      }
    } else {
      DirectoryAt(t, dep, p);
      TreeAt(t, dep, r.at);
      if Ordinary(Last(ns)) {
        RmdirKeeps(t, dep, r.at, Last(ns), r.ino);
      } else {
        DotsDangle(t, dep, r.at, Last(ns), r.ino);
        forall dep' ensures !WellFormed(RemoveDir(t, r.at, r.ino), dep') {
          Dangling(t, dep, r.at, r.ino, dep');
        }
      }
    }
  }

  lemma RmdirKeeps(t: Tree, dep: map<nat, nat>, at: nat, n: Name, d: nat)
    requires WellFormed(t, dep) && Link(t, at, n, d) && Empty(t, d)
    ensures WellFormed(RemoveDir(t, at, d), dep)
  {
    hide NodeOk;
    var t' := RemoveDir(t, at, d);
    TreeAt(t, dep, at);
    forall c | c in t' ensures NodeOk(t', dep, c) {
      RemovedNode(t, dep, at, n, d, c);
    }
  }

  lemma DotsDangle(t: Tree, dep: map<nat, nat>, at: nat, n: Name, d: nat)
    requires WellFormed(t, dep) && IsDirEntry(t, at, n) && !Ordinary(n) && t[at][n].ino == d && Empty(t, d)
    ensures d == 0 || at != t[d][UP].ino
  {
    hide WellFormed;
    TreeAt(t, dep, at);
    TreeAt(t, dep, d);
    if n == UP && at != 0 {
      var m :| Link(t, d, m, at);
      assert m in t[d].Keys;
    }
  }

  // ---------------------------------------------------------------- regular files

  /** A new regular file in directory at. */
  function AddFile(t: Tree, at: nat, n: Name, i: word): Tree
    requires at in t
  {
    t[at := t[at][n := Target(i, FT_REGULAR)]]
  }

  /** The name of a regular file leaves directory at. */
  function RemoveFile(t: Tree, at: nat, n: Name): Tree
    requires at in t
  {
    t[at := t[at] - {n}]
  }

  /** The trees have the same directories, with the same dots and the same subdirectories. */
  ghost predicate SameDirs(t: Tree, t': Tree) {
    && t'.Keys == t.Keys
    && (forall d, n, c :: Link(t', d, n, c) <==> Link(t, d, n, c))
    && (forall d :: d in t && DotsOk(t, d) ==> DotsOk(t', d) && t'[d][UP].ino == t[d][UP].ino)
  }

  lemma SameDirsNode(t: Tree, t': Tree, dep: map<nat, nat>, d: nat)
    requires WellFormed(t, dep) && SameDirs(t, t') && d in t && NamesOk(t', d)
    ensures NodeOk(t', dep, d)
  {
    hide WellFormed;
    TreeAt(t, dep, d);
    forall n, c | Link(t', d, n, c) ensures c != 0 && DotsOk(t', c) && t'[c][UP].ino == d {
      assert Link(t, d, n, c);
    }
    if d != 0 {
      var m :| Link(t, t[d][UP].ino, m, d);
      assert Link(t', t'[d][UP].ino, m, d);
    }
  }

  lemma AddFileSameDirs(t: Tree, at: nat, n: Name, i: word)
    requires at in t && n !in t[at] && Ordinary(n)
    ensures SameDirs(t, AddFile(t, at, n, i))
  {
    var t' := AddFile(t, at, n, i);
    forall d, m, c ensures Link(t', d, m, c) <==> Link(t, d, m, c) {
    }
  }

  lemma AddFileNames(t: Tree, at: nat, n: Name, i: word, d: nat)
    requires at in t && n !in t[at] && Ordinary(n) && IsComponent(n) && Unused(t, i) && d in t && NamesOk(t, d)
    ensures NamesOk(AddFile(t, at, n, i), d)
  {
  }

  lemma AddFileKeepsTree(t: Tree, dep: map<nat, nat>, at: nat, n: Name, i: word)
    requires WellFormed(t, dep) && at in t && n !in t[at] && Ordinary(n) && IsComponent(n) && Unused(t, i)
    ensures WellFormed(AddFile(t, at, n, i), dep)
  {
    hide NodeOk, SameDirs, NamesOk, KinOk, DotsOk, DepthOk;
    var t' := AddFile(t, at, n, i);
    AddFileSameDirs(t, at, n, i);
    forall d | d in t' ensures NodeOk(t', dep, d) {
      TreeAt(t, dep, d);
      AddFileNames(t, at, n, i, d);
      SameDirsNode(t, t', dep, d);
    }
  }

  lemma RemoveFileSameDirs(t: Tree, at: nat, n: Name)
    requires at in t && DotsOk(t, at) && n in t[at] && t[at][n].ftype == FT_REGULAR
    ensures SameDirs(t, RemoveFile(t, at, n))
  {
    var t' := RemoveFile(t, at, n);
    forall d, m, c ensures Link(t', d, m, c) <==> Link(t, d, m, c) {
    }
  }

  lemma RemoveFileNames(t: Tree, at: nat, n: Name, d: nat)
    requires at in t && d in t && NamesOk(t, d)
    ensures NamesOk(RemoveFile(t, at, n), d)
  {
  }

  lemma RemoveFileKeepsTree(t: Tree, dep: map<nat, nat>, at: nat, n: Name)
    requires WellFormed(t, dep) && at in t && n in t[at] && t[at][n].ftype == FT_REGULAR
    ensures WellFormed(RemoveFile(t, at, n), dep)
  {
    hide NodeOk, SameDirs, NamesOk, KinOk, DotsOk, DepthOk;
    var t' := RemoveFile(t, at, n);
    TreeAt(t, dep, at);
    RemoveFileSameDirs(t, at, n);
    forall d | d in t' ensures NodeOk(t', dep, d) {
      TreeAt(t, dep, d);
      RemoveFileNames(t, at, n, d);
      SameDirsNode(t, t', dep, d);
    }
  }

  // ---------------------------------------------------------------- the tree a volume shows

  ghost predicate Shows(fs: Fs, t: Tree) {
    forall d :: d in t ==> IsDir(fs, d) && DirOf(fs, d) == t[d]
  }

  /** What Mkdir does to the volume is AddDir on the tree. */
  lemma MkdirShows(fs: Fs, gs: Fs, t: Tree, at: nat, i: word, n: Name)
    requires Shows(fs, t) && at in t && at < WORD_LIMIT && i !in t && MadeDir(fs, gs, at, i, n)
    ensures Shows(gs, AddDir(t, at, n, i))
  {
    hide Valid, IsDir, DirOf;
    var t' := AddDir(t, at, n, i);
    forall d | d in t' ensures IsDir(gs, d) && DirOf(gs, d) == t'[d] {
      if d != at && d != i {
        assert Intact(fs, gs, d);
      }
    }
  }

  /** What Rmdir does to the volume is RemoveDir on the tree. */
  lemma RmdirShows(fs: Fs, gs: Fs, t: Tree, dep: map<nat, nat>, at: nat, d: nat, n: Name)
    requires WellFormed(t, dep) && Shows(fs, t) && Link(t, at, n, d) && Gone(fs, gs, at, d, n)
    ensures Shows(gs, RemoveDir(t, at, d))
  {
    hide Valid, IsDir, DirOf, WellFormed;
    TreeAt(t, dep, at);
    var t' := RemoveDir(t, at, d);
    assert Unlisted(t[at], d) == t[at] - {n};
    forall c | c in t' ensures IsDir(gs, c) && DirOf(gs, c) == t'[c] {
      if c != at {
        assert Intact(fs, gs, c);
      }
    }
  }
}
