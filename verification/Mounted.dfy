/** What a mounted partition stands for, a tree of directories and the bytes of each file, and the
    one invariant that every operation needs and keeps. */
module Mounted {
  import opened Bytes
  import opened BlockMap
  import opened Volume
  import opened Directory
  import opened DirUpdate
  import opened Namespace
  import opened Paths
  import opened Tree
  import opened TreeOps
  import opened Backing
  import FileData

  /** Directories by inode number, and the contents of regular files. */
  datatype View = View(tree: Tree, files: map<nat, seq<byte>>)

  // ---------------------------------------------------------------- the invariant

  /** Name n of directory d, not a dot, stands for inode i. */
  ghost predicate Named(t: Tree, d: nat, n: Name, i: nat) {
    d in t && n in t[d] && Ordinary(n) && t[d][n].ino == i
  }

  ghost predicate HasName(t: Tree, i: nat) { exists d, n :: Named(t, d, n, i) }

  /** Every name stands for a directory or a file, as its type says. */
  ghost predicate Kinds(v: View) {
    && v.tree.Keys !! v.files.Keys
    && forall d, n, i :: Named(v.tree, d, n, i) ==>
         if v.tree[d][n].ftype == FT_DIRECTORY then i in v.tree else v.tree[d][n].ftype == FT_REGULAR && i in v.files
  }

  /** Every file, and every directory but the root, has exactly one name. */
  ghost predicate NamedOnce(v: View) {
    && (forall d, n, e, m, i :: Named(v.tree, d, n, i) && Named(v.tree, e, m, i) ==> d == e && n == m)
    && (forall i :: i in v.tree.Keys + v.files.Keys && i != 0 ==> HasName(v.tree, i))
  }

  ghost predicate Good(v: View, dep: map<nat, nat>) {
    WellFormed(v.tree, dep) && Kinds(v) && NamedOnce(v)
  }

  /** The partition holds the view: its inodes are the directories and files, as they are. */
  ghost predicate Holds(fs: Fs, v: View) {
    && fs.inodes.Keys == v.tree.Keys + v.files.Keys && (forall i :: i in fs.inodes ==> i < MAX_INODES)
    && Shows(fs, v.tree) && (forall d :: d in v.tree ==> Small(fs, d))
    && forall i :: i in v.files ==> IsFile(fs, i) && FileBytes(fs, i) == v.files[i]
  }

  ghost predicate Global(fs: Fs, v: View, dep: map<nat, nat>) {
    Valid(fs) && Holds(fs, v) && Good(v, dep)
  }

  // ---------------------------------------------------------------- what it gives the operations

  /** Every live entry is in the map of the directory. */
  lemma LiveIsListed(fs: Fs, d: nat, e: DirEntry)
    requires IsDir(fs, d) && e in LiveIn(fs, d)
    ensures NameOf(e) in DirOf(fs, d) && DirOf(fs, d)[NameOf(e)] == Target(e.ino, e.ftype)
  {
    hide NameOf, Live, Blocks, Sound, UniqueInos, AllNamed, CleanBlocks, DotsFirst, NoIdleBlock;
    var live := LiveIn(fs, d);
    assert NameOf(e) in Names(live);
    NameListed(live, NameOf(e));
    SameNameSameEntry(live, e, Lookup(live, NameOf(e)).value);
  }

  lemma SameNameSameEntry(live: seq<DirEntry>, e: DirEntry, f: DirEntry)
    requires Distinct(live) && e in live && f in live && NameOf(e) == NameOf(f)
    ensures e == f
  {
    hide NameOf;
    var u :| 0 <= u < |live| && live[u] == e;
    var v :| 0 <= v < |live| && live[v] == f;
  }

  /** Every directory is ready to take and to lose names. */
  lemma GlobalReady(fs: Fs, v: View, dep: map<nat, nat>, d: nat)
    requires Global(fs, v, dep) && d in v.tree
    ensures ReadyDir(fs, d) && DirOf(fs, d) == v.tree[d] && d < MAX_INODES
  {
    hide Valid, IsDir, DirOf, LiveIn, NameOf, WellFormed, NamedOnce, IsFile, FileBytes;
    forall e | e in LiveIn(fs, d) && !IsDot(e) ensures e.ino in fs.inodes {
      LiveIsListed(fs, d, e);
      assert Named(v.tree, d, NameOf(e), e.ino);
    }
  }

  /** A number that no inode has is named nowhere. */
  lemma FreeIsUnused(fs: Fs, v: View, dep: map<nat, nat>, i: nat)
    requires Global(fs, v, dep) && i !in fs.inodes
    ensures Unused(v.tree, i)
  {
    hide Valid, IsDir, DirOf, NamedOnce, IsFile, FileBytes, WellFormed;
    RootIsThere(v.tree, dep);
    forall d, n | d in v.tree && n in v.tree[d] ensures v.tree[d][n].ino != i {
      TreeAt(v.tree, dep, d);
      assert Ordinary(n) ==> Named(v.tree, d, n, v.tree[d][n].ino);
    }
  }

  /** The fields of every inode fit their record. */
  lemma GlobalFits(fs: Fs, v: View, dep: map<nat, nat>)
    requires Global(fs, v, dep)
    ensures AllFit(fs)
  {
    hide Good, DirOf, FileBytes, WellFormed;
    forall i | i in fs.inodes ensures Fits(fs.inodes[i]) {
      if i in v.files {
        FileFits(fs, i);
      } else {
        DirFits(fs, i);
      }
    }
  }

  lemma PointersFit(fs: Fs, i: nat)
    requires Valid(fs) && i in fs.inodes
    ensures |fs.inodes[i].secs| == 13 && forall k :: 0 <= k < 13 ==> fs.inodes[i].secs[k] < WORD_LIMIT
  {
    hide Blocks;
    var secs := fs.inodes[i].secs;
    forall k | 0 <= k < 12 ensures secs[k] < WORD_LIMIT {
      DirectBlock(fs.disk, secs, k);
    }
  }

  lemma FileFits(fs: Fs, i: nat)
    requires Valid(fs) && IsFile(fs, i)
    ensures Fits(fs.inodes[i])
  {
    hide Valid, Blocks, Exactly;
    PointersFit(fs, i);
  }

  lemma DirFits(fs: Fs, i: nat)
    requires Valid(fs) && IsDir(fs, i)
    ensures Fits(fs.inodes[i])
  {
    hide Valid, Blocks, DirBlocks;
    PointersFit(fs, i);
    FewEntries(fs.disk, Blocks(fs.disk, fs.inodes[i].secs), fs.inodes[i].size);
  }

  lemma FewEntries(d: Disk, bm: seq<nat>, size: nat)
    requires DirBlocks(d, bm, size)
    ensures size <= ENTRY_SIZE * PER_SECTOR * MAX_BLOCKS
  {
    hide Slots, Entries, LiveOf, UniqueInos, AllNamed, CleanBlocks, DotsFirst, NoIdleBlock, Distinct;
    FewSlots(d, bm, MAX_BLOCKS);
    LiveIsShort(Slots(d, bm, 0, MAX_BLOCKS));
  }

  lemma {:induction false} FewSlots(d: Disk, bm: seq<nat>, n: nat)
    requires n <= |bm| && forall k :: 0 <= k < |bm| ==> bm[k] < |d|
    ensures |Slots(d, bm, 0, n)| <= PER_SECTOR * n
  {
    if n > 0 {
      FewSlots(d, bm, n - 1);
    }
  }

  lemma {:induction false} LiveIsShort(es: seq<DirEntry>)
    ensures |LiveOf(es)| <= |es|
  {
    if es != [] {
      LiveIsShort(es[..|es| - 1]);
    }
  }

  // ---------------------------------------------------------------- what an operation leaves alone

  ghost predicate DirHeld(fs: Fs, v: View, d: nat) {
    d in v.tree && IsDir(fs, d) && DirOf(fs, d) == v.tree[d] && Small(fs, d)
  }

  ghost predicate FileHeld(fs: Fs, v: View, i: nat) { i in v.files && IsFile(fs, i) && FileBytes(fs, i) == v.files[i] }

  /** Outside `changed` the views agree. */
  ghost predicate SameBut(v: View, w: View, changed: set<nat>) {
    && (forall d :: d in w.tree && d !in changed ==> d in v.tree && w.tree[d] == v.tree[d])
    && (forall i :: i in w.files && i !in changed ==> i in v.files && w.files[i] == v.files[i])
  }

  lemma HoldsAfter(fs: Fs, gs: Fs, v: View, w: View, changed: set<nat>)
    requires Holds(fs, v) && AllIntactBut(fs, gs, changed) && SameBut(v, w, changed)
    requires gs.inodes.Keys == w.tree.Keys + w.files.Keys && forall i :: i in gs.inodes ==> i < MAX_INODES
    requires forall d :: d in w.tree && d in changed ==> DirHeld(gs, w, d)
    requires forall i :: i in w.files && i in changed ==> FileHeld(gs, w, i)
    ensures Holds(gs, w)
  {
    hide IsDir, DirOf, IsFile, FileBytes, LiveIn, Small;
    forall d | d in w.tree ensures IsDir(gs, d) && DirOf(gs, d) == w.tree[d] {
      assert d !in changed ==> Intact(fs, gs, d);
      assert d in changed ==> DirHeld(gs, w, d);
    }
    forall i | i in w.files ensures IsFile(gs, i) && FileBytes(gs, i) == w.files[i] {
      assert i !in changed ==> Intact(fs, gs, i);
      assert i in changed ==> FileHeld(gs, w, i);
    }
  }

  lemma HoldsKeys(fs: Fs, v: View)
    requires Holds(fs, v)
    ensures fs.inodes.Keys == v.tree.Keys + v.files.Keys && forall i :: i in fs.inodes ==> i < MAX_INODES
  {
  }

  lemma HoldsDir(fs: Fs, v: View, d: nat)
    requires Holds(fs, v) && d in v.tree
    ensures DirHeld(fs, v, d)
  {
  }

  lemma EnrolledKeys(fs: Fs, gs: Fs, parent: nat, i: nat)
    requires Enrolled(fs, gs, parent, i)
    ensures gs.inodes.Keys == fs.inodes.Keys + {i} && i < MAX_INODES && i !in fs.inodes
  {
  }

  lemma GoneFacts(fs: Fs, gs: Fs, parent: nat, i: nat, n: Name)
    requires Gone(fs, gs, parent, i, n)
    ensures Valid(gs) && gs.inodes.Keys == fs.inodes.Keys - {i} && AllIntactBut(fs, gs, {parent, i})
    ensures IsDir(fs, parent) && IsDir(gs, parent) && DirOf(gs, parent) == DirOf(fs, parent) - {n}
    ensures StaysSmall(fs, gs, parent)
  {
    hide Valid, IsDir, DirOf, AllIntactBut, Leaked, Marked, OwnedBy, Small;
  }

  // ---------------------------------------------------------------- one name more or less

  ghost predicate Unique(t: Tree) {
    forall d, n, e, m, i :: Named(t, d, n, i) && Named(t, e, m, i) ==> d == e && n == m
  }

  ghost predicate OneNameMore(t: Tree, t': Tree, at: nat, n: Name, i: nat) {
    && !HasName(t, i)
    && forall d, m, x :: Named(t', d, m, x) <==> Named(t, d, m, x) || (d == at && m == n && x == i)
  }

  ghost predicate OneNameLess(t: Tree, t': Tree, at: nat, n: Name, i: nat) {
    && Named(t, at, n, i)
    && forall d, m, x :: Named(t', d, m, x) <==> Named(t, d, m, x) && !(d == at && m == n)
  }

  lemma MoreNames(t: Tree, t': Tree, at: nat, n: Name, i: nat)
    requires Unique(t) && OneNameMore(t, t', at, n, i)
    ensures Unique(t') && forall x :: HasName(t', x) <==> HasName(t, x) || x == i
  {
    forall d, m, x | Named(t', d, m, x) ensures Named(t, d, m, x) || (d == at && m == n && x == i) {
    }
    forall x ensures HasName(t', x) <==> HasName(t, x) || x == i {
      if HasName(t, x) {
        var d, m :| Named(t, d, m, x);
        assert Named(t', d, m, x);
      }
      assert Named(t', at, n, i);
      if HasName(t', x) {
        var d, m :| Named(t', d, m, x);
      }
    }
  }

  lemma LessNames(t: Tree, t': Tree, at: nat, n: Name, i: nat)
    requires Unique(t) && OneNameLess(t, t', at, n, i)
    ensures Unique(t') && forall x :: HasName(t', x) <==> HasName(t, x) && x != i
  {
    forall x ensures HasName(t', x) <==> HasName(t, x) && x != i {
      if HasName(t', x) {
        var d, m :| Named(t', d, m, x);
        assert Named(t, d, m, x);
      }
      if HasName(t, x) && x != i {
        var d, m :| Named(t, d, m, x);
        assert Named(t', d, m, x);
      }
    }
  }

  lemma UnusedHasNoName(t: Tree, i: nat)
    requires Unused(t, i)
    ensures !HasName(t, i)
  {
  }

  // ---------------------------------------------------------------- a new file

  function AddFileTo(v: View, at: nat, n: Name, i: word): View
    requires at in v.tree
  {
    View(AddFile(v.tree, at, n, i), v.files[i := []])
  }

  lemma AddFileNames(t: Tree, at: nat, n: Name, i: word)
    requires at in t && n !in t[at] && Ordinary(n) && Unused(t, i)
    ensures OneNameMore(t, AddFile(t, at, n, i), at, n, i)
  {
    UnusedHasNoName(t, i);
  }

  lemma AddFileGood(v: View, dep: map<nat, nat>, at: nat, n: Name, i: word)
    requires Good(v, dep) && at in v.tree && n !in v.tree[at] && Ordinary(n) && IsComponent(n) && Unused(v.tree, i)
      && i !in v.files
    ensures Good(AddFileTo(v, at, n, i), dep)
  {
    hide WellFormed, Unused, Unique, HasName;
    var w := AddFileTo(v, at, n, i);
    AddFileKeepsTree(v.tree, dep, at, n, i);
    AddFileNames(v.tree, at, n, i);
    MoreNames(v.tree, w.tree, at, n, i);
    AddFileKinds(v, at, n, i);
  }

  lemma AddFileKinds(v: View, at: nat, n: Name, i: word)
    requires Kinds(v) && at in v.tree && n !in v.tree[at] && Ordinary(n) && Unused(v.tree, i) && i !in v.files
    ensures Kinds(AddFileTo(v, at, n, i))
  {
    var w := AddFileTo(v, at, n, i);
    forall d, m, x | Named(w.tree, d, m, x)
      ensures
        if w.tree[d][m].ftype == FT_DIRECTORY then x in w.tree else w.tree[d][m].ftype == FT_REGULAR && x in w.files
    {
      assert !(d == at && m == n) ==> Named(v.tree, d, m, x);
    }
  }

  lemma CreateKeeps(fs: Fs, gs: Fs, v: View, dep: map<nat, nat>, at: nat, i: word, n: Name)
    requires Global(fs, v, dep) && at in v.tree && n !in v.tree[at] && Ordinary(n) && IsComponent(n)
    requires Created(fs, gs, at, i, n)
    ensures Global(gs, AddFileTo(v, at, n, i), dep)
  {
    hide Valid, IsDir, DirOf, IsFile, FileBytes, Good, Leaked, AllIntactBut, Holds, Enrolled, Unused, Small;
    EnrolledKeys(fs, gs, at, i);
    HoldsKeys(fs, v);
    HoldsDir(fs, v, at);
    FreeIsUnused(fs, v, dep, i);
    AddFileGood(v, dep, at, n, i);
    GoodKeys(v, dep);
    HoldsAfter(fs, gs, v, AddFileTo(v, at, n, i), {at, i});
  }

  // ---------------------------------------------------------------- a new directory

  function AddDirTo(v: View, at: nat, n: Name, i: word): View
    requires at in v.tree && at < WORD_LIMIT
  {
    v.(tree := AddDir(v.tree, at, n, i))
  }

  lemma AddDirNames(t: Tree, at: nat, n: Name, i: word)
    requires at in t && at < WORD_LIMIT && n !in t[at] && Ordinary(n) && Unused(t, i)
    ensures OneNameMore(t, AddDir(t, at, n, i), at, n, i)
  {
    UnusedHasNoName(t, i);
  }

  lemma AddDirGood(v: View, dep: map<nat, nat>, at: nat, n: Name, i: word)
    requires Good(v, dep) && at in v.tree && at < WORD_LIMIT && at in dep
    requires n !in v.tree[at] && Ordinary(n) && IsComponent(n) && Unused(v.tree, i) && i !in v.files
    ensures Good(AddDirTo(v, at, n, i), dep[i := dep[at] + 1])
  {
    hide WellFormed, Unused, Unique, HasName;
    var w := AddDirTo(v, at, n, i);
    AddDirKeepsTree(v.tree, dep, at, n, i);
    AddDirNames(v.tree, at, n, i);
    MoreNames(v.tree, w.tree, at, n, i);
    AddDirKinds(v, at, n, i);
  }

  lemma AddDirKinds(v: View, at: nat, n: Name, i: word)
    requires Kinds(v) && at in v.tree && at < WORD_LIMIT && n !in v.tree[at] && Ordinary(n) && Unused(v.tree, i)
      && i !in v.files
    ensures Kinds(AddDirTo(v, at, n, i))
  {
    var w := AddDirTo(v, at, n, i);
    forall d, m, x | Named(w.tree, d, m, x)
      ensures
        if w.tree[d][m].ftype == FT_DIRECTORY then x in w.tree else w.tree[d][m].ftype == FT_REGULAR && x in w.files
    {
      assert !(d == at && m == n) ==> Named(v.tree, d, m, x);
    }
  }

  lemma MkdirKeeps(fs: Fs, gs: Fs, v: View, dep: map<nat, nat>, at: nat, i: word, n: Name)
    requires Global(fs, v, dep) && at in v.tree && n !in v.tree[at] && Ordinary(n) && IsComponent(n)
    requires MadeDir(fs, gs, at, i, n)
    ensures at in dep && Global(gs, AddDirTo(v, at, n, i), dep[i := dep[at] + 1])
  {
    hide Valid, IsDir, DirOf, IsFile, FileBytes, Good, Leaked, AllIntactBut, WellFormed, Dots, Holds, Enrolled, Unused,
      Kinds, Small;
    EnrolledKeys(fs, gs, at, i);
    HoldsKeys(fs, v);
    HoldsDir(fs, v, at);
    FreeIsUnused(fs, v, dep, i);
    GoodKeys(v, dep);
    HasDepth(v, dep, at);
    AddDirGood(v, dep, at, n, i);
    DotsAre(i, at);
    HoldsAfter(fs, gs, v, AddDirTo(v, at, n, i), {at, i});
  }

  lemma DotsAre(i: word, at: word)
    ensures Dots(i, at) == map[HERE := Target(i, FT_DIRECTORY), UP := Target(at, FT_DIRECTORY)]
  {
  }

  /** A directory that could not be named changes nothing but the bitmap. */
  lemma LostKeeps(fs: Fs, gs: Fs, v: View, dep: map<nat, nat>)
    requires Global(fs, v, dep) && LostOne(fs, gs)
    ensures Global(gs, v, dep) && |Leaked(gs)| == |Leaked(fs)| + 1 && gs.inodes == fs.inodes
  {
    hide Valid, Good, Leaked, AllIntactBut, Shows, IsFile, FileBytes, Small;
    HoldsAfter(fs, gs, v, v, {});
  }

  // ---------------------------------------------------------------- removal

  function RemoveFileFrom(v: View, at: nat, n: Name, i: nat): View
    requires at in v.tree
  {
    View(RemoveFile(v.tree, at, n), v.files - {i})
  }

  lemma RemoveFileGood(v: View, dep: map<nat, nat>, at: nat, n: Name, i: nat)
    requires Good(v, dep) && Named(v.tree, at, n, i) && i in v.files
    ensures v.tree[at][n].ftype == FT_REGULAR && Good(RemoveFileFrom(v, at, n, i), dep)
  {
    hide WellFormed;
    var w := RemoveFileFrom(v, at, n, i);
    RemoveFileKeepsTree(v.tree, dep, at, n);
    forall d, m, x ensures Named(w.tree, d, m, x) <==> Named(v.tree, d, m, x) && !(d == at && m == n) {
    }
    LessNames(v.tree, w.tree, at, n, i);
    forall d, m, x | Named(w.tree, d, m, x)
      ensures
        if w.tree[d][m].ftype == FT_DIRECTORY then x in w.tree else w.tree[d][m].ftype == FT_REGULAR && x in w.files
    {
      assert Named(v.tree, d, m, x) && HasName(w.tree, x);
    }
  }

  lemma UnlinkKeeps(fs: Fs, gs: Fs, v: View, dep: map<nat, nat>, at: nat, i: nat, n: Name)
    requires Global(fs, v, dep) && Named(v.tree, at, n, i) && i in v.files && Gone(fs, gs, at, i, n)
    ensures Global(gs, RemoveFileFrom(v, at, n, i), dep)
  {
    hide Valid, IsDir, DirOf, IsFile, FileBytes, Good, AllIntactBut, Holds, Gone, Small;
    GoneFacts(fs, gs, at, i, n);
    HoldsKeys(fs, v);
    HoldsDir(fs, v, at);
    RemoveFileGood(v, dep, at, n, i);
    GoodKeys(v, dep);
    HoldsAfter(fs, gs, v, RemoveFileFrom(v, at, n, i), {at, i});
  }

  lemma GoodKeys(v: View, dep: map<nat, nat>)
    requires Good(v, dep)
    ensures v.tree.Keys !! v.files.Keys
  {
  }

  lemma HasDepth(v: View, dep: map<nat, nat>, d: nat)
    requires Good(v, dep) && d in v.tree
    ensures d in dep
  {
    TreeAt(v.tree, dep, d);
  }

  lemma GoodApart(v: View, dep: map<nat, nat>)
    requires Good(v, dep)
    ensures v.tree.Keys !! v.files.Keys && WellFormed(v.tree, dep) && Kinds(v)
  {
  }

  lemma RemoveDirGood(v: View, dep: map<nat, nat>, at: nat, n: Name, d: nat)
    requires Good(v, dep) && Link(v.tree, at, n, d) && Empty(v.tree, d)
    ensures Good(v.(tree := RemoveDir(v.tree, at, d)), dep)
  {
    hide WellFormed;
    var w := v.(tree := RemoveDir(v.tree, at, d));
    RmdirKeeps(v.tree, dep, at, n, d);
    TreeAt(v.tree, dep, at);
    assert Named(v.tree, at, n, d);
    forall e, m, x ensures Named(w.tree, e, m, x) <==> Named(v.tree, e, m, x) && !(e == at && m == n) {
      assert e == d && m in v.tree[d] ==> m in v.tree[d].Keys;
      assert e == at && Named(v.tree, at, m, x) && x == d ==> m == n;
    }
    LessNames(v.tree, w.tree, at, n, d);
    forall e, m, x | Named(w.tree, e, m, x)
      ensures
        if w.tree[e][m].ftype == FT_DIRECTORY then x in w.tree else w.tree[e][m].ftype == FT_REGULAR && x in w.files
    {
      assert Named(v.tree, e, m, x) && HasName(w.tree, x);
    }
  }

  lemma RmdirVolume(fs: Fs, gs: Fs, v: View, dep: map<nat, nat>, at: nat, d: nat, n: Name)
    requires Global(fs, v, dep) && Link(v.tree, at, n, d) && Empty(v.tree, d) && Gone(fs, gs, at, d, n)
    ensures Global(gs, v.(tree := RemoveDir(v.tree, at, d)), dep)
  {
    hide Valid, IsDir, DirOf, IsFile, FileBytes, Good, AllIntactBut, Holds, Gone, WellFormed, Unlisted, Kinds, Small;
    GoneFacts(fs, gs, at, d, n);
    HoldsKeys(fs, v);
    HoldsDir(fs, v, at);
    RemoveDirGood(v, dep, at, n, d);
    GoodKeys(v, dep);
    GoodApart(v, dep);
    UnlistedOne(v.tree, dep, at, n, d);
    HoldsAfter(fs, gs, v, v.(tree := RemoveDir(v.tree, at, d)), {at, d});
  }

  lemma UnlistedOne(t: Tree, dep: map<nat, nat>, at: nat, n: Name, d: nat)
    requires WellFormed(t, dep) && Link(t, at, n, d)
    ensures Unlisted(t[at], d) == t[at] - {n}
  {
    hide WellFormed;
    TreeAt(t, dep, at);
  }

  // ---------------------------------------------------------------- writing

  lemma WriteKeeps(fs: Fs, gs: Fs, v: View, dep: map<nat, nat>, i: nat, buf: seq<byte>, lost: set<nat>)
    requires Global(fs, v, dep) && i in v.files && FileData.Appended(fs, gs, i, buf, lost)
    ensures Global(gs, v.(files := v.files[i := v.files[i] + buf]), dep) && |Leaked(gs)| == |Leaked(fs)| + |lost|
  {
    hide Valid, IsDir, DirOf, IsFile, FileBytes, WellFormed, NamedOnce, Leaked, AllIntactBut, Claimed, OwnedBy, Sound,
      Small;
    GrewIntact(fs, gs, i, lost);
    var w := v.(files := v.files[i := v.files[i] + buf]);
    HoldsAfter(fs, gs, v, w, {i});
    assert Kinds(w);
    SameNames(v, w);
  }

  lemma SameNames(v: View, w: View)
    requires NamedOnce(v) && w.tree == v.tree && w.files.Keys == v.files.Keys
    ensures NamedOnce(w)
  {
  }
}
