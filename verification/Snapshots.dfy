/** What each call does to a mounted partition, on snapshots of it. */
module Snapshots {
  import opened Bytes
  import opened BlockMap
  import opened Volume
  import opened Directory
  import opened DirDelete
  import opened Namespace
  import opened Paths
  import opened Tree
  import opened TreeOps
  import opened Backing
  import opened Mounted
  import opened Fates
  import opened Resolve
  import FileData
  import IT = InodeTable

  /** The partition, the sectors of the inode table, the view they hold, the depth of each directory,
      and how many sectors are marked that nobody owns. */
  datatype Snap = Snap(fs: Fs, tab: Disk, lba: nat, v: View, dep: map<nat, nat>, losses: nat)

  ghost predicate InOrder(k: Snap) {
    Kept(k.fs, k.tab, k.lba, k.v, k.dep) && |Leaked(k.fs)| == k.losses
  }

  lemma OrderGlobal(k: Snap)
    requires InOrder(k)
    ensures Global(k.fs, k.v, k.dep) && Good(k.v, k.dep) && WellFormed(k.v.tree, k.dep)
    ensures Kept(k.fs, k.tab, k.lba, k.v, k.dep) && IT.HasRecords(k.tab, k.lba, MAX_INODES)
  {
  }

  /** The directories on the disk are those of the view. */
  lemma OrderShows(k: Snap)
    requires InOrder(k)
    ensures Shows(k.fs, k.v.tree) && WellFormed(k.v.tree, k.dep)
  {
    hide IsDir, DirOf, WellFormed, IsFile, FileBytes, NamedOnce, Kinds, Valid, Backed, Leaked;
  }

  /** The bitmap marks exactly the sectors that inodes own, if and only if nothing was lost. */
  lemma OrderBalanced(k: Snap)
    requires InOrder(k)
    ensures Balanced(k.fs) <==> k.losses == 0
  {
    hide Balanced, Leaked, Backed, Holds, Good;
    BalancedIsLeakFree(k.fs);
  }

  // ---------------------------------------------------------------- inode_open

  /** Opening j loads the record of an inode of the partition, as it is in the table at that time. */
  ghost predicate FromTable(k: Snap, e: IT.Event) {
    && InOrder(k) && e.Opening? && e.k in k.fs.inodes && IT.HasRecords(k.tab, k.lba, e.k + 1)
    && e.loaded == IT.Load(k.tab, k.lba, e.k)
  }

  /** On a partition in order, whatever calls lie between, a history in which only inodes that exist are
      opened, and none is closed more often than opened, is one that the cache of inodes counts right. */
  lemma {:induction false} OpensAreLegal(h: seq<IT.Event>, ks: seq<Snap>)
    requires |ks| == |h| && forall j :: 0 <= j < |h| ==>
      if h[j].Opening? then FromTable(ks[j], h[j]) else IT.Balance(h[..j], h[j].k) > 0
    ensures IT.Legal(h)
  {
    hide InOrder, IT.Load, FromTable;
    if h != [] {
      var n := |h| - 1;
      forall j | 0 <= j < n ensures
        if h[..n][j].Opening? then FromTable(ks[..n][j], h[..n][j]) else IT.Balance(h[..n][..j], h[..n][j].k) > 0
      {
        assert h[..n][..j] == h[..j];
      }
      OpensAreLegal(h[..n], ks[..n]);
      if h[n].Opening? {
        OwnNumber(ks[n], h[n]);
      }
    }
  }

  lemma OwnNumber(k: Snap, e: IT.Event)
    requires FromTable(k, e)
    ensures e.loaded.ino == e.k
  {
    hide IT.Load, Global, Leaked;
    assert HoldsRec(k.fs, k.tab, k.lba, e.k);
  }

  // ---------------------------------------------------------------- directories with an indirect table

  /** No directory of a partition in order has all 128 blocks of an indirect table. */
  lemma NeverFull(k: Snap, d: nat)
    requires InOrder(k) && d in k.v.tree
    ensures IsDir(k.fs, d) && d in k.fs.inodes && Readable(k.fs.disk, k.fs.inodes[d].secs)
    ensures SomeAbsent(Blocks(k.fs.disk, k.fs.inodes[d].secs))
  {
    hide InOrder, Kept, Global, WellFormed, Good, IsDir, DirOf, Blocks;
    OrderGlobal(k);
    HeldDir(k.fs, k.v, k.dep, d);
    HeldSmall(k.fs, k.v, k.dep, d);
    DirIsReadable(k.fs, d);
    assert Blocks(k.fs.disk, k.fs.inodes[d].secs)[DIRECT + 1] == 0;
  }

  lemma HeldSmall(fs: Fs, v: View, dep: map<nat, nat>, d: nat)
    requires Global(fs, v, dep) && d in v.tree
    ensures Small(fs, d)
  {
  }

  // ---------------------------------------------------------------- where a name goes

  /** The directory that takes the last name of the path. */
  ghost function At(k: Snap, path: Path): nat
    requires MayMake(k.v.tree, path)
  {
    Search(k.v.tree, path).at
  }

  /** The partition can take name n into directory at. */
  ghost predicate Takes(k: Snap, at: nat, n: Name) {
    && Enterable(k.v, at, n) && Valid(k.fs) && ReadyDir(k.fs, at) && n !in DirOf(k.fs, at) && at < MAX_INODES
  }

  lemma TakesAt(k: Snap, at: nat, n: Name)
    requires InOrder(k) && at in k.v.tree && n !in k.v.tree[at] && Ordinary(n) && IsComponent(n) && IsName(n)
    ensures Takes(k, at, n)
  {
    hide ReadyDir, IsName, Kept, WellFormed, Good;
    OrderGlobal(k);
    GlobalReady(k.fs, k.v, k.dep, at);
  }

  /** Where sys_open and sys_mkdir go on, the directory can take the name. */
  lemma PlaceOf(k: Snap, path: Path)
    requires InOrder(k) && Resolve.Fits(path) && MayMake(k.v.tree, path)
    ensures Components(path) != [] && Takes(k, At(k, path), Last(Components(path)))
  {
    hide InOrder, Takes, Components, Search, WellFormed, Global, IsName, Kept, Resolve.Fits;
    OrderGlobal(k);
    MadeWhere(k.v.tree, k.dep, path);
    FitsNames(path, |Components(path)| - 1);
    TakesAt(k, At(k, path), Last(Components(path)));
  }

  // ---------------------------------------------------------------- sys_open with O_CREAT

  ghost function CreateFate(k: Snap, path: Path, slot: bool): Fate
    requires path != []
  {
    if !slot || path[|path| - 1] == SLASH || !MayMake(k.v.tree, path) then Refuses else FileFate(k.fs, At(k, path))
  }

  ghost predicate CreateDid(k: Snap, k': Snap, path: Path, slot: bool, r: int, fate: Fate) {
    && path != [] && fate == CreateFate(k, path, slot)
    && (fate == Refuses ==> r == -1 && k' == k)
    && (fate == Does ==> FileMade(k, k', path, r))
    && (fate == Breaks ==>
          MayMake(k.v.tree, path) && Components(path) != []
          && CreateEnds(k.fs, k'.fs, At(k, path), Last(Components(path)), r))
  }

  /** file_create has entered the empty file r into the directory the path leads to, under its last name,
      and the records of both were synced. */
  ghost predicate FileMade(k: Snap, k': Snap, path: Path, r: int) {
    && 0 <= r < NARROW && r !in k.fs.inodes && MayMake(k.v.tree, path) && Components(path) != []
    && var at, n := At(k, path), Last(Components(path));
    && at in k.v.tree && at in k'.fs.inodes && r in k'.fs.inodes && AllFit(k'.fs)
    && IT.HasRecords(k.tab, k.lba, MAX_INODES) && CreateEnds(k.fs, k'.fs, at, n, r)
    && k' == Snap(k'.fs, SyncBoth(k'.fs, k.tab, k.lba, at, r), k.lba, AddFileTo(k.v, at, n, r), k.dep, k.losses)
  }

  lemma CreateRefused(k: Snap, path: Path, slot: bool)
    requires path != [] && (!slot || path[|path| - 1] == SLASH || !MayMake(k.v.tree, path))
    ensures CreateDid(k, k, path, slot, -1, Refuses)
  {
  }

  /** Before inode_sync: the fields fit. */
  lemma CreateFits(k: Snap, gs: Fs, path: Path, r: int)
    requires InOrder(k) && MayMake(k.v.tree, path) && Components(path) != []
      && Takes(k, At(k, path), Last(Components(path)))
    requires CreateEnds(k.fs, gs, At(k, path), Last(Components(path)), r) && FileFate(k.fs, At(k, path)) == Does
    ensures 0 <= r < NARROW && At(k, path) in gs.inodes && r in gs.inodes && AllFit(gs)
    ensures IT.HasRecords(k.tab, k.lba, MAX_INODES)
    ensures At(k, path) in k.v.tree
    ensures var at, n := At(k, path), Last(Components(path));
      && r !in k.fs.inodes && Leaked(gs) == Leaked(k.fs)
      && Kept(gs, SyncBoth(gs, k.tab, k.lba, at, r), k.lba, AddFileTo(k.v, at, n, r), k.dep)
  {
    hide CreateEnds, FileFate, Kept, Components, Search, MayMake, AllFit, Valid, ReadyDir, DirOf, SyncBoth, Leaked,
      Global, WellFormed;
    OrderGlobal(k);
    CreateDoes(k.fs, gs, k.tab, k.lba, k.v, k.dep, At(k, path), Last(Components(path)), r);
  }

  lemma CreateConcludes(k: Snap, k': Snap, path: Path, r: int, fate: Fate)
    requires InOrder(k) && MayMake(k.v.tree, path) && Components(path) != []
      && Takes(k, At(k, path), Last(Components(path)))
    requires path != [] && path[|path| - 1] != SLASH && fate == FileFate(k.fs, At(k, path))
    requires CreateEnds(k.fs, k'.fs, At(k, path), Last(Components(path)), r) && k'.losses == k.losses
    requires fate == Refuses ==> k' == k.(fs := k'.fs)
    requires fate == Does ==>
      && AllFit(k'.fs) && IT.HasRecords(k.tab, k.lba, MAX_INODES) && At(k, path) in k'.fs.inodes && r in k'.fs.inodes
      && 0 <= r < NARROW && At(k, path) in k.v.tree
      && k'.tab == SyncBoth(k'.fs, k.tab, k.lba, At(k, path), r) && k'.lba == k.lba && k'.dep == k.dep
      && k'.v == AddFileTo(k.v, At(k, path), Last(Components(path)), r)
    ensures CreateDid(k, k', path, true, r, fate) && (fate != Breaks ==> InOrder(k'))
  {
    hide CreateEnds, FileFate, Kept, Components, Search, MayMake, AllFit, Valid, ReadyDir, DirOf, SyncBoth, Leaked,
      Takes;
    NewNeverLeaks(k.fs, At(k, path));
    if fate == Does {
      CreateFits(k, k'.fs, path, r);
    } else if fate == Refuses {
      CreateRefuses(k.fs, k'.fs, At(k, path), Last(Components(path)), r);
    }
  }

  lemma NewNeverLeaks(fs: Fs, at: nat)
    ensures FileFate(fs, at) != Leaks
  {
  }

  /** sys_open with O_CREAT, unless it breaks off, leaves a partition in order that was in order. */
  lemma CreateOrder(k: Snap, k': Snap, path: Path, slot: bool, r: int, fate: Fate)
    requires InOrder(k) && Resolve.Fits(path) && CreateDid(k, k', path, slot, r, fate) && fate != Breaks
    ensures InOrder(k') && k'.losses == k.losses
  {
    hide CreateEnds, FileFate, Kept, Components, Search, MayMake, AllFit, SyncBoth, Leaked, Takes, Resolve.Fits;
    if fate == Does {
      PlaceOf(k, path);
      CreateFits(k, k'.fs, path, r);
    } else if path[|path| - 1] != SLASH && MayMake(k.v.tree, path) {
      NewNeverLeaks(k.fs, At(k, path));
    }
  }

  // ---------------------------------------------------------------- sys_mkdir

  ghost function MkdirFate(k: Snap, path: Path): Fate {
    if Search(k.v.tree, path).Unset? then Breaks
    else if !MayMake(k.v.tree, path) then Refuses
    else DirFate(k.fs, At(k, path))
  }

  ghost predicate MkdirDid(k: Snap, k': Snap, path: Path, r: int, fate: Fate) {
    && fate == MkdirFate(k, path)
    && (fate == Refuses ==> r == -1 && k' == k)
    && (fate == Leaks ==> r == -1 && k' == k.(fs := k'.fs, losses := k.losses + 1))
    && (fate == Does ==> DirMade(k, k', path, r))
    && (fate != Refuses && !Search(k.v.tree, path).Unset? ==>
          MayMake(k.v.tree, path) && Components(path) != []
          && MkdirEnds(k.fs, k'.fs, At(k, path), Last(Components(path)), r))
  }

  /** sys_mkdir has entered directory r into the directory the path leads to, under its last name, and
      the records of both were synced. */
  ghost predicate DirMade(k: Snap, k': Snap, path: Path, r: int) {
    && 0 <= r < NARROW && r !in k.fs.inodes && MayMake(k.v.tree, path) && Components(path) != []
    && var at, n := At(k, path), Last(Components(path));
    && at in k.v.tree && at < NARROW && at in k.dep && at in k'.fs.inodes && r in k'.fs.inodes && AllFit(k'.fs)
    && IT.HasRecords(k.tab, k.lba, MAX_INODES)
    && k' == Snap(k'.fs, SyncBoth(k'.fs, k.tab, k.lba, at, r), k.lba, AddDirTo(k.v, at, n, r),
                  k.dep[r := k.dep[at] + 1], k.losses)
  }

  lemma MkdirRefused(k: Snap, path: Path)
    requires Search(k.v.tree, path).Unset? || !MayMake(k.v.tree, path)
    ensures MkdirDid(k, k, path, -1, if Search(k.v.tree, path).Unset? then Breaks else Refuses)
  {
  }

  lemma MkdirFits(k: Snap, gs: Fs, path: Path, r: int)
    requires InOrder(k) && MayMake(k.v.tree, path) && Components(path) != []
      && Takes(k, At(k, path), Last(Components(path)))
    requires MkdirEnds(k.fs, gs, At(k, path), Last(Components(path)), r) && DirFate(k.fs, At(k, path)) == Does
    ensures 0 <= r < NARROW && At(k, path) in gs.inodes && r in gs.inodes && AllFit(gs)
    ensures IT.HasRecords(k.tab, k.lba, MAX_INODES) && At(k, path) in k.dep && At(k, path) in k.v.tree
      && At(k, path) < NARROW
    ensures var at, n := At(k, path), Last(Components(path));
      && r !in k.fs.inodes && Leaked(gs) == Leaked(k.fs)
      && Kept(gs, SyncBoth(gs, k.tab, k.lba, at, r), k.lba, AddDirTo(k.v, at, n, r), k.dep[r := k.dep[at] + 1])
  {
    hide MkdirEnds, DirFate, Kept, Components, Search, MayMake, AllFit, Valid, ReadyDir, DirOf, SyncBoth, Leaked,
      Global, WellFormed;
    OrderGlobal(k);
    MkdirDoes(k.fs, gs, k.tab, k.lba, k.v, k.dep, At(k, path), Last(Components(path)), r);
  }

  lemma MkdirConcludes(k: Snap, k': Snap, path: Path, r: int, fate: Fate)
    requires InOrder(k) && MayMake(k.v.tree, path) && Components(path) != []
      && Takes(k, At(k, path), Last(Components(path)))
    requires fate == DirFate(k.fs, At(k, path)) && MkdirEnds(k.fs, k'.fs, At(k, path), Last(Components(path)), r)
    requires fate in {Refuses, Leaks} ==> k' == k.(fs := k'.fs, losses := k.losses + if fate == Leaks then 1 else 0)
    requires fate == Does ==>
      && AllFit(k'.fs) && IT.HasRecords(k.tab, k.lba, MAX_INODES) && At(k, path) in k'.fs.inodes && r in k'.fs.inodes
      && 0 <= r < NARROW && At(k, path) in k.v.tree && At(k, path) < NARROW && At(k, path) in k.dep
      && k'.tab == SyncBoth(k'.fs, k.tab, k.lba, At(k, path), r) && k'.lba == k.lba && k'.losses == k.losses
      && k'.dep == k.dep[r := k.dep[At(k, path)] + 1]
      && k'.v == AddDirTo(k.v, At(k, path), Last(Components(path)), r)
    ensures MkdirDid(k, k', path, r, fate) && (fate != Breaks ==> InOrder(k'))
  {
    hide MkdirEnds, DirFate, Kept, Components, Search, MayMake, AllFit, Valid, ReadyDir, DirOf, SyncBoth, Leaked, Takes;
    MissingIsSet(k, path);
    if fate == Does {
      MkdirFits(k, k'.fs, path, r);
    } else if fate == Leaks {
      MkdirLeaks(k.fs, k'.fs, k.tab, k.lba, k.v, k.dep, At(k, path), Last(Components(path)), r);
    } else if fate == Refuses {
      MkdirRefuses(k.fs, k'.fs, At(k, path), Last(Components(path)), r);
    }
  }

  /** sys_mkdir, unless it breaks off, leaves a partition in order that was in order; the sector it may
      leave behind is counted. */
  lemma MkdirOrder(k: Snap, k': Snap, path: Path, r: int, fate: Fate)
    requires InOrder(k) && Resolve.Fits(path) && MkdirDid(k, k', path, r, fate) && fate != Breaks
    ensures InOrder(k') && k'.losses == k.losses + if fate == Leaks then 1 else 0
  {
    hide MkdirEnds, DirFate, Kept, Components, Search, MayMake, AllFit, SyncBoth, Leaked, Takes, Resolve.Fits;
    if fate != Refuses {
      PlaceOf(k, path);
      if fate == Does {
        MkdirFits(k, k'.fs, path, r);
      } else {
        MkdirLeaks(k.fs, k'.fs, k.tab, k.lba, k.v, k.dep, At(k, path), Last(Components(path)), r);
      }
    }
  }

  lemma MissingIsSet(k: Snap, path: Path)
    requires MayMake(k.v.tree, path)
    ensures !Search(k.v.tree, path).Unset?
  {
  }

  // ---------------------------------------------------------------- sys_unlink

  /** The entry of inode i can leave directory at without harm to an indirect table. */
  ghost predicate SparedIn(fs: Fs, at: nat, i: nat) {
    && i < WORD_LIMIT && IsDir(fs, at) && Readable(fs.disk, fs.inodes[at].secs) && Spared(fs, at, i)
  }

  /** inUse are the inodes that file_table has open. */
  ghost function UnlinkFate(k: Snap, path: Path, inUse: set<nat>): Fate {
    var f := Search(k.v.tree, path);
    if !f.Regular? || f.ino in inUse then Refuses else if SparedIn(k.fs, f.at, f.ino) then Does else Breaks
  }

  /** The file the search ended at is gone, with its one name.  The path may go on behind that name. */
  ghost predicate FileGone(k: Snap, k': Snap, path: Path) {
    var f, j := Search(k.v.tree, path), Tried(k.v.tree, 0, Components(path));
    && f.Regular? && 0 < j <= |Components(path)| && f.at in k.v.tree
    && var n := Components(path)[j - 1];
    && Named(k.v.tree, f.at, n, f.ino) && f.ino in k.v.files && f.ino < MAX_INODES && f.at in k'.fs.inodes
    && AllFit(k'.fs) && IT.HasRecords(k.tab, k.lba, MAX_INODES) && Gone(k.fs, k'.fs, f.at, f.ino, n)
    && k' == Snap(k'.fs, SyncErase(k'.fs, k.tab, k.lba, f.at, f.ino), k.lba, RemoveFileFrom(k.v, f.at, n, f.ino),
                  k.dep, k.losses)
  }

  /** delete_dir_entry empties an indirect block: it hangs, or drops the table. */
  ghost predicate Torn(fs: Fs, gs: Fs, at: nat, i: nat) {
    && i < WORD_LIMIT && IsDir(fs, at) && Readable(fs.disk, fs.inodes[at].secs) && !Spared(fs, at, i)
    && (SomeAbsent(Blocks(fs.disk, fs.inodes[at].secs)) || TornOff(fs, gs, at, i))
  }

  ghost predicate UnlinkDid(k: Snap, k': Snap, path: Path, inUse: set<nat>, r: int, fate: Fate) {
    && fate == UnlinkFate(k, path, inUse)
    && (fate == Refuses ==> r == -1 && k' == k)
    && (fate == Does ==> r == 0 && FileGone(k, k', path))
    && (fate == Breaks ==> Torn(k.fs, k'.fs, Search(k.v.tree, path).at, Search(k.v.tree, path).ino))
  }

  /** What sys_unlink needs of the place it found. */
  ghost predicate Deletable(k: Snap, at: nat, i: nat, n: Name, ftype: word) {
    && i < MAX_INODES && i in k.fs.inodes && i != at && Valid(k.fs) && ReadyDir(k.fs, at)
      && Readable(k.fs.disk, k.fs.inodes[at].secs)
    && n in DirOf(k.fs, at) && DirOf(k.fs, at)[n] == Target(i, ftype) && Ordinary(n)
  }

  lemma DeletableAt(k: Snap, at: nat, n: Name)
    requires InOrder(k) && at in k.v.tree && n in k.v.tree[at] && Ordinary(n) && k.v.tree[at][n].ino != at
    ensures Deletable(k, at, k.v.tree[at][n].ino, n, k.v.tree[at][n].ftype)
  {
    hide ReadyDir, Kept, WellFormed, Good, DirOf, Readable, IsDir, Global;
    OrderGlobal(k);
    GlobalReady(k.fs, k.v, k.dep, at);
    ReadyIsDir(k.fs, at);
    DirIsReadable(k.fs, at);
    NamedIsThere(k.fs, k.v, k.dep, at, n);
  }

  lemma NamedIsThere(fs: Fs, v: View, dep: map<nat, nat>, at: nat, n: Name)
    requires Global(fs, v, dep) && at in v.tree && n in v.tree[at] && Ordinary(n)
    ensures Valid(fs) && v.tree[at][n].ino in fs.inodes && v.tree[at][n].ino < MAX_INODES
  {
    hide Valid, IsDir, DirOf, IsFile, FileBytes, WellFormed, NamedOnce;
    assert Named(v.tree, at, n, v.tree[at][n].ino);
  }

  /** The file of sys_unlink. */
  lemma FileAt(k: Snap, path: Path)
    requires InOrder(k) && Search(k.v.tree, path).Regular?
    ensures var f, j := Search(k.v.tree, path), Tried(k.v.tree, 0, Components(path));
      && 0 < j <= |Components(path)| && f.at in k.v.tree && Named(k.v.tree, f.at, Components(path)[j - 1], f.ino)
      && f.ino in k.v.files && IsFile(k.fs, f.ino)
      && Deletable(k, f.at, f.ino, Components(path)[j - 1], FT_REGULAR)
  {
    hide InOrder, Deletable, Components, WellFormed, Global, Search, Kept, IsFile, NamedOnce;
    OrderGlobal(k);
    FileFound(k.v, k.dep, path);
    var f, n := Search(k.v.tree, path), Components(path)[Tried(k.v.tree, 0, Components(path)) - 1];
    FileIsNoDir(k.v, k.dep, f.at, n, f.ino);
    DeletableAt(k, f.at, n);
    HeldFile(k.fs, k.v, k.dep, f.ino);
  }

  lemma FileIsNoDir(v: View, dep: map<nat, nat>, at: nat, n: Name, i: nat)
    requires Good(v, dep) && Named(v.tree, at, n, i) && i in v.files
    ensures i != at && v.tree[at][n].ftype == FT_REGULAR
  {
    hide WellFormed, NamedOnce;
  }

  lemma HeldFile(fs: Fs, v: View, dep: map<nat, nat>, i: nat)
    requires Global(fs, v, dep) && i in v.files
    ensures IsFile(fs, i) && FileBytes(fs, i) == v.files[i] && i in fs.inodes && |fs.inodes[i].secs| == 13
  {
  }

  lemma UnlinkRefused(k: Snap, path: Path, inUse: set<nat>)
    requires !Search(k.v.tree, path).Regular? || Search(k.v.tree, path).ino in inUse
    ensures UnlinkDid(k, k, path, inUse, -1, Refuses)
  {
  }

  lemma UnlinkFits(k: Snap, gs: Fs, path: Path, inUse: set<nat>)
    requires InOrder(k) && UnlinkFate(k, path, inUse) == Does
    requires var f, j := Search(k.v.tree, path), Tried(k.v.tree, 0, Components(path));
      && 0 < j <= |Components(path)| && f.at in k.v.tree && Named(k.v.tree, f.at, Components(path)[j - 1], f.ino)
      && f.ino in k.v.files && Gone(k.fs, gs, f.at, f.ino, Components(path)[j - 1])
    ensures var f, j := Search(k.v.tree, path), Tried(k.v.tree, 0, Components(path));
      && f.at in gs.inodes && f.ino < MAX_INODES && AllFit(gs) && IT.HasRecords(k.tab, k.lba, MAX_INODES)
      && Kept(gs, SyncErase(gs, k.tab, k.lba, f.at, f.ino), k.lba,
              RemoveFileFrom(k.v, f.at, Components(path)[j - 1], f.ino), k.dep)
      && Leaked(gs) == Leaked(k.fs)
  {
    hide Kept, Components, Search, AllFit, SyncErase, Leaked, Global, WellFormed, Gone, Tried;
    OrderGlobal(k);
    var f, j := Search(k.v.tree, path), Tried(k.v.tree, 0, Components(path));
    UnlinkDoes(k.fs, gs, k.tab, k.lba, k.v, k.dep, f.at, f.ino, Components(path)[j - 1]);
  }

  lemma UnlinkConcludes(k: Snap, k': Snap, path: Path, inUse: set<nat>)
    requires InOrder(k) && UnlinkFate(k, path, inUse) == Does
    requires var f, j := Search(k.v.tree, path), Tried(k.v.tree, 0, Components(path));
      && 0 < j <= |Components(path)| && f.at in k.v.tree && Named(k.v.tree, f.at, Components(path)[j - 1], f.ino)
      && f.ino in k.v.files && Gone(k.fs, k'.fs, f.at, f.ino, Components(path)[j - 1])
      && AllFit(k'.fs) && IT.HasRecords(k.tab, k.lba, MAX_INODES) && f.at in k'.fs.inodes && f.ino < MAX_INODES
      && k' == Snap(k'.fs, SyncErase(k'.fs, k.tab, k.lba, f.at, f.ino), k.lba,
        RemoveFileFrom(k.v, f.at, Components(path)[j - 1], f.ino), k.dep, k.losses)
    ensures UnlinkDid(k, k', path, inUse, 0, Does) && InOrder(k')
  {
    hide Kept, Components, Search, AllFit, SyncErase, Leaked, Gone, Tried, RemoveFileFrom, SparedIn, Named,
      IT.HasRecords;
    UnlinkFits(k, k'.fs, path, inUse);
  }

  /** sys_unlink, unless it breaks off, leaves a partition in order that was in order. */
  lemma UnlinkOrder(k: Snap, k': Snap, path: Path, inUse: set<nat>, r: int, fate: Fate)
    requires InOrder(k) && UnlinkDid(k, k', path, inUse, r, fate) && fate != Breaks
    ensures InOrder(k') && k'.losses == k.losses
  {
    hide Kept, Components, Search, AllFit, SyncErase, Leaked, Gone, Tried, RemoveFileFrom, SparedIn, Named,
      IT.HasRecords;
    if fate == Does {
      UnlinkConcludes(k, k', path, inUse);
    }
  }

  /** A removal that breaks off on a partition in order never drops a table: it does not return. */
  lemma UnlinkHangs(k: Snap, path: Path, inUse: set<nat>)
    requires InOrder(k) && UnlinkFate(k, path, inUse) == Breaks
    ensures var f := Search(k.v.tree, path);
      && f.Regular? && IsDir(k.fs, f.at) && Readable(k.fs.disk, k.fs.inodes[f.at].secs)
      && SomeAbsent(Blocks(k.fs.disk, k.fs.inodes[f.at].secs))
  {
    hide InOrder, Components, Search, Tried, Deletable, Named, IsFile, SparedIn, Blocks, IsDir, Readable, SomeAbsent;
    FileAt(k, path);
    NeverFull(k, Search(k.v.tree, path).at);
  }

  // ---------------------------------------------------------------- sys_rmdir

  ghost function RmdirFate(k: Snap, path: Path): Fate {
    var f := Search(k.v.tree, path);
    if f.Unset? then Breaks
    else if !f.Directory? || !Empty(k.v.tree, f.ino) then Refuses
    else if NoLastName(path) then Breaks
    else if SparedIn(k.fs, f.at, f.ino) then Does
    else Breaks
  }

  ghost predicate DirGone(k: Snap, k': Snap, path: Path) {
    var f := Search(k.v.tree, path);
    && f.Directory? && Components(path) != [] && f.at in k.v.tree && Empty(k.v.tree, f.ino)
    && var n := Last(Components(path));
    && Link(k.v.tree, f.at, n, f.ino) && f.ino < MAX_INODES && f.at in k'.fs.inodes
    && AllFit(k'.fs) && IT.HasRecords(k.tab, k.lba, MAX_INODES) && Gone(k.fs, k'.fs, f.at, f.ino, n)
    && k' == Snap(k'.fs, SyncErase(k'.fs, k.tab, k.lba, f.at, f.ino), k.lba,
                  k.v.(tree := RemoveDir(k.v.tree, f.at, f.ino)), k.dep, k.losses)
  }

  /** The path ends in a dot, or is the root. */
  ghost predicate NoLastName(path: Path) { Components(path) == [] || !Ordinary(Last(Components(path))) }

  /** dir_remove finds no entry of the directory where it looks, and frees the directory all the same. */
  ghost predicate Orphaned(k: Snap, k': Snap, d: nat) {
    && d in k.fs.inodes && d < MAX_INODES && IT.HasRecords(k.tab, k.lba, d + 1)
    && Freed(k.fs, k'.fs, d) && k' == k.(fs := k'.fs, tab := IT.Erased(k.tab, k.lba, d))
  }

  ghost predicate RmdirDid(k: Snap, k': Snap, path: Path, r: int, fate: Fate) {
    && fate == RmdirFate(k, path)
    && (fate == Refuses ==> r == -1 && k' == k)
    && (fate == Does ==> r == 0 && DirGone(k, k', path))
    && (fate == Breaks && !Search(k.v.tree, path).Unset? ==>
          if NoLastName(path) then r == 0 && Orphaned(k, k', Search(k.v.tree, path).ino)
          else Torn(k.fs, k'.fs, Search(k.v.tree, path).at, Search(k.v.tree, path).ino))
  }

  lemma RmdirEarly(k: Snap, path: Path)
    requires !Search(k.v.tree, path).Directory? || !Empty(k.v.tree, Search(k.v.tree, path).ino)
    ensures RmdirDid(k, k, path, -1, if Search(k.v.tree, path).Unset? then Breaks else Refuses)
  {
  }

  /** The directory a search ended at. */
  lemma DirFound(k: Snap, path: Path)
    requires InOrder(k) && Search(k.v.tree, path).Directory?
    ensures var f := Search(k.v.tree, path);
      && f.ino in k.v.tree && f.at in k.v.tree && IsDir(k.fs, f.ino) && DirOf(k.fs, f.ino) == k.v.tree[f.ino]
        && f.ino in k.fs.inodes
  {
    hide InOrder, Kept, Components, WellFormed, Global, Walk;
    OrderGlobal(k);
    RootIsThere(k.v.tree, k.dep);
    if Components(path) != [] {
      DirectoryAt(k.v.tree, k.dep, path);
      DestIsFold(k.v.tree, k.dep, 0, Components(path)[..|Components(path)| - 1]);
      EntryLeads(k.v, k.dep, Search(k.v.tree, path).at, Last(Components(path)));
    }
    HeldDir(k.fs, k.v, k.dep, Search(k.v.tree, path).ino);
    DirIsReadable(k.fs, Search(k.v.tree, path).ino);
  }

  lemma EntryLeads(v: View, dep: map<nat, nat>, d: nat, n: Name)
    requires Good(v, dep) && IsDirEntry(v.tree, d, n)
    ensures v.tree[d][n].ino in v.tree
  {
    hide NamedOnce;
    TreeAt(v.tree, dep, d);
    assert Ordinary(n) ==> Named(v.tree, d, n, v.tree[d][n].ino);
  }

  /** A path that ends in a name, to an empty directory. */
  lemma EmptyDirAt(k: Snap, path: Path)
    requires InOrder(k) && Search(k.v.tree, path).Directory? && Empty(k.v.tree, Search(k.v.tree, path).ino)
    requires Components(path) != [] && Ordinary(Last(Components(path)))
    ensures var f, n := Search(k.v.tree, path), Last(Components(path));
      && f.at in k.v.tree && Link(k.v.tree, f.at, n, f.ino) && Deletable(k, f.at, f.ino, n, FT_DIRECTORY)
  {
    hide InOrder, Kept, Components, WellFormed, Global, Walk, Deletable, Search;
    OrderGlobal(k);
    DirFound(k, path);
    var f, n := Search(k.v.tree, path), Last(Components(path));
    DirectoryAt(k.v.tree, k.dep, path);
    NotItsOwnParent(k.v, k.dep, f.at, n, f.ino);
    DeletableAt(k, f.at, n);
  }

  lemma NotItsOwnParent(v: View, dep: map<nat, nat>, at: nat, n: Name, d: nat)
    requires Good(v, dep) && at in v.tree && Link(v.tree, at, n, d) && Empty(v.tree, d)
    ensures d != at
  {
    hide NamedOnce, Kinds, WellFormed;
    assert n in v.tree[at].Keys;
  }

  lemma RmdirFits(k: Snap, gs: Fs, path: Path)
    requires InOrder(k) && Search(k.v.tree, path).Directory? && Components(path) != []
    requires var f, n := Search(k.v.tree, path), Last(Components(path));
      && f.at in k.v.tree && Link(k.v.tree, f.at, n, f.ino) && Empty(k.v.tree, f.ino) && Gone(k.fs, gs, f.at, f.ino, n)
    ensures var f := Search(k.v.tree, path);
      && f.at in gs.inodes && f.ino < MAX_INODES && AllFit(gs) && IT.HasRecords(k.tab, k.lba, MAX_INODES)
      && Kept(gs, SyncErase(gs, k.tab, k.lba, f.at, f.ino), k.lba, k.v.(tree := RemoveDir(k.v.tree, f.at, f.ino)),
        k.dep)
      && Leaked(gs) == Leaked(k.fs)
  {
    hide Kept, Components, Search, AllFit, SyncErase, Leaked, Global, WellFormed, Gone;
    OrderGlobal(k);
    var f := Search(k.v.tree, path);
    RmdirDoes(k.fs, gs, k.tab, k.lba, k.v, k.dep, f.at, f.ino, Last(Components(path)));
  }

  lemma RmdirConcludes(k: Snap, k': Snap, path: Path)
    requires InOrder(k) && RmdirFate(k, path) == Does && Components(path) != []
    requires var f, n := Search(k.v.tree, path), Last(Components(path));
      && f.at in k.v.tree && Link(k.v.tree, f.at, n, f.ino) && Empty(k.v.tree, f.ino)
        && Gone(k.fs, k'.fs, f.at, f.ino, n)
      && AllFit(k'.fs) && IT.HasRecords(k.tab, k.lba, MAX_INODES) && f.at in k'.fs.inodes && f.ino < MAX_INODES
      && k' == Snap(k'.fs, SyncErase(k'.fs, k.tab, k.lba, f.at, f.ino), k.lba,
        k.v.(tree := RemoveDir(k.v.tree, f.at, f.ino)), k.dep, k.losses)
    ensures RmdirDid(k, k', path, 0, Does) && InOrder(k')
  {
    hide Kept, Components, Search, AllFit, SyncErase, Leaked, Gone, RemoveDir, Last, Link, Empty, SparedIn,
      IT.HasRecords;
    RmdirFits(k, k'.fs, path);
  }

  /** sys_rmdir, unless it breaks off, leaves a partition in order that was in order. */
  lemma RmdirOrder(k: Snap, k': Snap, path: Path, r: int, fate: Fate)
    requires InOrder(k) && RmdirDid(k, k', path, r, fate) && fate != Breaks
    ensures InOrder(k') && k'.losses == k.losses
  {
    hide Kept, Components, Search, AllFit, SyncErase, Leaked, Gone, RemoveDir, Last;
    if fate == Does {
      RmdirConcludes(k, k', path);
    }
  }

  lemma RmdirHangs(k: Snap, path: Path)
    requires InOrder(k) && RmdirFate(k, path) == Breaks && !Search(k.v.tree, path).Unset? && !NoLastName(path)
    ensures var f := Search(k.v.tree, path);
      && f.Directory? && IsDir(k.fs, f.at) && Readable(k.fs.disk, k.fs.inodes[f.at].secs)
      && SomeAbsent(Blocks(k.fs.disk, k.fs.inodes[f.at].secs))
  {
    hide InOrder, Components, Search, SparedIn, Blocks, IsDir, Readable, SomeAbsent, DirOf, Last;
    DirFound(k, path);
    NeverFull(k, Search(k.v.tree, path).at);
  }

  lemma RmdirDots(k: Snap, k': Snap, path: Path)
    requires Search(k.v.tree, path).Directory? && Empty(k.v.tree, Search(k.v.tree, path).ino) && NoLastName(path)
    requires Orphaned(k, k', Search(k.v.tree, path).ino)
    ensures RmdirDid(k, k', path, 0, Breaks)
  {
    hide Components, Search, Orphaned;
  }

  /** The directory is the one it is looked for in. */
  lemma DotsAtItself(k: Snap, path: Path)
    requires InOrder(k) && Search(k.v.tree, path).Directory? && Empty(k.v.tree, Search(k.v.tree, path).ino)
    requires NoLastName(path)
    ensures Search(k.v.tree, path).at == Search(k.v.tree, path).ino
  {
    hide InOrder, Kept, Components, WellFormed, Global, Walk;
    OrderGlobal(k);
    var f := Search(k.v.tree, path);
    if Components(path) != [] {
      DirectoryAt(k.v.tree, k.dep, path);
      DotLeads(k.v.tree, k.dep, f.at, Last(Components(path)), f.ino);
    }
  }

  lemma DotLeads(t: Tree, dep: map<nat, nat>, at: nat, n: Name, d: nat)
    requires WellFormed(t, dep) && IsDirEntry(t, at, n) && !Ordinary(n) && t[at][n].ino == d && Empty(t, d)
    ensures at == d
  {
    hide WellFormed;
    TreeAt(t, dep, at);
    assert forall m :: Link(t, d, m, at) ==> m in t[d].Keys;
  }

  /** Afterwards the directory is gone from the disk, and its parent, if it is not the root, still names
      it. */
  lemma OrphanStillNamed(k: Snap, k': Snap, d: nat)
    requires InOrder(k) && d in k.v.tree && Empty(k.v.tree, d) && Orphaned(k, k', d)
    ensures d !in k'.fs.inodes && !InOrder(k')
    ensures d != 0 ==> exists p, n ::
      p != d && p in k.v.tree && Link(k.v.tree, p, n, d) && IsDir(k'.fs, p) && n in DirOf(k'.fs, p)
      && DirOf(k'.fs, p)[n] == Target(d, FT_DIRECTORY)
  {
    hide Kept, WellFormed, Leaked, DirOf, IsDir, Valid, Good;
    OrderGlobal(k);
    NotHeld(k', d);
    if d != 0 {
      var p, n := NamedByParent(k.v, k.dep, d);
      HeldDir(k.fs, k.v, k.dep, p);
      GlobalValid(k.fs, k.v, k.dep);
      FreedKeepsValid(k.fs, k'.fs, d);
      assert Intact(k.fs, k'.fs, p);
    }
  }

  lemma GlobalValid(fs: Fs, v: View, dep: map<nat, nat>)
    requires Global(fs, v, dep)
    ensures Valid(fs)
  {
  }

  lemma NotHeld(k: Snap, d: nat)
    requires d in k.v.tree && d !in k.fs.inodes
    ensures !InOrder(k)
  {
    if InOrder(k) {
      OrderGlobal(k);
      HeldDir(k.fs, k.v, k.dep, d);
    }
  }

  lemma NamedByParent(v: View, dep: map<nat, nat>, d: nat) returns (p: nat, n: Name)
    requires Good(v, dep) && d in v.tree && d != 0 && Empty(v.tree, d)
    ensures p in v.tree && p != d && Link(v.tree, p, n, d)
  {
    hide NamedOnce, Kinds, WellFormed;
    TreeAt(v.tree, dep, d);
    p := v.tree[d][UP].ino;
    n :| Link(v.tree, p, n, d);
    assert n in v.tree[p].Keys;
  }

  // ---------------------------------------------------------------- writing

  /** The regular file a path names, or nothing: a path that goes on behind a file names none. */
  ghost function FileOf(k: Snap, path: Path): int {
    var f := Search(k.v.tree, path);
    if f.Regular? && Tried(k.v.tree, 0, Components(path)) == |Components(path)| then f.ino else -1
  }

  ghost function AppendFate(k: Snap, path: Path, count: nat): Fate {
    var i := FileOf(k, path);
    if i < 0 || i !in k.fs.inodes || |k.fs.inodes[i].secs| != 13 then Refuses else WriteFate(k.fs, i, count)
  }

  /** file_write has appended the buffer, and the record was synced. */
  ghost predicate Longer(k: Snap, k': Snap, i: nat, buf: seq<byte>) {
    && i in k.v.files && i in k.fs.inodes && i in k'.fs.inodes && AllFit(k'.fs)
    && IT.HasRecords(k.tab, k.lba, MAX_INODES) && (exists lost :: FileData.Appended(k.fs, k'.fs, i, buf, lost))
    && k' == Snap(k'.fs, Sync(k'.fs, k.tab, k.lba, i), k.lba,
                  k.v.(files := k.v.files[i := k.v.files[i] + buf]), k.dep, k.losses + Filling(k.fs, i, buf))
  }

  /** One sector is lost where the file ends at its last possible byte. */
  ghost function Filling(fs: Fs, i: nat, buf: seq<byte>): nat
    requires i in fs.inodes
  {
    if buf != [] && fs.inodes[i].size + |buf| == MAX_FILE_SIZE then 1 else 0
  }

  ghost predicate AppendDid(k: Snap, k': Snap, path: Path, buf: seq<byte>, r: int, fate: Fate) {
    && fate == AppendFate(k, path, |buf|)
    && (fate == Refuses ==> r == -1 && k' == k)
    && (fate == Does ==> r == |buf| && FileOf(k, path) >= 0 && Longer(k, k', FileOf(k, path), buf))
    && (fate == Breaks ==> FileOf(k, path) >= 0 && FileOf(k, path) in k.fs.inodes)
    && (fate == Breaks && k.fs.inodes[FileOf(k, path)].size + |buf| < WORD_LIMIT ==>
          r == -1 && FileData.Unwritten(k.fs, k'.fs, FileOf(k, path)))
    && fate != Leaks
  }

  /** What sys_write needs of the file. */
  lemma WritableAt(k: Snap, path: Path)
    requires InOrder(k) && FileOf(k, path) >= 0
    ensures var i := FileOf(k, path);
      && i in k.v.files && Valid(k.fs) && IsFile(k.fs, i) && i in k.fs.inodes && |k.fs.inodes[i].secs| == 13
  {
    hide Components, Kept, WellFormed, Search, IsFile, Tried, Deletable, Valid;
    FileAt(k, path);
    OrderGlobal(k);
    HeldFile(k.fs, k.v, k.dep, FileOf(k, path));
  }

  /** The depths agree exactly when every name of the path was tried. */
  lemma RegularDepth(t: Tree, path: Path)
    requires Search(t, path).Regular?
    ensures !Special(path) && |Components(Joined(SearchedNames(t, path)))| == Tried(t, 0, Components(path))
  {
    JoinedComponents(SearchedNames(t, path));
  }

  lemma AppendRefused(k: Snap, path: Path, buf: seq<byte>)
    requires FileOf(k, path) < 0
    ensures AppendDid(k, k, path, buf, -1, Refuses)
  {
  }

  lemma AppendConcludes(k: Snap, gs: Fs, i: nat, buf: seq<byte>, lost: set<nat>)
    requires InOrder(k) && i in k.v.files && FileData.Appended(k.fs, gs, i, buf, lost)
    ensures i in k.fs.inodes && i in gs.inodes && AllFit(gs) && IT.HasRecords(k.tab, k.lba, MAX_INODES)
    ensures var k' := Snap(gs, Sync(gs, k.tab, k.lba, i), k.lba,
        k.v.(files := k.v.files[i := k.v.files[i] + buf]), k.dep, k.losses + Filling(k.fs, i, buf));
      Longer(k, k', i, buf) && InOrder(k')
  {
    hide Kept, AllFit, Sync, Leaked, FileData.Appended;
    WriteDoes(k.fs, gs, k.tab, k.lba, k.v, k.dep, i, buf, lost);
  }

  /** A write, unless it breaks off, leaves a partition in order that was in order. */
  lemma AppendOrder(k: Snap, k': Snap, path: Path, buf: seq<byte>, r: int, fate: Fate)
    requires InOrder(k) && AppendDid(k, k', path, buf, r, fate) && fate != Breaks
    ensures InOrder(k')
    ensures k'.losses == k.losses + if fate == Does then Filling(k.fs, FileOf(k, path), buf) else 0
  {
    hide InOrder, FileOf, AllFit, Sync, WriteFate, FileData.Appended;
    if fate == Does {
      var i := FileOf(k, path);
      var lost :| FileData.Appended(k.fs, k'.fs, i, buf, lost);
      AppendConcludes(k, k'.fs, i, buf, lost);
    }
  }
}
