/** What becomes of each call, said by its path, the tree, the free slots of directories and the free sectors. */
module PathFates {
  import opened Bytes
  import opened BlockMap
  import opened Volume
  import opened Directory
  import opened DirUpdate
  import opened Namespace
  import opened Paths
  import opened Tree
  import opened TreeOps
  import opened Mounted
  import opened Fates
  import opened Resolve
  import opened Snapshots
  import opened Reaching
  import FileData
  import TE = TreeExamples

  // ---------------------------------------------------------------- room in a directory

  /** Direct block k is there, and none of its slots is free. */
  ghost predicate FullBlock(fs: Fs, i: nat, k: nat)
    requires Insertable(fs, i) && k < DIRECT
  {
    var s := fs.inodes[i].secs[k];
    s != 0 && forall j :: 0 <= j < PER_SECTOR ==> Entries(fs.disk[s])[j].ftype != FT_UNKNOWN
  }

  /** A new name takes n sectors: none if the first direct block that is not full has a free slot, one if it
      is absent, and two if all direct blocks are full. */
  ghost predicate Wants(fs: Fs, i: nat, n: nat)
    requires Insertable(fs, i)
  {
    exists k: nat ::
      FirstNotFull(fs, i, k) && n == if k == DIRECT then 2 else if fs.inodes[i].secs[k] == 0 then 1 else 0
  }

  ghost predicate FirstNotFull(fs: Fs, i: nat, k: nat)
    requires Insertable(fs, i)
  {
    k <= DIRECT && (forall j :: 0 <= j < k ==> FullBlock(fs, i, j)) && (k < DIRECT ==> !FullBlock(fs, i, k))
  }

  lemma WantsOne(fs: Fs, i: nat, n: nat, m: nat)
    requires Insertable(fs, i) && Wants(fs, i, n) && Wants(fs, i, m)
    ensures n == m
  {
    hide FullBlock;
    var k: nat :| FirstNotFull(fs, i, k) && n == if k == DIRECT then 2 else if fs.inodes[i].secs[k] == 0 then 1 else 0;
    var l: nat :| FirstNotFull(fs, i, l) && m == if l == DIRECT then 2 else if fs.inodes[i].secs[l] == 0 then 1 else 0;
    assert k == l;
  }

  lemma RoomIsFree(fs: Fs, i: nat, k: nat)
    requires Insertable(fs, i) && k < DIRECT
    ensures HasRoom(fs.disk, fs.inodes[i].secs, k) <==> !FullBlock(fs, i, k)
  {
    hide Entries;
  }

  lemma WantsExact(fs: Fs, i: nat)
    requires Insertable(fs, i)
    ensures Wants(fs, i, ToName(fs.inodes[i].secs, Place(fs.disk, fs.inodes[i].secs, 0)))
  {
    hide HasRoom, FullBlock, Place;
    var k := Place(fs.disk, fs.inodes[i].secs, 0);
    forall j | 0 <= j < k ensures FullBlock(fs, i, j) {
      RoomIsFree(fs, i, j);
    }
    if k < DIRECT {
      RoomIsFree(fs, i, k);
    }
    assert FirstNotFull(fs, i, k);
  }

  /** Too few sectors, and a table that would be lost, by the slots of the directory. */
  lemma RoomExact(fs: Fs, at: nat, n: nat, free: nat)
    requires Insertable(fs, at) && Wants(fs, at, n)
    ensures NoRoom(fs, at, free) <==> free < n
    ensures KeepsTable(fs, at) <==> n < 2 || fs.inodes[at].secs[12] == 0
  {
    hide Wants, Place;
    WantsExact(fs, at);
    WantsOne(fs, at, n, ToName(fs.inodes[at].secs, Place(fs.disk, fs.inodes[at].secs, 0)));
  }

  /** All direct blocks are full and there is a table already. */
  predicate Clobbers(fs: Fs, at: nat, n: nat)
    requires Insertable(fs, at)
  {
    n == 2 && fs.inodes[at].secs[12] != 0
  }

  /** A new file is refused for want of a number or of sectors; it is not made right if a table is lost or no
      number below 256 is left. */
  lemma FileFateExact(fs: Fs, at: nat, n: nat)
    requires Insertable(fs, at) && Wants(fs, at, n)
    ensures var free, lost := Bitmap.FreeCount(fs.bits), Clobbers(fs, at, n);
      && (FileFate(fs, at) == Refuses <==> NoNumber(fs) || (free < n && (free == 0 || !lost)))
      && (FileFate(fs, at) == Does <==> !Crowded(fs) && free >= n && !lost && !NoNumber(fs))
      && FileFate(fs, at) != Leaks
  {
    hide Wants, NoRoom, KeepsTable, NoNumber, Crowded, Bitmap.FreeCount, Insertable;
    RoomExact(fs, at, n, Bitmap.FreeCount(fs.bits));
    WantsFew(fs, at, n);
  }

  /** A new directory takes one sector more, which is lost if there is none for its name. */
  lemma DirFateExact(fs: Fs, at: nat, n: nat)
    requires Insertable(fs, at) && Wants(fs, at, n)
    ensures var free, lost := Bitmap.FreeCount(fs.bits), Clobbers(fs, at, n);
      && (DirFate(fs, at) == Refuses <==> NoNumber(fs) || free == 0)
      && (DirFate(fs, at) == Leaks <==> !NoNumber(fs) && 0 < free <= n && (free == 1 || !lost))
      && (DirFate(fs, at) == Does <==> !Crowded(fs) && free > n && !lost && !NoNumber(fs))
  {
    hide Wants, NoRoom, KeepsTable, NoNumber, Crowded, Bitmap.FreeCount, Insertable;
    var free := Bitmap.FreeCount(fs.bits);
    if free > 0 {
      RoomExact(fs, at, n, free - 1);
    }
    WantsFew(fs, at, n);
  }

  lemma WantsFew(fs: Fs, at: nat, n: nat)
    requires Insertable(fs, at) && Wants(fs, at, n)
    ensures n <= 2
  {
    hide FullBlock;
  }

  // ---------------------------------------------------------------- sys_open and sys_mkdir

  /** sys_open with O_CREAT is refused exactly if there is no slot, the path ends in a slash or cannot be
      made, or its directory cannot take the file. */
  lemma CreateExact(k: Snap, path: Path, slot: bool)
    requires InOrder(k) && path != []
    ensures var ns := Components(path);
      if slot && path[|path| - 1] != SLASH && CanMake(k.v.tree, ns)
      then CreateFate(k, path, slot) == FileFate(k.fs, Dest(k.v.tree, 0, Front(ns)))
      else CreateFate(k, path, slot) == Refuses
  {
    hide InOrder, Components, Search, MayMake, CanMake, WellFormed, FileFate, Leads, Dest, Good, Global, Kept;
    OrderGlobal(k);
    MayMakeExact(k.v.tree, k.dep, path);
  }

  /** sys_mkdir is refused exactly if the path is the root or cannot be made, or its directory cannot take
      the new one.  A path of slashes alone, two or more, is where the search gives back nothing. */
  lemma MkdirExact(k: Snap, path: Path)
    requires InOrder(k)
    ensures var ns := Components(path);
      if CanMake(k.v.tree, ns) then MkdirFate(k, path) == DirFate(k.fs, Dest(k.v.tree, 0, Front(ns)))
      else MkdirFate(k, path) == if ns == [] && path != [SLASH] then Breaks else Refuses
  {
    hide InOrder, Components, Search, WellFormed, DirFate, Leads, Dest, Good, Global, Kept, Tried;
    OrderGlobal(k);
    MayMakeExact(k.v.tree, k.dep, path);
    UnsetExact(k.v.tree, k.dep, path);
  }

  lemma UnsetExact(t: Tree, dep: map<nat, nat>, path: Path)
    requires WellFormed(t, dep)
    ensures Search(t, path).Unset? <==> Components(path) == [] && path != [SLASH]
  {
    hide WellFormed, Components, Walk;
    if Components(path) != [] {
      SearchExact(t, dep, path, 0, 0);
    } else {
      OneComponent(HERE);
      OneComponent(UP);
    }
  }

  /** The directory of a path that can be made is one that sync_dir_entry can work on. */
  lemma PlaceInsertable(k: Snap, path: Path)
    requires InOrder(k) && Fits(path) && CanMake(k.v.tree, Components(path))
    ensures Insertable(k.fs, Dest(k.v.tree, 0, Front(Components(path))))
  {
    hide InOrder, Components, Search, MayMake, CanMake, WellFormed, Leads, Dest, Good, Global, Kept, Fits, Takes;
    OrderGlobal(k);
    MayMakeExact(k.v.tree, k.dep, path);
    PlaceOf(k, path);
    TakesInserts(k, At(k, path), Last(Components(path)));
  }

  lemma TakesInserts(k: Snap, at: nat, n: Name)
    requires Takes(k, at, n)
    ensures Insertable(k.fs, at)
  {
    hide Enterable, DirOf, IsName;
    DirIsInsertable(k.fs, at);
  }

  // ---------------------------------------------------------------- sys_unlink and sys_rmdir

  ghost predicate FindsUnused(t: Tree, ns: seq<Name>, inUse: set<nat>) {
    exists i, at :: HitsSomewhere(t, ns, i, at) && i !in inUse
  }

  /** sys_unlink is refused exactly unless one of the names is a regular file, not open, in the directory
      that the names before it lead to. */
  lemma UnlinkExact(k: Snap, path: Path, inUse: set<nat>)
    requires InOrder(k)
    ensures UnlinkFate(k, path, inUse) == Refuses <==> !FindsUnused(k.v.tree, Components(path), inUse)
  {
    hide InOrder, Components, Search, WellFormed, SparedIn, HitsSomewhere, MissesSomewhere, Leads, Dest, Good, Global,
      Kept;
    OrderGlobal(k);
    var t, ns, f := k.v.tree, Components(path), Search(k.v.tree, path);
    if ns == [] {
      NoNames(t, path);
      NothingHit(t);
    } else if f.Regular? {
      SearchExact(t, k.dep, path, f.ino, f.at);
      forall i, at | HitsSomewhere(t, ns, i, at) ensures i == f.ino {
        SearchExact(t, k.dep, path, i, at);
      }
    } else {
      forall i, at ensures !HitsSomewhere(t, ns, i, at) {
        SearchExact(t, k.dep, path, i, at);
      }
    }
  }

  lemma NothingHit(t: Tree)
    ensures forall i, at :: !HitsSomewhere(t, [], i, at)
  {
  }

  /** sys_rmdir is refused exactly unless all names lead to directories, the last of which holds its two dots
      and nothing else. */
  lemma RmdirExact(k: Snap, path: Path)
    requires InOrder(k) && Components(path) != []
    ensures var t, ns := k.v.tree, Components(path);
      && (RmdirFate(k, path) == Refuses <==> !(Leads(t, 0, ns) && Empty(t, Dest(t, 0, ns))))
      && (RmdirFate(k, path) == Does ==> Ordinary(Last(ns)))
  {
    hide InOrder, Components, Search, WellFormed, SparedIn, HitsSomewhere, MissesSomewhere, Leads, Dest, Good, Global,
      Kept, Empty;
    OrderGlobal(k);
    var t, f := k.v.tree, Search(k.v.tree, path);
    SearchExact(t, k.dep, path, if f.Directory? then f.ino else 0, 0);
    if Leads(t, 0, Components(path)) {
      SearchExact(t, k.dep, path, Dest(t, 0, Components(path)), 0);
    }
  }

  // ---------------------------------------------------------------- sys_write

  /** The file that a path opens: the last name, in the directory that the others lead to. */
  lemma FileOfExact(k: Snap, path: Path, i: nat)
    requires InOrder(k)
    ensures FileOf(k, path) == i <==> NamesFile(k.v.tree, Components(path), i)
    ensures FileOf(k, path) == i ==> i in k.v.files
  {
    hide InOrder, Components, Search, WellFormed, Tried, NamesFile, Good, Global, Kept, Deletable, IsFile, Named;
    OrderGlobal(k);
    OpenExact(k.v.tree, k.dep, path, i);
    if FileOf(k, path) == i {
      FileAt(k, path);
    }
  }

  /** A write is refused exactly if the path opens no file, or the file would be too long; it goes wrong if
      the sum of the sizes wraps around or sectors are short. */
  lemma AppendExact(k: Snap, path: Path, i: nat, n: nat)
    requires InOrder(k)
    ensures !(exists j :: NamesFile(k.v.tree, Components(path), j)) ==> AppendFate(k, path, n) == Refuses
    ensures NamesFile(k.v.tree, Components(path), i) ==>
      && i in k.v.files && i in k.fs.inodes && |k.fs.inodes[i].secs| == 13
      && var size := |k.v.files[i]| + n;
      && (AppendFate(k, path, n) == Refuses <==> MAX_FILE_SIZE < size < WORD_LIMIT)
      && (AppendFate(k, path, n) == Does <==>
            size <= MAX_FILE_SIZE && Bitmap.FreeCount(k.fs.bits) >= FileData.Need(k.fs.inodes[i], n))
  {
    hide InOrder, FileOf, NamesFile, Bitmap.FreeCount, FileData.Need, Valid, IsFile, FileBytes, Good, Kept;
    FileOfExact(k, path, i);
    if FileOf(k, path) >= 0 {
      FileOfExact(k, path, FileOf(k, path));
      WritableAt(k, path);
      SizeIsLength(k, FileOf(k, path));
    }
  }

  lemma SizeIsLength(k: Snap, i: nat)
    requires InOrder(k) && i in k.v.files
    ensures i in k.fs.inodes && k.fs.inodes[i].size == |k.v.files[i]|
  {
    hide InOrder, Kept, Good, WellFormed, Valid;
    OrderGlobal(k);
    HeldFile(k.fs, k.v, k.dep, i);
  }

  /** "/a/b" where "a" is a file: it opens nothing, and cannot be made, although sys_unlink removes "a". */
  lemma BehindFileExample(k: Snap)
    requires k.v.tree == TE.WithFile()
    ensures var p := Joined([TE.A, TE.B]);
      FileOf(k, p) == -1 && !MayMake(k.v.tree, p) && UnlinkFate(k, p, {}) != Refuses
  {
    hide Search;
    TE.UnlinkBehindExample();
  }

  /** "/a/b" where "a" is an empty directory: it can be made, in directory 1. */
  lemma NestedExample()
    ensures var t, p := TE.WithDir(), Joined([TE.A, TE.B]); MayMake(t, p) && Search(t, p) == Missing(1)
  {
    hide WellFormed, Search, Walk, Tried, Components, Joined;
    TE.TwoNames(TE.A, TE.B);
    TE.WithDirOk();
    SearchIsWalk(TE.WithDir(), map[0 := 0, 1 := 1], Joined([TE.A, TE.B]));
    NestedWalk();
  }

  lemma NestedWalk()
    ensures Walk(TE.WithDir(), 0, 0, [TE.A, TE.B]) == Missing(1) && Tried(TE.WithDir(), 0, [TE.A, TE.B]) == 2
  {
    var t := TE.WithDir();
    assert [TE.A, TE.B][1..] == [TE.B];
    assert Walk(t, 1, 0, [TE.B]) == Missing(1) && Tried(t, 1, [TE.B]) == 1;
  }
}
