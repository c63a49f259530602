/** The calls that change a mounted partition, by path, and what every sequence of them keeps. */
module Syscalls {
  import opened Bytes
  import opened BlockMap
  import opened Volume
  import opened Directory
  import opened DirUpdate
  import opened DirDelete
  import opened Namespace
  import opened Paths
  import opened Tree
  import opened TreeOps
  import opened Backing
  import opened Mounted
  import opened Fates
  import opened Resolve
  import opened Snapshots
  import Bitmap
  import Cwd
  import FileData
  import Format
  import IT = InodeTable

  /** The table as partition_format writes it. */
  ghost predicate RootRecord(fs: Fs, tab: Disk, lba: nat) {
    && IT.HasRecords(tab, lba, MAX_INODES) && IT.HasRecords(tab, lba, 1) && fs.data < WORD_LIMIT
    && Backing.Fits(NewDirInode(fs.data)) && IT.Load(tab, lba, 0) == Rec(0, NewDirInode(fs.data))
  }

  /** A formatted partition is where every run starts. */
  lemma FormatKept(fs: Fs, tab: Disk, lba: nat)
    requires Format.Formatted(fs) && RootRecord(fs, tab, lba)
    ensures Kept(fs, tab, lba, View(map[0 := Dots(0, 0)], map[]), map[0 := 0]) && Leaked(fs) == {}
  {
    hide IT.Load, Balanced, DotsSector, IsDir, DirOf, WellFormed, Leaked;
    Format.FormatIsBalanced(fs);
    Format.FormatIsTree(fs);
    BalancedValid(fs);
    BalancedIsLeakFree(fs);
    var v := View(map[0 := Dots(0, 0)], map[]);
    forall d, n, i ensures !Named(v.tree, d, n, i) {
    }
    assert HoldsRec(fs, tab, lba, 0);
  }

  class Mount {
    const p: Partition
    const s: IT.Store
    ghost var view: View
    ghost var dep: map<nat, nat>
    ghost var losses: nat   // sectors marked without owner

    ghost function Now(): Snap
      reads this, p, s
    {
      Snap(p.State(), s.disk, s.lba, view, dep, losses)
    }

    /** Mounting a partition as partition_format leaves it. */
    constructor (p: Partition, s: IT.Store)
      requires Format.Formatted(p.State()) && RootRecord(p.State(), s.disk, s.lba)
      ensures this.p == p && this.s == s && InOrder(Now()) && losses == 0 && view == View(map[0 := Dots(0, 0)], map[])
    {
      this.p, this.s := p, s;
      view, dep, losses := View(map[0 := Dots(0, 0)], map[]), map[0 := 0], 0;
      new;
      hide Format.Formatted, RootRecord, Kept, Leaked, Dots;
      FormatKept(p.State(), s.disk, s.lba);
    }

    /** inode_sync. */
    method SyncInode(i: nat)
      requires AllFit(p.State()) && IT.HasRecords(s.disk, s.lba, MAX_INODES) && i in p.inodes
      modifies s`disk
      ensures s.disk == Sync(p.State(), old(s.disk), s.lba, i) && IT.HasRecords(s.disk, s.lba, MAX_INODES)
    {
      hide IT.Synced;
      Room(s.disk, s.lba, 255);
      s.InodeSync(Rec(i, p.inodes[i]));
      SameSize(old(s.disk), s.disk, s.lba);
    }

    // -------------------------------------------------------------- sys_open with O_CREAT

    /** sys_open with O_CREAT, up to the descriptor.  `slot` is whether file_table has a free slot. */
    method Create(path: Path, slot: bool) returns (r: int, fate: Fate)
      requires InOrder(Now()) && Resolve.Fits(path)
      modifies this, p, s
      ensures CreateDid(old(Now()), Now(), path, slot, r, fate) && (fate != Breaks ==> InOrder(Now()))
    {
      hide InOrder, Global, Resolve.Fits, Search, Components, MayMake, CreateDid, Takes, AfterLastSlash, Last;
      AbsolutePath(path);
      OrderGlobal(Now());
      CreateRefusedIf(Now(), path, slot);
      if path[|path| - 1] == SLASH {
        return -1, Refuses;
      }
      var found, _, ok := Missing(path);
      if !ok {
        return -1, Refuses;
      }
      PlaceOf(Now(), path);
      LastOf(path);
      r, fate := CreateAt(path, found.at, AfterLastSlash(path), slot);
    }

    /** file_create once the place is known. */
    method CreateAt(ghost path: Path, at: nat, name: Name, slot: bool) returns (r: int, fate: Fate)
      requires InOrder(Now()) && MayMake(view.tree, path) && Components(path) != [] && at == At(Now(), path)
      requires path != [] && path[|path| - 1] != SLASH && name == Last(Components(path)) && Takes(Now(), at, name)
      modifies this, p, s
      ensures CreateDid(old(Now()), Now(), path, slot, r, fate) && (fate != Breaks ==> InOrder(Now()))
    {
      hide InOrder, FileFate, Search, Components, MayMake, CreateEnds, CreateDid, AllFit, Sync, Leaked, AddFileTo, Last,
        Valid, ReadyDir, DirOf, IsName, Kept, Global, WellFormed;
      ghost var k := Now();
      fate := if slot then FileFate(Fs(p.data, p.disk, p.bits, p.inodes), at) else Refuses;
      CreateRefusedIf(k, path, slot);
      r := FileCreate(p, at, name, slot);
      if !slot {
        return;
      }
      if fate == Does {
        CreateFits(k, p.State(), path, r);
        SyncInode(at);
        SyncInode(r);
        view := AddFileTo(k.v, at, name, r);
      }
      CreateConcludes(k, Now(), path, r, fate);
    }

    /** The search of sys_open and sys_mkdir, with the comparison of depths: ok is that all names but
        the last lead to directories, and the last is missing. */
    method Missing(path: Path) returns (found: Found, searched: Path, ok: bool)
      requires Global(p.State(), view, dep)
      ensures found == Search(view.tree, path) && (ok <==> MayMake(view.tree, path)) && (ok ==> found.Missing?)
      ensures ok ==> searched == Joined(Components(path))
    {
      hide Global, Components, Joined;
      ok := false;
      found, searched := SearchFile(p, path, view, dep);
      if !found.Missing? {
        return;
      }
      var depth := PathDepth(path);
      var searchedDepth := PathDepth(searched);
      SearchedDepth(view.tree, path);
      ok := depth == searchedDepth;
      assert ok ==> Components(path)[..|Components(path)|] == Components(path);
    }

    // -------------------------------------------------------------- sys_mkdir

    method Mkdir(path: Path) returns (r: int, fate: Fate)
      requires InOrder(Now()) && Resolve.Fits(path)
      modifies this, p, s
      ensures MkdirDid(old(Now()), Now(), path, r, fate) && (fate != Breaks ==> InOrder(Now()))
    {
      hide InOrder, Global, Resolve.Fits, Search, Components, MayMake, MkdirDid, Takes, AfterLastSlash, Joined, Last;
      OrderGlobal(Now());
      var found, searched, ok := Missing(path);
      if !ok {
        MkdirRefused(Now(), path);
        return -1, if found.Unset? then Breaks else Refuses;
      }
      PlaceOf(Now(), path);
      LastOfSearched(path, searched);
      r, fate := MkdirAt(path, found.at, AfterLastSlash(searched));
    }

    /** sys_mkdir once the place is known. */
    method MkdirAt(ghost path: Path, at: nat, name: Name) returns (r: int, fate: Fate)
      requires InOrder(Now()) && MayMake(view.tree, path) && Components(path) != [] && at == At(Now(), path)
      requires name == Last(Components(path)) && Takes(Now(), at, name)
      modifies this, p, s
      ensures MkdirDid(old(Now()), Now(), path, r, fate) && (fate != Breaks ==> InOrder(Now()))
    {
      hide InOrder, DirFate, Search, Components, MayMake, MkdirEnds, MkdirDid, AllFit, Sync, Leaked, AddDirTo, Last,
        Valid, ReadyDir, DirOf, IsName, Kept, Global, WellFormed;
      ghost var k := Now();
      fate := DirFate(Fs(p.data, p.disk, p.bits, p.inodes), at);
      r := Namespace.Mkdir(p, at, name);
      if fate == Does {
        MkdirFits(k, p.State(), path, r);
        SyncInode(at);
        SyncInode(r);
        view, dep := AddDirTo(k.v, at, name, r), k.dep[r := k.dep[at] + 1];
      } else if fate == Leaks {
        losses := losses + 1;
      }
      MkdirConcludes(k, Now(), path, r, fate);
    }

    // -------------------------------------------------------------- sys_unlink

    /** inode_delete, after the parent's record was written. */
    method StrikeRecord(at: nat, i: nat)
      requires AllFit(p.State()) && IT.HasRecords(s.disk, s.lba, MAX_INODES) && at in p.inodes && i < MAX_INODES
      modifies s`disk
      ensures s.disk == SyncErase(p.State(), old(s.disk), s.lba, at, i)
    {
      hide IT.Erased, Sync;
      SyncInode(at);
      Room(s.disk, s.lba, i);
      s.InodeDelete(i);
    }

    /** inUse are the inodes that file_table has open. */
    method Unlink(path: Path, inUse: set<nat>) returns (r: int, fate: Fate)
      requires InOrder(Now()) && Resolve.Fits(path)
      modifies this, p, s
      ensures UnlinkDid(old(Now()), Now(), path, inUse, r, fate) && (fate != Breaks ==> InOrder(Now()))
    {
      hide InOrder, Global, Resolve.Fits, Search, Components, UnlinkDid, WellFormed, Good, Kept, IT.HasRecords,
        SearchedNames, Joined;
      OrderGlobal(Now());
      var found, _ := SearchFile(p, path, view, dep);
      if !found.Regular? || found.ino in inUse {
        UnlinkRefused(Now(), path, inUse);
        return -1, Refuses;
      }
      r, fate := UnlinkAt(path, inUse, found.at, found.ino);
    }

    method UnlinkAt(ghost path: Path, ghost inUse: set<nat>, at: nat, i: nat) returns (r: int, fate: Fate)
      requires InOrder(Now()) && Search(view.tree, path) == Found.Regular(i, at) && i !in inUse
      modifies this, p, s
      ensures UnlinkDid(old(Now()), Now(), path, inUse, r, fate) && (fate != Breaks ==> InOrder(Now()))
    {
      hide InOrder, Search, Components, AllFit, SyncErase, Leaked, Valid, ReadyDir, DirOf, Kept, Global, WellFormed,
        Spared, IsDir, IsFile, Gone, RemoveFileFrom, Tried, Readable;
      ghost var k := Now();
      FileAt(k, path);
      ReadyIsDir(k.fs, at);
      ghost var n := Components(path)[Tried(view.tree, 0, Components(path)) - 1];
      fate := if Spared(Fs(p.data, p.disk, p.bits, p.inodes), at, i) then Does else Breaks;
      var o := Namespace.Unlink(p, at, i, n);
      r := 0;
      if fate == Does {
        UnlinkFits(k, p.State(), path, inUse);
        StrikeRecord(at, i);
        view := RemoveFileFrom(k.v, at, n, i);
        UnlinkConcludes(k, Now(), path, inUse);
      }
    }

    // -------------------------------------------------------------- sys_rmdir

    method Rmdir(path: Path) returns (r: int, fate: Fate)
      requires InOrder(Now()) && Resolve.Fits(path)
      modifies this, p, s
      ensures RmdirDid(old(Now()), Now(), path, r, fate) && (fate != Breaks ==> InOrder(Now()))
    {
      hide InOrder, Global, Resolve.Fits, Search, Components, RmdirDid, DirOf, IsDir, Last;
      OrderGlobal(Now());
      var found, _ := SearchFile(p, path, view, dep);
      if !found.Directory? {
        RmdirEarly(Now(), path);
        return -1, if found.Unset? then Breaks else Refuses;
      }
      DirFound(Now(), path);
      EmptyIsExact(p.State(), found.ino);
      if p.inodes[found.ino].size != 2 * ENTRY_SIZE {
        RmdirEarly(Now(), path);
        return -1, Refuses;
      }
      var ns := Components(path);
      if ns == [] || !Ordinary(Last(ns)) {
        r, fate := RmdirDot(path, found.at, found.ino);
        return;
      }
      r, fate := RmdirAt(path, found.at, found.ino);
    }

    /** dir_remove where the path ends in a dot: the directory is looked for in itself, and freed. */
    method RmdirDot(ghost path: Path, at: nat, i: word) returns (r: int, fate: Fate)
      requires InOrder(Now()) && Search(view.tree, path) == Found.Directory(i, at)
      requires Empty(view.tree, i) && NoLastName(path)
      modifies this, p, s
      ensures fate == Breaks && RmdirDid(old(Now()), Now(), path, r, fate)
    {
      hide InOrder, Search, NoLastName, Valid, Global, WellFormed, Good, Kept, IsDir, DirOf, Freed, IT.Erased, Deletes,
        MatchBlock, Blocks, Readable, LiveIn, Spared, Rightly;
      ghost var k := Now();
      OrderGlobal(k);
      DirFound(k, path);
      EmptyHasNone(k, i);
      DotsAtItself(k, path);
      var o := DeleteDirEntry(p, at, i);
      NothingDeleted(k.fs, p.State(), i, o);
      InodeRelease(p, i);
      Room(s.disk, s.lba, i);
      s.InodeDelete(i);
      RmdirDots(k, Now(), path);
      return 0, Breaks;
    }

    method RmdirAt(ghost path: Path, at: nat, i: word) returns (r: int, fate: Fate)
      requires InOrder(Now()) && Search(view.tree, path) == Found.Directory(i, at) && Empty(view.tree, i)
      requires Components(path) != [] && Ordinary(Last(Components(path)))
      modifies this, p, s
      ensures RmdirDid(old(Now()), Now(), path, r, fate) && (fate != Breaks ==> InOrder(Now()))
    {
      hide InOrder, Search, Components, AllFit, SyncErase, Leaked, Valid, ReadyDir, DirOf, Kept, Global, WellFormed,
        Spared, IsDir, Gone, RemoveDir, Readable, Last;
      ghost var k := Now();
      EmptyDirAt(k, path);
      DirFound(k, path);
      ReadyIsDir(k.fs, at);
      fate := if Spared(Fs(p.data, p.disk, p.bits, p.inodes), at, i) then Does else Breaks;
      var o := Namespace.Rmdir(p, at, i, Last(Components(path)));
      r := 0;
      if fate == Does {
        RmdirFits(k, p.State(), path);
        StrikeRecord(at, i);
        view := k.v.(tree := RemoveDir(k.v.tree, at, i));
        RmdirConcludes(k, Now(), path);
      }
    }

    // -------------------------------------------------------------- sys_open and sys_write

    /** sys_open of an existing file for writing, and one sys_write. */
    method Append(path: Path, buf: seq<byte>) returns (r: int, fate: Fate)
      requires InOrder(Now()) && Resolve.Fits(path) && |buf| < WORD_LIMIT
      modifies this, p, s
      ensures AppendDid(old(Now()), Now(), path, buf, r, fate) && (fate != Breaks ==> InOrder(Now()))
    {
      hide InOrder, Global, Resolve.Fits, Search, Components, AppendDid, Joined, Tried, WellFormed, Good, Kept,
        IT.HasRecords, SearchedNames;
      OrderGlobal(Now());
      var found, searched := SearchFile(p, path, view, dep);
      if !found.Regular? {
        AppendRefused(Now(), path, buf);
        return -1, Refuses;
      }
      var depth := PathDepth(path);
      var searchedDepth := PathDepth(searched);
      RegularDepth(view.tree, path);
      if depth != searchedDepth {
        AppendRefused(Now(), path, buf);
        return -1, Refuses;
      }
      r, fate := AppendTo(path, found.ino, buf);
    }

    method AppendTo(ghost path: Path, i: nat, buf: seq<byte>) returns (r: int, fate: Fate)
      requires InOrder(Now()) && FileOf(Now(), path) == i && |buf| < WORD_LIMIT
      modifies this, p, s
      ensures AppendDid(old(Now()), Now(), path, buf, r, fate) && (fate != Breaks ==> InOrder(Now()))
    {
      hide InOrder, FileOf, AllFit, Sync, Valid, Kept, Global, WellFormed, IsFile, Longer, FileBytes, FileData.Appended,
        FileData.Unwritten, FileData.Need, Bitmap.FreeCount;
      ghost var k := Now();
      WritableAt(k, path);
      fate := WriteFate(Fs(p.data, p.disk, p.bits, p.inodes), i, |buf|);
      var o, _, lost := FileData.FileWrite(p, i, buf, 0);
      r := if o.Moved? then o.n else -1;
      if fate == Does {
        AppendConcludes(k, p.State(), i, buf, lost);
        SyncInode(i);
        view := k.v.(files := k.v.files[i := k.v.files[i] + buf]);
        losses := losses + Filling(k.fs, i, buf);
      }
    }

    // -------------------------------------------------------------- sys_getcwd

    /** Wherever a run has led, sys_getcwd prints the path that search_file resolves to the directory. */
    method GetCwd(cwd: nat) returns (ok: bool, buf: Path)
      requires InOrder(Now()) && cwd in view.tree
      ensures WellFormed(view.tree, dep) && ok && buf == Render(PathTo(view.tree, dep, cwd))
      ensures exists a :: Search(view.tree, buf) == Found.Directory(cwd, a)
    {
      hide InOrder, WellFormed, Shows, PathTo, Render, Search;
      OrderShows(Now());
      Cwd.CwdRoundTrip(view.tree, dep, cwd);
      ok, buf := Cwd.GetCwd(p, cwd, view.tree, dep);
    }
  }

  /** What the removal of an empty directory from itself meets. */
  lemma EmptyHasNone(k: Snap, i: nat)
    requires InOrder(k) && i in k.v.tree && Empty(k.v.tree, i)
    ensures Valid(k.fs) && IsDir(k.fs, i) && i in k.fs.inodes && Readable(k.fs.disk, k.fs.inodes[i].secs)
    ensures i < MAX_INODES && forall e :: e in LiveIn(k.fs, i) ==> IsDot(e)
  {
    hide InOrder, Kept, Global, WellFormed, IsDir, Valid, Good, Readable, NameOf, DirOf, LiveIn, IT.HasRecords;
    OrderGlobal(k);
    HeldDir(k.fs, k.v, k.dep, i);
    GlobalValid(k.fs, k.v, k.dep);
    DirIsReadable(k.fs, i);
    SmallNumber(k, i);
    forall e | e in LiveIn(k.fs, i) ensures IsDot(e) {
      LiveIsNamed(k.fs, i, e);
      assert NameOf(e) in k.v.tree[i].Keys;
    }
  }

  lemma SmallNumber(k: Snap, i: nat)
    requires InOrder(k) && i in k.fs.inodes
    ensures i < NARROW
  {
  }

  lemma LiveIsNamed(fs: Fs, i: nat, e: DirEntry)
    requires IsDir(fs, i) && e in LiveIn(fs, i)
    ensures NameOf(e) in DirOf(fs, i)
  {
    hide NameOf, DirBlocks, Sound;
  }

  /** delete_dir_entry finds nothing to delete. */
  lemma NothingDeleted(fs: Fs, gs: Fs, i: nat, r: Outcome)
    requires Valid(fs) && IsDir(fs, i) && Readable(fs.disk, fs.inodes[i].secs) && i < WORD_LIMIT
    requires forall e :: e in LiveIn(fs, i) ==> IsDot(e)
    requires Deletes(fs, gs, i, i, r, MatchBlock(fs.disk, Blocks(fs.disk, fs.inodes[i].secs), i, 0))
    ensures gs == fs
  {
    hide DirBlocks, Sound, Valid, Blocks, LiveIn, MatchBlock, LastMatch, Entries, NameOf;
    MatchBlockExact(fs, i, i);
  }

  lemma LastOfSearched(path: Path, searched: Path)
    requires Components(path) != [] && searched == Joined(Components(path))
    ensures AfterLastSlash(searched) == Last(Components(path))
  {
    hide Components, AfterLastSlash;
    LastOfJoined(Components(path));
  }

  lemma LastOf(path: Path)
    requires path != [] && path[0] == SLASH && path[|path| - 1] != SLASH
    ensures Components(path) != [] && AfterLastSlash(path) == Last(Components(path))
  {
    LastOfPath(path);
  }

  lemma AbsolutePath(path: Path)
    requires Resolve.Fits(path)
    ensures path != [] && path[0] == SLASH
  {
  }

  lemma CreateRefusedIf(k: Snap, path: Path, slot: bool)
    requires path != []
    ensures !slot || path[|path| - 1] == SLASH || !MayMake(k.v.tree, path) ==> CreateDid(k, k, path, slot, -1, Refuses)
  {
    hide MayMake;
    if !slot || path[|path| - 1] == SLASH || !MayMake(k.v.tree, path) {
      CreateRefused(k, path, slot);
    }
  }

  /** searched_path has the names that were tried. */
  lemma SearchedDepth(t: Tree, path: Path)
    requires Search(t, path).Missing?
    ensures !Special(path) && |Components(Joined(SearchedNames(t, path)))| == Tried(t, 0, Components(path))
  {
    JoinedComponents(SearchedNames(t, path));
  }
}
