/** How each operation ends, by what the partition holds before it: refused, refused with a sector
    lost, done, or with the volume broken.  The condition of each end can be read off the partition
    before the call; the exact lemmas beside each part say why the last one is no other. */
module Fates {
  import opened Bytes
  import opened BlockMap
  import opened Volume
  import opened Directory
  import opened DirUpdate
  import opened Namespace
  import opened Paths
  import opened Tree
  import opened TreeOps
  import opened Backing
  import opened Mounted
  import Bitmap
  import FileData
  import IT = InodeTable

  datatype Fate = Refuses | Leaks | Does | Breaks

  /** No number is left that a uint8_t can hold. */
  predicate Crowded(fs: Fs) { forall k :: 0 <= k < NARROW ==> k in fs.inodes }

  /** The partition holds the view, and the table its inodes, all of them below 256. */
  ghost predicate Kept(fs: Fs, tab: Disk, lba: nat, v: View, dep: map<nat, nat>) {
    Global(fs, v, dep) && Backed(fs, tab, lba) && forall i :: i in fs.inodes ==> i < NARROW
  }

  /** Name n can be entered into directory at. */
  ghost predicate Enterable(v: View, at: nat, n: Name) {
    at in v.tree && n !in v.tree[at] && Ordinary(n) && IsComponent(n) && IsName(n)
  }

  // ---------------------------------------------------------------- a new file

  /** A new name in directory `at`.  The directory may be full up to a table that would be lost. */
  function FileFate(fs: Fs, at: nat): Fate {
    var free := Bitmap.FreeCount(fs.bits);
    if NoNumber(fs) then Refuses
    else if NoRoom(fs, at, free) then if KeepsTable(fs, at) || free == 0 then Refuses else Breaks
    else if KeepsTable(fs, at) && !Crowded(fs) then Does
    else Breaks
  }

  lemma CreateRefuses(fs: Fs, gs: Fs, at: nat, n: Name, r: int)
    requires CreateEnds(fs, gs, at, n, r) && FileFate(fs, at) == Refuses
    ensures r == -1 && gs == fs
  {
    hide Bitmap.FreeCount, KeepsTable, NoRoom, Created, Overwrote;
  }

  lemma CreateDoes(fs: Fs, gs: Fs, tab: Disk, lba: nat, v: View, dep: map<nat, nat>, at: nat, n: Name, r: int)
    requires Kept(fs, tab, lba, v, dep) && Enterable(v, at, n) && CreateEnds(fs, gs, at, n, r)
      && FileFate(fs, at) == Does
    ensures 0 <= r < NARROW && r !in fs.inodes && at in gs.inodes && r in gs.inodes && AllFit(gs)
    ensures Kept(gs, SyncBoth(gs, tab, lba, at, r), lba, AddFileTo(v, at, n, r), dep)
    ensures Leaked(gs) == Leaked(fs)
  {
    hide Bitmap.FreeCount, KeepsTable, NoRoom, Overwrote, Global, Backed, Enrolled, AllIntactBut, Leaked, Valid, IsFile,
      FileBytes, Lists, AllFit, SyncBoth;
    CreateKeeps(fs, gs, v, dep, at, r, n);
    NewNumber(fs, gs, tab, lba, AddFileTo(v, at, n, r), dep, at, r);
  }

  /** The new number is below 256, and the table holds it. */
  lemma NewNumber(fs: Fs, gs: Fs, tab: Disk, lba: nat, w: View, dep: map<nat, nat>, at: nat, i: nat)
    requires Backed(fs, tab, lba) && (forall j :: j in fs.inodes ==> j < NARROW) && !Crowded(fs)
    requires Enrolled(fs, gs, at, i) && at != i && Global(gs, w, dep)
    ensures i < NARROW && i !in fs.inodes && at in gs.inodes && i in gs.inodes && AllFit(gs)
    ensures Backed(gs, SyncBoth(gs, tab, lba, at, i), lba) && forall j :: j in gs.inodes ==> j < NARROW
  {
    hide Global, SyncBoth, Backed, AllFit;
    GlobalFits(gs, w, dep);
    HasTable(fs, tab, lba);
    EnrolledExact(fs, gs, tab, lba, at, i);
  }

  lemma HasTable(fs: Fs, tab: Disk, lba: nat)
    requires Backed(fs, tab, lba)
    ensures IT.HasRecords(tab, lba, MAX_INODES) && AllFit(fs)
  {
  }

  // ---------------------------------------------------------------- a new directory

  function DirFate(fs: Fs, at: nat): Fate {
    var free := Bitmap.FreeCount(fs.bits);
    if NoNumber(fs) || free == 0 then Refuses
    else if NoRoom(fs, at, free - 1) then if KeepsTable(fs, at) || free == 1 then Leaks else Breaks
    else if KeepsTable(fs, at) && !Crowded(fs) then Does
    else Breaks
  }

  lemma MkdirRefuses(fs: Fs, gs: Fs, at: nat, n: Name, r: int)
    requires MkdirEnds(fs, gs, at, n, r) && DirFate(fs, at) == Refuses
    ensures r == -1 && gs == fs
  {
    hide Bitmap.FreeCount, KeepsTable, NoRoom, MadeDir, MkdirOverwrote, MkdirUnhooked, LostOne;
  }

  lemma MkdirLeaks(fs: Fs, gs: Fs, tab: Disk, lba: nat, v: View, dep: map<nat, nat>, at: nat, n: Name, r: int)
    requires Kept(fs, tab, lba, v, dep) && MkdirEnds(fs, gs, at, n, r) && DirFate(fs, at) == Leaks
    ensures r == -1 && Kept(gs, tab, lba, v, dep) && |Leaked(gs)| == |Leaked(fs)| + 1
  {
    hide Bitmap.FreeCount, KeepsTable, NoRoom, MadeDir, MkdirOverwrote, MkdirUnhooked, LostOne, Global, Leaked, Backed;
    LostKeeps(fs, gs, v, dep);
    SameInodes(fs, gs, tab, lba);
  }

  lemma SameInodes(fs: Fs, gs: Fs, tab: Disk, lba: nat)
    requires Backed(fs, tab, lba) && gs.inodes == fs.inodes
    ensures Backed(gs, tab, lba)
  {
    hide IT.Load, IT.HasRecords;
    forall i | i in gs.inodes ensures HoldsRec(gs, tab, lba, i) {
      assert HoldsRec(fs, tab, lba, i);
    }
  }

  lemma MkdirDoes(fs: Fs, gs: Fs, tab: Disk, lba: nat, v: View, dep: map<nat, nat>, at: nat, n: Name, r: int)
    requires Kept(fs, tab, lba, v, dep) && Enterable(v, at, n) && MkdirEnds(fs, gs, at, n, r) && DirFate(fs, at) == Does
    ensures 0 <= r < NARROW && r !in fs.inodes && at < NARROW && at in gs.inodes && r in gs.inodes && AllFit(gs)
    ensures at in dep && Kept(gs, SyncBoth(gs, tab, lba, at, r), lba, AddDirTo(v, at, n, r), dep[r := dep[at] + 1])
    ensures Leaked(gs) == Leaked(fs)
  {
    hide Bitmap.FreeCount, KeepsTable, NoRoom, MkdirOverwrote, MkdirUnhooked, LostOne, Global, Backed, Enrolled,
      AllIntactBut, Leaked, Valid, HoldsDots, Lists, AllFit, SyncBoth;
    MkdirKeeps(fs, gs, v, dep, at, r, n);
    ParentWasThere(fs, gs, at, r);
    NewNumber(fs, gs, tab, lba, AddDirTo(v, at, n, r), dep[r := dep[at] + 1], at, r);
  }

  lemma ParentWasThere(fs: Fs, gs: Fs, at: nat, i: nat)
    requires Enrolled(fs, gs, at, i)
    ensures at in fs.inodes
  {
  }

  // ---------------------------------------------------------------- removal

  lemma GoneBacked(fs: Fs, gs: Fs, tab: Disk, lba: nat, w: View, dep: map<nat, nat>, at: nat, i: nat)
    requires Backed(fs, tab, lba) && Struck(fs, gs, at, i) && Global(gs, w, dep)
    requires forall j :: j in fs.inodes ==> j < NARROW
    ensures at in gs.inodes && i < MAX_INODES && AllFit(gs) && IT.HasRecords(tab, lba, MAX_INODES)
    ensures Kept(gs, SyncErase(gs, tab, lba, at, i), lba, w, dep)
  {
    hide Global, SyncErase, Backed, AllFit;
    GlobalFits(gs, w, dep);
    HasTable(fs, tab, lba);
    StruckExact(fs, gs, tab, lba, at, i);
  }

  lemma UnlinkDoes(fs: Fs, gs: Fs, tab: Disk, lba: nat, v: View, dep: map<nat, nat>, at: nat, i: nat, n: Name)
    requires Kept(fs, tab, lba, v, dep) && Named(v.tree, at, n, i) && i in v.files && Gone(fs, gs, at, i, n)
    ensures at in gs.inodes && i < MAX_INODES && AllFit(gs) && IT.HasRecords(tab, lba, MAX_INODES)
    ensures Kept(gs, SyncErase(gs, tab, lba, at, i), lba, RemoveFileFrom(v, at, n, i), dep)
    ensures Leaked(gs) == Leaked(fs)
  {
    hide Global, Backed, AllFit, SyncErase, Valid, Leaked, Struck, IsDir, DirOf, Marked, OwnedBy, AllIntactBut;
    UnlinkKeeps(fs, gs, v, dep, at, i, n);
    GoneBacked(fs, gs, tab, lba, RemoveFileFrom(v, at, n, i), dep, at, i);
  }

  lemma RmdirDoes(fs: Fs, gs: Fs, tab: Disk, lba: nat, v: View, dep: map<nat, nat>, at: nat, d: nat, n: Name)
    requires Kept(fs, tab, lba, v, dep) && Link(v.tree, at, n, d) && Empty(v.tree, d) && Gone(fs, gs, at, d, n)
    ensures at in gs.inodes && d < MAX_INODES && AllFit(gs) && IT.HasRecords(tab, lba, MAX_INODES)
    ensures Kept(gs, SyncErase(gs, tab, lba, at, d), lba, v.(tree := RemoveDir(v.tree, at, d)), dep)
    ensures Leaked(gs) == Leaked(fs)
  {
    hide Global, Backed, AllFit, SyncErase, Valid, Leaked, Struck, IsDir, DirOf, Marked, OwnedBy, AllIntactBut;
    RmdirVolume(fs, gs, v, dep, at, d, n);
    GoneBacked(fs, gs, tab, lba, v.(tree := RemoveDir(v.tree, at, d)), dep, at, d);
  }

  // ---------------------------------------------------------------- writing

  function WriteFate(fs: Fs, i: nat, count: nat): Fate
    requires i in fs.inodes && |fs.inodes[i].secs| == 13
  {
    var ino := fs.inodes[i];
    if ino.size + count >= WORD_LIMIT then Breaks
    else if ino.size + count > MAX_FILE_SIZE then Refuses
    else if Bitmap.FreeCount(fs.bits) < FileData.Need(ino, count) then Breaks
    else Does
  }

  lemma WriteDoes(fs: Fs, gs: Fs, tab: Disk, lba: nat, v: View, dep: map<nat, nat>, i: nat, buf: seq<byte>,
      lost: set<nat>)
    requires Kept(fs, tab, lba, v, dep) && i in v.files && FileData.Appended(fs, gs, i, buf, lost)
    ensures i in fs.inodes && i in gs.inodes && AllFit(gs) && IT.HasRecords(tab, lba, MAX_INODES)
    ensures Kept(gs, Sync(gs, tab, lba, i), lba, v.(files := v.files[i := v.files[i] + buf]), dep)
    ensures |Leaked(gs)| == |Leaked(fs)| +
      if buf != [] && fs.inodes[i].size + |buf| == MAX_FILE_SIZE then 1 else 0
  {
    hide Global, Backed, AllFit, Sync, Valid, Leaked, IsFile, FileBytes, Claimed, Sound, OwnedBy;
    WriteKeeps(fs, gs, v, dep, i, buf, lost);
    GlobalFits(gs, v.(files := v.files[i := v.files[i] + buf]), dep);
    HasTable(fs, tab, lba);
    SyncExact(fs, gs, tab, lba, i);
  }
}
