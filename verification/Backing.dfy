/** The inodes that memory has against the records that inode_open would load: what the calls of
    inode_sync and inode_delete in file_create, sys_mkdir, file_write, delete_dir_entry and
    inode_release make of the table.  inode_sync keeps 8 bits of the number, so each result says
    exactly for which numbers the table still holds the inodes. */
module Backing {
  import opened Bytes
  import opened BlockMap
  import opened Volume
  import opened Namespace
  import IT = InodeTable

  const NARROW := 256   // the numbers a uint8_t can hold

  // ---------------------------------------------------------------- records

  /** The inode as struct inode can hold it. */
  predicate Fits(ino: Inode) {
    ino.size < WORD_LIMIT && |ino.secs| == 13 && forall k :: 0 <= k < 13 ==> ino.secs[k] < WORD_LIMIT
  }

  /** The record of inode i. */
  function Rec(i: word, ino: Inode): IT.Node
    requires Fits(ino)
  {
    IT.Node(i, ino.size, 0, 0, ino.secs)
  }

  ghost predicate AllFit(fs: Fs) {
    forall i :: i in fs.inodes ==> i < MAX_INODES && Fits(fs.inodes[i])
  }

  ghost predicate HoldsRec(fs: Fs, tab: Disk, lba: nat, i: nat)
    requires AllFit(fs) && IT.HasRecords(tab, lba, MAX_INODES) && i in fs.inodes
  {
    IT.HasRecords(tab, lba, i + 1) && IT.Load(tab, lba, i) == Rec(i, fs.inodes[i])
  }

  /** Every inode but those in `but` is what inode_open would load. */
  ghost predicate BackedBut(fs: Fs, tab: Disk, lba: nat, but: set<nat>) {
    && AllFit(fs) && IT.HasRecords(tab, lba, MAX_INODES)
    && forall i :: i in fs.inodes && i !in but ==> HoldsRec(fs, tab, lba, i)
  }

  ghost predicate Backed(fs: Fs, tab: Disk, lba: nat) { BackedBut(fs, tab, lba, {}) }

  /** Reading every inode from the table again gives the partition that memory has. */
  ghost function Reloaded(fs: Fs, tab: Disk, lba: nat): Fs
    requires AllFit(fs) && IT.HasRecords(tab, lba, MAX_INODES)
  {
    fs.(inodes := map i | i in fs.inodes :: (Room(tab, lba, i); var n := IT.Load(tab, lba, i); Inode(n.size, n.secs)))
  }

  lemma Room(tab: Disk, lba: nat, i: nat)
    requires IT.HasRecords(tab, lba, MAX_INODES) && i < MAX_INODES
    ensures IT.HasRecords(tab, lba, i + 1)
  {
  }

  lemma BackedReloads(fs: Fs, tab: Disk, lba: nat)
    requires Backed(fs, tab, lba)
    ensures Reloaded(fs, tab, lba) == fs
  {
    hide IT.Load;
    forall i | i in fs.inodes ensures Reloaded(fs, tab, lba).inodes[i] == fs.inodes[i] {
      assert HoldsRec(fs, tab, lba, i);
    }
  }

  // ---------------------------------------------------------------- inode_sync

  /** The table after inode_sync of inode i. */
  ghost function Sync(fs: Fs, tab: Disk, lba: nat, i: nat): (r: Disk)
    requires AllFit(fs) && IT.HasRecords(tab, lba, MAX_INODES) && i in fs.inodes
    ensures |r| == |tab|
  {
    Room(tab, lba, 255);
    IT.Synced(tab, lba, Rec(i, fs.inodes[i]))
  }

  lemma SyncRecords(fs: Fs, tab: Disk, lba: nat, i: nat, m: nat)
    requires AllFit(fs) && IT.HasRecords(tab, lba, MAX_INODES) && i in fs.inodes && m < MAX_INODES
    ensures IT.HasRecords(tab, lba, m + 1) && IT.HasRecords(Sync(fs, tab, lba, i), lba, m + 1)
    ensures IT.HasRecords(Sync(fs, tab, lba, i), lba, MAX_INODES)
    ensures IT.Load(Sync(fs, tab, lba, i), lba, m) ==
      if m == i % NARROW then Rec(i, fs.inodes[i]) else IT.Load(tab, lba, m)
  {
    hide IT.Load, IT.Synced;
    Room(tab, lba, m);
    Room(tab, lba, 255);
    IT.SyncLoad(tab, lba, Rec(i, fs.inodes[i]), m);
  }

  /** A number below 256: the inode is in the table afterwards, and no other record changes. */
  lemma SyncBacks(fs: Fs, tab: Disk, lba: nat, but: set<nat>, i: nat)
    requires BackedBut(fs, tab, lba, but) && i in fs.inodes && i < NARROW
    ensures BackedBut(fs, Sync(fs, tab, lba, i), lba, but - {i})
  {
    hide IT.Load, Sync, IT.HasRecords;
    SyncRecords(fs, tab, lba, i, 0);
    forall m | m in fs.inodes && m !in but - {i} ensures HoldsRec(fs, Sync(fs, tab, lba, i), lba, m) {
      SyncRecords(fs, tab, lba, i, m);
      assert m != i ==> HoldsRec(fs, tab, lba, m);
    }
  }

  /** One inode changes and is synced: the table holds all inodes if and only if its number is below
      256, or nothing changed and nobody has the record that is hit. */
  lemma SyncExact(fs: Fs, gs: Fs, tab: Disk, lba: nat, i: nat)
    requires Backed(fs, tab, lba) && AllFit(gs) && i in fs.inodes && i in gs.inodes
      && gs.inodes == fs.inodes[i := gs.inodes[i]]
    ensures Backed(gs, Sync(gs, tab, lba, i), lba) <==>
      i < NARROW || (gs.inodes[i] == fs.inodes[i] && i % NARROW !in fs.inodes)
  {
    hide IT.Load, Sync, IT.HasRecords;
    var tab' := Sync(gs, tab, lba, i);
    OneChanged(fs, gs, tab, lba, i);
    if i < NARROW {
      SyncBacks(gs, tab, lba, {i}, i);
      assert {i} - {i} == {};
    } else {
      SyncRecords(gs, tab, lba, i, i);
      assert HoldsRec(fs, tab, lba, i);
      if i % NARROW in fs.inodes {
        SyncRecords(gs, tab, lba, i, i % NARROW);
        WrongNumber(gs, tab', lba, i, i % NARROW);
      } else if gs.inodes[i] == fs.inodes[i] {
        forall m | m in gs.inodes ensures HoldsRec(gs, tab', lba, m) {
          SyncRecords(gs, tab, lba, i, m);
          assert HoldsRec(fs, tab, lba, m);
        }
      } else {
        StaleRecord(fs, gs, tab, tab', lba, i);
      }
    }
  }

  lemma OneChanged(fs: Fs, gs: Fs, tab: Disk, lba: nat, i: nat)
    requires Backed(fs, tab, lba) && AllFit(gs) && i in gs.inodes && gs.inodes == fs.inodes[i := gs.inodes[i]]
    ensures BackedBut(gs, tab, lba, {i})
  {
    hide IT.Load, IT.HasRecords;
    forall m | m in gs.inodes && m !in {i} ensures HoldsRec(gs, tab, lba, m) {
      assert HoldsRec(fs, tab, lba, m);
    }
  }

  /** The record of m carries the number of i. */
  lemma WrongNumber(gs: Fs, tab: Disk, lba: nat, i: nat, m: nat)
    requires AllFit(gs) && i in gs.inodes && m in gs.inodes && m != i && IT.HasRecords(tab, lba, MAX_INODES)
    requires IT.HasRecords(tab, lba, m + 1) && IT.Load(tab, lba, m) == Rec(i, gs.inodes[i])
    ensures !Backed(gs, tab, lba)
  {
    hide IT.Load;
    assert !HoldsRec(gs, tab, lba, m);
  }

  /** The record of i is that of an inode that has changed. */
  lemma StaleRecord(fs: Fs, gs: Fs, tab: Disk, tab': Disk, lba: nat, i: nat)
    requires Backed(fs, tab, lba) && AllFit(gs) && i in fs.inodes && i in gs.inodes && gs.inodes[i] != fs.inodes[i]
    requires IT.HasRecords(tab, lba, i + 1) && IT.HasRecords(tab', lba, i + 1) && IT.HasRecords(tab', lba, MAX_INODES)
    requires IT.Load(tab', lba, i) == IT.Load(tab, lba, i)
    ensures !Backed(gs, tab', lba)
  {
    hide IT.Load;
    assert HoldsRec(fs, tab, lba, i);
    assert !HoldsRec(gs, tab', lba, i);
  }

  // ---------------------------------------------------------------- a new inode

  /** The table after file_create or sys_mkdir: the directory is synced, then the new inode. */
  ghost function SyncBoth(gs: Fs, tab: Disk, lba: nat, parent: nat, i: nat): Disk
    requires AllFit(gs) && IT.HasRecords(tab, lba, MAX_INODES) && parent in gs.inodes && i in gs.inodes
  {
    SyncRecords(gs, tab, lba, parent, 0);
    Sync(gs, Sync(gs, tab, lba, parent), lba, i)
  }

  /** After a file or directory was made, the table holds every inode if and only if both numbers are
      below 256.  The number is the lowest that was free, so it is below 256 exactly if one was. */
  lemma EnrolledExact(fs: Fs, gs: Fs, tab: Disk, lba: nat, parent: nat, i: nat)
    requires Backed(fs, tab, lba) && AllFit(gs) && Enrolled(fs, gs, parent, i) && parent != i
    ensures Backed(gs, SyncBoth(gs, tab, lba, parent, i), lba) <==> parent < NARROW && i < NARROW
    ensures i < NARROW <==> exists k :: 0 <= k < NARROW && k !in fs.inodes
  {
    hide IT.Load, Sync, IT.HasRecords;
    var tab1, tab2 := Sync(gs, tab, lba, parent), SyncBoth(gs, tab, lba, parent, i);
    SyncRecords(gs, tab, lba, parent, 0);
    if parent < NARROW && i < NARROW {
      EnrolledBut(fs, gs, tab, lba, parent, i);
      SyncBacks(gs, tab, lba, {parent, i}, parent);
      SyncBacks(gs, tab1, lba, {parent, i} - {parent}, i);
      assert {parent, i} - {parent} - {i} == {};
    } else if i >= NARROW {
      SyncRecords(gs, tab1, lba, i, i % NARROW);
      assert i % NARROW in fs.inodes;
      WrongNumber(gs, tab2, lba, i, i % NARROW);
    } else {
      SyncRecords(gs, tab, lba, parent, parent);
      SyncRecords(gs, tab1, lba, i, parent);
      StaleRecord(fs, gs, tab, tab2, lba, parent);
    }
  }

  lemma EnrolledBut(fs: Fs, gs: Fs, tab: Disk, lba: nat, parent: nat, i: nat)
    requires Backed(fs, tab, lba) && AllFit(gs) && Enrolled(fs, gs, parent, i)
    ensures BackedBut(gs, tab, lba, {parent, i})
  {
    hide IT.Load, IT.HasRecords;
    forall m | m in gs.inodes && m !in {parent, i} ensures HoldsRec(gs, tab, lba, m) {
      assert HoldsRec(fs, tab, lba, m);
    }
  }

  // ---------------------------------------------------------------- an inode less

  /** The table after sys_unlink or dir_remove: the directory is synced, then the record is cleared. */
  ghost function SyncErase(gs: Fs, tab: Disk, lba: nat, parent: nat, i: nat): Disk
    requires AllFit(gs) && IT.HasRecords(tab, lba, MAX_INODES) && parent in gs.inodes && i < MAX_INODES
  {
    SyncRecords(gs, tab, lba, parent, i);
    IT.Erased(Sync(gs, tab, lba, parent), lba, i)
  }

  /** After a file or directory was removed, the table holds every inode if and only if the number of
      the directory it was in is below 256. */
  lemma StruckExact(fs: Fs, gs: Fs, tab: Disk, lba: nat, parent: nat, i: nat)
    requires Backed(fs, tab, lba) && AllFit(gs) && Struck(fs, gs, parent, i)
    ensures Backed(gs, SyncErase(gs, tab, lba, parent, i), lba) <==> parent < NARROW
  {
    hide IT.Load, Sync, IT.HasRecords, IT.Erased;
    var tab1, tab2 := Sync(gs, tab, lba, parent), SyncErase(gs, tab, lba, parent, i);
    SyncRecords(gs, tab, lba, parent, i);
    SameSize(tab1, tab2, lba);
    if parent < NARROW {
      StruckBut(fs, gs, tab, lba, parent, i);
      SyncBacks(gs, tab, lba, {parent}, parent);
      forall m | m in gs.inodes ensures HoldsRec(gs, tab2, lba, m) {
        assert HoldsRec(gs, tab1, lba, m);
        SyncRecords(gs, tab, lba, parent, m);
        IT.EraseLoad(tab1, lba, i, m);
        Room(tab2, lba, m);
      }
    } else {
      SyncRecords(gs, tab, lba, parent, parent);
      IT.EraseLoad(tab1, lba, i, parent);
      Room(tab2, lba, parent);
      StaleRecord(fs, gs, tab, tab2, lba, parent);
    }
  }

  lemma SameSize(a: Disk, b: Disk, lba: nat)
    requires |a| == |b| && IT.HasRecords(a, lba, MAX_INODES)
    ensures IT.HasRecords(b, lba, MAX_INODES)
  {
  }

  lemma StruckBut(fs: Fs, gs: Fs, tab: Disk, lba: nat, parent: nat, i: nat)
    requires Backed(fs, tab, lba) && AllFit(gs) && Struck(fs, gs, parent, i)
    ensures BackedBut(gs, tab, lba, {parent})
  {
    hide IT.Load, IT.HasRecords;
    forall m | m in gs.inodes && m !in {parent} ensures HoldsRec(gs, tab, lba, m) {
      assert HoldsRec(fs, tab, lba, m);
    }
  }

  // ---------------------------------------------------------------- the 257th inode

  function Blank(): Inode { Inode(0, seq(13, _ => 0)) }

  /** The root and n - 1 empty files. */
  ghost function First(n: nat): (m: map<nat, Inode>)
    ensures forall i :: i in m <==> 0 <= i < n
    ensures forall i :: i in m ==> m[i] == (if i == 0 then NewDirInode(1) else Blank())
  {
    if n == 0 then map[] else First(n - 1)[n - 1 := if n == 1 then NewDirInode(1) else Blank()]
  }

  ghost function Crowd(): (fs: Fs)
    ensures AllFit(fs)
  {
    Fs(1, [], [], First(NARROW))
  }

  /** One file more: the root has one entry more, and there is an inode 256. */
  ghost function Overcrowd(): Fs
  {
    Crowd().(inodes := First(NARROW)[0 := Inode(72, NewDirInode(1).secs)][NARROW := Blank()])
  }

  lemma OvercrowdFits()
    ensures AllFit(Overcrowd()) && 0 in Overcrowd().inodes && NARROW in Overcrowd().inodes
    ensures Enrolled(Crowd(), Overcrowd(), 0, NARROW)
  {
    hide First;
    assert Overcrowd().inodes.Keys == Crowd().inodes.Keys + {NARROW};
  }

  /** A table into which the first n inodes were synced. */
  ghost function CrowdTable(n: nat): (tab: Disk)
    requires n <= NARROW
    ensures IT.HasRecords(tab, 0, MAX_INODES)
  {
    if n == 0 then seq(1024, _ => Zeros(SECTOR_SIZE))
    else SameSize(CrowdTable(n - 1), Sync(Crowd(), CrowdTable(n - 1), 0, n - 1), 0); Sync(Crowd(), CrowdTable(n - 1), 0,
      n - 1)
  }

  lemma {:induction false} CrowdStored(n: nat)
    requires n <= NARROW
    ensures BackedBut(Crowd(), CrowdTable(n), 0, First(NARROW).Keys - First(n).Keys)
  {
    hide IT.Load, Sync, IT.HasRecords, Fits, First;
    if n > 0 {
      CrowdStored(n - 1);
      SyncBacks(Crowd(), CrowdTable(n - 1), 0, First(NARROW).Keys - First(n - 1).Keys, n - 1);
      assert First(NARROW).Keys - First(n - 1).Keys - {n - 1} == First(NARROW).Keys - First(n).Keys;
    }
  }

  /** The table holds the root and 255 files.  The next file gets number 256, and its record goes where
      the root's was: the root directory cannot be loaded any more. */
  lemma CrowdExample()
    ensures AllFit(Overcrowd()) && 0 in Overcrowd().inodes && NARROW in Overcrowd().inodes
    ensures Enrolled(Crowd(), Overcrowd(), 0, NARROW)
    ensures var tab := CrowdTable(NARROW);
      && Backed(Crowd(), tab, 0) && IT.HasRecords(SyncBoth(Overcrowd(), tab, 0, 0, NARROW), 0, 1)
      && IT.Load(SyncBoth(Overcrowd(), tab, 0, 0, NARROW), 0, 0) == Rec(NARROW, Blank())
      && !Backed(Overcrowd(), SyncBoth(Overcrowd(), tab, 0, 0, NARROW), 0)
  {
    hide IT.Load, Sync, CrowdTable, IT.HasRecords, Fits, Crowd, First, Enrolled;
    OvercrowdFits();
    CrowdStored(NARROW);
    var gs, tab := Overcrowd(), CrowdTable(NARROW);
    assert First(NARROW).Keys - First(NARROW).Keys == {};
    SyncRecords(gs, tab, 0, 0, 0);
    SyncRecords(gs, Sync(gs, tab, 0, 0), 0, NARROW, 0);
    EnrolledExact(Crowd(), gs, tab, 0, 0, NARROW);
  }
}
