/** Creating and removing files and directories: file_create, inode_release, and the parts of
    sys_mkdir, sys_unlink, sys_rmdir and dir_remove that change the partition.  The inode bitmap
    is the domain of `inodes`.

    Inodes are as memory has them; what inode_sync makes of the table on disk is in Backing, and
    what holds over runs of these operations is in Mounted. */
module Namespace {
  import opened Bytes
  import opened BlockMap
  import opened Volume
  import opened Directory
  import opened DirUpdate
  import opened DirDelete

  const MAX_INODES := 4096

  // ---------------------------------------------------------------- what stays as it was

  /** Inode j means the same file or directory as before. */
  ghost predicate Intact(fs: Fs, gs: Fs, j: nat) {
    && (IsFile(fs, j) ==> IsFile(gs, j) && FileBytes(gs, j) == FileBytes(fs, j))
    && (IsDir(fs, j) ==> IsDir(gs, j) && LiveIn(gs, j) == LiveIn(fs, j) && DirOf(gs, j) == DirOf(fs, j))
    && (IsDir(fs, j) ==> StaysSmall(fs, gs, j))
  }

  ghost predicate AllIntactBut(fs: Fs, gs: Fs, changed: set<nat>) {
    forall j :: j !in changed ==> Intact(fs, gs, j)
  }

  lemma IntactTwice(fs: Fs, gs: Fs, hs: Fs, a: set<nat>, b: set<nat>)
    requires AllIntactBut(fs, gs, a) && AllIntactBut(gs, hs, b)
    ensures AllIntactBut(fs, hs, a + b)
  {
    hide IsFile, IsDir, FileBytes, DirOf, LiveIn;
    forall j | j !in a + b ensures Intact(fs, hs, j) {
      assert Intact(fs, gs, j) && Intact(gs, hs, j);
    }
  }

  /** An inode none of whose sectors were written is intact. */
  lemma UnwrittenIntact(fs: Fs, gs: Fs, j: nat)
    requires j in fs.inodes ==> j in gs.inodes && gs.inodes[j] == fs.inodes[j]
    requires gs.data == fs.data && |gs.bits| == |fs.bits|
    requires j in fs.inodes && Sound(fs.disk, fs.inodes[j].secs, fs.data, fs.End()) ==>
      Agree(fs.disk, gs.disk, Owned(fs.disk, fs.inodes[j].secs))
    ensures Intact(fs, gs, j)
  {
    hide DirBlocks, Blocks, FileShape, DirMap;
    if j in fs.inodes && Sound(fs.disk, fs.inodes[j].secs, fs.data, fs.End()) {
      var ino := fs.inodes[j];
      UnwrittenInode(fs.disk, gs.disk, ino, fs.data, fs.End());
      if IsDir(fs, j) {
        UnwrittenDir(fs, gs, j);
      }
    }
  }

  lemma UnwrittenDir(fs: Fs, gs: Fs, j: nat)
    requires IsDir(fs, j) && j in gs.inodes && gs.inodes[j] == fs.inodes[j] && gs.data == fs.data
      && gs.End() == fs.End()
    requires Agree(fs.disk, gs.disk, Owned(fs.disk, fs.inodes[j].secs))
    requires Sound(gs.disk, fs.inodes[j].secs, fs.data, fs.End())
    requires Blocks(gs.disk, fs.inodes[j].secs) == Blocks(fs.disk, fs.inodes[j].secs)
    ensures IsDir(gs, j) && LiveIn(gs, j) == LiveIn(fs, j) && DirOf(gs, j) == DirOf(fs, j)
  {
    hide DirBlocks, Live, DirMap, Blocks;
    var secs := fs.inodes[j].secs;
    BlocksOwned(fs.disk, secs);
    SoundIsReadable(fs.disk, secs, fs.data, fs.End());
    SameDirBlocks(fs.disk, Blocks(fs.disk, secs), gs.disk, fs.inodes[j].size);
  }

  lemma SameDirBlocks(d: Disk, bm: seq<nat>, d': Disk, size: nat)
    requires DirBlocks(d, bm, size) && |d'| == |d|
    requires forall k :: 0 <= k < MAX_BLOCKS && bm[k] != 0 ==> d'[bm[k]] == d[bm[k]]
    ensures DirBlocks(d', bm, size) && Live(d', bm) == Live(d, bm)
  {
    hide Entries, NameOf, LiveOf, Slots, Distinct, UniqueInos, AllNamed, Clean;
    SlotsSame(d, bm, d', bm, 0, MAX_BLOCKS);
  }

  lemma OnlyInodeIntact(fs: Fs, gs: Fs, i: nat)
    requires Valid(fs) && OnlyInode(fs, gs, i)
    ensures AllIntactBut(fs, gs, {i})
  {
    forall j | j !in {i} ensures Intact(fs, gs, j) {
      if j in fs.inodes {
        OthersUntouched(fs, gs, i, j);
      }
      UnwrittenIntact(fs, gs, j);
    }
  }

  lemma GrewIntact(fs: Fs, gs: Fs, i: nat, lost: set<nat>)
    requires Valid(fs) && Grew(fs, gs, i, lost)
    ensures AllIntactBut(fs, gs, {i})
  {
    hide AllIntactBut;
    assert OnlyInode(fs, gs, i);
    OnlyInodeIntact(fs, gs, i);
  }

  lemma ShedIntact(fs: Fs, gs: Fs, i: nat, gone: set<nat>)
    requires Valid(fs) && Shed(fs, gs, i, gone)
    ensures AllIntactBut(fs, gs, {i})
  {
    hide AllIntactBut;
    assert forall b :: b in OwnedBy(fs, i) ==> Marked(fs, b);
    assert OnlyInode(fs, gs, i);
    OnlyInodeIntact(fs, gs, i);
  }

  // ---------------------------------------------------------------- a new inode

  /** Inode i is new; it owns exactly the sectors taken for it, and only those were written. */
  ghost predicate Added(fs: Fs, gs: Fs, i: nat, got: seq<nat>) {
    && i !in fs.inodes && i in gs.inodes && gs.inodes == fs.inodes[i := gs.inodes[i]]
    && gs.data == fs.data && |gs.disk| == |fs.disk|
    && Took(fs.data, fs.bits, gs.bits, got)
    && Sound(gs.disk, gs.inodes[i].secs, gs.data, gs.End())
    && OwnedBy(gs, i) == Elems(got)
    && forall b :: 0 <= b < |fs.disk| && b !in got ==> gs.disk[b] == fs.disk[b]
  }

  lemma AddedOther(fs: Fs, gs: Fs, i: nat, got: seq<nat>, j: nat)
    requires Valid(fs) && Added(fs, gs, i, got) && j in fs.inodes
    ensures j in gs.inodes && OwnedBy(gs, j) == OwnedBy(fs, j) && OwnedBy(gs, j) !! OwnedBy(gs, i)
    ensures Sound(gs.disk, gs.inodes[j].secs, gs.data, gs.End())
    ensures Agree(fs.disk, gs.disk, Owned(fs.disk, fs.inodes[j].secs))
  {
    forall b | b in OwnedBy(fs, j) ensures b !in got {
      assert Marked(fs, b);
    }
    UnwrittenInode(fs.disk, gs.disk, fs.inodes[j], fs.data, fs.End());
  }

  lemma AddedKeepsValid(fs: Fs, gs: Fs, i: nat, got: seq<nat>)
    requires Valid(fs) && Added(fs, gs, i, got)
    ensures Valid(gs) && Leaked(gs) == Leaked(fs)
    ensures AllIntactBut(fs, gs, {i})
  {
    hide Sound, Owned;
    forall j | j in fs.inodes
      ensures j in gs.inodes && OwnedBy(gs, j) == OwnedBy(fs, j) && OwnedBy(gs, j) !! OwnedBy(gs, i)
      ensures Sound(gs.disk, gs.inodes[j].secs, gs.data, gs.End())
      ensures Intact(fs, gs, j)
    {
      AddedOther(fs, gs, i, got, j);
      UnwrittenIntact(fs, gs, j);
    }
    forall j | j !in fs.inodes ensures Intact(fs, gs, j) {
      UnwrittenIntact(fs, gs, j);
    }
    AddedMarks(fs, gs, i, got);
  }

  lemma AddedMarks(fs: Fs, gs: Fs, i: nat, got: seq<nat>)
    requires Valid(fs) && Added(fs, gs, i, got)
    requires forall j :: j in fs.inodes ==> j in gs.inodes && OwnedBy(gs, j) == OwnedBy(fs, j)
    ensures forall j, b :: j in gs.inodes && b in OwnedBy(gs, j) ==> Marked(gs, b)
    ensures Leaked(gs) == Leaked(fs)
  {
    hide Sound, Owned;
    forall b ensures Marked(gs, b) <==> Marked(fs, b) || b in got {
    }
    forall b | b in got ensures b !in Leaked(fs) && b !in Leaked(gs) {
      var k :| 0 <= k < |got| && got[k] == b;
      assert !InUse(fs.data, fs.bits, got[k]);
    }
    forall b | b !in got ensures b in Leaked(gs) <==> b in Leaked(fs) {
      assert Marked(gs, b) <==> Marked(fs, b);
    }
  }

  // ---------------------------------------------------------------- an inode goes

  /** Inode i is gone and its sectors are free again; nothing else changed. */
  ghost predicate Freed(fs: Fs, gs: Fs, i: nat) {
    && i in fs.inodes
    && gs == Fs(fs.data, fs.disk, gs.bits, fs.inodes - {i}) && |gs.bits| == |fs.bits|
    && forall b {:trigger Marked(gs, b)} :: Marked(gs, b) <==> Marked(fs, b) && b !in OwnedBy(fs, i)
  }

  lemma FreedKeepsValid(fs: Fs, gs: Fs, i: nat)
    requires Valid(fs) && Freed(fs, gs, i)
    ensures Valid(gs) && Leaked(gs) == Leaked(fs)
    ensures AllIntactBut(fs, gs, {i})
  {
    hide Sound, Owned;
    forall j | j !in {i} ensures Intact(fs, gs, j) {
      UnwrittenIntact(fs, gs, j);
    }
    forall j | j in gs.inodes ensures j in fs.inodes && j != i && OwnedBy(gs, j) == OwnedBy(fs, j) {
    }
    forall j, b | j in gs.inodes && b in OwnedBy(gs, j) ensures Marked(gs, b) {
      assert Marked(fs, b) && b !in OwnedBy(fs, i);
    }
    forall b ensures b in Leaked(gs) <==> b in Leaked(fs) {
      FreedLeak(fs, gs, i, b);
    }
  }

  lemma FreedLeak(fs: Fs, gs: Fs, i: nat, b: nat)
    requires Valid(fs) && Freed(fs, gs, i)
    requires forall j :: j in gs.inodes ==> OwnedBy(gs, j) == OwnedBy(fs, j)
    ensures b in Leaked(gs) <==> b in Leaked(fs)
  {
    hide Sound, Owned;
    assert Marked(gs, b) <==> Marked(fs, b) && b !in OwnedBy(fs, i);
    forall j | j in fs.inodes && j != i ensures j in gs.inodes && OwnedBy(gs, j) == OwnedBy(fs, j) {
    }
  }

  /** The bit of one sector is cleared. */
  lemma ClearOne(data: nat, bits: seq<bool>, b: nat)
    requires data <= b < data + |bits|
    ensures forall c :: InUse(data, bits[b - data := false], c) <==> InUse(data, bits, c) && c != b
  {
  }

  /** The loop of inode_release over the first n entries of all_blocks. */
  method FreeBlocks(p: Partition, all: seq<nat>, n: nat)
    requires 0 < p.data && n <= |all| && forall k :: 0 <= k < n && all[k] != 0 ==> p.data <= all[k] < p.data + |p.bits|
    modifies p`bits
    ensures |p.bits| == |old(p.bits)|
    ensures forall c {:trigger InUse(p.data, p.bits, c)} ::
      InUse(p.data, p.bits, c) <==> InUse(p.data, old(p.bits), c) && c !in all[..n]
  {
    var blockIdx := 0;
    while blockIdx < n
      invariant 0 <= blockIdx <= n && |p.bits| == |old(p.bits)|
      invariant forall c {:trigger InUse(p.data, p.bits, c)} ::
        InUse(p.data, p.bits, c) <==> InUse(p.data, old(p.bits), c) && c !in all[..blockIdx]
    {
      assert all[..blockIdx + 1] == all[..blockIdx] + [all[blockIdx]];
      ghost var bits := p.bits;
      if all[blockIdx] != 0 {
        ClearOne(p.data, p.bits, all[blockIdx]);
        p.bits := p.bits[all[blockIdx] - p.data := false];
      }
      forall c ensures InUse(p.data, p.bits, c) <==> InUse(p.data, old(p.bits), c) && c !in all[..blockIdx + 1] {
        assert InUse(p.data, p.bits, c) <==> InUse(p.data, bits, c) && c != all[blockIdx];
      }
      blockIdx := blockIdx + 1;
    }
  }

  lemma BlocksInside(fs: Fs, i: nat)
    requires Valid(fs) && i in fs.inodes
    ensures Shaped(fs.disk, fs.inodes[i].secs) && Sound(fs.disk, fs.inodes[i].secs, fs.data, fs.End()) && 0 < fs.data
    ensures forall k :: 0 <= k < MAX_BLOCKS && Blocks(fs.disk, fs.inodes[i].secs)[k] != 0 ==>
              fs.data <= Blocks(fs.disk, fs.inodes[i].secs)[k] < fs.End()
    ensures fs.inodes[i].secs[12] != 0 ==> fs.data <= fs.inodes[i].secs[12] < fs.End()
  {
  }

  /** inode_release: the sectors of the inode, its indirect table included, are free again, and
      so is its number. */
  method InodeRelease(p: Partition, i: nat)
    requires Valid(p.State()) && i in p.inodes
    modifies p
    ensures Freed(old(p.State()), p.State(), i)
  {
    hide Blocks, OwnedBy;
    ghost var fs := p.State();
    var secs := p.inodes[i].secs;
    var all := Blocks(p.disk, secs);
    BlocksInside(fs, i);
    var blockCnt := DIRECT;
    if secs[12] != 0 {
      blockCnt := MAX_BLOCKS;
      ClearOne(p.data, p.bits, secs[12]);
      p.bits := p.bits[secs[12] - p.data := false];
    }
    FreeBlocks(p, all, blockCnt);
    p.inodes := p.inodes - {i};
    forall b ensures Marked(p.State(), b) <==> Marked(fs, b) && b !in OwnedBy(fs, i) {
      AllOwned(fs, i, blockCnt, b);
    }
  }

  /** The sectors inode_release frees are those the inode owns. */
  lemma AllOwned(fs: Fs, i: nat, n: nat, b: nat)
    requires i in fs.inodes && Sound(fs.disk, fs.inodes[i].secs, fs.data, fs.End()) && 0 < fs.data
    requires n == if fs.inodes[i].secs[12] == 0 then DIRECT else MAX_BLOCKS
    ensures Marked(fs, b) ==>
              (b in OwnedBy(fs, i) <==>
                b in Blocks(fs.disk, fs.inodes[i].secs)[..n] || (n == MAX_BLOCKS && b == fs.inodes[i].secs[12]))
  {
    var all := Blocks(fs.disk, fs.inodes[i].secs);
    if n == DIRECT {
      assert b in all[..DIRECT] && b != 0 <==> b in all && b != 0;
    } else {
      assert all[..MAX_BLOCKS] == all;
    }
  }

  // ---------------------------------------------------------------- creating

  /** inode_bitmap_alloc: the lowest free number, or -1 exactly when all are taken. */
  method AllocInode(p: Partition) returns (i: int)
    ensures i == -1 ==> forall k :: 0 <= k < MAX_INODES ==> k in p.inodes
    ensures i != -1 ==> 0 <= i < MAX_INODES && i !in p.inodes && forall k :: 0 <= k < i ==> k in p.inodes
  {
    i := 0;
    while i < MAX_INODES
      invariant 0 <= i <= MAX_INODES && forall k :: 0 <= k < i ==> k in p.inodes
    {
      if i !in p.inodes {
        return;
      }
      i := i + 1;
    }
    i := -1;
  }

  function NoPointers(): (s: seq<nat>)
    ensures |s| == 13 && forall k :: 0 <= k < 13 ==> s[k] == 0
  {
    seq(13, _ => 0)
  }

  /** Directory `parent` is there, and names only inodes that exist. */
  ghost predicate ReadyDir(fs: Fs, parent: nat) {
    && IsDir(fs, parent)
    && forall e :: e in LiveIn(fs, parent) && !IsDot(e) ==> e.ino in fs.inodes
  }

  /** All inode numbers are taken. */
  predicate NoNumber(fs: Fs) { forall k :: 0 <= k < MAX_INODES ==> k in fs.inodes }

  /** With this many free sectors, sync_dir_entry cannot enter a name into directory parent. */
  predicate NoRoom(fs: Fs, parent: nat, free: nat) {
    Insertable(fs, parent) && free < ToName(fs.inodes[parent].secs, Place(fs.disk, fs.inodes[parent].secs, 0))
  }

  lemma NewMayJoin(fs: Fs, parent: nat, name: seq<byte>, i: word, ftype: word)
    requires ReadyDir(fs, parent) && IsName(name) && name !in DirOf(fs, parent) && i !in fs.inodes
      && ftype != FT_UNKNOWN
    ensures MayJoin(LiveIn(fs, parent), MakeEntry(name, i, ftype))
    ensures NameOf(MakeEntry(name, i, ftype)) == name
  {
    hide NameOf, Live, MakeEntry;
    MadeName(name, i, ftype);
    MadeFields(name, i, ftype);
  }

  lemma MadeFields(name: seq<byte>, i: word, ftype: word)
    requires |name| <= NAME_LEN
    ensures Proper(MakeEntry(name, i, ftype)) && MakeEntry(name, i, ftype).ino == i
      && MakeEntry(name, i, ftype).ftype == ftype
  {
  }

  lemma DirIsInsertable(fs: Fs, parent: nat)
    requires Valid(fs) && IsDir(fs, parent)
    ensures Insertable(fs, parent)
  {
    hide DirBlocks, Blocks;
    var secs := fs.inodes[parent].secs;
    SoundIsReadable(fs.disk, secs, fs.data, fs.End());
    DirectPart(fs.disk, secs);
    forall k | 0 <= k < DIRECT ensures secs[k] < |fs.disk| {
      assert Blocks(fs.disk, secs)[..12][k] == secs[..12][k];
    }
  }

  lemma SyncedIff(fs: Fs, gs: Fs, i: nat, e: DirEntry, ok: bool, k: nat)
    requires Synced(fs, gs, i, e, ok, k)
    ensures i in fs.inodes && |fs.inodes[i].secs| == 13
      && (ok <==> Bitmap.FreeCount(fs.bits) >= ToName(fs.inodes[i].secs, k))
  {
  }

  /** The inode as sync_dir_entry leaves it when it has one sector for a new table and none for the
      block behind it: the pointer to the old table is gone. */
  ghost function Unhooked(fs: Fs, parent: nat): Fs
    requires parent in fs.inodes && |fs.inodes[parent].secs| == 13
  {
    fs.(inodes := fs.inodes[parent := Inode(fs.inodes[parent].size, fs.inodes[parent].secs[12 := 0])])
  }

  /** A failed sync_dir_entry leaves the directory as it was, unless it got as far as the table. */
  lemma FailedSync(fs: Fs, gs: Fs, parent: nat, e: DirEntry, k: nat)
    requires Synced(fs, gs, parent, e, false, k)
    ensures gs == if k < DIRECT || fs.inodes[parent].secs[12] == 0 || Bitmap.FreeCount(fs.bits) == 0 then fs
                  else Unhooked(fs, parent)
  {
    var secs := fs.inodes[parent].secs;
    assert secs[12] == 0 ==> secs[12 := 0] == secs;
    assert fs.inodes[parent := Inode(fs.inodes[parent].size, secs)] == fs.inodes;
  }

  /** Of the inodes there were, only that of the directory changed, by one entry; i is new and was
      the lowest number that was free. */
  ghost predicate Enrolled(fs: Fs, gs: Fs, parent: nat, i: nat) {
    && i < MAX_INODES && i !in fs.inodes && (forall k :: 0 <= k < i ==> k in fs.inodes)
    && parent in fs.inodes && gs.inodes.Keys == fs.inodes.Keys + {i}
    && (forall j :: j in fs.inodes && j != parent ==> gs.inodes[j] == fs.inodes[j])
    && gs.inodes[parent].size == fs.inodes[parent].size + ENTRY_SIZE
  }

  /** A regular file was created: empty, named in its directory, and nothing else changed. */
  ghost predicate Created(fs: Fs, gs: Fs, parent: nat, i: nat, name: seq<byte>) {
    && Valid(gs) && Leaked(gs) == Leaked(fs)
    && Enrolled(fs, gs, parent, i) && i != parent
    && IsFile(gs, i) && FileBytes(gs, i) == []
    && Lists(fs, gs, parent, name, Target(i, FT_REGULAR))
    && AllIntactBut(fs, gs, {parent, i})
  }

  /** Directory parent gains the name and loses nothing. */
  ghost predicate Lists(fs: Fs, gs: Fs, parent: nat, name: seq<byte>, t: Target) {
    && IsDir(fs, parent) && IsDir(gs, parent) && DirOf(gs, parent) == DirOf(fs, parent)[name := t]
    && StaysSmall(fs, gs, parent)
  }

  /** The entry went into a second indirect table, and the first one is lost. */
  ghost predicate Overwrote(fs: Fs, gs: Fs, parent: nat, e: DirEntry, ino: Inode) {
    exists ms, t, b :: Overflowed(fs, ms, parent, e, t, b) && gs == ms.(inodes := ms.inodes[e.ino := ino])
  }

  lemma EmptyFileAdded(fs: Fs, gs: Fs, i: nat)
    requires Valid(fs) && i !in fs.inodes && gs == fs.(inodes := fs.inodes[i := Inode(0, NoPointers())])
    ensures Added(fs, gs, i, []) && IsFile(gs, i) && FileBytes(gs, i) == []
  {
    var secs := NoPointers();
    var bm := Blocks(gs.disk, secs);
    assert forall k :: 0 <= k < MAX_BLOCKS ==> bm[k] == 0;
    assert forall b :: b in bm ==> b == 0;
    assert Took(fs.data, fs.bits, gs.bits, []);
    assert OwnedBy(gs, i) == Elems([]);
  }

  lemma CreateDone(fs: Fs, ms: Fs, gs: Fs, parent: nat, i: word, name: seq<byte>, k: nat)
    requires Valid(fs) && ReadyDir(fs, parent) && IsName(name) && name !in DirOf(fs, parent)
    requires i < MAX_INODES && i !in fs.inodes && forall k :: 0 <= k < i ==> k in fs.inodes
    requires Synced(fs, ms, parent, MakeEntry(name, i, FT_REGULAR), true, k)
    requires k < DIRECT || fs.inodes[parent].secs[12] == 0
    requires gs == ms.(inodes := ms.inodes[i := Inode(0, NoPointers())])
    ensures Created(fs, gs, parent, i, name)
  {
    hide Valid, IsFile, FileBytes, IsDir, DirOf, Leaked, Grew, AllIntactBut, Synced, MakeEntry, NameOf, LiveIn, IsName,
      Added;
    NameFits(name);
    var e := MakeEntry(name, i, FT_REGULAR);
    MadeFields(name, i, FT_REGULAR);
    NewMayJoin(fs, parent, name, i, FT_REGULAR);
    SyncedInode(fs, ms, parent, e, k);
    SyncRefines(fs, ms, parent, e, k);
    GrewDomain(fs, ms, parent);
    GrewKeepsValid(fs, ms, parent, {});
    GrewIntact(fs, ms, parent, {});
    EmptyFileAdded(ms, gs, i);
    AddedKeepsValid(ms, gs, i, []);
    IntactTwice(fs, ms, gs, {parent}, {i});
    StillIntact(ms, gs, {i}, parent);
    assert {parent} + {i} == {parent, i};
    assert Leaked(fs) + {} == Leaked(fs);
  }

  lemma StillIntact(fs: Fs, gs: Fs, changed: set<nat>, j: nat)
    requires AllIntactBut(fs, gs, changed) && j !in changed
    ensures Intact(fs, gs, j)
  {
  }

  lemma GrewDomain(fs: Fs, gs: Fs, i: nat)
    requires Grew(fs, gs, i, {})
    ensures gs.inodes.Keys == fs.inodes.Keys && i in fs.inodes
  {
  }

  /** How the part of file_create that changes the partition ends. */
  ghost predicate CreateEnds(fs: Fs, gs: Fs, parent: nat, name: seq<byte>, r: int) {
    && -1 <= r < MAX_INODES && |name| <= NAME_LEN && parent in fs.inodes && |fs.inodes[parent].secs| == 13
    && (r == -1 <==> NoNumber(fs) || NoRoom(fs, parent, Bitmap.FreeCount(fs.bits)))
    && (r == -1 ==> gs == if NoNumber(fs) || KeepsTable(fs, parent) || Bitmap.FreeCount(fs.bits) == 0 then fs
                          else Unhooked(fs, parent))
    && (r != -1 ==> if KeepsTable(fs, parent) then Created(fs, gs, parent, r, name)
                    else Overwrote(fs, gs, parent, MakeEntry(name, r, FT_REGULAR), Inode(0, NoPointers())))
  }

  /** The new file is entered into its directory and gets its inode. */
  method NameFile(p: Partition, parent: nat, i: word, name: seq<byte>) returns (ok: bool)
    requires Valid(p.State()) && ReadyDir(p.State(), parent) && IsName(name) && name !in DirOf(p.State(), parent)
    requires i < MAX_INODES && i !in p.inodes && forall k :: 0 <= k < i ==> k in p.inodes
    modifies p
    ensures CreateEnds(old(p.State()), p.State(), parent, name, if ok then i else -1)
  {
    hide Valid, IsName, MakeEntry, Synced, DirOf, Insertable, ReadyDir, CreateEnds, Place;
    ghost var fs := p.State();
    ReadyIsDir(fs, parent);
    DirIsInsertable(fs, parent);
    NameFits(name);
    InsertableFacts(fs, parent);
    MadeFields(name, i, FT_REGULAR);
    ok := SyncDirEntry(p, parent, MakeEntry(name, i, FT_REGULAR));
    ghost var ms := p.State();
    if ok {
      p.inodes := p.inodes[i := Inode(0, NoPointers())];
    }
    CreateEnded(fs, ms, p.State(), parent, i, name, ok);
  }

  lemma CreateEnded(fs: Fs, ms: Fs, gs: Fs, parent: nat, i: word, name: seq<byte>, ok: bool)
    requires Valid(fs) && ReadyDir(fs, parent) && IsName(name) && name !in DirOf(fs, parent) && Insertable(fs, parent)
    requires i < MAX_INODES && i !in fs.inodes && forall k :: 0 <= k < i ==> k in fs.inodes
    requires |name| <= NAME_LEN
    requires Synced(fs, ms, parent, MakeEntry(name, i, FT_REGULAR), ok, Place(fs.disk, fs.inodes[parent].secs, 0))
    requires gs == if ok then ms.(inodes := ms.inodes[i := Inode(0, NoPointers())]) else ms
    ensures CreateEnds(fs, gs, parent, name, if ok then i else -1)
  {
    hide Valid, IsName, MakeEntry, Created, Synced, DirOf, ReadyDir, ToName, Bitmap.FreeCount, Overwrote, Unhooked,
      Place;
    var k, e := Place(fs.disk, fs.inodes[parent].secs, 0), MakeEntry(name, i, FT_REGULAR);
    MadeFields(name, i, FT_REGULAR);
    SyncedIff(fs, ms, parent, e, ok, k);
    if !ok {
      FailedSync(fs, ms, parent, e, k);
    } else if KeepsTable(fs, parent) {
      CreateDone(fs, ms, gs, parent, i, name, k);
    } else {
      OverwroteOne(fs, ms, gs, parent, e, Inode(0, NoPointers()));
    }
  }

  /** The part of file_create that changes the partition, up to the two calls of inode_sync.  `slot`
      is whether get_free_slot_in_global finds a slot. */
  method FileCreate(p: Partition, parent: nat, name: seq<byte>, slot: bool) returns (r: int)
    requires Valid(p.State()) && ReadyDir(p.State(), parent) && IsName(name) && name !in DirOf(p.State(), parent)
    modifies p
    ensures !slot ==> r == -1 && p.State() == old(p.State())
    ensures slot ==> CreateEnds(old(p.State()), p.State(), parent, name, r)
  {
    hide Valid, IsName, MakeEntry, Created, DirOf, Insertable, ToName, Bitmap.FreeCount, Overwrote, Unhooked, NoRoom,
      KeepsTable;
    DirIsInsertable(p.State(), parent);
    NameFits(name);
    InsertableFacts(p.State(), parent);
    r := AllocInode(p);
    if r == -1 || !slot {
      return -1;
    }
    var ok := NameFile(p, parent, r, name);
    if !ok {
      r := -1;
    }
  }

  lemma OverwroteOne(fs: Fs, ms: Fs, gs: Fs, parent: nat, e: DirEntry, ino: Inode)
    requires Synced(fs, ms, parent, e, true, DIRECT) && gs == ms.(inodes := ms.inodes[e.ino := ino])
    ensures Overwrote(fs, gs, parent, e, ino)
  {
    hide Overflowed, Insertable;
    var t, b :| Overflowed(fs, ms, parent, e, t, b);
  }

  lemma NameFits(name: seq<byte>)
    requires IsName(name)
    ensures |name| <= NAME_LEN
  {
  }

  lemma InsertableFacts(fs: Fs, i: nat)
    requires Insertable(fs, i)
    ensures i in fs.inodes && |fs.inodes[i].secs| == 13 && forall j :: 0 <= j < DIRECT ==>
      fs.inodes[i].secs[j] < |fs.disk|
  {
  }

  // ---------------------------------------------------------------- making a directory

  /** The first sector of a new directory. */
  function DotsSector(self: word, parent: word): Sector {
    PutEntry(PutEntry(Zeros(SECTOR_SIZE), 0, MakeEntry([DOT], self, FT_DIRECTORY)),
             1, MakeEntry([DOT, DOT], parent, FT_DIRECTORY))
  }

  lemma DotsSectorEntries(self: word, parent: word)
    ensures var es := Entries(DotsSector(self, parent));
      && es[0] == MakeEntry([DOT], self, FT_DIRECTORY) && es[1] == MakeEntry([DOT, DOT], parent, FT_DIRECTORY)
      && (forall j :: 2 <= j < PER_SECTOR ==> es[j] == HOLE)
      && LiveOf(es) == [es[0], es[1]] && Clean(es)
  {
    hide EntryAt, PutEntry, MakeEntry, LiveOf, NameOf;
    var z: Sector := Zeros(SECTOR_SIZE);
    var a, b := MakeEntry([DOT], self, FT_DIRECTORY), MakeEntry([DOT, DOT], parent, FT_DIRECTORY);
    MadeFields([DOT], self, FT_DIRECTORY);
    MadeFields([DOT, DOT], parent, FT_DIRECTORY);
    PutEntryUpdates(z, 0, a);
    PutEntryUpdates(PutEntry(z, 0, a), 1, b);
    ClearedSector();
    HoleHasNoName();
    var es := Entries(DotsSector(self, parent));
    assert es == [a] + ([b] + es[2..]);
    LiveOfThree([a], [b], es[2..]);
    LiveOfSingle(a);
    LiveOfSingle(b);
    AllHoles(es[2..]);
  }

  /** The inode of a new directory whose only block is b. */
  function NewDirInode(b: nat): Inode {
    Inode(2 * ENTRY_SIZE, NoPointers()[0 := b])
  }

  lemma NewDirBlocks(d: Disk, b: nat, self: word, parent: word)
    requires 0 < b < |d| && d[b] == DotsSector(self, parent)
    ensures var bm := Blocks(d, NewDirInode(b).secs);
      && bm[0] == b && (forall k :: 1 <= k < MAX_BLOCKS ==> bm[k] == 0)
      && DirBlocks(d, bm, 2 * ENTRY_SIZE)
      && Live(d, bm) == [MakeEntry([DOT], self, FT_DIRECTORY), MakeEntry([DOT, DOT], parent, FT_DIRECTORY)]
  {
    hide EntryAt, DotsSector, LiveOf, MakeEntry, NameOf;
    var bm := Blocks(d, NewDirInode(b).secs);
    DotsSectorEntries(self, parent);
    MadeName([DOT], self, FT_DIRECTORY);
    MadeName([DOT, DOT], parent, FT_DIRECTORY);
    MadeFields([DOT], self, FT_DIRECTORY);
    MadeFields([DOT, DOT], parent, FT_DIRECTORY);
    NewDirLive(d, bm, b);
  }

  lemma NewDirLive(d: Disk, bm: seq<nat>, b: nat)
    requires 0 < b < |d| && |bm| == MAX_BLOCKS && bm[0] == b && forall k :: 1 <= k < MAX_BLOCKS ==> bm[k] == 0
    ensures Live(d, bm) == LiveOf(Entries(d[b]))
  {
    hide Entries, LiveOf;
    LiveAround(d, bm, 0);
    AbsentBlocks(d, bm, 1, MAX_BLOCKS);
    AbsentBlocks(d, bm, 0, 0);
    LiveOfEmpty();
  }

  /** What a new directory holds. */
  function Dots(self: word, parent: word): map<seq<byte>, Target> {
    map[[DOT] := Target(self, FT_DIRECTORY), [DOT, DOT] := Target(parent, FT_DIRECTORY)]
  }

  /** A directory was made: it holds the two dots, its parent names it, nothing else changed. */
  ghost predicate MadeDir(fs: Fs, gs: Fs, parent: nat, i: nat, name: seq<byte>) {
    && Valid(gs) && Leaked(gs) == Leaked(fs)
    && Enrolled(fs, gs, parent, i) && parent < MAX_INODES && i != parent
    && HoldsDots(gs, i, parent) && Lists(fs, gs, parent, name, Target(i, FT_DIRECTORY))
    && AllIntactBut(fs, gs, {parent, i})
  }

  ghost predicate HoldsDots(gs: Fs, i: word, parent: word) {
    IsDir(gs, i) && DirOf(gs, i) == Dots(i, parent) && Small(gs, i)
  }

  lemma NewDirAdded(fs: Fs, gs: Fs, i: word, parent: word, b: nat)
    requires Valid(fs) && i !in fs.inodes && b < |fs.disk| && Took(fs.data, fs.bits, gs.bits, [b])
    requires gs == Fs(fs.data, fs.disk[b := DotsSector(i, parent)], gs.bits, fs.inodes[i := NewDirInode(b)])
    ensures Added(fs, gs, i, [b]) && IsDir(gs, i) && Small(gs, i)
    ensures DirOf(gs, i) == Dots(i, parent)
  {
    hide DotsSector, DirBlocks, Live, Valid, DirMap;
    PositiveBlock(fs, gs, b);
    var secs := NewDirInode(b).secs;
    NewDirBlocks(gs.disk, b, i, parent);
    var bm := Blocks(gs.disk, secs);
    forall c ensures c in bm && c != 0 <==> c == b {
      assert bm[0] == b;
    }
    assert Elems([b]) == {b};
    DotsMap(i, parent);
  }

  lemma PositiveBlock(fs: Fs, gs: Fs, b: nat)
    requires Valid(fs) && Took(fs.data, fs.bits, gs.bits, [b])
    ensures 0 < fs.data <= b < fs.End() <= |fs.disk| && |gs.bits| == |fs.bits|
  {
    assert fs.data <= [b][0] < fs.End();
  }

  lemma DotsMap(self: word, parent: word)
    ensures DirMap([MakeEntry([DOT], self, FT_DIRECTORY), MakeEntry([DOT, DOT], parent, FT_DIRECTORY)])
      == Dots(self, parent)
  {
    hide MakeEntry, NameOf;
    var a, b := MakeEntry([DOT], self, FT_DIRECTORY), MakeEntry([DOT, DOT], parent, FT_DIRECTORY);
    MadeName([DOT], self, FT_DIRECTORY);
    MadeName([DOT, DOT], parent, FT_DIRECTORY);
    MadeFields([DOT], self, FT_DIRECTORY);
    MadeFields([DOT, DOT], parent, FT_DIRECTORY);
    assert [a] + [b] == [a, b] && [] + [a] == [a];
    LookupOne(a, [DOT]);
    LookupOne(b, [DOT, DOT]);
    LookupOne(a, [DOT, DOT]);
    LookupConcat([a], [b], [DOT]);
    LookupConcat([a], [b], [DOT, DOT]);
  }

  /** Directory parent can take the name. */
  ghost predicate MayTake(fs: Fs, parent: nat, name: seq<byte>) {
    ReadyDir(fs, parent) && IsName(name) && name !in DirOf(fs, parent)
  }

  /** Directory parent means what it meant. */
  ghost predicate SameDir(fs: Fs, ms: Fs, parent: nat) {
    IsDir(fs, parent) && IsDir(ms, parent) && DirOf(ms, parent) == DirOf(fs, parent) && StaysSmall(fs, ms, parent)
  }

  ghost predicate Joinable(ms: Fs, parent: nat, name: seq<byte>, i: word) {
    && IsDir(ms, parent) && |name| <= NAME_LEN && MayJoin(LiveIn(ms, parent), MakeEntry(name, i, FT_DIRECTORY))
    && NameOf(MakeEntry(name, i, FT_DIRECTORY)) == name
  }

  lemma JoinAfterAdd(fs: Fs, ms: Fs, parent: nat, name: seq<byte>, i: word, got: seq<nat>)
    requires Valid(fs) && MayTake(fs, parent, name) && Added(fs, ms, i, got)
    ensures parent != i && Valid(ms) && Leaked(ms) == Leaked(fs) && AllIntactBut(fs, ms, {i})
    ensures SameDir(fs, ms, parent) && Joinable(ms, parent, name, i)
  {
    hide Valid, Leaked, NameOf, MakeEntry, LiveIn, DirOf;
    AddedKeepsValid(fs, ms, i, got);
    StillIntact(fs, ms, {i}, parent);
    NewMayJoin(fs, parent, name, i, FT_DIRECTORY);
  }

  lemma MkdirDone(fs: Fs, ms: Fs, gs: Fs, parent: nat, i: word, name: seq<byte>, b: nat, k: nat)
    requires Valid(fs) && ReadyDir(fs, parent) && IsName(name) && name !in DirOf(fs, parent)
    requires i < MAX_INODES && parent < MAX_INODES && i !in fs.inodes && b < |fs.disk|
    requires forall k :: 0 <= k < i ==> k in fs.inodes
    requires Took(fs.data, fs.bits, ms.bits, [b])
    requires ms == Fs(fs.data, fs.disk[b := DotsSector(i, parent)], ms.bits, fs.inodes[i := NewDirInode(b)])
    requires Synced(ms, gs, parent, MakeEntry(name, i, FT_DIRECTORY), true, k)
    requires k < DIRECT || ms.inodes[parent].secs[12] == 0
    ensures MadeDir(fs, gs, parent, i, name)
  {
    hide Valid, IsFile, FileBytes, IsDir, DirOf, Leaked, Grew, AllIntactBut, Synced, MakeEntry, NameOf, LiveIn, IsName,
      Added, DotsSector, Took, Small;
    NameFits(name);
    var e := MakeEntry(name, i, FT_DIRECTORY);
    MadeFields(name, i, FT_DIRECTORY);
    NewDirAdded(fs, ms, i, parent, b);
    JoinAfterAdd(fs, ms, parent, name, i, [b]);
    SyncedInode(ms, gs, parent, e, k);
    SyncRefines(ms, gs, parent, e, k);
    GrewKeepsValid(ms, gs, parent, {});
    GrewIntact(ms, gs, parent, {});
    IntactTwice(fs, ms, gs, {i}, {parent});
    StillIntact(ms, gs, {parent}, i);
    assert {i} + {parent} == {parent, i};
    assert Leaked(ms) + {} == Leaked(ms);
  }

  /** A directory could not be made because its parent had no room: the sector already taken for
      it stays marked, and no inode owns it. */
  ghost predicate LostOne(fs: Fs, gs: Fs) {
    && Valid(gs) && gs.inodes == fs.inodes && AllIntactBut(fs, gs, {})
    && exists b :: b !in Leaked(fs) && Leaked(gs) == Leaked(fs) + {b}
  }

  lemma MkdirFailed(fs: Fs, gs: Fs, i: word, parent: word, b: nat)
    requires Valid(fs) && i !in fs.inodes && b < |fs.disk|
    requires Took(fs.data, fs.bits, gs.bits, [b])
    requires gs == Fs(fs.data, fs.disk[b := DotsSector(i, parent)], gs.bits, fs.inodes)
    ensures LostOne(fs, gs)
  {
    hide DotsSector, Leaked, Valid, Took, Sound, Agree, Owned, OwnedBy, Intact;
    forall j | j in fs.inodes
      ensures OwnedBy(gs, j) == OwnedBy(fs, j) && Sound(gs.disk, gs.inodes[j].secs, gs.data, gs.End())
    {
      UnwrittenFresh(fs, gs, b, j);
    }
    forall j ensures Intact(fs, gs, j) {
      if j in fs.inodes {
        UnwrittenFresh(fs, gs, b, j);
      }
      SameBits(fs, gs, b);
      UnwrittenIntact(fs, gs, j);
    }
    SameBits(fs, gs, b);
    LostLeak(fs, gs, b);
  }

  lemma SameBits(fs: Fs, gs: Fs, b: nat)
    requires Took(fs.data, fs.bits, gs.bits, [b])
    ensures |gs.bits| == |fs.bits|
  {
  }

  /** A sector that was free is in no inode. */
  lemma UnwrittenFresh(fs: Fs, gs: Fs, b: nat, j: nat)
    requires Valid(fs) && j in fs.inodes && b < |fs.disk| && Took(fs.data, fs.bits, gs.bits, [b])
    requires gs.data == fs.data && |gs.disk| == |fs.disk| && gs.inodes == fs.inodes
    requires gs.disk == fs.disk[b := gs.disk[b]]
    ensures OwnedBy(gs, j) == OwnedBy(fs, j) && Sound(gs.disk, gs.inodes[j].secs, gs.data, gs.End())
    ensures Shaped(fs.disk, fs.inodes[j].secs) && Agree(fs.disk, gs.disk, Owned(fs.disk, fs.inodes[j].secs))
  {
    PositiveBlock(fs, gs, b);
    TakenWasFree(fs, gs, j, [b], 0);
    UnwrittenInode(fs.disk, gs.disk, fs.inodes[j], fs.data, fs.End());
  }

  lemma LostLeak(fs: Fs, gs: Fs, b: nat)
    requires Valid(fs) && Took(fs.data, fs.bits, gs.bits, [b]) && gs.data == fs.data && gs.inodes == fs.inodes
    requires forall j :: j in fs.inodes ==>
      OwnedBy(gs, j) == OwnedBy(fs, j) && Sound(gs.disk, gs.inodes[j].secs, gs.data, gs.End())
    requires |gs.disk| == |fs.disk|
    ensures Valid(gs) && b !in Leaked(fs) && Leaked(gs) == Leaked(fs) + {b}
  {
    hide Sound, Owned;
    assert !InUse(fs.data, fs.bits, [b][0]);
    forall c ensures Marked(gs, c) <==> Marked(fs, c) || c == b {
    }
    forall j | j in fs.inodes ensures b !in OwnedBy(fs, j) {
      assert b in OwnedBy(fs, j) ==> Marked(fs, b);
    }
  }

  lemma ReadyToName(fs: Fs, ms: Fs, parent: nat, i: word, name: seq<byte>, b: nat)
    requires Valid(fs) && ReadyDir(fs, parent) && IsName(name) && name !in DirOf(fs, parent)
    requires i < MAX_INODES && parent < MAX_INODES && i !in fs.inodes && b < |fs.disk|
    requires Took(fs.data, fs.bits, ms.bits, [b])
    requires ms == Fs(fs.data, fs.disk[b := DotsSector(i, parent)], ms.bits, fs.inodes[i := NewDirInode(b)])
    ensures |name| <= NAME_LEN && Insertable(ms, parent) && Proper(MakeEntry(name, i, FT_DIRECTORY))
    ensures parent in ms.inodes && |ms.inodes[parent].secs| == 13
    ensures forall j :: 0 <= j < DIRECT ==> ms.inodes[parent].secs[j] < |ms.disk|
  {
    hide Valid, IsName, MakeEntry, DirOf, Insertable, DotsSector, Took, Added, ReadyDir, MayJoin, NameOf, LiveIn, IsDir,
      AllIntactBut, Leaked;
    NewDirAdded(fs, ms, i, parent, b);
    JoinAfterAdd(fs, ms, parent, name, i, [b]);
    DirIsInsertable(ms, parent);
    NameFits(name);
    MadeFields(name, i, FT_DIRECTORY);
    InsertableFacts(ms, parent);
  }

  /** Where the parent has room does not depend on the sector of the new directory. */
  lemma SamePlace(fs: Fs, ms: Fs, parent: nat, i: word, b: nat)
    requires Valid(fs) && ReadyDir(fs, parent) && parent < MAX_INODES && i !in fs.inodes && b < |fs.disk|
    requires Took(fs.data, fs.bits, ms.bits, [b])
    requires ms == Fs(fs.data, fs.disk[b := DotsSector(i, parent)], ms.bits, fs.inodes[i := NewDirInode(b)])
    ensures Insertable(fs, parent) && Insertable(ms, parent) && ms.inodes[parent] == fs.inodes[parent]
    ensures Place(ms.disk, fs.inodes[parent].secs, 0) == Place(fs.disk, fs.inodes[parent].secs, 0)
  {
    hide Valid, DotsSector, Took, Place, DirBlocks, Blocks;
    DirIsInsertable(fs, parent);
    PositiveBlock(fs, ms, b);
    InsertableAfter(fs, ms, parent);
    TakenWasFree(fs, ms, parent, [b], 0);
    var secs := fs.inodes[parent].secs;
    forall k | 0 <= k < DIRECT ensures secs[k] == 0 || ms.disk[secs[k]] == fs.disk[secs[k]] {
      if secs[k] != 0 {
        DirectIsOwned(fs, parent, k);
      }
    }
    PlaceSame(fs.disk, ms.disk, secs, 0);
  }

  lemma InsertableAfter(fs: Fs, ms: Fs, parent: nat)
    requires Insertable(fs, parent) && parent in ms.inodes && ms.inodes[parent] == fs.inodes[parent]
    requires |ms.disk| == |fs.disk| && ms.data == fs.data && |ms.bits| == |fs.bits|
    ensures Insertable(ms, parent)
  {
  }

  lemma DirectIsOwned(fs: Fs, i: nat, k: nat)
    requires IsDir(fs, i) && k < DIRECT && fs.inodes[i].secs[k] != 0
    ensures fs.inodes[i].secs[k] in OwnedBy(fs, i)
  {
    hide DirBlocks;
    DirectBlock(fs.disk, fs.inodes[i].secs, k);
    assert fs.inodes[i].secs[k] in Blocks(fs.disk, fs.inodes[i].secs);
  }

  lemma {:induction false} PlaceSame(d: Disk, e: Disk, secs: seq<nat>, k: nat)
    requires |secs| == 13 && k <= DIRECT && |e| == |d| && forall j :: 0 <= j < DIRECT ==> secs[j] < |d|
    requires forall j :: 0 <= j < DIRECT ==> secs[j] == 0 || e[secs[j]] == d[secs[j]]
    ensures Place(e, secs, k) == Place(d, secs, k)
    decreases DIRECT - k
  {
    hide Entries;
    if k < DIRECT {
      PlaceSame(d, e, secs, k + 1);
    }
  }

  /** The partition with the sector and the inode of the new directory, before it is named. */
  ghost predicate Unnamed(fs: Fs, ms: Fs, parent: word, i: word, b: nat) {
    && i !in fs.inodes && b < |fs.disk| && Took(fs.data, fs.bits, ms.bits, [b])
    && ms == Fs(fs.data, fs.disk[b := DotsSector(i, parent)], ms.bits, fs.inodes[i := NewDirInode(b)])
  }

  /** sync_dir_entry was asked to overwrite the table of the parent. */
  ghost predicate MkdirOverwrote(fs: Fs, gs: Fs, parent: nat, i: int, name: seq<byte>) {
    && parent < MAX_INODES && 0 <= i < MAX_INODES && |name| <= NAME_LEN
    && exists ms, b, t, c ::
         Unnamed(fs, ms, parent, i, b) && Overflowed(ms, gs, parent, MakeEntry(name, i, FT_DIRECTORY), t, c)
  }

  ghost predicate MkdirUnhooked(fs: Fs, gs: Fs, parent: nat, i: nat) {
    && i < MAX_INODES && parent < MAX_INODES
    && exists ms, b :: Unnamed(fs, ms, parent, i, b) && parent in ms.inodes && |ms.inodes[parent].secs| == 13
         && gs == Unhooked(ms, parent).(inodes := Unhooked(ms, parent).inodes - {i})
  }

  /** The new directory, already on disk, is entered into its parent; on failure its inode number
      is given back, but not its sector. */
  method NameDir(p: Partition, parent: nat, i: word, name: seq<byte>, b: nat, ghost fs: Fs) returns (ok: bool)
    requires Valid(fs) && ReadyDir(fs, parent) && IsName(name) && name !in DirOf(fs, parent)
    requires i < MAX_INODES && parent < MAX_INODES && i !in fs.inodes && b < |fs.disk|
    requires forall k :: 0 <= k < i ==> k in fs.inodes
    requires Took(fs.data, fs.bits, p.bits, [b])
    requires p.State() == Fs(fs.data, fs.disk[b := DotsSector(i, parent)], p.bits, fs.inodes[i := NewDirInode(b)])
    modifies p
    ensures !ok <==> NoRoom(fs, parent, Bitmap.FreeCount(old(p.bits)))
    ensures ok && KeepsTable(fs, parent) ==> MadeDir(fs, p.State(), parent, i, name)
    ensures ok && !KeepsTable(fs, parent) ==> MkdirOverwrote(fs, p.State(), parent, i, name)
    ensures !ok && (KeepsTable(fs, parent) || Bitmap.FreeCount(old(p.bits)) == 0) ==> LostOne(fs, p.State())
    ensures !ok && !KeepsTable(fs, parent) && Bitmap.FreeCount(old(p.bits)) > 0 ==>
      MkdirUnhooked(fs, p.State(), parent, i)
  {
    hide Valid, IsName, MakeEntry, MadeDir, Synced, DirOf, Insertable, DotsSector, Took, LostOne, ReadyDir, IsDir,
      ToName, Place, Bitmap.FreeCount, Overflowed;
    ghost var ms := p.State();
    ReadyToName(fs, ms, parent, i, name, b);
    SamePlace(fs, ms, parent, i, b);
    assert Unnamed(fs, ms, parent, i, b);
    ghost var k := Place(p.disk, p.inodes[parent].secs, 0);
    ok := SyncDirEntry(p, parent, MakeEntry(name, i, FT_DIRECTORY));
    SyncedIff(ms, p.State(), parent, MakeEntry(name, i, FT_DIRECTORY), ok, k);
    if ok {
      if KeepsTable(fs, parent) {
        MkdirDone(fs, ms, p.State(), parent, i, name, b, k);
      } else {
        SecondTable(ms, p.State(), parent, MakeEntry(name, i, FT_DIRECTORY));
      }
    } else {
      FailedSync(ms, p.State(), parent, MakeEntry(name, i, FT_DIRECTORY), k);
      ghost var hs := p.State();
      p.inodes := p.inodes - {i};
      if hs == ms {
        assert p.inodes == fs.inodes;
        MkdirFailed(fs, p.State(), i, parent, b);
      }
    }
  }

  lemma SecondTable(fs: Fs, gs: Fs, parent: nat, e: DirEntry)
    requires Synced(fs, gs, parent, e, true, DIRECT)
    ensures exists t, b :: Overflowed(fs, gs, parent, e, t, b)
  {
  }

  /** How the part of sys_mkdir that changes the partition ends. */
  ghost predicate MkdirEnds(fs: Fs, gs: Fs, parent: nat, name: seq<byte>, r: int) {
    var free := Bitmap.FreeCount(fs.bits);
    if NoNumber(fs) || free == 0 then r == -1 && gs == fs
    else if NoRoom(fs, parent, free - 1) then
      && r == -1
      && if KeepsTable(fs, parent) || free == 1 then LostOne(fs, gs) else exists i :: MkdirUnhooked(fs, gs, parent, i)
    else
      && 0 <= r < MAX_INODES
      && if KeepsTable(fs, parent) then MadeDir(fs, gs, parent, r, name) else MkdirOverwrote(fs, gs, parent, r, name)
  }

  /** The part of sys_mkdir that changes the partition, up to the two calls of inode_sync. */
  method Mkdir(p: Partition, parent: nat, name: seq<byte>) returns (r: int)
    requires Valid(p.State()) && ReadyDir(p.State(), parent) && IsName(name) && name !in DirOf(p.State(), parent)
    requires parent < MAX_INODES
    modifies p
    ensures MkdirEnds(old(p.State()), p.State(), parent, name, r)
  {
    hide Valid, IsName, MadeDir, DirOf, DotsSector, Took, LostOne, ReadyDir, NoRoom, Bitmap.FreeCount, KeepsTable,
      MkdirOverwrote, MkdirUnhooked;
    ghost var fs := p.State();
    r := AllocInode(p);
    if r == -1 {
      return;
    }
    TookNone(p.data, p.bits);
    var b := TakeBlock(p, p.bits, []);
    if b == -1 {
      return -1;
    }
    assert [] + [b] == [b];
    PositiveBlock(fs, p.State(), b);
    p.disk := p.disk[b := DotsSector(r, parent)];
    p.inodes := p.inodes[r := NewDirInode(b)];
    var ok := NameDir(p, parent, r, name, b, fs);
    if !ok {
      r := -1;
    }
  }

  // ---------------------------------------------------------------- removing

  /** Inode i is gone, and of the others only that of the directory changed, by one entry. */
  ghost predicate Struck(fs: Fs, gs: Fs, parent: nat, i: nat) {
    && i in fs.inodes && parent in fs.inodes && i != parent && gs.inodes.Keys == fs.inodes.Keys - {i}
    && (forall j :: j in gs.inodes && j != parent ==> gs.inodes[j] == fs.inodes[j])
    && gs.inodes[parent].size == fs.inodes[parent].size - ENTRY_SIZE
  }

  /** Inode i was removed together with its entry `name` in directory parent: exactly its sectors,
      and possibly one the directory gave up, are free again; nothing else changed. */
  ghost predicate Gone(fs: Fs, gs: Fs, parent: nat, i: nat, name: seq<byte>) {
    && Valid(gs) && Leaked(gs) == Leaked(fs) && Struck(fs, gs, parent, i)
    && IsDir(fs, parent) && IsDir(gs, parent) && DirOf(gs, parent) == DirOf(fs, parent) - {name}
    && (forall b {:trigger Marked(gs, b)} :: Marked(gs, b) <==>
          Marked(fs, b) && b !in OwnedBy(fs, i) && (b in OwnedBy(fs, parent) ==> b in OwnedBy(gs, parent)))
    && AllIntactBut(fs, gs, {parent, i}) && StaysSmall(fs, gs, parent)
  }

  /** The entry of `name` is in use and is the only one but the dots that names its inode. */
  lemma NamedEntry(fs: Fs, parent: nat, name: seq<byte>, i: word) returns (e: DirEntry)
    requires IsDir(fs, parent) && name in DirOf(fs, parent) && DirOf(fs, parent)[name].ino == i
    requires name != [DOT] && name != [DOT, DOT]
    ensures e in LiveIn(fs, parent) && !IsDot(e) && e.ino == i && NameOf(e) == name
    ensures forall f :: f in LiveIn(fs, parent) && !IsDot(f) && f.ino == i ==> NameOf(f) == name
  {
    hide NameOf, Live, Blocks, Sound, Distinct, AllNamed, CleanBlocks, DotsFirst, NoIdleBlock, UniqueInos;
    var live := LiveIn(fs, parent);
    NameListed(live, name);
    e := Lookup(live, name).value;
    forall f | f in live && !IsDot(f) && f.ino == i ensures NameOf(f) == name {
      SameInoSameEntry(live, e, f);
    }
  }

  lemma SameInoSameEntry(live: seq<DirEntry>, e: DirEntry, f: DirEntry)
    requires UniqueInos(live) && e in live && f in live && !IsDot(e) && !IsDot(f) && e.ino == f.ino
    ensures e == f
  {
    hide IsDot;
    var u :| 0 <= u < |live| && live[u] == e;
    var v :| 0 <= v < |live| && live[v] == f;
  }

  lemma RemoveDone(fs: Fs, ms: Fs, gs: Fs, parent: nat, i: word, name: seq<byte>, e: DirEntry, gone: set<nat>)
    requires Valid(fs) && Deleted(fs, ms, parent, e, gone) && NameOf(e) == name && i in fs.inodes && i != parent
    requires ms.inodes == fs.inodes[parent := ms.inodes[parent]]
      && ms.inodes[parent].size == fs.inodes[parent].size - ENTRY_SIZE
    requires Freed(ms, gs, i)
    ensures Gone(fs, gs, parent, i, name)
  {
    hide Valid, IsDir, DirOf, Leaked, AllIntactBut, NameOf, LiveIn, Sound, Owned;
    ShedKeepsValid(fs, ms, parent, gone);
    ShedIntact(fs, ms, parent, gone);
    FreedKeepsValid(ms, gs, i);
    IntactTwice(fs, ms, gs, {parent}, {i});
    StillIntact(ms, gs, {i}, parent);
    assert {parent} + {i} == {parent, i};
    RemovedMarks(fs, ms, gs, parent, i, gone);
  }

  lemma RemovedMarks(fs: Fs, ms: Fs, gs: Fs, parent: nat, i: nat, gone: set<nat>)
    requires Valid(fs) && Shed(fs, ms, parent, gone) && Freed(ms, gs, i) && i in fs.inodes && i != parent
    requires OwnedBy(ms, i) == OwnedBy(fs, i)
    ensures forall b {:trigger Marked(gs, b)} :: Marked(gs, b) <==>
      Marked(fs, b) && b !in OwnedBy(fs, i) && (b in OwnedBy(fs, parent) ==> b in OwnedBy(gs, parent))
  {
    hide Valid, Sound, Owned;
    assert gs.inodes[parent] == ms.inodes[parent];
    forall b ensures Marked(gs, b) <==>
      Marked(fs, b) && b !in OwnedBy(fs, i) && (b in OwnedBy(fs, parent) ==> b in OwnedBy(gs, parent))
    {
      assert Marked(ms, b) <==> Marked(fs, b) && b !in gone;
      assert OwnedBy(gs, parent) == OwnedBy(ms, parent);
    }
  }

  /** How a removal ends: refused, done, or in a loop without end. */
  datatype Removal = Refused | Done | Hangs

  /** delete_dir_entry tore off the table of the parent; the inode was released all the same. */
  ghost predicate TornOff(fs: Fs, gs: Fs, parent: nat, i: nat) {
    exists ms, k :: DIRECT <= k && Truncated(fs, ms, parent, k) && Freed(ms, gs, i)
  }

  ghost predicate RemovalEnds(fs: Fs, gs: Fs, parent: nat, i: word, name: seq<byte>, r: Removal)
    requires IsDir(fs, parent) && Readable(fs.disk, fs.inodes[parent].secs)
  {
    if Spared(fs, parent, i) then r == Done && Gone(fs, gs, parent, i, name)
    else if SomeAbsent(Blocks(fs.disk, fs.inodes[parent].secs)) then r == Hangs
    else r == Done && TornOff(fs, gs, parent, i)
  }

  /** What sys_unlink and dir_remove have in common: delete_dir_entry in the parent, then
      inode_release. */
  method RemoveEntry(p: Partition, parent: nat, i: word, ghost name: seq<byte>) returns (r: Removal)
    requires Valid(p.State()) && ReadyDir(p.State(), parent) && i in p.inodes && i != parent
    requires Readable(p.disk, p.inodes[parent].secs)
    requires name in DirOf(p.State(), parent) && DirOf(p.State(), parent)[name].ino == i
    requires name != [DOT] && name != [DOT, DOT]
    modifies p
    ensures RemovalEnds(old(p.State()), p.State(), parent, i, name, r)
  {
    hide Valid, IsDir, DirOf, LiveIn, NameOf, Deletes, Deleted, Freed, Gone, MatchBlock, Spared, Rightly, SomeAbsent,
      TornOff;
    ghost var fs := p.State();
    DirIsReadable(fs, parent);
    ghost var e := NamedEntry(fs, parent, name, i);
    var o := DeleteDirEntry(p, parent, i);
    ghost var ms := p.State();
    ghost var k := MatchBlock(fs.disk, Blocks(fs.disk, fs.inodes[parent].secs), i, 0);
    DeleteExact(fs, ms, parent, i, o);
    if o == Spins {
      return Hangs;
    }
    ghost var f, gone := e, {};
    if Spared(fs, parent, i) {
      DeleteRefines(fs, ms, parent, i, o);
      SparedDone(fs, ms, parent, i, o, k);
      f, gone := RightEntry(fs, ms, parent, i, o);
      StillThere(fs, ms, parent, f, gone, i);
    } else {
      TornState(fs, ms, parent, i, o, k);
    }
    InodeRelease(p, i);
    if Spared(fs, parent, i) {
      RemoveDone(fs, ms, p.State(), parent, i, name, f, gone);
    } else {
      TornIs(fs, ms, p.State(), parent, i, k);
    }
    return Done;
  }

  lemma SparedDone(fs: Fs, ms: Fs, parent: nat, i: word, o: Outcome, k: nat)
    requires parent in fs.inodes && Readable(fs.disk, fs.inodes[parent].secs) && Deletes(fs, ms, parent, i, o, k)
      && o == Removed
    ensures parent in ms.inodes && ms.inodes == fs.inodes[parent := ms.inodes[parent]]
    ensures ms.inodes[parent].size == fs.inodes[parent].size - ENTRY_SIZE
  {
    DeletesInode(fs, ms, parent, i, k);
  }

  lemma RightEntry(fs: Fs, ms: Fs, parent: nat, i: word, o: Outcome) returns (f: DirEntry, gone: set<nat>)
    requires Rightly(fs, ms, parent, i, o)
    ensures IsDir(fs, parent) && f in LiveIn(fs, parent) && Matches(f, i) && Deleted(fs, ms, parent, f, gone)
  {
    hide Deleted;
    f, gone :| f in LiveIn(fs, parent) && Matches(f, i) && Deleted(fs, ms, parent, f, gone);
  }

  lemma TornState(fs: Fs, ms: Fs, parent: nat, i: word, o: Outcome, k: nat)
    requires Valid(fs) && IsDir(fs, parent) && Readable(fs.disk, fs.inodes[parent].secs) && !Spared(fs, parent, i)
      && o != Spins
    requires i in fs.inodes && k == MatchBlock(fs.disk, Blocks(fs.disk, fs.inodes[parent].secs), i, 0)
    requires Deletes(fs, ms, parent, i, o, k)
    ensures DIRECT <= k && Truncated(fs, ms, parent, k) && Valid(ms) && i in ms.inodes
    ensures !SomeAbsent(Blocks(fs.disk, fs.inodes[parent].secs))
  {
    hide Entries, Blocks, LastMatch, Valid, IsDir, Cleared, Dropped, Truncated;
    NotFirstBlock(fs, parent, k);
    TruncatedLeaks(fs, ms, parent, k);
    TruncatedInodes(fs, ms, parent, k);
  }

  lemma TruncatedInodes(fs: Fs, ms: Fs, parent: nat, k: nat)
    requires Truncated(fs, ms, parent, k)
    ensures ms.inodes.Keys == fs.inodes.Keys
  {
  }

  lemma TornIs(fs: Fs, ms: Fs, gs: Fs, parent: nat, i: nat, k: nat)
    requires DIRECT <= k && Truncated(fs, ms, parent, k) && Freed(ms, gs, i)
    ensures TornOff(fs, gs, parent, i)
  {
    hide Truncated, Freed;
  }

  lemma DirIsReadable(fs: Fs, i: nat)
    requires IsDir(fs, i)
    ensures i in fs.inodes && Readable(fs.disk, fs.inodes[i].secs)
  {
    SoundIsReadable(fs.disk, fs.inodes[i].secs, fs.data, fs.End());
  }

  lemma StillThere(fs: Fs, ms: Fs, parent: nat, f: DirEntry, gone: set<nat>, i: nat)
    requires Valid(fs) && Deleted(fs, ms, parent, f, gone) && i in fs.inodes
    ensures Valid(ms) && i in ms.inodes
  {
    hide Valid, IsDir, DirOf;
    ShedKeepsValid(fs, ms, parent, gone);
  }

  /** The part of sys_unlink that changes the partition. */
  method Unlink(p: Partition, parent: nat, i: word, ghost name: seq<byte>) returns (r: Removal)
    requires Valid(p.State()) && ReadyDir(p.State(), parent) && IsFile(p.State(), i) && i != parent
    requires name in DirOf(p.State(), parent) && DirOf(p.State(), parent)[name] == Target(i, FT_REGULAR)
    requires name != [DOT] && name != [DOT, DOT]
    modifies p
    ensures Readable(old(p.disk), old(p.inodes)[parent].secs)
      && RemovalEnds(old(p.State()), p.State(), parent, i, name, r)
  {
    hide Valid, IsDir, DirOf, RemovalEnds, Readable, FileShape;
    DirIsReadable(p.State(), parent);
    r := RemoveEntry(p, parent, i, name);
  }

  /** The part of sys_rmdir that changes the partition: refused, changing nothing, exactly when
      the directory holds more than the dots. */
  method Rmdir(p: Partition, parent: nat, i: word, ghost name: seq<byte>) returns (r: Removal)
    requires Valid(p.State()) && ReadyDir(p.State(), parent) && IsDir(p.State(), i) && i != parent
    requires name in DirOf(p.State(), parent) && DirOf(p.State(), parent)[name] == Target(i, FT_DIRECTORY)
    requires name != [DOT] && name != [DOT, DOT]
    modifies p
    ensures r == Refused <==> DirOf(old(p.State()), i).Keys != {[DOT], [DOT, DOT]}
    ensures r == Refused ==> p.State() == old(p.State())
    ensures Readable(old(p.disk), old(p.inodes)[parent].secs)
    ensures r != Refused ==> RemovalEnds(old(p.State()), p.State(), parent, i, name, r)
  {
    hide Valid, IsDir, DirOf, ReadyDir, Gone, Readable, Spared, SomeAbsent, TornOff;
    EmptyIsExact(p.State(), i);
    ReadyIsDir(p.State(), parent);
    DirIsReadable(p.State(), parent);
    DirIsReadable(p.State(), i);
    if p.inodes[i].size != 2 * ENTRY_SIZE {
      return Refused;
    }
    r := RemoveEntry(p, parent, i, name);
  }

  lemma ReadyIsDir(fs: Fs, parent: nat)
    requires ReadyDir(fs, parent)
    ensures IsDir(fs, parent)
  {
  }

  // ---------------------------------------------------------------- the bitmap and its owners

  /** The bitmap marks exactly the sectors inodes own, each of them owned once. */
  ghost predicate Balanced(fs: Fs) {
    && Valid(fs)
    && forall b :: Marked(fs, b) <==> exists i :: i in fs.inodes && b in OwnedBy(fs, i)
  }

  lemma BalancedIsLeakFree(fs: Fs)
    requires Valid(fs)
    ensures Balanced(fs) <==> Leaked(fs) == {}
  {
    hide Sound, Owned, OwnedBy;
    if Leaked(fs) == {} {
      forall b | Marked(fs, b) ensures exists i :: i in fs.inodes && b in OwnedBy(fs, i) {
        assert b !in Leaked(fs);
      }
    }
    if Balanced(fs) {
      forall b ensures b !in Leaked(fs) {
        if Marked(fs, b) {
          var i :| i in fs.inodes && b in OwnedBy(fs, i);
        }
      }
    }
  }

  lemma BalancedValid(fs: Fs)
    requires Balanced(fs)
    ensures Valid(fs)
  {
  }
}
