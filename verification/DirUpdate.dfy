/** sync_dir_entry of fs/dir.c: entering a name into a directory, and when the directory keeps being a
    map. */
module DirUpdate {
  import opened Bytes
  import opened BlockMap
  import opened Volume
  import Bitmap
  import opened Directory

  // ---------------------------------------------------------------- finding a place

  function FirstHole(es: seq<DirEntry>): (j: int)
    ensures -1 <= j < |es|
    ensures j >= 0 ==> es[j].ftype == FT_UNKNOWN && forall k :: 0 <= k < j ==> es[k].ftype != FT_UNKNOWN
    ensures j == -1 ==> forall k :: 0 <= k < |es| ==> es[k].ftype != FT_UNKNOWN
  {
    if es == [] then -1
    else if es[0].ftype == FT_UNKNOWN then 0
    else
      var j := FirstHole(es[1..]);
      assert forall k :: 1 <= k < |es| ==> es[k] == es[1..][k - 1];
      if j == -1 then -1 else j + 1
  }

  /** Direct block k can take another entry: it is absent or has a hole. */
  predicate HasRoom(d: Disk, secs: seq<nat>, k: nat)
    requires |secs| == 13 && k < DIRECT && secs[k] < |d|
  {
    secs[k] == 0 || FirstHole(Entries(d[secs[k]])) != -1
  }

  /** The direct block an entry goes to, or 12 when all of them are full. */
  function Place(d: Disk, secs: seq<nat>, k: nat): (r: nat)
    requires |secs| == 13 && k <= DIRECT && forall j :: 0 <= j < DIRECT ==> secs[j] < |d|
    ensures k <= r <= DIRECT
    ensures forall j :: k <= j < r ==> !HasRoom(d, secs, j)
    ensures r < DIRECT ==> HasRoom(d, secs, r)
    decreases DIRECT - k
  {
    if k == DIRECT || HasRoom(d, secs, k) then k else Place(d, secs, k + 1)
  }

  method FindHole(s: Sector) returns (j: int)
    ensures j == FirstHole(Entries(s))
  {
    hide EntryAt;
    ghost var es := Entries(s);
    var idx := 0;
    assert es[0..] == es;
    while idx < PER_SECTOR
      invariant 0 <= idx <= PER_SECTOR
      invariant FirstHole(es) == if FirstHole(es[idx..]) == -1 then -1 else idx + FirstHole(es[idx..])
    {
      var e := EntryAt(s, idx);
      assert es[idx..][0] == e && es[idx..][1..] == es[idx + 1..];
      if e.ftype == FT_UNKNOWN {
        return idx;
      }
      idx := idx + 1;
    }
    j := -1;
  }

  /** A fresh directory sector holding just one entry. */
  function NewSector(e: DirEntry): Sector
    requires Proper(e)
  {
    PutEntry(Zeros(SECTOR_SIZE), 0, e)
  }

  // ---------------------------------------------------------------- sync_dir_entry

  /** The entry went into a hole of block k. */
  ghost predicate Filled(fs: Fs, gs: Fs, i: nat, e: DirEntry, k: nat) {
    && i in fs.inodes && |fs.inodes[i].secs| == 13 && Proper(e)
    && var ino := fs.inodes[i];
    && k < DIRECT && 0 < ino.secs[k] < |fs.disk|
    && var j := FirstHole(Entries(fs.disk[ino.secs[k]]));
    && j >= 0
    && gs == Fs(fs.data, fs.disk[ino.secs[k] := PutEntry(fs.disk[ino.secs[k]], j, e)], fs.bits,
                fs.inodes[i := Inode(ino.size + ENTRY_SIZE, ino.secs)])
  }

  /** The entry went into a new direct block b at index k. */
  ghost predicate Opened(fs: Fs, gs: Fs, i: nat, e: DirEntry, k: nat, b: nat) {
    && i in fs.inodes && |fs.inodes[i].secs| == 13 && Proper(e)
    && var ino := fs.inodes[i];
    && k < DIRECT && ino.secs[k] == 0 && b < |fs.disk|
    && gs == Fs(fs.data, fs.disk[b := NewSector(e)], gs.bits,
                fs.inodes[i := Inode(ino.size + ENTRY_SIZE, ino.secs[k := b])])
    && Took(fs.data, fs.bits, gs.bits, [b])
  }

  /** The entry went into block b, the only one of a new indirect table t. */
  ghost predicate Overflowed(fs: Fs, gs: Fs, i: nat, e: DirEntry, t: nat, b: nat) {
    && i in fs.inodes && |fs.inodes[i].secs| == 13 && Proper(e)
    && var ino := fs.inodes[i];
    && t < |fs.disk| && b < |fs.disk| && b < WORD_LIMIT
    && gs == Fs(fs.data, fs.disk[t := PackWords([b] + seq(127, _ => 0))][b := NewSector(e)], gs.bits,
                fs.inodes[i := Inode(ino.size + ENTRY_SIZE, ino.secs[12 := t])])
    && Took(fs.data, fs.bits, gs.bits, [t, b])
  }

  /** How many sectors an entry for place k needs: none in a block with a hole, one for a new
      block, two for a new block and the table that leads to it. */
  function ToName(secs: seq<nat>, k: nat): nat
    requires |secs| == 13
  {
    if k >= DIRECT then 2 else if secs[k] == 0 then 1 else 0
  }

  /** The four ways sync_dir_entry ends.  It fails only for lack of sectors; a failure with one
      sector left clears the indirect pointer. */
  ghost predicate Synced(fs: Fs, gs: Fs, i: nat, e: DirEntry, ok: bool, k: nat) {
    && i in fs.inodes && |fs.inodes[i].secs| == 13 && k <= DIRECT
    && (ok <==> Bitmap.FreeCount(fs.bits) >= ToName(fs.inodes[i].secs, k))
    && var ino := fs.inodes[i];
    if k < DIRECT && ino.secs[k] != 0 then ok && Filled(fs, gs, i, e, k)
    else if k < DIRECT then
      if ok then exists b :: Opened(fs, gs, i, e, k, b) else Bitmap.FreeCount(fs.bits) == 0 && gs == fs
    else if ok then exists t, b :: Overflowed(fs, gs, i, e, t, b)
    else if Bitmap.FreeCount(fs.bits) == 0 then gs == fs
    else Bitmap.FreeCount(fs.bits) == 1 && gs == fs.(inodes := fs.inodes[i := Inode(ino.size, ino.secs[12 := 0])])
  }

  predicate Insertable(fs: Fs, i: nat) {
    && i in fs.inodes && |fs.inodes[i].secs| == 13
    && fs.End() <= |fs.disk| <= WORD_LIMIT
    && forall k :: 0 <= k < DIRECT ==> fs.inodes[i].secs[k] < |fs.disk|
  }

  method OpenBlock(p: Partition, i: nat, e: DirEntry, k: nat) returns (ok: bool)
    requires Insertable(p.State(), i) && Proper(e) && k < DIRECT && p.inodes[i].secs[k] == 0
    modifies p
    ensures Synced(old(p.State()), p.State(), i, e, ok, k)
  {
    hide NewSector, Took;
    ghost var fs := p.State();
    TookNone(p.data, p.bits);
    var b := TakeBlock(p, p.bits, []);
    if b == -1 {
      return false;
    }
    assert [] + [b] == [b];
    var ino := p.inodes[i];
    p.disk := p.disk[b := NewSector(e)];
    p.inodes := p.inodes[i := Inode(ino.size + ENTRY_SIZE, ino.secs[k := b])];
    assert Opened(fs, p.State(), i, e, k, b);
    ok := true;
  }

  /** Taking one sector and clearing its bit again is no change. */
  lemma TakeAndReturn(bits: seq<bool>, k: nat)
    requires k < |bits| && !bits[k]
    ensures bits[k := true][k := false] == bits
  {
  }

  lemma TookNone(data: nat, bits: seq<bool>)
    ensures Took(data, bits, bits, [])
  {
  }

  method OpenTable(p: Partition, i: nat, e: DirEntry) returns (ok: bool)
    requires Insertable(p.State(), i) && Proper(e)
    modifies p
    ensures Synced(old(p.State()), p.State(), i, e, ok, DIRECT)
  {
    hide NewSector, PackWords, Took, Overflowed;
    ghost var fs := p.State();
    TookNone(p.data, p.bits);
    var t := TakeBlock(p, p.bits, []);
    if t == -1 {
      return false;
    }
    assert [] + [t] == [t];
    var ino := p.inodes[i];
    p.inodes := p.inodes[i := Inode(ino.size, ino.secs[12 := t])];
    var b := TakeBlock(p, fs.bits, [t]);
    if b == -1 {
      TakeAndReturn(fs.bits, t - p.data);
      p.bits := p.bits[t - p.data := false];
      p.inodes := p.inodes[i := Inode(ino.size, ino.secs[12 := 0])];
      return false;
    }
    assert [t] + [b] == [t, b];
    WriteTable(p, i, e, t, b, fs);
    ok := true;
  }

  method WriteTable(p: Partition, i: nat, e: DirEntry, t: nat, b: nat, ghost fs: Fs)
    requires Insertable(fs, i) && Proper(e) && t < |fs.disk| && b < |fs.disk|
    requires p.State() == Fs(fs.data, fs.disk, p.bits, fs.inodes[i := Inode(fs.inodes[i].size,
      fs.inodes[i].secs[12 := t])])
    requires Took(fs.data, fs.bits, p.bits, [t, b])
    modifies p`disk, p`inodes
    ensures Overflowed(fs, p.State(), i, e, t, b)
  {
    hide NewSector, PackWords, Took;
    p.disk := p.disk[t := PackWords([b] + seq(127, _ => 0))];
    p.disk := p.disk[b := NewSector(e)];
    var ino := p.inodes[i];
    p.inodes := p.inodes[i := Inode(ino.size + ENTRY_SIZE, ino.secs)];
  }

  method FillHole(p: Partition, i: nat, e: DirEntry, k: nat, j: nat)
    requires Insertable(p.State(), i) && Proper(e) && k < DIRECT && p.inodes[i].secs[k] != 0
    requires j < PER_SECTOR && j == FirstHole(Entries(p.disk[p.inodes[i].secs[k]]))
    modifies p
    ensures Synced(old(p.State()), p.State(), i, e, true, k)
  {
    hide Entries, PutEntry;
    var ino := p.inodes[i];
    p.disk := p.disk[ino.secs[k] := PutEntry(p.disk[ino.secs[k]], j, e)];
    p.inodes := p.inodes[i := Inode(ino.size + ENTRY_SIZE, ino.secs)];
  }

  /** sync_dir_entry.  The indirect table is never read: past the direct blocks every index of
      all_blocks looks absent. */
  method SyncDirEntry(p: Partition, i: nat, e: DirEntry) returns (ok: bool)
    requires Insertable(p.State(), i) && Proper(e)
    modifies p
    ensures Synced(old(p.State()), p.State(), i, e, ok, Place(old(p.disk), old(p.inodes)[i].secs, 0))
  {
    hide Entries, Synced, Place, FirstHole;
    ghost var fs := p.State();
    var ino := p.inodes[i];
    var all := ino.secs[..12] + seq(128, _ => 0);
    var blockIdx := 0;
    while blockIdx < MAX_BLOCKS
      invariant 0 <= blockIdx <= DIRECT
      invariant p.State() == fs
      invariant Place(fs.disk, ino.secs, 0) == Place(fs.disk, ino.secs, blockIdx)
    {
      PlaceStep(fs.disk, ino.secs, blockIdx);
      if all[blockIdx] == 0 {
        if blockIdx < DIRECT {
          ok := OpenBlock(p, i, e, blockIdx);
        } else {
          ok := OpenTable(p, i, e);
        }
        return;
      }
      var j := FindHole(p.disk[all[blockIdx]]);
      if j != -1 {
        FillHole(p, i, e, blockIdx, j);
        return true;
      }
      blockIdx := blockIdx + 1;
    }
    ok := false;
  }

  lemma PlaceStep(d: Disk, secs: seq<nat>, k: nat)
    requires |secs| == 13 && k <= DIRECT && forall j :: 0 <= j < DIRECT ==> secs[j] < |d|
    ensures Place(d, secs, k) == if k == DIRECT || HasRoom(d, secs, k) then k else Place(d, secs, k + 1)
  {
  }

  // ---------------------------------------------------------------- insertion refines the map

  /** Entry e may join directory i: its name and its inode are new there. */
  ghost predicate MayJoin(live: seq<DirEntry>, e: DirEntry) {
    && Proper(e) && e.ftype != FT_UNKNOWN && IsName(NameOf(e)) && NameOf(e) !in Names(live)
    && (IsDot(e) || forall f :: f in live && !IsDot(f) ==> f.ino != e.ino)
  }

  /** One block gains an entry: the directory is still in order and its map gains the name. */
  lemma BlockGains(d: Disk, bm: seq<nat>, size: nat, d': Disk, cm: seq<nat>, k: nat, e: DirEntry)
    requires DirBlocks(d, bm, size) && DiffersAt(d, bm, d', cm, k) && cm[k] != 0
    requires MayJoin(Live(d, bm), e)
    requires OneMore(LiveOf(BlockSlots(d, bm, k)), LiveOf(BlockSlots(d', cm, k)), e)
    requires Clean(Entries(d'[cm[k]]))
    requires k == 0 ==> Entries(d'[cm[0]])[..2] == Entries(d[bm[0]])[..2]
    ensures DirBlocks(d', cm, size + ENTRY_SIZE)
    ensures DirMap(Live(d', cm)) == DirMap(Live(d, bm))[NameOf(e) := Target(e.ino, e.ftype)]
  {
    hide Slots, NameOf, IsName, IsDot, LiveOf, Distinct, UniqueInos, AllNamed, DirMap, OneMore, Entries, DotsFirst,
      Clean, CleanBlocks, NoIdleBlock, Live;
    DotsStay(d, bm, d', cm, k);
    OneMoreNonempty(LiveOf(BlockSlots(d, bm, k)), LiveOf(BlockSlots(d', cm, k)), e);
    OtherBlocksStay(d, bm, d', cm, k);
    var p, s := LiveReplaced(d, bm, d', cm, k);
    OneMoreInside(p, LiveOf(BlockSlots(d, bm, k)), LiveOf(BlockSlots(d', cm, k)), s, e);
    OneMoreRow(Live(d, bm), Live(d', cm), e);
  }

  lemma OneMoreNonempty(less: seq<DirEntry>, more: seq<DirEntry>, e: DirEntry)
    requires OneMore(less, more, e)
    ensures more != []
  {
  }

  lemma NewSectorEntries(e: DirEntry)
    requires Proper(e) && e.ftype != FT_UNKNOWN
    ensures LiveOf(Entries(NewSector(e))) == [e] && Clean(Entries(NewSector(e)))
  {
    hide Entries, PutEntry;
    var z: Sector := Zeros(SECTOR_SIZE);
    PutEntryUpdates(z, 0, e);
    ClearedSector();
    HoleHasNoName();
    var es := Entries(NewSector(e));
    assert es == [e] + es[1..];
    AllHoles(es[1..]);
    LiveOfConcat([e], es[1..]);
    LiveOfSingle(e);
  }

  lemma HoleHasNoName()
    ensures NameOf(HOLE) == []
  {
  }

  lemma {:induction false} AllHoles(es: seq<DirEntry>)
    requires forall k :: 0 <= k < |es| ==> es[k].ftype == FT_UNKNOWN
    ensures LiveOf(es) == []
  {
    if es != [] {
      AllHoles(es[..|es| - 1]);
    }
  }

  /** Insertion done right: the directory is in order, its map has the new name, and the volume
      gained no sector it does not own. */
  ghost predicate Inserted(fs: Fs, gs: Fs, i: nat, e: DirEntry) {
    && IsDir(fs, i) && IsDir(gs, i)
    && DirOf(gs, i) == DirOf(fs, i)[NameOf(e) := Target(e.ino, e.ftype)]
    && Grew(fs, gs, i, {}) && StaysSmall(fs, gs, i)
  }

  ghost function LiveIn(fs: Fs, i: nat): seq<DirEntry>
    requires IsDir(fs, i)
  {
    Live(fs.disk, Blocks(fs.disk, fs.inodes[i].secs))
  }

  lemma FilledRefines(fs: Fs, gs: Fs, i: nat, e: DirEntry, k: nat)
    requires Valid(fs) && IsDir(fs, i) && Filled(fs, gs, i, e, k) && MayJoin(LiveIn(fs, i), e)
    ensures Inserted(fs, gs, i, e)
  {
    hide Entries, PutEntry, DirMap, Live, DirBlocks, BlockSlots, LiveOf, Valid, Blocks, OneMore, Took, Clean;
    var secs := fs.inodes[i].secs;
    FilledSound(fs, gs, i, e, k);
    FilledBlock(fs, gs, i, e, k);
    BlockGains(fs.disk, Blocks(fs.disk, secs), fs.inodes[i].size, gs.disk, Blocks(gs.disk, secs), k, e);
  }

  lemma FilledSound(fs: Fs, gs: Fs, i: nat, e: DirEntry, k: nat)
    requires Valid(fs) && IsDir(fs, i) && Filled(fs, gs, i, e, k)
    ensures Blocks(gs.disk, fs.inodes[i].secs) == Blocks(fs.disk, fs.inodes[i].secs)
    ensures Grew(fs, gs, i, {})
  {
    hide Entries, PutEntry, DirBlocks, Valid, Took, Grew;
    var secs := fs.inodes[i].secs;
    var bm := Blocks(fs.disk, secs);
    assert bm[k] == secs[k] && bm[k] in OwnedBy(fs, i);
    assert Blocks(gs.disk, secs) == bm;
    assert Elems([]) == {};
    TookNone(fs.data, fs.bits);
    TookGrew(fs, gs, i, []);
  }

  /** The blocks of a directory are distinct, clean, and the first begins with two live entries. */
  lemma DirIsInOrder(fs: Fs, i: nat, k: nat)
    requires IsDir(fs, i) && k < MAX_BLOCKS
    ensures i in fs.inodes && Shaped(fs.disk, fs.inodes[i].secs)
    ensures var bm := Blocks(fs.disk, fs.inodes[i].secs);
      && |bm| == MAX_BLOCKS && (forall k :: 0 <= k < |bm| ==> bm[k] < |fs.disk|) && CleanBlocks(fs.disk, bm)
      && bm[0] != 0 && Entries(fs.disk[bm[0]])[0].ftype != FT_UNKNOWN && Entries(fs.disk[bm[0]])[1].ftype != FT_UNKNOWN
      && (forall j :: 0 <= j < |bm| && j != k && bm[j] != 0 ==> bm[j] != bm[k])
  {
  }

  lemma FilledBlock(fs: Fs, gs: Fs, i: nat, e: DirEntry, k: nat)
    requires Valid(fs) && IsDir(fs, i) && Filled(fs, gs, i, e, k) && e.ftype != FT_UNKNOWN
    requires Blocks(gs.disk, fs.inodes[i].secs) == Blocks(fs.disk, fs.inodes[i].secs)
    ensures var secs := fs.inodes[i].secs;
      var bm := Blocks(fs.disk, secs);
      && DiffersAt(fs.disk, bm, gs.disk, bm, k) && bm[k] != 0
      && OneMore(LiveOf(BlockSlots(fs.disk, bm, k)), LiveOf(BlockSlots(gs.disk, bm, k)), e)
      && Clean(Entries(gs.disk[bm[k]]))
      && (k == 0 ==> Entries(gs.disk[bm[0]])[..2] == Entries(fs.disk[bm[0]])[..2])
  {
    hide Live, Entries, LiveOf, PutEntry, Valid, DirBlocks, Sound, IsDir, OneMore, FirstHole, Clean, DiffersAt, Blocks,
      BlockSlots, CleanBlocks;
    DirIsInOrder(fs, i, k);
    var secs := fs.inodes[i].secs;
    DirectBlock(fs.disk, secs, k);
    FilledAt(fs.disk, gs.disk, Blocks(fs.disk, secs), k, e);
  }

  lemma DirectBlock(d: Disk, secs: seq<nat>, k: nat)
    requires Shaped(d, secs) && k < DIRECT
    ensures Blocks(d, secs)[k] == secs[k]
  {
  }

  lemma FilledAt(d: Disk, d': Disk, bm: seq<nat>, k: nat, e: DirEntry)
    requires k < |bm| == MAX_BLOCKS && (forall j :: 0 <= j < |bm| ==> bm[j] < |d|) && bm[k] != 0 && CleanBlocks(d, bm)
    requires bm[0] != 0 && Entries(d[bm[0]])[0].ftype != FT_UNKNOWN && Entries(d[bm[0]])[1].ftype != FT_UNKNOWN
    requires forall j :: 0 <= j < |bm| && j != k && bm[j] != 0 ==> bm[j] != bm[k]
    requires FirstHole(Entries(d[bm[k]])) >= 0 && Proper(e) && e.ftype != FT_UNKNOWN
    requires d' == d[bm[k] := PutEntry(d[bm[k]], FirstHole(Entries(d[bm[k]])), e)]
    ensures DiffersAt(d, bm, d', bm, k)
    ensures OneMore(LiveOf(BlockSlots(d, bm, k)), LiveOf(BlockSlots(d', bm, k)), e)
    ensures Clean(Entries(d'[bm[k]])) && (k == 0 ==> Entries(d'[bm[0]])[..2] == Entries(d[bm[0]])[..2])
  {
    hide Entries, LiveOf, PutEntry, OneMore, FirstHole, Clean;
    FilledSector(d[bm[k]], e);
  }

  lemma FilledSector(s: Sector, e: DirEntry)
    requires FirstHole(Entries(s)) >= 0 && Proper(e) && e.ftype != FT_UNKNOWN && Clean(Entries(s))
    ensures var es, gs := Entries(s), Entries(PutEntry(s, FirstHole(Entries(s)), e));
      && OneMore(LiveOf(es), LiveOf(gs), e) && Clean(gs)
      && (es[0].ftype != FT_UNKNOWN && es[1].ftype != FT_UNKNOWN ==> gs[..2] == es[..2])
  {
    hide EntryAt, NameOf, LiveOf, PutEntry;
    var es := Entries(s);
    var j := FirstHole(es);
    PutEntryUpdates(s, j, e);
    LiveFill(es, j, e);
  }

  lemma OpenedRefines(fs: Fs, gs: Fs, i: nat, e: DirEntry, k: nat, b: nat)
    requires Valid(fs) && IsDir(fs, i) && Opened(fs, gs, i, e, k, b) && MayJoin(LiveIn(fs, i), e)
    ensures Inserted(fs, gs, i, e)
  {
    hide Entries, NewSector, DirMap, Live, DirBlocks, BlockSlots, LiveOf, Grew, Blocks;
    OpenedSound(fs, gs, i, e, k, b);
    BlocksOwned(fs.disk, fs.inodes[i].secs);
    JoinedNewBlock(fs, gs, i, e, k, b);
  }

  lemma OpenedSound(fs: Fs, gs: Fs, i: nat, e: DirEntry, k: nat, b: nat)
    requires Valid(fs) && IsDir(fs, i) && Opened(fs, gs, i, e, k, b)
    ensures Blocks(fs.disk, fs.inodes[i].secs)[k] == 0
    ensures Shaped(gs.disk, gs.inodes[i].secs)
    ensures Blocks(gs.disk, gs.inodes[i].secs) == Blocks(fs.disk, fs.inodes[i].secs)[k := b]
    ensures Grew(fs, gs, i, {}) && 0 < b && gs.disk[b] == NewSector(e)
    ensures forall c :: c in OwnedBy(fs, i) && c < |fs.disk| ==> gs.disk[c] == fs.disk[c]
  {
    hide NewSector, DirBlocks, Valid, Took, Grew, Sound, Owned, Blocks;
    var secs, tecs := fs.inodes[i].secs, gs.inodes[i].secs;
    TakenWasFree(fs, gs, i, [b], 0);
    DirIsShaped(fs, i);
    OpenedBlocks(fs, gs, i, e, k, b);
    PointerAdded(fs.disk, secs, gs.disk, tecs, k, b, fs.data, fs.End());
    assert Elems([b]) == {b};
    TookGrew(fs, gs, i, [b]);
  }

  lemma OpenedBlocks(fs: Fs, gs: Fs, i: nat, e: DirEntry, k: nat, b: nat)
    requires Opened(fs, gs, i, e, k, b) && Shaped(fs.disk, fs.inodes[i].secs) && b !in OwnedBy(fs, i)
    ensures Blocks(fs.disk, fs.inodes[i].secs)[k] == 0
    ensures Shaped(gs.disk, gs.inodes[i].secs)
    ensures Blocks(gs.disk, gs.inodes[i].secs) == Blocks(fs.disk, fs.inodes[i].secs)[k := b]
  {
    hide NewSector;
    var secs, tecs := fs.inodes[i].secs, gs.inodes[i].secs;
    assert Blocks(fs.disk, secs)[k] == secs[k];
    assert secs[12] != 0 ==> secs[12] in OwnedBy(fs, i);
    assert secs[12] != 0 ==> Words(gs.disk[secs[12]]) == Words(fs.disk[secs[12]]);
  }

  lemma DirIsShaped(fs: Fs, i: nat)
    requires IsDir(fs, i)
    ensures Shaped(fs.disk, fs.inodes[i].secs)
  {
  }

  /** A directory whose block map gained a fresh sector with one entry. */
  lemma JoinedNewBlock(fs: Fs, gs: Fs, i: nat, e: DirEntry, k: nat, b: nat)
    requires IsDir(fs, i) && MayJoin(LiveIn(fs, i), e) && k <= DIRECT
    requires Grew(fs, gs, i, {}) && gs.inodes[i].size == fs.inodes[i].size + ENTRY_SIZE
    requires Blocks(fs.disk, fs.inodes[i].secs)[k] == 0
    requires Blocks(gs.disk, gs.inodes[i].secs) == Blocks(fs.disk, fs.inodes[i].secs)[k := b]
    requires 0 < b < |gs.disk| && gs.disk[b] == NewSector(e)
    requires forall j :: 0 <= j < MAX_BLOCKS && Blocks(fs.disk, fs.inodes[i].secs)[j] != 0 ==>
      gs.disk[Blocks(fs.disk, fs.inodes[i].secs)[j]] == fs.disk[Blocks(fs.disk, fs.inodes[i].secs)[j]]
    ensures Inserted(fs, gs, i, e)
  {
    hide Entries, NewSector, DirMap, Live, LiveOf, Blocks;
    var bm, cm := Blocks(fs.disk, fs.inodes[i].secs), Blocks(gs.disk, gs.inodes[i].secs);
    NewBlock(fs.disk, bm, gs.disk, cm, e, k, b);
    BlockGains(fs.disk, bm, fs.inodes[i].size, gs.disk, cm, k, e);
  }

  /** Block k of the new map is a fresh sector with the one entry. */
  lemma NewBlock(d: Disk, bm: seq<nat>, d': Disk, cm: seq<nat>, e: DirEntry, k: nat, b: nat)
    requires Proper(e) && e.ftype != FT_UNKNOWN && k < |bm| == MAX_BLOCKS && |d'| == |d|
    requires (forall j :: 0 <= j < MAX_BLOCKS ==> bm[j] < |d|) && bm[k] == 0 && cm == bm[k := b]
    requires 0 < b < |d'| && d'[b] == NewSector(e)
    requires forall j :: 0 <= j < MAX_BLOCKS && bm[j] != 0 ==> d'[bm[j]] == d[bm[j]]
    ensures DiffersAt(d, bm, d', cm, k) && cm[k] != 0
    ensures OneMore(LiveOf(BlockSlots(d, bm, k)), LiveOf(BlockSlots(d', cm, k)), e)
    ensures Clean(Entries(d'[cm[k]]))
  {
    hide Entries, NewSector, NameOf;
    NewSectorEntries(e);
    assert [] + [e] + [] == [e];
    assert LiveOf([]) == [] + [];
  }

  /** The first overflow of a directory past its direct blocks. */
  lemma OverflowRefines(fs: Fs, gs: Fs, i: nat, e: DirEntry, t: nat, b: nat)
    requires Valid(fs) && IsDir(fs, i) && Overflowed(fs, gs, i, e, t, b) && MayJoin(LiveIn(fs, i), e)
    requires fs.inodes[i].secs[12] == 0
    ensures Inserted(fs, gs, i, e)
  {
    hide Entries, NewSector, DirMap, Live, DirBlocks, BlockSlots, LiveOf, Grew, Blocks, PackWords;
    OverflowSound(fs, gs, i, e, t, b);
    JoinedNewBlock(fs, gs, i, e, DIRECT, b);
  }

  lemma OverflowSound(fs: Fs, gs: Fs, i: nat, e: DirEntry, t: nat, b: nat)
    requires Valid(fs) && IsDir(fs, i) && Overflowed(fs, gs, i, e, t, b) && fs.inodes[i].secs[12] == 0
    ensures Blocks(fs.disk, fs.inodes[i].secs)[DIRECT] == 0
    ensures Shaped(gs.disk, gs.inodes[i].secs)
    ensures Blocks(gs.disk, gs.inodes[i].secs) == Blocks(fs.disk, fs.inodes[i].secs)[DIRECT := b]
    ensures Grew(fs, gs, i, {}) && 0 < b && gs.disk[b] == NewSector(e)
    ensures forall j :: 0 <= j < MAX_BLOCKS && Blocks(fs.disk, fs.inodes[i].secs)[j] != 0 ==>
      gs.disk[Blocks(fs.disk, fs.inodes[i].secs)[j]] == fs.disk[Blocks(fs.disk, fs.inodes[i].secs)[j]]
  {
    hide NewSector, DirBlocks, PackWords, Valid, Took, Grew, Blocks, Sound, Owned;
    var secs, tecs := fs.inodes[i].secs, gs.inodes[i].secs;
    PairIsNew(fs, gs, i, t, b);
    DirIsShaped(fs, i);
    OverflowBlocks(fs, gs, i, e, t, b);
    NoTable(fs.disk, secs);
    assert Blocks(gs.disk, tecs) == Blocks(fs.disk, secs)[DIRECT := b];
    PointerAdded(fs.disk, secs, gs.disk, tecs, DIRECT, b, fs.data, fs.End());
    assert Elems([t, b]) == {t, b};
    TookGrew(fs, gs, i, [t, b]);
    BlocksOwned(fs.disk, secs);
    SoundIsReadable(fs.disk, secs, fs.data, fs.End());
    var bm := Blocks(fs.disk, secs);
    forall j | 0 <= j < MAX_BLOCKS && bm[j] != 0 ensures gs.disk[bm[j]] == fs.disk[bm[j]] {
      assert bm[j] in OwnedBy(fs, i);
    }
  }

  lemma NoTable(d: Disk, secs: seq<nat>)
    requires Shaped(d, secs) && secs[12] == 0
    ensures Blocks(d, secs) == secs[..12] + seq(128, _ => 0)
  {
  }

  lemma OverflowBlocks(fs: Fs, gs: Fs, i: nat, e: DirEntry, t: nat, b: nat)
    requires Overflowed(fs, gs, i, e, t, b) && fs.inodes[i].secs[12] < |fs.disk| && t != b && t != 0
    ensures Shaped(gs.disk, gs.inodes[i].secs)
    ensures Blocks(gs.disk, gs.inodes[i].secs) == fs.inodes[i].secs[..12] + ([b] + seq(127, _ => 0))
  {
    hide NewSector, PackWords;
    var ws: seq<word> := [b] + seq(127, _ => 0);
    WordsRoundTrip(ws);
    assert gs.disk[t] == PackWords(ws);
  }

  /** A direct block has room, or there is no indirect table that sync_dir_entry could overwrite. */
  predicate KeepsTable(fs: Fs, i: nat) {
    && Insertable(fs, i)
    && var secs := fs.inodes[i].secs;
    Place(fs.disk, secs, 0) < DIRECT || secs[12] == 0
  }

  /** A successful sync_dir_entry changes one inode, by one entry. */
  lemma SyncedInode(fs: Fs, gs: Fs, i: nat, e: DirEntry, k: nat)
    requires Synced(fs, gs, i, e, true, k)
    ensures i in fs.inodes && i in gs.inodes && gs.inodes == fs.inodes[i := gs.inodes[i]]
    ensures gs.inodes[i].size == fs.inodes[i].size + ENTRY_SIZE
  {
    hide Entries, PutEntry, NewSector, PackWords, Took;
  }

  /** sync_dir_entry refines insertion as long as a direct block has room or the directory has no
      indirect table yet. */
  lemma SyncRefines(fs: Fs, gs: Fs, i: nat, e: DirEntry, k: nat)
    requires Valid(fs) && IsDir(fs, i) && Synced(fs, gs, i, e, true, k) && MayJoin(LiveIn(fs, i), e)
    requires k < DIRECT || fs.inodes[i].secs[12] == 0
    ensures Inserted(fs, gs, i, e)
  {
    hide IsDir, Inserted, Filled, Opened, Overflowed, LiveIn, MayJoin;
    if k < DIRECT && fs.inodes[i].secs[k] != 0 {
      FilledRefines(fs, gs, i, e, k);
    } else if k < DIRECT {
      var b :| Opened(fs, gs, i, e, k, b);
      OpenedRefines(fs, gs, i, e, k, b);
    } else {
      var t, b :| Overflowed(fs, gs, i, e, t, b);
      OverflowRefines(fs, gs, i, e, t, b);
    }
  }

  /** Exactly when a second overflow keeps the entries: the map gains the name and loses nothing
      iff the directory had no block past the direct ones. */
  lemma OverflowExact(fs: Fs, gs: Fs, i: nat, e: DirEntry, t: nat, b: nat)
    requires Valid(fs) && IsDir(fs, i) && Overflowed(fs, gs, i, e, t, b) && MayJoin(LiveIn(fs, i), e)
    ensures Readable(gs.disk, gs.inodes[i].secs)
    ensures var live := Live(gs.disk, Blocks(gs.disk, gs.inodes[i].secs));
      DirMap(live) == DirOf(fs, i)[NameOf(e) := Target(e.ino, e.ftype)] <==>
        forall k :: DIRECT <= k < MAX_BLOCKS ==> Blocks(fs.disk, fs.inodes[i].secs)[k] == 0
  {
    hide Entries, LiveOf, NameOf, Distinct, DirMap, DirBlocks, Names, Slots, IsName, IsDot;
    var bm, cm := Blocks(fs.disk, fs.inodes[i].secs), Blocks(gs.disk, gs.inodes[i].secs);
    OverflowLive(fs, gs, i, e, t, b);
    var direct, rest := LiveOf(Slots(fs.disk, bm, 0, DIRECT)), LiveOf(Slots(fs.disk, bm, DIRECT, MAX_BLOCKS));
    SlotsSplit(fs.disk, bm, 0, DIRECT, MAX_BLOCKS);
    LiveOfConcat(Slots(fs.disk, bm, 0, DIRECT), Slots(fs.disk, bm, DIRECT, MAX_BLOCKS));
    RestEmpty(fs, i);
    DistinctLive(fs, i);
    if rest == [] {
      assert direct + [] == direct && direct + [e] + [] == direct + [e];
      MapInsert(direct, e, []);
    } else {
      RestIsLost(direct, rest, e);
    }
  }

  lemma DistinctLive(fs: Fs, i: nat)
    requires IsDir(fs, i)
    ensures Distinct(LiveIn(fs, i))
  {
  }

  lemma RestIsLost(direct: seq<DirEntry>, rest: seq<DirEntry>, e: DirEntry)
    requires Distinct(direct + rest) && rest != [] && NameOf(e) !in Names(direct + rest)
    ensures DirMap(direct + [e]) != DirMap(direct + rest)[NameOf(e) := Target(e.ino, e.ftype)]
  {
    hide NameOf;
    var x := direct + rest;
    var f := rest[0];
    assert x[|direct|] == f;
    assert NameOf(f) in Names(x);
    assert NameOf(f) != NameOf(e);
    forall g | g in direct + [e] ensures NameOf(g) != NameOf(f) {
      if g in direct {
        var j :| 0 <= j < |direct| && direct[j] == g;
        assert x[j] == g;
      }
    }
    assert NameOf(f) !in DirMap(direct + [e]).Keys;
    assert NameOf(f) in DirMap(x)[NameOf(e) := Target(e.ino, e.ftype)].Keys;
  }

  /** The live entries past the direct blocks are gone exactly if there are no such blocks. */
  lemma RestEmpty(fs: Fs, i: nat)
    requires IsDir(fs, i)
    ensures var bm := Blocks(fs.disk, fs.inodes[i].secs);
      LiveOf(Slots(fs.disk, bm, DIRECT, MAX_BLOCKS)) == [] <==> forall k :: DIRECT <= k < MAX_BLOCKS ==> bm[k] == 0
  {
    hide Entries, NameOf, Live, Blocks;
    RangeEmpty(fs.disk, Blocks(fs.disk, fs.inodes[i].secs), MAX_BLOCKS);
  }

  lemma {:induction false} RangeEmpty(d: Disk, bm: seq<nat>, n: nat)
    requires DIRECT <= n <= |bm| == MAX_BLOCKS && (forall k :: 0 <= k < |bm| ==> bm[k] < |d|) && NoIdleBlock(d, bm)
    ensures LiveOf(Slots(d, bm, DIRECT, n)) == [] <==> forall k :: DIRECT <= k < n ==> bm[k] == 0
  {
    hide Entries, LiveOf, Slots;
    SlotsLast(d, bm, DIRECT, n);
    LiveOfEmpty();
    if n > DIRECT {
      RangeEmpty(d, bm, n - 1);
      LiveOfConcat(Slots(d, bm, DIRECT, n - 1), if bm[n - 1] == 0 then [] else Entries(d[bm[n - 1]]));
    }
  }

  lemma OverflowLive(fs: Fs, gs: Fs, i: nat, e: DirEntry, t: nat, b: nat)
    requires Valid(fs) && IsDir(fs, i) && Overflowed(fs, gs, i, e, t, b) && e.ftype != FT_UNKNOWN
    ensures Readable(gs.disk, gs.inodes[i].secs)
    ensures Live(gs.disk, Blocks(gs.disk, gs.inodes[i].secs)) ==
      LiveOf(Slots(fs.disk, Blocks(fs.disk, fs.inodes[i].secs), 0, DIRECT)) + [e]
  {
    hide Entries, NewSector, PackWords, DirBlocks, Live, Valid, Sound, LiveOf, Slots;
    OverflowKept(fs, gs, i, e, t, b);
    var bm := Blocks(fs.disk, fs.inodes[i].secs);
    var cm := Blocks(gs.disk, gs.inodes[i].secs);
    SlotsSame(fs.disk, bm, gs.disk, cm, 0, DIRECT);
    NewSectorEntries(e);
    OverflowTail(gs.disk, cm, e);
  }

  /** The new block map has the direct blocks as they were, then b, then nothing. */
  ghost predicate OnlyDirectKept(d: Disk, bm: seq<nat>, d': Disk, cm: seq<nat>, b: nat) {
    && |bm| == |cm| == MAX_BLOCKS
    && (forall k :: 0 <= k < DIRECT ==> cm[k] == bm[k])
    && (forall k :: 0 <= k < DIRECT && bm[k] != 0 ==> bm[k] < |d| && bm[k] < |d'| && d'[bm[k]] == d[bm[k]])
    && cm[DIRECT] == b && b != 0 && (forall k :: DIRECT < k < MAX_BLOCKS ==> cm[k] == 0)
  }

  lemma OverflowKept(fs: Fs, gs: Fs, i: nat, e: DirEntry, t: nat, b: nat)
    requires Valid(fs) && IsDir(fs, i) && Overflowed(fs, gs, i, e, t, b)
    ensures Readable(fs.disk, fs.inodes[i].secs) && Readable(gs.disk, gs.inodes[i].secs)
    ensures OnlyDirectKept(fs.disk, Blocks(fs.disk, fs.inodes[i].secs), gs.disk, Blocks(gs.disk, gs.inodes[i].secs), b)
    ensures gs.disk[b] == NewSector(e)
  {
    hide NewSector, PackWords, DirBlocks, Valid, Took, Sound, Blocks, Owned;
    var secs, tecs := fs.inodes[i].secs, gs.inodes[i].secs;
    PairIsNew(fs, gs, i, t, b);
    DirIsShaped(fs, i);
    OverflowBlocks(fs, gs, i, e, t, b);
    SoundIsReadable(fs.disk, secs, fs.data, fs.End());
    BlocksOwned(fs.disk, secs);
    DirectPart(fs.disk, secs);
    var bm, cm := Blocks(fs.disk, secs), Blocks(gs.disk, tecs);
    forall k | 0 <= k < DIRECT ensures cm[k] == bm[k] {
      assert bm[k] == bm[..12][k] && cm[k] == cm[..12][k];
    }
    forall k | 0 <= k < MAX_BLOCKS ensures cm[k] < |gs.disk| {
    }
  }

  lemma DirectPart(d: Disk, secs: seq<nat>)
    requires Shaped(d, secs)
    ensures Blocks(d, secs)[..12] == secs[..12]
  {
  }

  lemma PairIsNew(fs: Fs, gs: Fs, i: nat, t: nat, b: nat)
    requires Valid(fs) && i in fs.inodes && Took(fs.data, fs.bits, gs.bits, [t, b])
    ensures t != b && t !in OwnedBy(fs, i) && b !in OwnedBy(fs, i) && |gs.bits| == |fs.bits|
    ensures 0 < fs.data <= t < fs.End() <= |fs.disk| && fs.data <= b < fs.End()
  {
    TakenWasFree(fs, gs, i, [t, b], 0);
    TakenWasFree(fs, gs, i, [t, b], 1);
    assert [t, b][0] != [t, b][1];
  }

  lemma OverflowTail(d: Disk, cm: seq<nat>, e: DirEntry)
    requires |cm| == MAX_BLOCKS && (forall k :: 0 <= k < |cm| ==> cm[k] < |d|) && cm[DIRECT] != 0
    requires forall k :: DIRECT < k < MAX_BLOCKS ==> cm[k] == 0
    requires LiveOf(Entries(d[cm[DIRECT]])) == [e]
    ensures Live(d, cm) == LiveOf(Slots(d, cm, 0, DIRECT)) + [e]
  {
    hide Entries, LiveOf;
    LiveAround(d, cm, DIRECT);
    AbsentBlocks(d, cm, DIRECT + 1, MAX_BLOCKS);
    LiveOfEmpty();
  }

  lemma {:induction false} AbsentBlocks(d: Disk, bm: seq<nat>, lo: nat, hi: nat)
    requires lo <= hi <= |bm| && (forall k :: 0 <= k < |bm| ==> bm[k] < |d|) && forall k :: lo <= k < hi ==> bm[k] == 0
    ensures Slots(d, bm, lo, hi) == []
    decreases hi
  {
    if lo < hi {
      AbsentBlocks(d, bm, lo, hi - 1);
    }
  }
}
