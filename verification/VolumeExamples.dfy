/** Inputs on which fs/dir.c, fs/file.c and fs/fs.c go wrong: partitions with one large directory, and a file
    that is written to its limit. */
module VolumeExamples {
  import opened Bytes
  import opened BlockMap
  import opened Volume
  import opened Directory
  import opened DirUpdate
  import opened DirDelete
  import opened Namespace
  import Bitmap
  import FileData

  const MOST := 2940   // 140 blocks of 21 entries

  // ---------------------------------------------------------------- the entries

  /** "." and ".." are entries 0 and 1; entry j is a file with inode j. */
  function NameNo(j: nat): (s: seq<byte>)
    requires j < MOST
    ensures IsName(s)
  {
    if j == 0 then [DOT] else if j == 1 then [DOT, DOT] else [97, 1 + j / 200, 1 + j % 200]
  }

  function EntryNo(j: nat): (e: DirEntry)
    requires j < MOST
    ensures Proper(e) && e.ftype != FT_UNKNOWN && e.ino == if j < 2 then 0 else j
  {
    MakeEntry(NameNo(j), if j < 2 then 0 else j, if j < 2 then FT_DIRECTORY else FT_REGULAR)
  }

  lemma NamesDiffer(i: nat, j: nat)
    requires i < j < MOST
    ensures NameNo(i) != NameNo(j)
  {
    if i >= 2 {
      assert NameNo(i)[1] != NameNo(j)[1] || NameNo(i)[2] != NameNo(j)[2];
    }
  }

  lemma EntryName(j: nat)
    requires j < MOST
    ensures NameOf(EntryNo(j)) == NameNo(j) && (IsDot(EntryNo(j)) <==> j < 2)
  {
    MadeName(NameNo(j), if j < 2 then 0 else j, if j < 2 then FT_DIRECTORY else FT_REGULAR);
  }

  /** The first n entries. */
  function Listed(n: nat): seq<DirEntry>
    requires n <= MOST
  {
    seq(n, j requires 0 <= j < n => EntryNo(j))
  }

  lemma ListedInOrder(n: nat)
    requires n <= MOST
    ensures Distinct(Listed(n)) && UniqueInos(Listed(n)) && AllNamed(Listed(n))
  {
    hide NameOf, IsName, EntryNo;
    forall i, j | 0 <= i < j < n ensures NameOf(Listed(n)[i]) != NameOf(Listed(n)[j]) {
      NamesDiffer(i, j);
      EntryName(i);
      EntryName(j);
    }
    forall k | 0 <= k < n ensures IsName(NameOf(Listed(n)[k])) && (IsDot(Listed(n)[k]) <==> k < 2) {
      EntryName(k);
    }
  }

  // ---------------------------------------------------------------- the sectors

  function Count(n: nat): nat { (n + 20) / 21 }

  /** Slot k of a directory with n entries. */
  function SlotNo(n: nat, k: nat): (e: DirEntry)
    requires n <= MOST
    ensures Proper(e) && (e.ftype != FT_UNKNOWN <==> k < n)
  {
    if k < n then EntryNo(k) else HOLE
  }

  /** The slots of block b. */
  function Row(n: nat, b: nat): (es: seq<DirEntry>)
    requires n <= MOST
    ensures |es| == PER_SECTOR && forall j :: 0 <= j < PER_SECTOR ==> es[j] == SlotNo(n, 21 * b + j)
  {
    seq(PER_SECTOR, j requires 0 <= j < PER_SECTOR => SlotNo(n, 21 * b + j))
  }

  /** A sector with these entries in its first k slots. */
  function Put(es: seq<DirEntry>, k: nat): Sector
    requires k <= |es| == PER_SECTOR && forall j :: 0 <= j < |es| ==> Proper(es[j])
  {
    if k == 0 then Zeros(SECTOR_SIZE) else PutEntry(Put(es, k - 1), k - 1, es[k - 1])
  }

  lemma {:induction false} PutEntries(es: seq<DirEntry>, k: nat)
    requires k <= |es| == PER_SECTOR && forall j :: 0 <= j < |es| ==> Proper(es[j])
    ensures forall j :: 0 <= j < PER_SECTOR ==> Entries(Put(es, k))[j] == if j < k then es[j] else HOLE
  {
    hide Entries, PutEntry;
    if k == 0 {
      ClearedSector();
    } else {
      PutEntries(es, k - 1);
      PutEntryUpdates(Put(es, k - 1), k - 1, es[k - 1]);
    }
  }

  function RowSector(n: nat, b: nat): Sector
    requires n <= MOST
  {
    Put(Row(n, b), PER_SECTOR)
  }

  lemma RowSectorEntries(n: nat, b: nat)
    requires n <= MOST
    ensures Entries(RowSector(n, b)) == Row(n, b)
  {
    hide Entries, Put;
    PutEntries(Row(n, b), PER_SECTOR);
  }

  // ---------------------------------------------------------------- the partition

  /** Block b is sector b + 1, and the indirect table is sector 141. */
  function Pointers(n: nat): seq<nat> {
    seq(13, k => if k == 12 then (if Count(n) > 12 then 141 else 0) else if k < Count(n) then k + 1 else 0)
  }

  function Table(n: nat): seq<word>
    requires n <= MOST
  {
    seq(128, k requires 0 <= k < 128 => if 12 + k < Count(n) then k + 13 else 0)
  }

  function SectorNo(n: nat, s: nat): Sector
    requires n <= MOST
  {
    if 1 <= s <= 140 then RowSector(n, s - 1) else if s == 141 then PackWords(Table(n)) else Zeros(SECTOR_SIZE)
  }

  function Sectors(n: nat): (d: Disk)
    requires n <= MOST
    ensures |d| == 200 && forall s :: 0 <= s < 200 ==> d[s] == SectorNo(n, s)
  {
    seq(200, s requires 0 <= s < 200 => SectorNo(n, s))
  }

  /** The root and n - 1 empty files. */
  function Inodes(n: nat, i: nat): (m: map<nat, Inode>)
    requires i > 0
    ensures forall k :: k in m <==> 0 <= k < i
    ensures forall k :: k in m ==> m[k] == if k == 0 then Inode(ENTRY_SIZE * n, Pointers(n)) else Inode(0, NoPointers())
  {
    if i == 1 then map[0 := Inode(ENTRY_SIZE * n, Pointers(n))] else Inodes(n, i - 1)[i - 1 := Inode(0, NoPointers())]
  }

  predicate Used(n: nat, s: nat) { 1 <= s <= Count(n) || (s == 141 && Count(n) > 12) }

  /** n entries in the root directory, and a bitmap of `size` bits. */
  function Crammed(n: nat, size: nat): Fs
    requires 2 <= n <= MOST
  {
    Fs(1, Sectors(n), seq(size, k requires 0 <= k < size => Used(n, k + 1)), Inodes(n, n))
  }

  /** The bitmap reaches as far as the directory. */
  predicate Enough(n: nat, size: nat) {
    2 <= n <= MOST && Count(n) <= size < 200 && (Count(n) > 12 ==> 141 <= size)
  }

  lemma CrammedBlocks(n: nat, size: nat)
    requires Enough(n, size)
    ensures var fs := Crammed(n, size);
      && 0 in fs.inodes && Readable(fs.disk, fs.inodes[0].secs)
      && forall b :: 0 <= b < MAX_BLOCKS ==> Blocks(fs.disk, fs.inodes[0].secs)[b] == if b < Count(n) then b + 1 else 0
  {
    hide PackWords, RowSector, Inodes;
    WordsRoundTrip(Table(n));
    assert Sectors(n)[141] == PackWords(Table(n));
  }

  lemma CrammedRow(n: nat, size: nat, b: nat)
    requires Enough(n, size) && b < Count(n)
    ensures Entries(Crammed(n, size).disk[b + 1]) == Row(n, b)
  {
    hide Entries, RowSector, Row, Inodes, Sectors;
    RowSectorEntries(n, b);
    assert Sectors(n)[b + 1] == RowSector(n, b);
  }

  /** The live entries of one row. */
  lemma LiveRow(n: nat, b: nat)
    requires n <= MOST && 21 * b <= n
    ensures Listed(21 * b) + LiveOf(Row(n, b)) == Listed(if n < 21 * b + 21 then n else 21 * b + 21)
  {
    hide EntryNo, LiveOf;
    var m := if n < 21 * b + 21 then n - 21 * b else 21;
    LiveFront(Row(n, b), m);
    assert Listed(21 * b) + Row(n, b)[..m] == Listed(21 * b + m);
  }

  lemma {:induction false} LiveFront(es: seq<DirEntry>, m: nat)
    requires m <= |es| && (forall j :: 0 <= j < m ==> es[j].ftype != FT_UNKNOWN)
    requires forall j :: m <= j < |es| ==> es[j].ftype == FT_UNKNOWN
    ensures LiveOf(es) == es[..m]
  {
    if es != [] {
      var k := |es| - 1;
      LiveFront(es[..k], if m == |es| then k else m);
    }
  }

  lemma CountIs(n: nat, b: nat)
    ensures b <= Count(n) <==> b == 0 || 21 * (b - 1) < n
  {
  }

  lemma {:induction false} CrammedLive(n: nat, size: nat, b: nat)
    requires Enough(n, size) && b <= MAX_BLOCKS
    ensures var fs := Crammed(n, size);
      && Readable(fs.disk, fs.inodes[0].secs)
      && LiveUpTo(fs.disk, Blocks(fs.disk, fs.inodes[0].secs), b) == Listed(if n < 21 * b then n else 21 * b)
  {
    hide Entries, Listed, Row, Blocks, Sectors, Inodes, LiveOf, LiveUpTo, Crammed, Count;
    CountIs(n, b);
    CrammedBlocks(n, size);
    var fs := Crammed(n, size);
    var bm := Blocks(fs.disk, fs.inodes[0].secs);
    if b == 0 {
      NothingListed();
      LiveUpToStart(fs.disk, bm);
    } else {
      CrammedLive(n, size, b - 1);
      LiveUpToStep(fs.disk, bm, b - 1);
      if b <= Count(n) {
        CrammedRow(n, size, b - 1);
        LiveRow(n, b - 1);
      }
    }
  }

  lemma NothingListed()
    ensures Listed(0) == [] && LiveOf([]) == []
  {
  }

  /** The root directory is in order, and so is the partition. */
  lemma CrammedInOrder(n: nat, size: nat)
    requires Enough(n, size)
    ensures Valid(Crammed(n, size)) && ReadyDir(Crammed(n, size), 0)
    ensures LiveIn(Crammed(n, size), 0) == Listed(n)
  {
    hide Entries, Listed, Row, Blocks, Sectors, Inodes, LiveOf, Slots, Sound, Valid, NameOf, Distinct, UniqueInos,
      AllNamed;
    var fs := Crammed(n, size);
    CrammedBlocks(n, size);
    CrammedLive(n, size, MAX_BLOCKS);
    LiveUpToStart(fs.disk, Blocks(fs.disk, fs.inodes[0].secs));
    ListedInOrder(n);
    CrammedSound(n, size);
    CrammedClean(n, size);
    CrammedInodes(n, size);
    CrammedValid(n, size);
  }

  lemma CrammedInodes(n: nat, size: nat)
    requires Enough(n, size)
    ensures 0 in Crammed(n, size).inodes && Crammed(n, size).inodes[0].size == ENTRY_SIZE * |Listed(n)|
    ensures forall e :: e in Listed(n) ==> e.ino in Crammed(n, size).inodes
  {
    hide EntryNo, Inodes;
  }

  lemma CrammedSound(n: nat, size: nat)
    requires Enough(n, size)
    ensures var fs := Crammed(n, size); 0 in fs.inodes && Sound(fs.disk, fs.inodes[0].secs, fs.data, fs.End())
  {
    hide Blocks, Sectors, Inodes;
    CrammedBlocks(n, size);
  }

  lemma CrammedClean(n: nat, size: nat)
    requires Enough(n, size)
    ensures var fs := Crammed(n, size);
      && Readable(fs.disk, fs.inodes[0].secs)
      && var bm := Blocks(fs.disk, fs.inodes[0].secs);
      CleanBlocks(fs.disk, bm) && DotsFirst(fs.disk, bm) && NoIdleBlock(fs.disk, bm)
  {
    hide Entries, Blocks, Sectors, Inodes, Row, NameOf, LiveOf;
    CrammedBlocks(n, size);
    var fs := Crammed(n, size);
    var bm := Blocks(fs.disk, fs.inodes[0].secs);
    forall b | 0 <= b < MAX_BLOCKS && bm[b] != 0 ensures Clean(Entries(fs.disk[bm[b]]))
      && LiveOf(Entries(fs.disk[bm[b]])) != [] {
      CrammedRow(n, size, b);
      CleanRow(n, b);
    }
    CrammedRow(n, size, 0);
    CleanRow(n, 0);
  }

  lemma CleanRow(n: nat, b: nat)
    requires n <= MOST && 21 * b < n
    ensures Clean(Row(n, b)) && LiveOf(Row(n, b)) != []
    ensures b == 0 && n >= 2 ==> Row(n, 0)[0] == EntryNo(0) && Row(n, 0)[1] == EntryNo(1)
    ensures NameOf(EntryNo(0)) == [DOT] && NameOf(EntryNo(1)) == [DOT, DOT]
  {
    hide NameOf, EntryNo, LiveOf;
    EntryName(0);
    EntryName(1);
    HoleHasNoName();
    LiveMember(Row(n, b), Row(n, b)[0]);
  }

  lemma CrammedValid(n: nat, size: nat)
    requires Enough(n, size)
    ensures Valid(Crammed(n, size))
  {
    hide Blocks, Sectors, Inodes;
    var fs := Crammed(n, size);
    CrammedBlocks(n, size);
    CrammedSound(n, size);
    forall i | i in fs.inodes && i != 0
      ensures Sound(fs.disk, fs.inodes[i].secs, fs.data, fs.End()) && OwnedBy(fs, i) == {}
    {
      BlankInode(fs.disk, fs.data, fs.End());
    }
    forall b | b in OwnedBy(fs, 0) ensures Marked(fs, b) {
      if b != fs.inodes[0].secs[12] {
        var k :| 0 <= k < MAX_BLOCKS && Blocks(fs.disk, fs.inodes[0].secs)[k] == b;
      }
    }
  }

  lemma BlankInode(d: Disk, lo: nat, hi: nat)
    requires 0 < lo <= hi <= |d|
    ensures Sound(d, NoPointers(), lo, hi) && Owned(d, NoPointers()) == {}
  {
    var bm := Blocks(d, NoPointers());
    assert forall k :: 0 <= k < MAX_BLOCKS ==> bm[k] == 0;
  }

  // ---------------------------------------------------------------- one more name than 252 and one

  /** A full row has no room, a row of holes and entries has. */
  lemma FullRow(n: nat, size: nat, b: nat)
    requires Enough(n, size) && b < DIRECT && b < Count(n)
    ensures var fs := Crammed(n, size); HasRoom(fs.disk, fs.inodes[0].secs, b) <==> n < 21 * b + 21
  {
    hide Entries, Sectors, Inodes, Row, FirstHole;
    CrammedRow(n, size, b);
    RowHole(n, b);
  }

  lemma RowHole(n: nat, b: nat)
    requires n <= MOST
    ensures FirstHole(Row(n, b)) != -1 <==> n < 21 * b + 21
  {
    hide Row, FirstHole, SlotNo;
    var es := Row(n, b);
    assert n < 21 * b + 21 ==> es[20].ftype == FT_UNKNOWN;
  }

  /** With the direct blocks full there is no place left for sync_dir_entry but a new table. */
  lemma DirectFull(n: nat, size: nat)
    requires Enough(n, size) && n > 252
    ensures var fs := Crammed(n, size);
      Insertable(fs, 0) && Place(fs.disk, fs.inodes[0].secs, 0) == DIRECT && fs.inodes[0].secs[12] == 141
        && !KeepsTable(fs, 0)
  {
    hide Sectors, Inodes, Place, HasRoom;
    var fs := Crammed(n, size);
    forall b | 0 <= b < DIRECT ensures !HasRoom(fs.disk, fs.inodes[0].secs, b) {
      FullRow(n, size, b);
    }
  }

  /** 253 entries: sync_dir_entry finds the direct blocks full, makes a second table and forgets the
      first.  Entry 252 is lost. */
  lemma SecondOverflowExample(gs: Fs, e: DirEntry, t: nat, b: nat)
    requires Overflowed(Crammed(253, 150), gs, 0, e, t, b) && e.ftype != FT_UNKNOWN && NameOf(e) != NameNo(252)
    ensures var fs := Crammed(253, 150);
      && Valid(fs) && ReadyDir(fs, 0) && !KeepsTable(fs, 0) && NameNo(252) in DirOf(fs, 0)
      && Readable(gs.disk, gs.inodes[0].secs)
      && NameNo(252) !in DirMap(Live(gs.disk, Blocks(gs.disk, gs.inodes[0].secs)))
  {
    hide Crammed, Overflowed, Listed, EntryNo, NameOf, LiveOf, Slots, Blocks, KeepsTable, DirBlocks, Valid, Sound;
    var fs := Crammed(253, 150);
    CrammedInOrder(253, 150);
    DirectFull(253, 150);
    NameThere(253, 252);
    OverflowLive(fs, gs, 0, e, t, b);
    CrammedLive(253, 150, DIRECT);
    NameGone(252, e);
  }

  lemma NameThere(n: nat, j: nat)
    requires j < n <= MOST
    ensures NameNo(j) in Names(Listed(n))
  {
    EntryName(j);
    assert Listed(n)[j] == EntryNo(j);
  }

  lemma NameGone(n: nat, e: DirEntry)
    requires n < MOST && NameOf(e) != NameNo(n)
    ensures NameNo(n) !in Names(Listed(n) + [e])
  {
    hide NameOf, EntryNo, NameNo;
    forall f | f in Listed(n) ensures NameOf(f) != NameNo(n) {
      var j: nat :| j < n && f == EntryNo(j);
      EntryName(j);
      NamesDiffer(j, n);
    }
  }

  // ---------------------------------------------------------------- the last name of an indirect block

  lemma RowMatch(n: nat, b: nat, ino: word)
    requires n <= MOST && ino >= 2
    ensures LastMatch(Row(n, b), ino) >= 0 <==> ino < n && 21 * b <= ino < 21 * b + 21
  {
    hide NameOf, EntryNo, LastMatch;
    var es := Row(n, b);
    forall j | 0 <= j < PER_SECTOR ensures Matches(es[j], ino) <==> 21 * b + j < n && 21 * b + j == ino {
      if 21 * b + j < n {
        EntryName(21 * b + j);
      }
    }
    if ino < n && 21 * b <= ino < 21 * b + 21 {
      assert Matches(es[ino - 21 * b], ino);
    }
  }

  lemma CrammedMatch(n: nat, size: nat, ino: nat)
    requires Enough(n, size) && 2 <= ino < n
    ensures var fs := Crammed(n, size);
      && Readable(fs.disk, fs.inodes[0].secs)
      && MatchBlock(fs.disk, Blocks(fs.disk, fs.inodes[0].secs), ino, 0) == ino / 21
  {
    hide Entries, Crammed, Row, Blocks, LastMatch, MatchBlock;
    var fs := Crammed(n, size);
    CrammedBlocks(n, size);
    var bm := Blocks(fs.disk, fs.inodes[0].secs);
    var k := MatchBlock(fs.disk, bm, ino, 0);
    var b := ino / 21;
    CrammedRow(n, size, b);
    RowMatch(n, b, ino);
    assert bm[b] == b + 1 && LastMatch(Entries(fs.disk[bm[b]]), ino) >= 0;
    if k < MAX_BLOCKS {
      CrammedRow(n, size, k);
      RowMatch(n, k, ino);
    }
  }

  lemma {:induction false} CountedFront(es: seq<DirEntry>, m: nat)
    requires m <= |es| && forall j :: 0 <= j < |es| ==> (es[j].ftype != FT_UNKNOWN && !IsDot(es[j]) <==> j < m)
    ensures Counted(es) == m
  {
    hide NameOf, IsDot;
    if es != [] {
      var k := |es| - 1;
      CountedFront(es[..k], if m == |es| then k else m);
    }
  }

  lemma LastRow(n: nat, b: nat)
    requires n == 21 * b + 1 <= MOST && DIRECT <= b
    ensures Counted(Row(n, b)) == 1
  {
    hide NameOf, EntryNo, Counted;
    EntryName(n - 1);
    var es := Row(n, b);
    assert es[0] == EntryNo(n - 1);
    CountedFront(es, 1);
  }

  /** The last of 21 * b + 1 entries is alone in its block. */
  lemma LastIsAlone(n: nat, size: nat, b: nat)
    requires Enough(n, size) && n == 21 * b + 1 && DIRECT <= b
    ensures var fs := Crammed(n, size); IsDir(fs, 0) && Readable(fs.disk, fs.inodes[0].secs) && !Spared(fs, 0, n - 1)
  {
    hide Entries, Crammed, Row, Blocks, MatchBlock, DirBlocks, Sound, Counted, Valid, LiveIn;
    CrammedInOrder(n, size);
    CrammedBlocks(n, size);
    CrammedMatch(n, size, n - 1);
    CrammedRow(n, size, b);
    LastRow(n, b);
    assert (n - 1) / 21 == b;
  }

  /** 253 entries: deleting entry 252 counts the blocks of the table for ever. */
  lemma SpinsExample(gs: Fs, r: Outcome)
    requires var fs := Crammed(253, 150);
      && 0 in fs.inodes && Readable(fs.disk, fs.inodes[0].secs)
      && Deletes(fs, gs, 0, 252, r, MatchBlock(fs.disk, Blocks(fs.disk, fs.inodes[0].secs), 252, 0))
    ensures Valid(Crammed(253, 150)) && ReadyDir(Crammed(253, 150), 0) && r == Spins
  {
    hide Crammed, Deletes, MatchBlock, Blocks, Spared, DirBlocks, Sound, Valid, LiveIn, Listed, Rightly;
    var fs := Crammed(253, 150);
    CrammedInOrder(253, 150);
    LastIsAlone(253, 150, 12);
    CrammedBlocks(253, 150);
    OneIndirect(fs);
    DeleteExact(fs, gs, 0, 252, r);
  }

  lemma OneIndirect(fs: Fs)
    requires fs == Crammed(253, 150)
    ensures 0 in fs.inodes && Readable(fs.disk, fs.inodes[0].secs) && SomeAbsent(Blocks(fs.disk, fs.inodes[0].secs))
  {
    hide Crammed, Blocks;
    CrammedBlocks(253, 150);
    assert Blocks(fs.disk, fs.inodes[0].secs)[13] == 0;
  }

  /** 2920 entries in 140 blocks: deleting entry 2919 drops the table and the 2668 names behind it. */
  lemma TruncatedExample(gs: Fs, r: Outcome)
    requires var fs := Crammed(2920, 150);
      && 0 in fs.inodes && Readable(fs.disk, fs.inodes[0].secs)
      && Deletes(fs, gs, 0, 2919, r, MatchBlock(fs.disk, Blocks(fs.disk, fs.inodes[0].secs), 2919, 0))
    ensures Valid(Crammed(2920, 150)) && ReadyDir(Crammed(2920, 150), 0)
      && LiveIn(Crammed(2920, 150), 0) == Listed(2920)
    ensures r == Removed && 0 in gs.inodes && Readable(gs.disk, gs.inodes[0].secs)
    ensures Live(gs.disk, Blocks(gs.disk, gs.inodes[0].secs)) == Listed(252)
  {
    hide Crammed, MatchBlock, Blocks, Spared, DirBlocks, Sound, Valid, Deletes, Live, Listed, LiveUpTo, Truncated,
      LiveIn, SomeAbsent, Rightly;
    var fs := Crammed(2920, 150);
    CrammedInOrder(2920, 150);
    LastIsAlone(2920, 150, 139);
    CrammedBlocks(2920, 150);
    CrammedMatch(2920, 150, 2919);
    NoneAbsent(fs);
    DeleteExact(fs, gs, 0, 2919, r);
    NotSpared(fs, gs, r, 2919);
    assert 2919 / 21 == 139;
    TruncatedUpTo(fs, gs);
    CrammedLive(2920, 150, DIRECT);
  }

  lemma NoneAbsent(fs: Fs)
    requires fs == Crammed(2920, 150)
    ensures 0 in fs.inodes && Readable(fs.disk, fs.inodes[0].secs) && !SomeAbsent(Blocks(fs.disk, fs.inodes[0].secs))
  {
    hide Crammed, Blocks;
    CrammedBlocks(2920, 150);
  }

  lemma TruncatedUpTo(fs: Fs, gs: Fs)
    requires IsDir(fs, 0) && Truncated(fs, gs, 0, 139)
    ensures 0 in gs.inodes && Readable(fs.disk, fs.inodes[0].secs) && Readable(gs.disk, gs.inodes[0].secs)
    ensures Live(gs.disk, Blocks(gs.disk, gs.inodes[0].secs)) ==
      LiveUpTo(fs.disk, Blocks(fs.disk, fs.inodes[0].secs), DIRECT)
  {
    hide DirBlocks, Blocks, Slots, LiveOf;
    TruncatedLive(fs, gs, 0, 139);
  }

  lemma NotSpared(fs: Fs, gs: Fs, r: Outcome, ino: word)
    requires IsDir(fs, 0) && Readable(fs.disk, fs.inodes[0].secs) && !Spared(fs, 0, ino) && r != Spins
    requires Deletes(fs, gs, 0, ino, r, MatchBlock(fs.disk, Blocks(fs.disk, fs.inodes[0].secs), ino, 0))
    ensures var k := MatchBlock(fs.disk, Blocks(fs.disk, fs.inodes[0].secs), ino, 0);
      r == Removed && Truncated(fs, gs, 0, k)
  {
    hide Blocks, DirBlocks, Sound, LastMatch, Entries, HasDot, MatchBlock, Counted;
    NotFirstBlock(fs, 0, MatchBlock(fs.disk, Blocks(fs.disk, fs.inodes[0].secs), ino, 0));
  }

  // ---------------------------------------------------------------- the last free sector

  /** The first block of the root is full and one sector is free: sys_mkdir takes it for the new
      directory, has none for the name, and leaves it marked. */
  lemma MkdirLeakExample(gs: Fs, name: seq<byte>, r: int)
    requires MkdirEnds(Crammed(21, 2), gs, 0, name, r)
    ensures Valid(Crammed(21, 2)) && ReadyDir(Crammed(21, 2), 0) && r == -1 && LostOne(Crammed(21, 2), gs)
  {
    hide Crammed, LostOne, MadeDir, MkdirOverwrote, NoNumber, NoRoom, KeepsTable, Valid, ReadyDir, Bitmap.FreeCount;
    CrammedInOrder(21, 2);
    OneSectorLeft();
  }

  lemma OneSectorLeft()
    ensures var fs := Crammed(21, 2);
      !NoNumber(fs) && Bitmap.FreeCount(fs.bits) == 1 && NoRoom(fs, 0, 0) && KeepsTable(fs, 0)
  {
    hide Sectors, Inodes, Place, HasRoom;
    var fs := Crammed(21, 2);
    FullRow(21, 2, 0);
    SecondBlock(fs);
    assert 4000 !in fs.inodes;
    assert fs.bits == [true, false] && fs.bits[..1] == [true];
  }

  lemma SecondBlock(fs: Fs)
    requires Insertable(fs, 0) && !HasRoom(fs.disk, fs.inodes[0].secs, 0) && fs.inodes[0].secs[1] == 0
    ensures Place(fs.disk, fs.inodes[0].secs, 0) == 1
  {
  }

  // ---------------------------------------------------------------- a file of 71680 bytes

  lemma {:induction false} AllFree(n: nat)
    ensures Bitmap.FreeCount(seq(n, _ => false)) == n
  {
    if n > 0 {
      AllFree(n - 1);
      assert seq(n, _ => false)[..n - 1] == seq(n - 1, _ => false);
    }
  }

  /** 71680 bytes written to an empty file are all there, and one sector is marked that no inode owns. */
  method WriteToLimit(buf: seq<byte>) returns (p: Partition)
    requires |buf| == MAX_FILE_SIZE
    ensures IsFile(p.State(), 0) && FileBytes(p.State(), 0) == buf && |Leaked(p.State())| == 1
  {
    hide Valid, IsFile, FileBytes, FileData.Unwritten, FileData.Need, Bitmap.FreeCount, Leaked;
    p := new Partition(1, seq(200, _ => Zeros(SECTOR_SIZE)), seq(150, _ => false), map[0 := Inode(0, NoPointers())]);
    EmptyFile(p.State());
    AllFree(150);
    var r, _, lost := FileData.FileWrite(p, 0, buf, 0);
    assert [] + buf == buf;
  }

  lemma EmptyFile(fs: Fs)
    requires fs.data == 1 && |fs.disk| == 200 && |fs.bits| == 150 && fs.inodes == map[0 := Inode(0, NoPointers())]
    requires forall k :: 0 <= k < 150 ==> !fs.bits[k]
    ensures Valid(fs) && IsFile(fs, 0) && FileBytes(fs, 0) == [] && Leaked(fs) == {}
    ensures FileData.Need(fs.inodes[0], MAX_FILE_SIZE) <= 150
  {
    BlankInode(fs.disk, 1, 151);
    var bm := Blocks(fs.disk, NoPointers());
    assert forall k :: 0 <= k < MAX_BLOCKS ==> bm[k] == 0;
  }
}
