/** delete_dir_entry of fs/dir.c: removal of the entry for an inode number. */
module DirDelete {
  import opened Bytes
  import opened BlockMap
  import opened Volume
  import opened Directory
  import opened DirUpdate

  /** The entry delete_dir_entry looks for: in use, not a dot, naming the inode. */
  predicate Matches(e: DirEntry, ino: word) {
    e.ftype != FT_UNKNOWN && !IsDot(e) && e.ino == ino
  }

  /** Slot of the last matching entry, or -1. */
  function LastMatch(es: seq<DirEntry>, ino: word): (j: int)
    ensures -1 <= j < |es|
    ensures j >= 0 ==> Matches(es[j], ino) && forall k :: j < k < |es| ==> !Matches(es[k], ino)
    ensures j == -1 ==> forall k :: 0 <= k < |es| ==> !Matches(es[k], ino)
  {
    if es == [] then -1
    else if Matches(es[|es| - 1], ino) then |es| - 1
    else LastMatch(es[..|es| - 1], ino)
  }

  /** dir_entry_cnt: entries in use that are not dots. */
  function Counted(es: seq<DirEntry>): nat {
    if es == [] then 0
    else Counted(es[..|es| - 1]) + if es[|es| - 1].ftype != FT_UNKNOWN && !IsDot(es[|es| - 1]) then 1 else 0
  }

  /** is_dir_first_block: some entry in use is called ".". */
  predicate HasDot(es: seq<DirEntry>) {
    exists k :: 0 <= k < |es| && es[k].ftype != FT_UNKNOWN && NameOf(es[k]) == [DOT]
  }

  /** One pass over the entries of a sector. */
  method ScanSector(s: Sector, ino: word) returns (found: int, cnt: nat, first: bool)
    ensures found == LastMatch(Entries(s), ino) && cnt == Counted(Entries(s)) && first == HasDot(Entries(s))
  {
    hide EntryAt, NameOf, LastMatch, Counted, HasDot;
    ghost var es := Entries(s);
    var idx := 0;
    assert es[..0] == [];
    NothingScanned(ino);
    found, cnt, first := -1, 0, false;
    while idx < PER_SECTOR
      invariant 0 <= idx <= PER_SECTOR
      invariant found == LastMatch(es[..idx], ino) && cnt == Counted(es[..idx]) && first == HasDot(es[..idx])
    {
      var e := EntryAt(s, idx);
      assert es[..idx + 1] == es[..idx] + [e];
      ScanStep(es[..idx], e, ino);
      if e.ftype != FT_UNKNOWN {
        if NameOf(e) == [DOT] {
          first := true;
        } else if NameOf(e) != [DOT, DOT] {
          cnt := cnt + 1;
          if e.ino == ino {
            found := idx;
          }
        }
      }
      idx := idx + 1;
    }
    assert es[..PER_SECTOR] == es;
  }

  lemma NothingScanned(ino: word)
    ensures LastMatch([], ino) == -1 && Counted([]) == 0 && !HasDot([])
  {
  }

  /** What one more entry adds to the scan. */
  lemma ScanStep(es: seq<DirEntry>, e: DirEntry, ino: word)
    ensures LastMatch(es + [e], ino) == if Matches(e, ino) then |es| else LastMatch(es, ino)
    ensures Counted(es + [e]) == Counted(es) + if e.ftype != FT_UNKNOWN && !IsDot(e) then 1 else 0
    ensures HasDot(es + [e]) <==> HasDot(es) || (e.ftype != FT_UNKNOWN && NameOf(e) == [DOT])
  {
    hide NameOf;
    var more := es + [e];
    assert more[..|es|] == es && more[|es|] == e;
    HasDotStep(es, e);
  }

  lemma HasDotStep(es: seq<DirEntry>, e: DirEntry)
    ensures HasDot(es + [e]) <==> HasDot(es) || (e.ftype != FT_UNKNOWN && NameOf(e) == [DOT])
  {
    hide NameOf;
    var x := es + [e];
    assert x[|es|] == e;
    assert forall k :: 0 <= k < |es| ==> x[k] == es[k];
  }

  /** How delete_dir_entry ends: it removes the entry, finds none, or never returns. */
  datatype Outcome = Removed | Absent | Spins

  /** The first block with a matching entry, from block k on; 140 when there is none. */
  function MatchBlock(d: Disk, bm: seq<nat>, ino: word, k: nat): (r: nat)
    requires k <= |bm| == MAX_BLOCKS && forall j :: 0 <= j < |bm| ==> bm[j] < |d|
    ensures k <= r <= MAX_BLOCKS
    ensures r < MAX_BLOCKS ==> bm[r] != 0 && LastMatch(Entries(d[bm[r]]), ino) >= 0
    ensures forall j :: k <= j < r && bm[j] != 0 ==> LastMatch(Entries(d[bm[j]]), ino) == -1
    decreases MAX_BLOCKS - k
  {
    if k == MAX_BLOCKS then k
    else if bm[k] != 0 && LastMatch(Entries(d[bm[k]]), ino) >= 0 then k
    else MatchBlock(d, bm, ino, k + 1)
  }

  /** The entry was cleared in place. */
  ghost predicate Cleared(fs: Fs, gs: Fs, i: nat, k: nat, j: nat) {
    && i in fs.inodes && Readable(fs.disk, fs.inodes[i].secs) && k < MAX_BLOCKS && j < PER_SECTOR
    && var ino, bm := fs.inodes[i], Blocks(fs.disk, fs.inodes[i].secs);
    && ino.size >= ENTRY_SIZE && bm[k] != 0
    && gs == Fs(fs.data, fs.disk[bm[k] := PutEntry(fs.disk[bm[k]], j, HOLE)], fs.bits,
                fs.inodes[i := Inode(ino.size - ENTRY_SIZE, ino.secs)])
  }

  /** Direct block k, with its only entry, was given back. */
  ghost predicate Dropped(fs: Fs, gs: Fs, i: nat, k: nat) {
    && i in fs.inodes && Readable(fs.disk, fs.inodes[i].secs) && k < DIRECT
    && var ino := fs.inodes[i];
    && ino.size >= ENTRY_SIZE && fs.data <= ino.secs[k] < fs.End()
    && gs == Fs(fs.data, fs.disk, fs.bits[ino.secs[k] - fs.data := false],
                fs.inodes[i := Inode(ino.size - ENTRY_SIZE, ino.secs[k := 0])])
  }

  /** Block k and the table of a directory with all 128 indirect blocks were given back. */
  ghost predicate Truncated(fs: Fs, gs: Fs, i: nat, k: nat) {
    && i in fs.inodes && Readable(fs.disk, fs.inodes[i].secs) && k < MAX_BLOCKS
    && var ino, bm := fs.inodes[i], Blocks(fs.disk, fs.inodes[i].secs);
    && ino.size >= ENTRY_SIZE && fs.data <= bm[k] < fs.End() && fs.data <= ino.secs[12] < fs.End()
    && gs == Fs(fs.data, fs.disk, fs.bits[bm[k] - fs.data := false][ino.secs[12] - fs.data := false],
                fs.inodes[i := Inode(ino.size - ENTRY_SIZE, ino.secs[12 := 0])])
  }

  ghost predicate SomeAbsent(bm: seq<nat>)
    requires |bm| == MAX_BLOCKS
  {
    exists q :: DIRECT <= q < MAX_BLOCKS && bm[q] == 0
  }

  /** All ways delete_dir_entry ends, by the block k of the match. */
  ghost predicate Deletes(fs: Fs, gs: Fs, i: nat, ino: word, r: Outcome, k: nat)
    requires i in fs.inodes && Readable(fs.disk, fs.inodes[i].secs)
  {
    var bm := Blocks(fs.disk, fs.inodes[i].secs);
    if k >= MAX_BLOCKS then r == Absent && gs == fs
    else
      var es := if bm[k] == 0 then [] else Entries(fs.disk[bm[k]]);
      var j := LastMatch(es, ino);
      && j >= 0
      && if Counted(es) != 1 || HasDot(es) then r == Removed && Cleared(fs, gs, i, k, j)
         else if k < DIRECT then r == Removed && Dropped(fs, gs, i, k)
         else if SomeAbsent(bm) then r == Spins
         else r == Removed && Truncated(fs, gs, i, k)
  }

  lemma DirFacts(fs: Fs, i: nat, k: nat, ino: word)
    requires IsDir(fs, i) && k < MAX_BLOCKS
    requires Readable(fs.disk, fs.inodes[i].secs)
    requires var bm := Blocks(fs.disk, fs.inodes[i].secs); bm[k] != 0 && LastMatch(Entries(fs.disk[bm[k]]), ino) >= 0
    ensures fs.inodes[i].size >= ENTRY_SIZE
    ensures fs.data <= Blocks(fs.disk, fs.inodes[i].secs)[k] < fs.End()
    ensures k < DIRECT ==> Blocks(fs.disk, fs.inodes[i].secs)[k] == fs.inodes[i].secs[k]
    ensures k >= DIRECT ==> fs.data <= fs.inodes[i].secs[12] < fs.End()
  {
    hide Entries, LiveOf, DirBlocks;
    HasLive(fs.disk, Blocks(fs.disk, fs.inodes[i].secs), fs.inodes[i].size, k, ino);
  }

  lemma HasLive(d: Disk, bm: seq<nat>, size: nat, k: nat, ino: word)
    requires DirBlocks(d, bm, size) && k < MAX_BLOCKS && bm[k] != 0 && LastMatch(Entries(d[bm[k]]), ino) >= 0
    ensures size >= ENTRY_SIZE
  {
    hide Entries, Slots, LiveOf, CleanBlocks, Distinct, UniqueInos, AllNamed, DotsFirst, NoIdleBlock;
    var es := Entries(d[bm[k]]);
    LiveMember(es, es[LastMatch(es, ino)]);
    LiveAround(d, bm, k);
  }

  /** The loop that should count indirect blocks only moves on over entries that are set. */
  method CountIndirect(all: seq<nat>) returns (stuck: bool)
    requires |all| == MAX_BLOCKS
    ensures stuck <==> SomeAbsent(all)
  {
    var q := DIRECT;
    while q < MAX_BLOCKS && all[q] != 0
      invariant DIRECT <= q <= MAX_BLOCKS && forall j :: DIRECT <= j < q ==> all[j] != 0
    {
      q := q + 1;
    }
    stuck := q < MAX_BLOCKS;
  }

  /** The block of the match is given back. */
  method DropBlock(p: Partition, i: nat, k: nat) returns (r: Outcome)
    requires i in p.inodes && k < MAX_BLOCKS && Readable(p.disk, p.inodes[i].secs) && p.inodes[i].size >= ENTRY_SIZE
    requires var bm := Blocks(p.disk, p.inodes[i].secs);
      && p.data <= bm[k] < p.data + |p.bits|
      && (k < DIRECT ==> bm[k] == p.inodes[i].secs[k])
      && (k >= DIRECT ==> p.data <= p.inodes[i].secs[12] < p.data + |p.bits|)
    modifies p
    ensures k < DIRECT ==> r == Removed && Dropped(old(p.State()), p.State(), i, k)
    ensures k >= DIRECT ==> (r == Spins <==> SomeAbsent(Blocks(old(p.disk), old(p.inodes)[i].secs)))
    ensures k >= DIRECT && r != Spins ==> r == Removed && Truncated(old(p.State()), p.State(), i, k)
  {
    hide Blocks;
    var node := p.inodes[i];
    var all := Blocks(p.disk, node.secs);
    p.bits := p.bits[all[k] - p.data := false];
    if k < DIRECT {
      p.inodes := p.inodes[i := Inode(node.size - ENTRY_SIZE, node.secs[k := 0])];
    } else {
      var stuck := CountIndirect(all);
      if stuck {
        return Spins;
      }
      p.bits := p.bits[node.secs[12] - p.data := false];
      p.inodes := p.inodes[i := Inode(node.size - ENTRY_SIZE, node.secs[12 := 0])];
    }
    r := Removed;
  }

  /** What happens to the block of the match. */
  method RemoveMatch(p: Partition, i: nat, ino: word, k: nat, found: nat, cnt: nat, first: bool) returns (r: Outcome)
    requires i in p.inodes && IsDir(p.State(), i) && k < MAX_BLOCKS && Readable(p.disk, p.inodes[i].secs)
    requires var bm := Blocks(p.disk, p.inodes[i].secs);
      && bm[k] != 0
      && var es := Entries(p.disk[bm[k]]);
         found == LastMatch(es, ino) && cnt == Counted(es) && first == HasDot(es)
    modifies p
    ensures Deletes(old(p.State()), p.State(), i, ino, r, k)
  {
    hide IsDir, LastMatch, Counted, HasDot, Entries, PutEntry, Blocks, Dropped, Truncated, MatchBlock, SomeAbsent;
    DirFacts(p.State(), i, k, ino);
    var node := p.inodes[i];
    var all := Blocks(p.disk, node.secs);
    if cnt == 1 && !first {
      r := DropBlock(p, i, k);
    } else {
      p.disk := p.disk[all[k] := PutEntry(p.disk[all[k]], found, HOLE)];
      p.inodes := p.inodes[i := Inode(node.size - ENTRY_SIZE, node.secs)];
      r := Removed;
    }
  }

  method DeleteDirEntry(p: Partition, i: nat, ino: word) returns (r: Outcome)
    requires i in p.inodes && IsDir(p.State(), i) && Readable(p.disk, p.inodes[i].secs)
    modifies p
    ensures Deletes(old(p.State()), p.State(), i, ino, r,
                    MatchBlock(old(p.disk), Blocks(old(p.disk), old(p.inodes)[i].secs), ino, 0))
  {
    hide IsDir, LastMatch, Counted, HasDot, Entries, Deletes, Blocks, MatchBlock;
    ghost var fs := p.State();
    var all := Blocks(p.disk, p.inodes[i].secs);
    var blockIdx := 0;
    while blockIdx < MAX_BLOCKS
      invariant 0 <= blockIdx <= MAX_BLOCKS && p.State() == fs
      invariant MatchBlock(fs.disk, all, ino, 0) == MatchBlock(fs.disk, all, ino, blockIdx)
    {
      MatchStep(fs.disk, all, ino, blockIdx);
      if all[blockIdx] == 0 {
        blockIdx := blockIdx + 1;
        continue;
      }
      var found, cnt, first := ScanSector(p.disk[all[blockIdx]], ino);
      NoMatchOrFound(Entries(p.disk[all[blockIdx]]), ino);
      if found == -1 {
        blockIdx := blockIdx + 1;
        continue;
      }
      r := RemoveMatch(p, i, ino, blockIdx, found, cnt, first);
      return;
    }
    r := Absent;
    AbsentDeletes(fs, i, ino);
  }

  lemma MatchStep(d: Disk, bm: seq<nat>, ino: word, k: nat)
    requires k < |bm| == MAX_BLOCKS && forall j :: 0 <= j < |bm| ==> bm[j] < |d|
    ensures MatchBlock(d, bm, ino, k) ==
      if bm[k] != 0 && LastMatch(Entries(d[bm[k]]), ino) >= 0 then k else MatchBlock(d, bm, ino, k + 1)
  {
    hide Entries, LastMatch;
  }

  lemma NoMatchOrFound(es: seq<DirEntry>, ino: word)
    ensures -1 <= LastMatch(es, ino) < |es|
  {
  }

  lemma AbsentDeletes(fs: Fs, i: nat, ino: word)
    requires i in fs.inodes && Readable(fs.disk, fs.inodes[i].secs)
    ensures Deletes(fs, fs, i, ino, Absent, MAX_BLOCKS)
  {
  }

  // ---------------------------------------------------------------- removal refines the map

  /** Removal done right: the directory is in order, the name is gone from its map, and the
      volume lost exactly the sectors the directory gave up. */
  ghost predicate Deleted(fs: Fs, gs: Fs, i: nat, e: DirEntry, gone: set<nat>) {
    && IsDir(fs, i) && IsDir(gs, i)
    && NameOf(e) in DirOf(fs, i) && DirOf(fs, i)[NameOf(e)] == Target(e.ino, e.ftype)
    && DirOf(gs, i) == DirOf(fs, i) - {NameOf(e)}
    && Shed(fs, gs, i, gone) && StaysSmall(fs, gs, i)
  }

  /** One block loses an entry that is not a dot. */
  lemma BlockLoses(d: Disk, bm: seq<nat>, size: nat, d': Disk, cm: seq<nat>, k: nat, e: DirEntry)
    requires DirBlocks(d, bm, size) && DiffersAt(d, bm, d', cm, k)
    requires OneMore(LiveOf(BlockSlots(d', cm, k)), LiveOf(BlockSlots(d, bm, k)), e)
    requires cm[k] != 0 ==> Clean(Entries(d'[cm[k]])) && (k != 0 ==> LiveOf(Entries(d'[cm[k]])) != [])
    requires k == 0 ==> cm[0] != 0 && Entries(d'[cm[0]])[..2] == Entries(d[bm[0]])[..2]
    ensures size >= ENTRY_SIZE && DirBlocks(d', cm, size - ENTRY_SIZE)
    ensures NameOf(e) in DirMap(Live(d, bm)) && DirMap(Live(d, bm))[NameOf(e)] == Target(e.ino, e.ftype)
    ensures DirMap(Live(d', cm)) == DirMap(Live(d, bm)) - {NameOf(e)}
  {
    hide Slots, NameOf, IsName, IsDot, LiveOf, Distinct, UniqueInos, AllNamed, DirMap, OneMore, Entries, DotsFirst,
      Clean, CleanBlocks, NoIdleBlock, Live;
    DotsStay(d, bm, d', cm, k);
    OtherBlocksStay(d, bm, d', cm, k);
    var p, s := LiveReplaced(d, bm, d', cm, k);
    OneMoreInside(p, LiveOf(BlockSlots(d', cm, k)), LiveOf(BlockSlots(d, bm, k)), s, e);
    OneMoreRow(Live(d', cm), Live(d, bm), e);
  }

  /** Past block 0 no entry in use is a dot. */
  lemma NoDotsPast(d: Disk, bm: seq<nat>, size: nat, k: nat, j: nat)
    requires DirBlocks(d, bm, size) && 1 <= k < MAX_BLOCKS && bm[k] != 0 && j < PER_SECTOR
    requires Entries(d[bm[k]])[j].ftype != FT_UNKNOWN
    ensures !IsDot(Entries(d[bm[k]])[j])
  {
    hide NameOf, EntryAt, LiveOf, Slots;
    var es, zs := Entries(d[bm[k]]), Entries(d[bm[0]]);
    LiveAround(d, bm, k);
    var p := LiveOf(Slots(d, bm, 0, k));
    var m, rest := LiveOf(es), LiveOf(Slots(d, bm, k + 1, MAX_BLOCKS));
    LiveMember(es, es[j]);
    DotsInPrefix(d, bm, k);
    var x := Live(d, bm);
    assert x == p + m + rest;
    forall f | f in p ensures NameOf(f) != NameOf(es[j]) {
      var u :| 0 <= u < |p| && p[u] == f;
      var v :| 0 <= v < |m| && m[v] == es[j];
      assert x[u] == f && x[|p| + v] == es[j];
    }
    assert zs[0] in p && zs[1] in p;
  }

  lemma DotsInPrefix(d: Disk, bm: seq<nat>, k: nat)
    requires 1 <= k <= |bm| == MAX_BLOCKS && (forall j :: 0 <= j < |bm| ==> bm[j] < |d|) && DotsFirst(d, bm)
    ensures Entries(d[bm[0]])[0] in LiveOf(Slots(d, bm, 0, k)) && Entries(d[bm[0]])[1] in LiveOf(Slots(d, bm, 0, k))
  {
    hide NameOf, EntryAt, LiveOf;
    var zs := Entries(d[bm[0]]);
    SlotsSplit(d, bm, 0, 1, k);
    SlotsOfBlock(d, bm, 0);
    LiveOfConcat(Slots(d, bm, 0, 1), Slots(d, bm, 1, k));
    LiveMember(zs, zs[0]);
    LiveMember(zs, zs[1]);
  }

  /** Without dots, dir_entry_cnt is the number of entries in use. */
  lemma {:induction false} CountedIsLive(es: seq<DirEntry>)
    requires forall k :: 0 <= k < |es| && es[k].ftype != FT_UNKNOWN ==> !IsDot(es[k])
    ensures Counted(es) == |LiveOf(es)|
  {
    if es != [] {
      CountedIsLive(es[..|es| - 1]);
    }
  }

  lemma NotFirstBlock(fs: Fs, i: nat, k: nat)
    requires IsDir(fs, i) && k < MAX_BLOCKS
    requires var bm := Blocks(fs.disk, fs.inodes[i].secs); bm[k] != 0
    ensures var es := Entries(fs.disk[Blocks(fs.disk, fs.inodes[i].secs)[k]]);
      if k == 0 then HasDot(es) else !HasDot(es) && Counted(es) == |LiveOf(es)|
  {
    hide NameOf, EntryAt, Live, LiveOf, Blocks;
    var bm := Blocks(fs.disk, fs.inodes[i].secs);
    var es := Entries(fs.disk[bm[k]]);
    if k > 0 {
      forall j | 0 <= j < PER_SECTOR && es[j].ftype != FT_UNKNOWN ensures !IsDot(es[j]) {
        NoDotsPast(fs.disk, bm, fs.inodes[i].size, k, j);
      }
      CountedIsLive(es);
    }
  }

  lemma ClearedRow(es: seq<DirEntry>, j: nat)
    requires j < |es| && es[j].ftype != FT_UNKNOWN && Clean(es)
    ensures OneMore(LiveOf(es[j := HOLE]), LiveOf(es), es[j]) && Clean(es[j := HOLE])
    ensures |LiveOf(es[j := HOLE])| == |LiveOf(es)| - 1
  {
    hide LiveOf, NameOf;
    var fs := es[j := HOLE];
    LiveOne(es, j);
    LiveOne(fs, j);
    assert fs[..j] == es[..j] && fs[j + 1..] == es[j + 1..];
    HoleHasNoName();
  }

  /** The match in block k of a directory. */
  ghost predicate MatchAt(fs: Fs, i: nat, k: nat, j: nat, ino: word) {
    && IsDir(fs, i) && k < MAX_BLOCKS && j < PER_SECTOR
    && var bm := Blocks(fs.disk, fs.inodes[i].secs);
    && bm[k] != 0 && bm[k] < |fs.disk|
    && j == LastMatch(Entries(fs.disk[bm[k]]), ino)
  }

  ghost function EntryOf(fs: Fs, i: nat, k: nat, j: nat): DirEntry
    requires IsDir(fs, i) && k < MAX_BLOCKS && j < PER_SECTOR
  {
    Entries(fs.disk[Blocks(fs.disk, fs.inodes[i].secs)[k]])[j]
  }

  lemma ClearedRefines(fs: Fs, gs: Fs, i: nat, k: nat, j: nat, ino: word)
    requires Valid(fs) && MatchAt(fs, i, k, j, ino) && Cleared(fs, gs, i, k, j)
    requires var es := Entries(fs.disk[Blocks(fs.disk, fs.inodes[i].secs)[k]]); Counted(es) != 1 || HasDot(es)
    ensures Deleted(fs, gs, i, EntryOf(fs, i, k, j), {})
  {
    hide Entries, PutEntry, Blocks, DirMap, Live, LiveOf, NameOf, Shed, Counted, HasDot, LastMatch, OneMore;
    var secs := fs.inodes[i].secs;
    ClearedShed(fs, gs, i, k, j);
    ClearedBlock(fs, gs, i, k, j, ino);
    BlockLoses(fs.disk, Blocks(fs.disk, secs), fs.inodes[i].size, gs.disk, Blocks(gs.disk, secs), k, EntryOf(fs, i, k,
      j));
  }

  lemma ClearedShed(fs: Fs, gs: Fs, i: nat, k: nat, j: nat)
    requires Valid(fs) && IsDir(fs, i) && Cleared(fs, gs, i, k, j)
    ensures Blocks(gs.disk, fs.inodes[i].secs) == Blocks(fs.disk, fs.inodes[i].secs)
    ensures Shed(fs, gs, i, {})
  {
    hide Entries, PutEntry, DirBlocks, Blocks, Valid;
    var secs := fs.inodes[i].secs;
    var bm := Blocks(fs.disk, secs);
    assert bm[k] in OwnedBy(fs, i);
    TableUntouched(fs.disk, gs.disk, secs, bm[k]);
    assert OwnedBy(gs, i) == OwnedBy(fs, i);
  }

  /** Writing a sector other than the indirect table leaves the block map alone. */
  lemma TableUntouched(d: Disk, e: Disk, secs: seq<nat>, b: nat)
    requires Shaped(d, secs) && b < |d| && b != secs[12] && |e| == |d| && e == d[b := e[b]]
    ensures Blocks(e, secs) == Blocks(d, secs)
  {
  }

  lemma ClearedBlock(fs: Fs, gs: Fs, i: nat, k: nat, j: nat, ino: word)
    requires Valid(fs) && MatchAt(fs, i, k, j, ino) && Cleared(fs, gs, i, k, j)
    requires Blocks(gs.disk, fs.inodes[i].secs) == Blocks(fs.disk, fs.inodes[i].secs)
    requires var es := Entries(fs.disk[Blocks(fs.disk, fs.inodes[i].secs)[k]]); Counted(es) != 1 || HasDot(es)
    ensures var bm := Blocks(fs.disk, fs.inodes[i].secs);
      && DiffersAt(fs.disk, bm, gs.disk, bm, k)
      && OneMore(LiveOf(BlockSlots(gs.disk, bm, k)), LiveOf(BlockSlots(fs.disk, bm, k)), EntryOf(fs, i, k, j))
      && Clean(Entries(gs.disk[bm[k]])) && (k != 0 ==> LiveOf(Entries(gs.disk[bm[k]])) != [])
      && (k == 0 ==> Entries(gs.disk[bm[0]])[..2] == Entries(fs.disk[bm[0]])[..2])
  {
    hide EntryAt, PutEntry, NameOf, Live, LiveOf, Counted, HasDot, OneMore, Blocks;
    var bm := Blocks(fs.disk, fs.inodes[i].secs);
    var es := Entries(fs.disk[bm[k]]);
    PutEntryUpdates(fs.disk[bm[k]], j, HOLE);
    assert gs.disk[bm[k]] == PutEntry(fs.disk[bm[k]], j, HOLE);
    ClearedRow(es, j);
    NotFirstBlock(fs, i, k);
    if k == 0 {
      assert IsDot(es[0]) && IsDot(es[1]);
      assert j >= 2;
    }
  }

  lemma DroppedRefines(fs: Fs, gs: Fs, i: nat, k: nat, j: nat, ino: word)
    requires Valid(fs) && MatchAt(fs, i, k, j, ino) && Dropped(fs, gs, i, k)
    requires var es := Entries(fs.disk[Blocks(fs.disk, fs.inodes[i].secs)[k]]); Counted(es) == 1 && !HasDot(es)
    ensures Deleted(fs, gs, i, EntryOf(fs, i, k, j), {fs.inodes[i].secs[k]})
  {
    hide Entries, Blocks, DirMap, Live, LiveOf, NameOf, Shed, Counted, HasDot, LastMatch, OneMore, BlockSlots;
    var secs := fs.inodes[i].secs;
    DroppedShed(fs, gs, i, k);
    DroppedBlock(fs, i, k, j, ino);
    BlockLoses(fs.disk, Blocks(fs.disk, secs), fs.inodes[i].size, gs.disk, Blocks(fs.disk, secs)[k := 0], k, EntryOf(fs,
      i, k, j));
  }

  lemma DroppedShed(fs: Fs, gs: Fs, i: nat, k: nat)
    requires Valid(fs) && IsDir(fs, i) && Dropped(fs, gs, i, k)
    ensures Shaped(gs.disk, gs.inodes[i].secs)
    ensures Blocks(gs.disk, gs.inodes[i].secs) == Blocks(fs.disk, fs.inodes[i].secs)[k := 0]
    ensures Shed(fs, gs, i, {fs.inodes[i].secs[k]})
  {
    hide DirBlocks, Valid, Blocks, Owned;
    var secs := fs.inodes[i].secs;
    DataPositive(fs);
    PointerRemoved(fs.disk, secs, k, fs.data, fs.End());
    forall b ensures Marked(gs, b) <==> Marked(fs, b) && b != secs[k] {
    }
  }

  lemma DataPositive(fs: Fs)
    requires Valid(fs)
    ensures 0 < fs.data
  {
  }

  lemma DroppedBlock(fs: Fs, i: nat, k: nat, j: nat, ino: word)
    requires MatchAt(fs, i, k, j, ino)
    requires var es := Entries(fs.disk[Blocks(fs.disk, fs.inodes[i].secs)[k]]); Counted(es) == 1 && !HasDot(es)
    ensures k > 0
    ensures var bm := Blocks(fs.disk, fs.inodes[i].secs);
      && DiffersAt(fs.disk, bm, fs.disk, bm[k := 0], k)
      && OneMore(LiveOf(BlockSlots(fs.disk, bm[k := 0], k)), LiveOf(BlockSlots(fs.disk, bm, k)), EntryOf(fs, i, k, j))
  {
    hide EntryAt, NameOf, Live, Counted, HasDot, Blocks;
    var bm := Blocks(fs.disk, fs.inodes[i].secs);
    var es := Entries(fs.disk[bm[k]]);
    NotFirstBlock(fs, i, k);
    LiveMember(es, es[j]);
    assert LiveOf(es) == [es[j]];
    assert LiveOf([]) == [] + [] && [es[j]] == [] + [es[j]] + [];
  }

  /** A successful delete_dir_entry changes one inode, by one entry. */
  lemma DeletesInode(fs: Fs, gs: Fs, i: nat, ino: word, k: nat)
    requires i in fs.inodes && Readable(fs.disk, fs.inodes[i].secs) && Deletes(fs, gs, i, ino, Removed, k)
    ensures i in gs.inodes && gs.inodes == fs.inodes[i := gs.inodes[i]]
    ensures gs.inodes[i].size == fs.inodes[i].size - ENTRY_SIZE
  {
    hide Entries, PutEntry, Blocks, LastMatch, Counted, HasDot;
  }

  /** The block of the match can be given up, or need not be: it is a direct block, or it holds
      another entry. */
  predicate Spared(fs: Fs, i: nat, ino: word)
    requires IsDir(fs, i) && Readable(fs.disk, fs.inodes[i].secs)
  {
    var bm := Blocks(fs.disk, fs.inodes[i].secs);
    var k := MatchBlock(fs.disk, bm, ino, 0);
    k < DIRECT || k == MAX_BLOCKS || Counted(Entries(fs.disk[bm[k]])) != 1
  }

  /** Exactly the entry of the inode left the directory. */
  ghost predicate Rightly(fs: Fs, gs: Fs, i: nat, ino: word, r: Outcome) {
    r == Removed && IsDir(fs, i) && exists e, gone ::
      e in LiveIn(fs, i) && Matches(e, ino) && Deleted(fs, gs, i, e, gone)
  }

  /** delete_dir_entry on any directory: it removes the entry of the inode from the map, and reports
      failure, changing nothing, exactly when there is none, as long as it does not empty an
      indirect block. */
  lemma DeleteRefines(fs: Fs, gs: Fs, i: nat, ino: word, r: Outcome)
    requires Valid(fs) && IsDir(fs, i) && Readable(fs.disk, fs.inodes[i].secs) && Spared(fs, i, ino)
    requires Deletes(fs, gs, i, ino, r, MatchBlock(fs.disk, Blocks(fs.disk, fs.inodes[i].secs), ino, 0))
    ensures Rightly(fs, gs, i, ino, r) || (r == Absent && gs == fs)
    ensures r == Removed <==> exists e :: e in LiveIn(fs, i) && !IsDot(e) && e.ino == ino
  {
    hide Entries, Blocks, LiveOf, NameOf, Deleted, Counted, HasDot, LastMatch, MatchBlock, Cleared, Dropped, Live,
      DirBlocks, Sound;
    var bm := Blocks(fs.disk, fs.inodes[i].secs);
    var k := MatchBlock(fs.disk, bm, ino, 0);
    MatchBlockExact(fs, i, ino);
    if k < MAX_BLOCKS {
      var es := Entries(fs.disk[bm[k]]);
      var j := LastMatch(es, ino);
      if Counted(es) != 1 || HasDot(es) {
        ClearedRefines(fs, gs, i, k, j, ino);
        assert Rightly(fs, gs, i, ino, r);
      } else {
        DroppedRefines(fs, gs, i, k, j, ino);
        assert Rightly(fs, gs, i, ino, r);
      }
    }
  }

  // ---------------------------------------------------------------- emptying an indirect block

  /** The sectors of the indirect blocks other than block k. */
  ghost function Stranded(bm: seq<nat>, k: nat): set<nat>
    requires |bm| == MAX_BLOCKS
  {
    set q | DIRECT <= q < MAX_BLOCKS && q != k :: bm[q]
  }

  lemma WithoutTable(d: Disk, secs: seq<nat>, q: nat)
    requires Shaped(d, secs) && q < MAX_BLOCKS
    ensures Blocks(d, secs[12 := 0])[q] == if q < DIRECT then Blocks(d, secs)[q] else 0
  {
  }

  lemma TruncatedBlocks(fs: Fs, gs: Fs, i: nat, k: nat)
    requires IsDir(fs, i) && Truncated(fs, gs, i, k)
    ensures Readable(gs.disk, gs.inodes[i].secs)
    ensures var bm, cm := Blocks(fs.disk, fs.inodes[i].secs), Blocks(gs.disk, gs.inodes[i].secs);
      (forall q :: 0 <= q < DIRECT ==> cm[q] == bm[q]) && forall q :: DIRECT <= q < MAX_BLOCKS ==> cm[q] == 0
  {
    hide DirBlocks, Blocks;
    forall q | 0 <= q < MAX_BLOCKS ensures Blocks(gs.disk, gs.inodes[i].secs)[q] ==
      if q < DIRECT then Blocks(fs.disk, fs.inodes[i].secs)[q] else 0
    {
      WithoutTable(fs.disk, fs.inodes[i].secs, q);
    }
  }

  /** What is left is what the direct blocks held. */
  lemma TruncatedLive(fs: Fs, gs: Fs, i: nat, k: nat)
    requires IsDir(fs, i) && Truncated(fs, gs, i, k)
    ensures Readable(gs.disk, gs.inodes[i].secs)
    ensures Live(gs.disk, Blocks(gs.disk, gs.inodes[i].secs)) ==
      LiveOf(Slots(fs.disk, Blocks(fs.disk, fs.inodes[i].secs), 0, DIRECT))
  {
    hide Blocks, DirBlocks, Slots, LiveOf;
    TruncatedBlocks(fs, gs, i, k);
    var bm, cm := Blocks(fs.disk, fs.inodes[i].secs), Blocks(gs.disk, gs.inodes[i].secs);
    SlotsSplit(gs.disk, cm, 0, DIRECT, MAX_BLOCKS);
    AbsentBlocks(gs.disk, cm, DIRECT, MAX_BLOCKS);
    assert Slots(gs.disk, cm, 0, DIRECT) + [] == Slots(gs.disk, cm, 0, DIRECT);
    SlotsSame(fs.disk, bm, gs.disk, cm, 0, DIRECT);
  }

  /** The live entries of n indirect blocks, all present, are at least n. */
  lemma {:induction false} OnePerBlock(d: Disk, bm: seq<nat>, n: nat)
    requires DIRECT <= n <= |bm| == MAX_BLOCKS && (forall q :: 0 <= q < |bm| ==> bm[q] < |d|) && NoIdleBlock(d, bm)
    requires forall q :: DIRECT <= q < n ==> bm[q] != 0
    ensures |LiveOf(Slots(d, bm, DIRECT, n))| >= n - DIRECT
  {
    hide Entries, LiveOf, Slots, NoIdleBlock;
    if n > DIRECT {
      OnePerBlock(d, bm, n - 1);
      SlotsLast(d, bm, DIRECT, n);
      BlockLives(d, bm, n - 1);
      LiveOfConcat(Slots(d, bm, DIRECT, n - 1), Entries(d[bm[n - 1]]));
    }
  }

  lemma SlotsLast(d: Disk, bm: seq<nat>, from: nat, to: nat)
    requires from < to <= |bm| && (forall q :: 0 <= q < |bm| ==> bm[q] < |d|) && bm[to - 1] != 0
    ensures Slots(d, bm, from, to) == Slots(d, bm, from, to - 1) + Entries(d[bm[to - 1]])
  {
    hide Entries;
  }

  lemma BlockLives(d: Disk, bm: seq<nat>, q: nat)
    requires q < |bm| == MAX_BLOCKS && (forall q :: 0 <= q < |bm| ==> bm[q] < |d|) && NoIdleBlock(d, bm)
    requires DIRECT <= q && bm[q] != 0
    ensures |LiveOf(Entries(d[bm[q]]))| >= 1
  {
    hide Entries, LiveOf;
  }

  /** A directory with all 128 indirect blocks whose block k loses its only entry: the table goes
      with everything behind it.  Only the direct entries are left, at least 127 others are lost
      with the match, i_size is not exact any more, and 127 sectors stay marked without owner. */
  lemma TruncatedLoses(fs: Fs, gs: Fs, i: nat, k: nat)
    requires Valid(fs) && IsDir(fs, i) && DIRECT <= k && Truncated(fs, gs, i, k)
    requires !SomeAbsent(Blocks(fs.disk, fs.inodes[i].secs))
    ensures Readable(gs.disk, gs.inodes[i].secs) && !IsDir(gs, i)
    ensures |Live(gs.disk, Blocks(gs.disk, gs.inodes[i].secs))| <= |LiveIn(fs, i)| - 128
    ensures Valid(gs) && Leaked(gs) == Leaked(fs) + Stranded(Blocks(fs.disk, fs.inodes[i].secs), k)
  {
    hide Blocks, LiveOf, Slots, Entries, Valid, Leaked, Stranded;
    var bm := Blocks(fs.disk, fs.inodes[i].secs);
    TruncatedLive(fs, gs, i, k);
    SlotsSplit(fs.disk, bm, 0, DIRECT, MAX_BLOCKS);
    LiveOfConcat(Slots(fs.disk, bm, 0, DIRECT), Slots(fs.disk, bm, DIRECT, MAX_BLOCKS));
    OnePerBlock(fs.disk, bm, MAX_BLOCKS);
    TruncatedLeaks(fs, gs, i, k);
  }

  /** The inode still owns its direct blocks and nothing else. */
  lemma TruncatedKeeps(fs: Fs, gs: Fs, i: nat, k: nat, b: nat)
    requires IsDir(fs, i) && Truncated(fs, gs, i, k)
    ensures b in OwnedBy(gs, i) <==> exists q :: 0 <= q < DIRECT && Blocks(fs.disk, fs.inodes[i].secs)[q] == b && b != 0
    ensures b in OwnedBy(gs, i) ==> b in OwnedBy(fs, i)
  {
    hide DirBlocks, Blocks;
    TruncatedBlocks(fs, gs, i, k);
    var bm, cm := Blocks(fs.disk, fs.inodes[i].secs), Blocks(gs.disk, gs.inodes[i].secs);
    if q :| 0 <= q < DIRECT && bm[q] == b && b != 0 {
      assert cm[q] == b;
    }
    if b in OwnedBy(gs, i) {
      var q :| 0 <= q < MAX_BLOCKS && cm[q] == b;
      assert q < DIRECT && bm[q] == b;
    }
  }

  lemma TruncatedMarks(fs: Fs, gs: Fs, i: nat, k: nat)
    requires Valid(fs) && IsDir(fs, i) && DIRECT <= k && Truncated(fs, gs, i, k)
    ensures OnlyInode(fs, gs, i)
    ensures forall b :: Marked(gs, b) <==>
              Marked(fs, b) && b != fs.inodes[i].secs[12] && b != Blocks(fs.disk, fs.inodes[i].secs)[k]
  {
    hide DirBlocks, Blocks, Valid;
    var secs, bm := fs.inodes[i].secs, Blocks(fs.disk, fs.inodes[i].secs);
    TruncatedBlocks(fs, gs, i, k);
    forall b ensures Marked(gs, b) <==> Marked(fs, b) && b != secs[12] && b != bm[k] {
    }
    forall b | b in OwnedBy(gs, i) ensures b in OwnedBy(fs, i) && Marked(gs, b) {
      TruncatedKeeps(fs, gs, i, k, b);
      OwnedIsMarked(fs, i, b);
    }
    assert bm[k] in OwnedBy(fs, i) && secs[12] in OwnedBy(fs, i);
  }

  lemma OwnedIsMarked(fs: Fs, i: nat, b: nat)
    requires Valid(fs) && i in fs.inodes && b in OwnedBy(fs, i)
    ensures Marked(fs, b)
  {
  }

  lemma TruncatedOwned(fs: Fs, gs: Fs, i: nat, k: nat, b: nat)
    requires Valid(fs) && IsDir(fs, i) && DIRECT <= k && Truncated(fs, gs, i, k)
    requires !SomeAbsent(Blocks(fs.disk, fs.inodes[i].secs))
    ensures var secs, bm := fs.inodes[i].secs, Blocks(fs.disk, fs.inodes[i].secs);
      && (b in OwnedBy(fs, i) && b !in OwnedBy(gs, i) <==> b == secs[12] || b == bm[k] || b in Stranded(bm, k))
      && (b in Stranded(bm, k) ==> b != secs[12] && b != bm[k])
  {
    hide DirBlocks, Blocks, Valid;
    var secs, bm := fs.inodes[i].secs, Blocks(fs.disk, fs.inodes[i].secs);
    TruncatedKeeps(fs, gs, i, k, b);
    if b in OwnedBy(fs, i) && b !in OwnedBy(gs, i) && b != secs[12] {
      var q :| 0 <= q < MAX_BLOCKS && bm[q] == b;
      assert q >= DIRECT;
    }
  }

  lemma TruncatedLeaks(fs: Fs, gs: Fs, i: nat, k: nat)
    requires Valid(fs) && IsDir(fs, i) && DIRECT <= k && Truncated(fs, gs, i, k)
    requires !SomeAbsent(Blocks(fs.disk, fs.inodes[i].secs))
    ensures Valid(gs) && Leaked(gs) == Leaked(fs) + Stranded(Blocks(fs.disk, fs.inodes[i].secs), k)
  {
    hide Blocks, Owned, Stranded, Sound, DirBlocks, OwnedBy;
    TruncatedMarks(fs, gs, i, k);
    OnlyInodeKeepsValid(fs, gs, i);
    var lost := Stranded(Blocks(fs.disk, fs.inodes[i].secs), k);
    forall b: nat ensures b in Leaked(gs) <==> b in Leaked(fs) || b in lost {
      TruncatedOwned(fs, gs, i, k, b);
      TruncatedKeeps(fs, gs, i, k, b);
      if b in OwnedBy(fs, i) {
        OwnedIsMarked(fs, i, b);
      }
    }
  }

  /** delete_dir_entry does what it is for if and only if it empties no indirect block.  Otherwise it
      never returns, or drops the table with every entry in it. */
  lemma DeleteExact(fs: Fs, gs: Fs, i: nat, ino: word, r: Outcome)
    requires Valid(fs) && IsDir(fs, i) && Readable(fs.disk, fs.inodes[i].secs)
    requires Deletes(fs, gs, i, ino, r, MatchBlock(fs.disk, Blocks(fs.disk, fs.inodes[i].secs), ino, 0))
    ensures Rightly(fs, gs, i, ino, r) || (r == Absent && gs == fs) <==> Spared(fs, i, ino)
    ensures r == Spins <==> !Spared(fs, i, ino) && SomeAbsent(Blocks(fs.disk, fs.inodes[i].secs))
  {
    hide Entries, Blocks, LiveOf, NameOf, Deleted, HasDot, LastMatch, MatchBlock, Live, DirBlocks, Sound, Truncated,
      Cleared, Dropped;
    if Spared(fs, i, ino) {
      DeleteRefines(fs, gs, i, ino, r);
    } else {
      var bm := Blocks(fs.disk, fs.inodes[i].secs);
      var k := MatchBlock(fs.disk, bm, ino, 0);
      NotFirstBlock(fs, i, k);
      if r != Spins {
        TruncatedLoses(fs, gs, i, k);
        NotDeleted(fs, gs, i, ino, r);
      }
    }
  }

  lemma NotDeleted(fs: Fs, gs: Fs, i: nat, ino: word, r: Outcome)
    requires !IsDir(gs, i)
    ensures !Rightly(fs, gs, i, ino, r)
  {
  }

  lemma MatchBlockExact(fs: Fs, i: nat, ino: word)
    requires IsDir(fs, i) && Readable(fs.disk, fs.inodes[i].secs)
    ensures var bm := Blocks(fs.disk, fs.inodes[i].secs);
      var k := MatchBlock(fs.disk, bm, ino, 0);
      && (k < MAX_BLOCKS ==> bm[k] != 0 && var j := LastMatch(Entries(fs.disk[bm[k]]), ino);
            0 <= j < PER_SECTOR && EntryOf(fs, i, k, j) in LiveIn(fs, i) && Matches(EntryOf(fs, i, k, j), ino))
      && (k == MAX_BLOCKS ==> forall e :: e in LiveIn(fs, i) && !IsDot(e) ==> e.ino != ino)
  {
    hide EntryAt, Blocks, LiveOf, NameOf, DirBlocks, Sound, MatchBlock, LastMatch, Slots;
    var bm := Blocks(fs.disk, fs.inodes[i].secs);
    var k := MatchBlock(fs.disk, bm, ino, 0);
    if k < MAX_BLOCKS {
      var es := Entries(fs.disk[bm[k]]);
      LiveMember(es, es[LastMatch(es, ino)]);
      LiveAround(fs.disk, bm, k);
    } else {
      forall e | e in LiveIn(fs, i) && !IsDot(e) ensures e.ino != ino {
        LiveMember(Slots(fs.disk, bm, 0, MAX_BLOCKS), e);
        NoMatchInSlots(fs.disk, bm, ino, MAX_BLOCKS, e);
      }
    }
  }

  lemma {:induction false} NoMatchInSlots(d: Disk, bm: seq<nat>, ino: word, n: nat, e: DirEntry)
    requires n <= |bm| == MAX_BLOCKS && forall j :: 0 <= j < |bm| ==> bm[j] < |d|
    requires forall j :: 0 <= j < n && bm[j] != 0 ==> LastMatch(Entries(d[bm[j]]), ino) == -1
    requires e in Slots(d, bm, 0, n)
    ensures !Matches(e, ino)
  {
    hide EntryAt, NameOf;
    if e in Slots(d, bm, 0, n - 1) {
      NoMatchInSlots(d, bm, ino, n - 1, e);
    } else {
      var es := Entries(d[bm[n - 1]]);
      var j :| 0 <= j < |es| && es[j] == e;
    }
  }

  /** dir_is_empty is exact: i_size is that of two entries iff the directory holds nothing but
      the dots, and then block 0 is its only block. */
  lemma EmptyIsExact(fs: Fs, i: nat)
    requires IsDir(fs, i)
    ensures fs.inodes[i].size == 2 * ENTRY_SIZE <==> DirOf(fs, i).Keys == {[DOT], [DOT, DOT]}
    ensures fs.inodes[i].size == 2 * ENTRY_SIZE ==>
      forall k :: 1 <= k < MAX_BLOCKS ==> Blocks(fs.disk, fs.inodes[i].secs)[k] == 0
  {
    hide Entries, Blocks, LiveOf, NameOf, Slots, Names, UniqueInos, AllNamed, CleanBlocks, DotsFirst, Distinct;
    var bm := Blocks(fs.disk, fs.inodes[i].secs);
    var live := Live(fs.disk, bm);
    DotsAhead(fs.disk, bm, fs.inodes[i].size);
    if |live| == 2 {
      forall k | 1 <= k < MAX_BLOCKS ensures bm[k] == 0 {
        BlockInRest(fs.disk, bm, k);
      }
      TwoEntries(live);
    } else {
      ThirdEntry(live);
    }
  }

  lemma TwoEntries(live: seq<DirEntry>)
    requires |live| == 2 && NameOf(live[0]) == [DOT] && NameOf(live[1]) == [DOT, DOT]
    ensures Names(live) == {[DOT], [DOT, DOT]}
  {
    hide NameOf;
    assert live == [live[0], live[1]];
  }

  lemma ThirdEntry(live: seq<DirEntry>)
    requires Distinct(live) && |live| > 2 && NameOf(live[0]) == [DOT] && NameOf(live[1]) == [DOT, DOT]
    ensures Names(live) != {[DOT], [DOT, DOT]}
  {
    hide NameOf;
    assert live[2] in live;
    assert NameOf(live[2]) in Names(live) && NameOf(live[2]) != [DOT] && NameOf(live[2]) != [DOT, DOT];
  }

  lemma BlockInRest(d: Disk, bm: seq<nat>, k: nat)
    requires 1 <= k < |bm| == MAX_BLOCKS && (forall j :: 0 <= j < |bm| ==> bm[j] < |d|) && NoIdleBlock(d, bm)
    ensures bm[k] != 0 ==> LiveOf(Slots(d, bm, 1, MAX_BLOCKS)) != []
  {
    hide Entries;
    if bm[k] != 0 {
      SlotsSplit(d, bm, 1, k, MAX_BLOCKS);
      SlotsSplit(d, bm, k, k + 1, MAX_BLOCKS);
      SlotsOfBlock(d, bm, k);
      LiveOfThree(Slots(d, bm, 1, k), Entries(d[bm[k]]), Slots(d, bm, k + 1, MAX_BLOCKS));
    }
  }

  /** The live entries start with the two dots, and those of later blocks follow. */
  lemma DotsAhead(d: Disk, bm: seq<nat>, size: nat)
    requires DirBlocks(d, bm, size)
    ensures var live := Live(d, bm);
      |live| >= 2 + |LiveOf(Slots(d, bm, 1, MAX_BLOCKS))| && NameOf(live[0]) == [DOT] && NameOf(live[1]) == [DOT, DOT]
  {
    hide EntryAt, LiveOf, Slots;
    var zs := Entries(d[bm[0]]);
    LiveAround(d, bm, 0);
    assert zs == zs[..2] + zs[2..];
    LiveOfConcat(zs[..2], zs[2..]);
    assert zs[..2] == [zs[0]] + [zs[1]];
    LiveOfConcat([zs[0]], [zs[1]]);
    LiveOfSingle(zs[0]);
    LiveOfSingle(zs[1]);
    NoSlots(d, bm);
  }

  lemma NoSlots(d: Disk, bm: seq<nat>)
    requires |bm| == MAX_BLOCKS && forall j :: 0 <= j < |bm| ==> bm[j] < |d|
    ensures LiveOf(Slots(d, bm, 0, 0)) == []
  {
  }
}
