/** file_write and file_read of fs/file.c.

    A write runs in two phases: it first extends the block map (four cases, by where the old
    and the new last block lie), then copies the buffer sector by sector.  `all` is the heap
    table all_blocks: sys_malloc(512 + 48) hands out a zeroed block of 1024 bytes, so it has
    256 words. */
module FileData {
  import opened Bytes
  import opened BlockMap
  import opened Volume
  import Bitmap

  const TABLE_WORDS := 256

  function Min(a: nat, b: nat): nat { if a < b then a else b }

  // ---------------------------------------------------------------- phase one: more blocks

  /** i_sectors with `got` put in from index `from` on. */
  function PutDirect(secs: seq<nat>, from: nat, got: seq<nat>): (r: seq<nat>)
    requires |secs| == 13 && from + |got| <= 12
    ensures |r| == 13
    ensures forall k :: 0 <= k < 13 ==> r[k] == if from <= k < from + |got| then got[k - from] else secs[k]
  {
    secs[..from] + got + secs[from + |got|..]
  }

  /** Situation 1 of file_write: all blocks before and after are direct. */
  method GrowDirect(p: Partition, i: nat, has: nat, will: nat, all: seq<word>)
    returns (ok: bool, out: seq<word>, ghost got: seq<nat>)
    requires i in p.inodes && |p.inodes[i].secs| == 13 && |all| == TABLE_WORDS
    requires p.data + |p.bits| <= WORD_LIMIT
    requires 1 <= has <= will <= DIRECT && p.inodes[i].secs[has - 1] < WORD_LIMIT
    modifies p`bits, p`inodes
    ensures |out| == TABLE_WORDS
    ensures Took(p.data, old(p.bits), p.bits, got) && |got| <= will - has
    ensures p.inodes == old(p.inodes)[i := old(p.inodes)[i].(secs := PutDirect(old(p.inodes)[i].secs, has, got))]
    ensures ok <==> Bitmap.FreeCount(old(p.bits)) >= will - has
    ensures ok <==> |got| == will - has
    ensures ok ==> forall k :: has - 1 <= k < will ==> out[k] == p.inodes[i].secs[k]
  {
    ghost var inodes0 := p.inodes;
    ghost var secs0 := p.inodes[i].secs;
    out := all[has - 1 := p.inodes[i].secs[has - 1]];
    got := [];
    assert PutDirect(secs0, has, got) == secs0;
    var blockIdx := has;
    while blockIdx < will
      invariant has <= blockIdx <= will && |got| == blockIdx - has && |out| == TABLE_WORDS
      invariant Took(p.data, old(p.bits), p.bits, got)
      invariant Bitmap.FreeCount(p.bits) == Bitmap.FreeCount(old(p.bits)) - |got|
      invariant p.inodes == inodes0[i := inodes0[i].(secs := PutDirect(secs0, has, got))]
      invariant forall k :: has - 1 <= k < blockIdx ==> out[k] == p.inodes[i].secs[k]
    {
      var blockLba := TakeBlock(p, old(p.bits), got);
      if blockLba == -1 {
        return false, out, got;
      }
      var ino := p.inodes[i];
      p.inodes := p.inodes[i := ino.(secs := ino.secs[blockIdx := blockLba])];
      out := out[blockIdx := blockLba];
      got := got + [blockLba];
      assert p.inodes[i].secs == PutDirect(secs0, has, got);
      blockIdx := blockIdx + 1;
    }
    ok := true;
  }

  /** i_sectors with the direct part of `blocks` put in from index `from` on. */
  function PutHead(secs: seq<nat>, from: nat, blocks: seq<nat>): (r: seq<nat>)
    requires |secs| == 13 && from <= 12
    ensures |r| == 13
  {
    PutDirect(secs, from, blocks[..Min(|blocks|, 12 - from)])
  }

  lemma PutHeadStep(secs: seq<nat>, from: nat, blocks: seq<nat>, b: nat)
    requires |secs| == 13 && from <= 12
    ensures PutHead(secs, from, blocks + [b]) ==
      if from + |blocks| < 12 then PutHead(secs, from, blocks)[from + |blocks| := b] else PutHead(secs, from, blocks)
  {
  }

  /** The pointers below `from`, and the table, stay. */
  lemma HeadKeeps(data: nat, before: seq<bool>, after: seq<bool>, secs: seq<nat>, from: nat, blocks: seq<nat>)
    requires |secs| == 13 && from <= 12 && Took(data, before, after, blocks)
    ensures |after| == |before| && PutHead(secs, from, blocks)[12] == secs[12]
    ensures forall k :: 0 <= k < from ==> PutHead(secs, from, blocks)[k] == secs[k]
  {
  }

  lemma TookKeeps(data: nat, before: seq<bool>, after: seq<bool>, got: seq<nat>)
    requires Took(data, before, after, got)
    ensures |after| == |before| && forall j :: 0 <= j < |got| ==> data <= got[j] < data + |before|
  {
  }

  lemma PutNothing(secs: seq<nat>, from: nat)
    requires |secs| == 13 && from <= 12
    ensures PutHead(secs, from, []) == secs
  {
  }

  lemma TookNothing(data: nat, bits: seq<bool>)
    ensures Took(data, bits, bits, [])
  {
  }

  /** The loop of situation 2: blocks below twelve go to i_sectors and all_blocks, later ones to
      all_blocks only. */
  method FillAcross(p: Partition, i: nat, has: nat, will: nat, all: seq<word>)
    returns (ok: bool, out: seq<word>, ghost got: seq<nat>)
    requires i in p.inodes && |p.inodes[i].secs| == 13 && |all| == TABLE_WORDS
    requires p.data + |p.bits| <= WORD_LIMIT
    requires 1 <= has <= DIRECT < will <= MAX_BLOCKS + 1
    modifies p`bits, p`inodes
    ensures |out| == TABLE_WORDS
    ensures Took(p.data, old(p.bits), p.bits, got) && |got| <= will - has
    ensures ok <==> Bitmap.FreeCount(old(p.bits)) >= will - has
    ensures ok <==> |got| == will - has
    ensures p.inodes == old(p.inodes)[i := old(p.inodes)[i].(secs := PutHead(old(p.inodes)[i].secs, has, got))]
    ensures ok ==> forall k :: 0 <= k < TABLE_WORDS ==> out[k] == if has <= k < will then got[k - has] else all[k]
  {
    hide Took, PutHead, Bitmap.FreeCount;
    ghost var inodes0 := p.inodes;
    ghost var secs0 := p.inodes[i].secs;
    out := all;
    got := [];
    TookNothing(p.data, p.bits);
    PutNothing(secs0, has);
    var blockIdx := has;
    while blockIdx < will
      invariant has <= blockIdx <= will && |got| == blockIdx - has
      invariant |out| == TABLE_WORDS
      invariant Took(p.data, old(p.bits), p.bits, got)
      invariant Bitmap.FreeCount(p.bits) == Bitmap.FreeCount(old(p.bits)) - |got|
      invariant p.inodes == inodes0[i := inodes0[i].(secs := PutHead(secs0, has, got))]
      invariant forall k :: 0 <= k < TABLE_WORDS ==> out[k] == if has <= k < blockIdx then got[k - has] else all[k]
    {
      var blockLba := TakeBlock(p, old(p.bits), got);
      if blockLba == -1 {
        return false, out, got;
      }
      PutHeadStep(secs0, has, got, blockLba);
      if blockIdx < DIRECT {
        var ino := p.inodes[i];
        p.inodes := p.inodes[i := ino.(secs := ino.secs[blockIdx := blockLba])];
      }
      out := out[blockIdx := blockLba];
      got := got + [blockLba];
      blockIdx := blockIdx + 1;
    }
    ok := true;
  }

  /** Situation 2 done: a table and the blocks has .. will - 1 were taken, and the table is on
      disk. */
  ghost predicate AcrossDone(fs: Fs, gs: Fs, i: nat, has: nat, will: nat, out: seq<word>, table: nat, got: seq<nat>) {
    && i in fs.inodes && |fs.inodes[i].secs| == 13 && 1 <= has <= 12 < will <= 141
    && |out| == TABLE_WORDS && |got| == will - has && table < |fs.disk|
    && gs == Fs(fs.data, fs.disk[table := PackWords(out[12..140])], gs.bits,
                fs.inodes[i := fs.inodes[i].(secs := PutHead(fs.inodes[i].secs[12 := table], has, got))])
    && Took(fs.data, fs.bits, gs.bits, [table] + got)
    && forall k :: has - 1 <= k < TABLE_WORDS ==>
         out[k] == if k < has then fs.inodes[i].secs[k] else if k < will then got[k - has] else 0
  }

  /** Situation 2: the old last block is direct, the new one is not.  A table is allocated
      first, then the blocks; the table goes to disk last. */
  method GrowAcross(p: Partition, i: nat, has: nat, will: nat, all: seq<word>)
    returns (ok: bool, out: seq<word>, ghost table: nat, ghost got: seq<nat>)
    requires i in p.inodes && Shaped(p.disk, p.inodes[i].secs)
    requires |all| == TABLE_WORDS && forall k :: 0 <= k < TABLE_WORDS ==> all[k] == 0
    requires p.data + |p.bits| <= |p.disk| <= WORD_LIMIT
    requires 1 <= has <= DIRECT < will <= MAX_BLOCKS + 1 && p.inodes[i].secs[has - 1] < WORD_LIMIT
    modifies p
    ensures |out| == TABLE_WORDS
    ensures ok <==> Bitmap.FreeCount(old(p.bits)) >= will - has + 1
    ensures !ok ==> p.disk == old(p.disk) && OnlyPointersPast(old(p.inodes), p.inodes, i, has)
    ensures !ok ==> p.inodes[i].secs[12] < |p.disk| && |p.bits| == |old(p.bits)|
    ensures ok ==> AcrossDone(old(p.State()), p.State(), i, has, will, out, table, got)
  {
    hide PackWords, Took, PutHead, Bitmap.FreeCount;
    out := all[has - 1 := p.inodes[i].secs[has - 1]];
    got := [];
    table := 0;
    var lba := TakeBlock(p, p.bits, []);
    if lba == -1 {
      return false, out, table, got;
    }
    table := lba;
    ghost var bits1 := p.bits;
    assert [] + [table] == [table];
    p.inodes := p.inodes[i := p.inodes[i].(secs := p.inodes[i].secs[12 := lba])];
    ok, out, got := FillAcross(p, i, has, will, out);
    HeadKeeps(p.data, bits1, p.bits, old(p.inodes)[i].secs[12 := lba], has, got);
    TookKeeps(p.data, old(p.bits), bits1, [table]);
    if !ok {
      return;
    }
    TookTogether(p.data, old(p.bits), bits1, p.bits, [table], got);
    p.disk := p.disk[lba := PackWords(out[12..140])];
  }

  /** What a failed write leaves of the inodes: only pointers at or past index n of inode i may
      differ. */
  ghost predicate OnlyPointersPast(before: map<nat, Inode>, after: map<nat, Inode>, i: nat, n: nat) {
    && i in before && i in after
    && |before[i].secs| == |after[i].secs| == 13
    && after == before[i := after[i]]
    && after[i].size == before[i].size
    && forall k :: 0 <= k < n && k < 13 ==> after[i].secs[k] == before[i].secs[k]
  }

  /** Situation 3: the old last block is indirect already.  The table is read, extended and
      written back. */
  method GrowIndirect(p: Partition, i: nat, has: nat, will: nat, all: seq<word>)
    returns (ok: bool, out: seq<word>, ghost got: seq<nat>)
    requires i in p.inodes && |p.inodes[i].secs| == 13 && p.inodes[i].secs[12] < |p.disk|
    requires |all| == TABLE_WORDS && forall k :: 0 <= k < TABLE_WORDS ==> all[k] == 0
    requires p.data + |p.bits| <= |p.disk| <= WORD_LIMIT
    requires DIRECT < has <= will <= MAX_BLOCKS + 1
    modifies p`bits, p`disk
    ensures |out| == TABLE_WORDS
    ensures Took(p.data, old(p.bits), p.bits, got) && |got| <= will - has && |p.bits| == |old(p.bits)|
    ensures ok <==> Bitmap.FreeCount(old(p.bits)) >= will - has
    ensures ok <==> |got| == will - has
    ensures !ok ==> p.disk == old(p.disk)
    ensures ok ==> IndirectDone(old(p.State()), p.State(), i, has, will, out, got)
  {
    var table := p.inodes[i].secs[12];
    ghost var old12 := Words(p.disk[table]);
    out := all[..12] + Words(p.disk[table]) + all[140..];
    got := [];
    var blockIdx := has;
    while blockIdx < will
      invariant has <= blockIdx <= will && |got| == blockIdx - has && |out| == TABLE_WORDS
      invariant p.disk == old(p.disk)
      invariant Took(p.data, old(p.bits), p.bits, got)
      invariant Bitmap.FreeCount(p.bits) == Bitmap.FreeCount(old(p.bits)) - |got|
      invariant forall k :: 12 <= k < MAX_BLOCKS ==>
        out[k] == if has <= k < blockIdx then got[k - has] else old12[k - 12]
    {
      var blockLba := TakeBlock(p, old(p.bits), got);
      if blockLba == -1 {
        return false, out, got;
      }
      out := out[blockIdx := blockLba];
      got := got + [blockLba];
      blockIdx := blockIdx + 1;
    }
    p.disk := p.disk[table := PackWords(out[12..140])];
    ok := true;
  }

  // ---------------------------------------------------------------- what phase one amounts to

  /** Every block inode i had is still there, at the same place, with the same bytes. */
  ghost predicate SameBlocks(fs: Fs, gs: Fs, i: nat) {
    && i in fs.inodes && i in gs.inodes
    && Shaped(fs.disk, fs.inodes[i].secs) && Shaped(gs.disk, gs.inodes[i].secs)
    && var bm, cm := Blocks(fs.disk, fs.inodes[i].secs), Blocks(gs.disk, gs.inodes[i].secs);
       forall k :: 0 <= k < MAX_BLOCKS && bm[k] != 0 ==>
         cm[k] == bm[k] && bm[k] < |fs.disk| && bm[k] < |gs.disk| && gs.disk[bm[k]] == fs.disk[bm[k]]
  }

  /** Inode i now maps exactly n blocks; those it had are as they were. */
  ghost predicate Extended(fs: Fs, gs: Fs, i: nat, n: nat, lost: set<nat>) {
    && Grew(fs, gs, i, lost)
    && gs.inodes[i].size == fs.inodes[i].size
    && Exactly(gs.disk, gs.inodes[i].secs, n)
    && SameBlocks(fs, gs, i)
  }

  lemma ExtendedTwice(fs: Fs, gs: Fs, hs: Fs, i: nat, n: nat, m: nat, lost: set<nat>)
    requires Extended(fs, gs, i, n, {}) && Extended(gs, hs, i, m, lost)
    ensures Extended(fs, hs, i, m, lost)
  {
    GrewTwice(fs, gs, hs, i, {}, lost);
    assert {} + lost == lost;
    assert SameBlocks(fs, hs, i);
  }

  /** The block map continues with `add`; of the sectors taken, those in neither the map nor the
      table position are lost. */
  ghost predicate Continued(fs: Fs, gs: Fs, i: nat, n: nat, add: seq<nat>, got: seq<nat>, lost: set<nat>) {
    && i in fs.inodes && i in gs.inodes
    && gs.data == fs.data && |gs.disk| == |fs.disk|
    && gs.inodes == fs.inodes[i := gs.inodes[i]] && gs.inodes[i].size == fs.inodes[i].size
    && var secs, tecs := fs.inodes[i].secs, gs.inodes[i].secs;
    && Continues(fs.disk, secs, gs.disk, tecs, n, add)
    && Took(fs.data, fs.bits, gs.bits, got)
    && Elems(got) == Elems(add) + (if tecs[12] != secs[12] then {tecs[12]} else {}) + lost
    && lost !! Elems(add) && tecs[12] !in lost
    && (forall j, k :: 0 <= j < k < |add| ==> add[j] != add[k])
    && (forall b :: 0 <= b < |fs.disk| && (b != tecs[12] || b == 0) ==> gs.disk[b] == fs.disk[b])
  }

  lemma ContinuedFresh(fs: Fs, gs: Fs, i: nat, n: nat, add: seq<nat>, got: seq<nat>, lost: set<nat>)
    requires Valid(fs) && Continued(fs, gs, i, n, add, got, lost)
    ensures forall b :: b in Elems(got) ==> fs.data <= b < fs.End() && !Marked(fs, b) && b !in OwnedBy(fs, i)
    ensures Fresh(fs.disk, fs.inodes[i].secs, add, fs.data, fs.End())
  {
    forall b | b in Elems(got) ensures fs.data <= b < fs.End() && !Marked(fs, b) && b !in OwnedBy(fs, i) {
      var j :| 0 <= j < |got| && got[j] == b;
      assert b in OwnedBy(fs, i) ==> Marked(fs, b);
    }
    forall k | 0 <= k < |add| ensures add[k] in Elems(got) {
      assert add[k] in Elems(add);
    }
  }

  lemma ContinuedExtends(fs: Fs, gs: Fs, i: nat, n: nat, add: seq<nat>, got: seq<nat>, lost: set<nat>)
    requires Valid(fs) && Continued(fs, gs, i, n, add, got, lost)
    requires Exactly(fs.disk, fs.inodes[i].secs, n)
    ensures Extended(fs, gs, i, n + |add|, lost)
  {
    var secs, tecs := fs.inodes[i].secs, gs.inodes[i].secs;
    ContinuedFresh(fs, gs, i, n, add, got, lost);
    assert tecs[12] != secs[12] ==> tecs[12] in Elems(got);
    ContinuedIsSound(fs.disk, secs, gs.disk, tecs, n, add, fs.data, fs.End());
    assert Claimed(fs, gs, i, lost) by {
      ContinuedClaims(fs, gs, i, n, add, got, lost);
    }
    assert WroteOnly(fs, gs, i);
    ContinuedSameBlocks(fs, gs, i, n, add, got, lost);
  }

  lemma ContinuedClaims(fs: Fs, gs: Fs, i: nat, n: nat, add: seq<nat>, got: seq<nat>, lost: set<nat>)
    requires Valid(fs) && Continued(fs, gs, i, n, add, got, lost)
    requires var secs, tecs := fs.inodes[i].secs, gs.inodes[i].secs;
      OwnedBy(gs, i) == OwnedBy(fs, i) + Elems(add) + if tecs[12] != secs[12] then {tecs[12]} else {}
    ensures Claimed(fs, gs, i, lost)
  {
    ContinuedFresh(fs, gs, i, n, add, got, lost);
    forall b ensures Marked(gs, b) <==> Marked(fs, b) || b in OwnedBy(gs, i) || b in lost {
      assert b in Elems(got) <==> b in got;
      assert b in OwnedBy(fs, i) ==> Marked(fs, b);
    }
  }

  lemma ContinuedSameBlocks(fs: Fs, gs: Fs, i: nat, n: nat, add: seq<nat>, got: seq<nat>, lost: set<nat>)
    requires Valid(fs) && Continued(fs, gs, i, n, add, got, lost)
    requires Exactly(fs.disk, fs.inodes[i].secs, n)
    ensures SameBlocks(fs, gs, i)
  {
    var secs, tecs := fs.inodes[i].secs, gs.inodes[i].secs;
    var bm := Blocks(fs.disk, secs);
    forall k | 0 <= k < MAX_BLOCKS && bm[k] != 0 ensures gs.disk[bm[k]] == fs.disk[bm[k]] {
      assert k < n;
      assert bm[k] in OwnedBy(fs, i);
      assert bm[k] != tecs[12];
    }
  }

  lemma DirectContinues(fs: Fs, gs: Fs, i: nat, has: nat, got: seq<nat>)
    requires Valid(fs) && i in fs.inodes && Exactly(fs.disk, fs.inodes[i].secs, has)
    requires has + |got| <= 12 && Took(fs.data, fs.bits, gs.bits, got)
    requires gs == Fs(fs.data, fs.disk, gs.bits,
      fs.inodes[i := fs.inodes[i].(secs := PutDirect(fs.inodes[i].secs, has, got))])
    ensures Extended(fs, gs, i, has + |got|, {})
  {
    var secs, tecs := fs.inodes[i].secs, gs.inodes[i].secs;
    forall k | 0 <= k < MAX_BLOCKS
      ensures Blocks(gs.disk, tecs)[k] ==
        if k < has then Blocks(fs.disk, secs)[k] else if k < has + |got| then got[k - has] else 0
    {
      assert Blocks(fs.disk, secs)[k] != 0 <==> k < has;
    }
    ContinuedExtends(fs, gs, i, has, got, got, {});
  }

  /** Sectors taken past the end of the block map. */
  ghost function Beyond(has: nat, got: seq<nat>): set<nat>
    requires has <= MAX_BLOCKS
  {
    Elems(got[Min(|got|, MAX_BLOCKS - has)..])
  }

  lemma SplitTaken(data: nat, before: seq<bool>, after: seq<bool>, has: nat, got: seq<nat>)
    requires has <= MAX_BLOCKS && Took(data, before, after, got)
    ensures var add := got[..Min(|got|, MAX_BLOCKS - has)];
      Elems(got) == Elems(add) + Beyond(has, got) && Beyond(has, got) !! Elems(add)
  {
    var m := Min(|got|, MAX_BLOCKS - has);
    assert got == got[..m] + got[m..];
  }

  lemma AcrossContinues(fs: Fs, gs: Fs, i: nat, has: nat, will: nat, out: seq<word>, table: nat, got: seq<nat>)
    requires Valid(fs) && AcrossDone(fs, gs, i, has, will, out, table, got)
    requires Exactly(fs.disk, fs.inodes[i].secs, has)
    ensures Extended(fs, gs, i, Min(will, MAX_BLOCKS), Beyond(has, got))
    ensures forall k :: has - 1 <= k < Min(will, MAX_BLOCKS) ==> out[k] == Blocks(gs.disk, gs.inodes[i].secs)[k]
  {
    hide Took, Valid, Extended, Continued, Exactly;
    var add := got[..Min(|got|, MAX_BLOCKS - has)];
    AcrossContinued(fs, gs, i, has, will, out, table, got);
    ContinuedExtends(fs, gs, i, has, add, [table] + got, Beyond(has, got));
    AcrossBlocks(fs, gs, i, has, will, out, table, got);
    assert has + |add| == Min(will, MAX_BLOCKS);
  }

  lemma AcrossContinued(fs: Fs, gs: Fs, i: nat, has: nat, will: nat, out: seq<word>, table: nat, got: seq<nat>)
    requires Valid(fs) && AcrossDone(fs, gs, i, has, will, out, table, got)
    requires Exactly(fs.disk, fs.inodes[i].secs, has)
    ensures table != 0
    ensures Continued(fs, gs, i, has, got[..Min(|got|, MAX_BLOCKS - has)], [table] + got, Beyond(has, got))
  {
    hide Took, Blocks;
    TakenWasFree(fs, gs, i, [table] + got, 0);
    AcrossBlocks(fs, gs, i, has, will, out, table, got);
    AcrossTaken(fs, gs, has, table, got);
  }

  lemma AcrossTaken(fs: Fs, gs: Fs, has: nat, table: nat, got: seq<nat>)
    requires has <= MAX_BLOCKS && Took(fs.data, fs.bits, gs.bits, [table] + got)
    ensures var add := got[..Min(|got|, MAX_BLOCKS - has)];
      && Elems([table] + got) == Elems(add) + {table} + Beyond(has, got)
      && Beyond(has, got) !! Elems(add) && table !in Beyond(has, got) && table !in add
      && forall j, k :: 0 <= j < k < |add| ==> add[j] != add[k]
  {
    hide InUse;
    var all := [table] + got;
    var m := Min(|got|, MAX_BLOCKS - has);
    assert got == got[..m] + got[m..] && all[0] == table;
    forall j | 0 <= j < |got| ensures got[j] == all[j + 1] && got[j] != table {
    }
    forall j, k | 0 <= j < k < |got| ensures got[j] != got[k] {
      assert all[j + 1] != all[k + 1];
    }
  }

  lemma AcrossBlocks(fs: Fs, gs: Fs, i: nat, has: nat, will: nat, out: seq<word>, table: nat, got: seq<nat>)
    requires Valid(fs) && AcrossDone(fs, gs, i, has, will, out, table, got)
    requires Exactly(fs.disk, fs.inodes[i].secs, has) && table != 0
    ensures Shaped(gs.disk, gs.inodes[i].secs) && gs.inodes[i].secs[12] == table
    ensures forall k :: 0 <= k < MAX_BLOCKS ==>
      Blocks(gs.disk, gs.inodes[i].secs)[k] ==
        if k < has then Blocks(fs.disk, fs.inodes[i].secs)[k] else if k < will then got[k - has] else 0
  {
    WordsRoundTrip(out[12..140]);
    assert gs.disk[table] == PackWords(out[12..140]);
    var secs, tecs := fs.inodes[i].secs, gs.inodes[i].secs;
    forall k | 12 <= k < MAX_BLOCKS ensures Blocks(gs.disk, tecs)[k] == out[k] {
    }
  }

  /** Situation 3 done: the table on disk goes on with the blocks taken. */
  ghost predicate IndirectDone(fs: Fs, gs: Fs, i: nat, has: nat, will: nat, out: seq<word>, got: seq<nat>) {
    && i in fs.inodes && Shaped(fs.disk, fs.inodes[i].secs)
    && 12 < has <= will <= MAX_BLOCKS + 1 && |got| == will - has && |out| == TABLE_WORDS
    && Took(fs.data, fs.bits, gs.bits, got)
    && gs == Fs(fs.data, fs.disk[fs.inodes[i].secs[12] := PackWords(out[12..140])], gs.bits, fs.inodes)
    && forall k :: 12 <= k < MAX_BLOCKS ==>
         out[k] == if has <= k < will then got[k - has] else Words(fs.disk[fs.inodes[i].secs[12]])[k - 12]
  }

  lemma IndirectContinues(fs: Fs, gs: Fs, i: nat, has: nat, will: nat, out: seq<word>, got: seq<nat>)
    requires Valid(fs) && IndirectDone(fs, gs, i, has, will, out, got) && has <= MAX_BLOCKS
    requires Exactly(fs.disk, fs.inodes[i].secs, has)
    ensures Extended(fs, gs, i, Min(will, MAX_BLOCKS), Beyond(has, got))
    ensures forall k :: 12 <= k < MAX_BLOCKS ==> out[k] == Blocks(gs.disk, gs.inodes[i].secs)[k]
  {
    var add := got[..Min(|got|, MAX_BLOCKS - has)];
    IndirectContinued(fs, gs, i, has, will, out, got);
    ContinuedExtends(fs, gs, i, has, add, got, Beyond(has, got));
    IndirectBlocks(fs, gs, i, has, will, out, got);
    assert has + |add| == Min(will, MAX_BLOCKS);
  }

  lemma IndirectContinued(fs: Fs, gs: Fs, i: nat, has: nat, will: nat, out: seq<word>, got: seq<nat>)
    requires Valid(fs) && IndirectDone(fs, gs, i, has, will, out, got) && has <= MAX_BLOCKS
    requires Exactly(fs.disk, fs.inodes[i].secs, has)
    ensures Continued(fs, gs, i, has, got[..Min(|got|, MAX_BLOCKS - has)], got, Beyond(has, got))
  {
    var table := fs.inodes[i].secs[12];
    IndirectBlocks(fs, gs, i, has, will, out, got);
    SplitTaken(fs.data, fs.bits, gs.bits, has, got);
    assert table in OwnedBy(fs, i) && Marked(fs, table);
    assert table !in got;
    assert gs.inodes == fs.inodes[i := gs.inodes[i]];
  }

  lemma IndirectBlocks(fs: Fs, gs: Fs, i: nat, has: nat, will: nat, out: seq<word>, got: seq<nat>)
    requires Valid(fs) && IndirectDone(fs, gs, i, has, will, out, got)
    requires Exactly(fs.disk, fs.inodes[i].secs, has)
    ensures Shaped(gs.disk, fs.inodes[i].secs)
    ensures forall k :: 12 <= k < MAX_BLOCKS ==> out[k] == Blocks(gs.disk, fs.inodes[i].secs)[k]
    ensures forall k :: 0 <= k < MAX_BLOCKS ==>
      Blocks(gs.disk, fs.inodes[i].secs)[k] ==
        if k < has then Blocks(fs.disk, fs.inodes[i].secs)[k] else if k < will then got[k - has] else 0
  {
    var secs := fs.inodes[i].secs;
    WordsRoundTrip(out[12..140]);
    assert gs.disk[secs[12]] == PackWords(out[12..140]);
    forall k | 12 <= k < MAX_BLOCKS ensures out[k] == Blocks(gs.disk, secs)[k] {
    }
    forall k | 0 <= k < MAX_BLOCKS
      ensures Blocks(gs.disk, secs)[k] ==
        if k < has then Blocks(fs.disk, secs)[k] else if k < will then got[k - has] else 0
    {
      assert Blocks(fs.disk, secs)[k] != 0 <==> k < has;
    }
  }

  // ---------------------------------------------------------------- phase one as a whole

  /** A write that stopped for lack of blocks: nothing went to disk, and the bytes of the file
      are still where they were. */
  ghost predicate Unwritten(fs: Fs, gs: Fs, i: nat) {
    && gs.data == fs.data && gs.disk == fs.disk && |gs.bits| == |fs.bits|
    && i in fs.inodes && i in gs.inodes && gs.inodes == fs.inodes[i := gs.inodes[i]]
    && gs.inodes[i].size == fs.inodes[i].size
    && Shaped(fs.disk, fs.inodes[i].secs) && Shaped(gs.disk, gs.inodes[i].secs)
    && Mapped(fs.disk, Blocks(fs.disk, fs.inodes[i].secs), fs.inodes[i].size)
    && Mapped(gs.disk, Blocks(gs.disk, gs.inodes[i].secs), gs.inodes[i].size)
    && Content(gs.disk, gs.inodes[i]) == Content(fs.disk, fs.inodes[i])
  }

  lemma ExtendedSelf(fs: Fs, i: nat, n: nat)
    requires Valid(fs) && i in fs.inodes && Exactly(fs.disk, fs.inodes[i].secs, n)
    ensures Extended(fs, fs, i, n, {})
  {
    assert fs.inodes == fs.inodes[i := fs.inodes[i]];
    assert forall b :: b in OwnedBy(fs, i) ==> Marked(fs, b);
    var bm := Blocks(fs.disk, fs.inodes[i].secs);
    assert forall k :: 0 <= k < MAX_BLOCKS && bm[k] != 0 ==> bm[k] < |fs.disk|;
  }

  /** The blocks a file keeps once its first block exists. */
  lemma ExtendedIsFile(fs: Fs, gs: Fs, i: nat, n: nat, lost: set<nat>)
    requires Valid(fs) && IsFile(fs, i) && Extended(fs, gs, i, n, lost)
    requires 0 < n && n == BlockCount(fs.inodes[i].size)
    ensures IsFile(gs, i) && gs.inodes[i].secs[0] != 0
  {
    assert Blocks(gs.disk, gs.inodes[i].secs)[0] != 0;
  }

  /** The first write to a file gives it block 0. */
  method FirstBlock(p: Partition, i: nat) returns (ok: bool)
    requires Valid(p.State()) && IsFile(p.State(), i)
    modifies p`bits, p`inodes
    ensures ok <==> old(p.inodes)[i].secs[0] != 0 || Bitmap.FreeCount(old(p.bits)) > 0
    ensures !ok ==> p.State() == old(p.State())
    ensures ok ==>
      Bitmap.FreeCount(p.bits) == Bitmap.FreeCount(old(p.bits)) - if old(p.inodes)[i].secs[0] == 0 then 1 else 0
    ensures ok ==> Extended(old(p.State()), p.State(), i, BlockCount(old(p.inodes)[i].size), {})
  {
    hide Valid, Extended, Took, Sound, Bitmap.FreeCount, Exactly;
    ghost var fs := p.State();
    FileIsThere(fs, i);
    var ino := p.inodes[i];
    if ino.secs[0] != 0 {
      ExtendedSelf(fs, i, BlockCount(ino.size));
      return true;
    }
    var lba := TakeBlock(p, p.bits, []);
    if lba == -1 {
      return false;
    }
    p.inodes := p.inodes[i := ino.(secs := ino.secs[0 := lba])];
    assert [] + [lba] == [lba] && PutDirect(ino.secs, 0, [lba]) == ino.secs[0 := lba];
    DirectContinues(fs, p.State(), i, 0, [lba]);
    ok := true;
  }

  /** Blocks a file of this size addresses, counting the one its next byte goes to. */
  function Used(size: nat): nat { size / SECTOR_SIZE + 1 }

  /** Sectors phase one takes besides the first block. */
  function More(size: nat, count: nat): nat {
    Used(size + count) - Used(size) + if Used(size) <= DIRECT < Used(size + count) then 1 else 0
  }

  /** What phase one promises: it fails exactly for lack of sectors, and then nothing is
      written; otherwise the block map covers the new size, all_blocks has the blocks the copy
      will use, and one sector is lost exactly when the file reaches its maximal size. */
  ghost predicate MapReady(fs: Fs, gs: Fs, i: nat, count: nat, ok: bool, all: seq<word>, lost: set<nat>) {
    && i in fs.inodes && |all| == TABLE_WORDS
    && var size := fs.inodes[i].size;
    && (ok <==> Bitmap.FreeCount(fs.bits) >= More(size, count))
    && (!ok ==> Unwritten(fs, gs, i))
    && (ok ==>
          && Extended(fs, gs, i, BlockCount(size + count), lost)
          && |lost| == (if count > 0 && size + count == MAX_FILE_SIZE then 1 else 0)
          && forall k :: size / SECTOR_SIZE <= k < BlockCount(size + count) ==>
               all[k] == Blocks(gs.disk, gs.inodes[i].secs)[k])
  }

  ghost predicate Growable(p: Partition, i: nat, count: nat)
    reads p
  {
    && Valid(p.State()) && IsFile(p.State(), i) && p.inodes[i].secs[0] != 0
    && p.inodes[i].size + count <= MAX_FILE_SIZE
  }

  lemma FailedKeepsBytes(fs: Fs, gs: Fs, i: nat)
    requires Valid(fs) && IsFile(fs, i) && Used(fs.inodes[i].size) <= DIRECT
    requires gs.data == fs.data && gs.disk == fs.disk && |gs.bits| == |fs.bits|
    requires OnlyPointersPast(fs.inodes, gs.inodes, i, Used(fs.inodes[i].size))
    requires gs.inodes[i].secs[12] < |gs.disk|
    ensures Unwritten(fs, gs, i)
  {
    FileIsMapped(fs.disk, fs.inodes[i], fs.data, fs.End());
    var bm, cm := Blocks(fs.disk, fs.inodes[i].secs), Blocks(gs.disk, gs.inodes[i].secs);
    forall k | 0 <= k < Used(fs.inodes[i].size) ensures bm[k] == cm[k] {
    }
    assert Mapped(gs.disk, cm, gs.inodes[i].size);
  }

  /** The new bytes stay in the block the next byte goes to. */
  method MapSame(p: Partition, i: nat, count: nat) returns (all: seq<word>)
    requires Growable(p, i, count) && Used(p.inodes[i].size) == Used(p.inodes[i].size + count)
    ensures MapReady(p.State(), p.State(), i, count, true, all, {})
  {
    var has := p.inodes[i].size / SECTOR_SIZE + 1;
    var secs := p.inodes[i].secs;
    all := seq(TABLE_WORDS, _ => 0);
    ExtendedSelf(p.State(), i, BlockCount(p.inodes[i].size));
    if has <= DIRECT {
      assert secs[has - 1] == Blocks(p.disk, secs)[has - 1] && secs[has - 1] != 0;
      all := all[has - 1 := secs[has - 1]];
    } else {
      all := all[..12] + Words(p.disk[secs[12]]) + all[140..];
    }
  }

  lemma LastDirectBlock(fs: Fs, i: nat)
    requires Valid(fs) && IsFile(fs, i) && fs.inodes[i].secs[0] != 0 && Used(fs.inodes[i].size) <= DIRECT
    ensures 0 < fs.inodes[i].secs[fs.inodes[i].size / SECTOR_SIZE] < WORD_LIMIT
    ensures Exactly(fs.disk, fs.inodes[i].secs, Used(fs.inodes[i].size))
  {
    var k := fs.inodes[i].size / SECTOR_SIZE;
    assert Blocks(fs.disk, fs.inodes[i].secs)[k] == fs.inodes[i].secs[k] != 0;
  }

  lemma DirectReady(fs: Fs, gs: Fs, i: nat, count: nat, all: seq<word>, got: seq<nat>)
    requires Valid(fs) && IsFile(fs, i) && fs.inodes[i].secs[0] != 0
    requires |all| == TABLE_WORDS && Bitmap.FreeCount(fs.bits) >= More(fs.inodes[i].size, count)
    requires var has, will := Used(fs.inodes[i].size), Used(fs.inodes[i].size + count);
      && has <= will <= DIRECT && |got| == will - has && Took(fs.data, fs.bits, gs.bits, got)
      && gs == Fs(fs.data, fs.disk, gs.bits,
                  fs.inodes[i := fs.inodes[i].(secs := PutDirect(fs.inodes[i].secs, has, got))])
      && forall k :: has - 1 <= k < will ==> all[k] == gs.inodes[i].secs[k]
    ensures MapReady(fs, gs, i, count, true, all, {})
  {
    hide Took, Valid, Bitmap.FreeCount, Mapped, Extended, IsFile, Blocks, More;
    FileIsThere(fs, i);
    LastDirectBlock(fs, i);
    DirectContinues(fs, gs, i, Used(fs.inodes[i].size), got);
    ExtendedShaped(fs, gs, i, Used(fs.inodes[i].size) + |got|, {});
    DirectPointers(gs.disk, gs.inodes[i].secs);
  }

  lemma ExtendedShaped(fs: Fs, gs: Fs, i: nat, n: nat, lost: set<nat>)
    requires Extended(fs, gs, i, n, lost)
    ensures i in gs.inodes && Shaped(gs.disk, gs.inodes[i].secs)
  {
  }

  /** The direct pointers are the first blocks. */
  lemma DirectPointers(d: Disk, secs: seq<nat>)
    requires Shaped(d, secs)
    ensures forall k :: 0 <= k < DIRECT ==> Blocks(d, secs)[k] == secs[k]
  {
  }

  method MapDirect(p: Partition, i: nat, count: nat) returns (ok: bool, all: seq<word>)
    requires Growable(p, i, count)
    requires Used(p.inodes[i].size) < Used(p.inodes[i].size + count) <= DIRECT
    modifies p`bits, p`inodes
    ensures MapReady(old(p.State()), p.State(), i, count, ok, all, {})
  {
    ghost var fs := p.State();
    var has := p.inodes[i].size / SECTOR_SIZE + 1;
    var will := (p.inodes[i].size + count) / SECTOR_SIZE + 1;
    LastDirectBlock(fs, i);
    ghost var got;
    ok, all, got := GrowDirect(p, i, has, will, seq(TABLE_WORDS, _ => 0));
    if ok {
      DirectReady(fs, p.State(), i, count, all, got);
    } else {
      FailedKeepsBytes(fs, p.State(), i);
    }
  }

  lemma AcrossSizes(fs: Fs, gs: Fs, i: nat, has: nat, will: nat, all: seq<word>, table: nat, got: seq<nat>)
    requires AcrossDone(fs, gs, i, has, will, all, table, got)
    ensures |got| == will - has && |all| == TABLE_WORDS && has <= 12 && will <= 141 && i in gs.inodes
  {
  }

  lemma AcrossReady(fs: Fs, gs: Fs, i: nat, count: nat, all: seq<word>, table: nat, got: seq<nat>)
    requires Valid(fs) && IsFile(fs, i) && fs.inodes[i].secs[0] != 0
    requires Bitmap.FreeCount(fs.bits) >= More(fs.inodes[i].size, count)
    requires fs.inodes[i].size + count <= MAX_FILE_SIZE
    requires AcrossDone(fs, gs, i, Used(fs.inodes[i].size), Used(fs.inodes[i].size + count), all, table, got)
    ensures MapReady(fs, gs, i, count, true, all, Beyond(Used(fs.inodes[i].size), got))
  {
    hide Blocks, Sound, Bitmap.FreeCount, AcrossDone, Extended;
    var has, will := Used(fs.inodes[i].size), Used(fs.inodes[i].size + count);
    AcrossSizes(fs, gs, i, has, will, all, table, got);
    LastDirectBlock(fs, i);
    AcrossContinues(fs, gs, i, has, will, all, table, got);
    BeyondSize(has, will, got);
  }

  lemma ValidSize(fs: Fs, i: nat)
    requires Valid(fs) && IsFile(fs, i)
    ensures fs.End() <= |fs.disk| <= WORD_LIMIT && Shaped(fs.disk, fs.inodes[i].secs)
  {
  }

  method MapAcross(p: Partition, i: nat, count: nat) returns (ok: bool, all: seq<word>, ghost lost: set<nat>)
    requires Growable(p, i, count)
    requires Used(p.inodes[i].size) <= DIRECT < Used(p.inodes[i].size + count)
    modifies p
    ensures MapReady(old(p.State()), p.State(), i, count, ok, all, lost)
  {
    hide Valid, IsFile, AcrossDone, Extended, Unwritten, Bitmap.FreeCount, Exactly, Blocks, Sound, OnlyPointersPast;
    ghost var fs := p.State();
    FileIsThere(fs, i);
    ValidSize(fs, i);
    var has := p.inodes[i].size / SECTOR_SIZE + 1;
    var will := (p.inodes[i].size + count) / SECTOR_SIZE + 1;
    LastDirectBlock(fs, i);
    ghost var got, table;
    ok, all, table, got := GrowAcross(p, i, has, will, seq(TABLE_WORDS, _ => 0));
    if ok {
      lost := Beyond(has, got);
      AcrossReady(fs, p.State(), i, count, all, table, got);
    } else {
      lost := {};
      FailedKeepsBytes(fs, p.State(), i);
    }
  }

  lemma IndirectReady(fs: Fs, gs: Fs, i: nat, count: nat, all: seq<word>, got: seq<nat>)
    requires Valid(fs) && IsFile(fs, i) && fs.inodes[i].secs[0] != 0
    requires Bitmap.FreeCount(fs.bits) >= More(fs.inodes[i].size, count)
    requires fs.inodes[i].size + count <= MAX_FILE_SIZE && Used(fs.inodes[i].size) <= MAX_BLOCKS
    requires DIRECT < Used(fs.inodes[i].size)
    requires IndirectDone(fs, gs, i, Used(fs.inodes[i].size), Used(fs.inodes[i].size + count), all, got)
    ensures MapReady(fs, gs, i, count, true, all, Beyond(Used(fs.inodes[i].size), got))
  {
    hide Blocks, Sound, Bitmap.FreeCount, IndirectDone, Extended;
    var has, will := Used(fs.inodes[i].size), Used(fs.inodes[i].size + count);
    IndirectSizes(fs, gs, i, has, will, all, got);
    IndirectContinues(fs, gs, i, has, will, all, got);
    BeyondSize(has, will, got);
  }

  lemma IndirectSizes(fs: Fs, gs: Fs, i: nat, has: nat, will: nat, all: seq<word>, got: seq<nat>)
    requires IndirectDone(fs, gs, i, has, will, all, got)
    ensures |got| == will - has && |all| == TABLE_WORDS && gs.inodes == fs.inodes
  {
  }

  method MapIndirect(p: Partition, i: nat, count: nat) returns (ok: bool, all: seq<word>, ghost lost: set<nat>)
    requires Growable(p, i, count)
    requires DIRECT < Used(p.inodes[i].size) < Used(p.inodes[i].size + count)
    modifies p`bits, p`disk
    ensures MapReady(old(p.State()), p.State(), i, count, ok, all, lost)
  {
    hide Blocks, IndirectDone, Bitmap.FreeCount, Unwritten, Took;
    ghost var fs := p.State();
    var has := p.inodes[i].size / SECTOR_SIZE + 1;
    var will := (p.inodes[i].size + count) / SECTOR_SIZE + 1;
    UnwrittenSelf(fs, i);
    ghost var got;
    ok, all, got := GrowIndirect(p, i, has, will, seq(TABLE_WORDS, _ => 0));
    if ok {
      lost := Beyond(has, got);
      IndirectReady(fs, p.State(), i, count, all, got);
    } else {
      lost := {};
      BitsOnly(fs, p.State(), i);
    }
  }

  lemma BitsOnly(fs: Fs, gs: Fs, i: nat)
    requires Unwritten(fs, fs, i) && gs == fs.(bits := gs.bits) && |gs.bits| == |fs.bits|
    ensures Unwritten(fs, gs, i)
  {
  }

  lemma BeyondSize(has: nat, will: nat, got: seq<nat>)
    requires has <= MAX_BLOCKS && will <= MAX_BLOCKS + 1 && |got| == will - has
    ensures |Beyond(has, got)| == if will == MAX_BLOCKS + 1 then 1 else 0
  {
    if will == MAX_BLOCKS + 1 {
      assert got[MAX_BLOCKS - has..] == [got[MAX_BLOCKS - has]];
      assert Beyond(has, got) == {got[MAX_BLOCKS - has]};
    } else {
      assert Beyond(has, got) == {};
    }
  }

  /** The four cases that fill all_blocks and extend the block map. */
  method ExtendMap(p: Partition, i: nat, count: nat) returns (ok: bool, all: seq<word>, ghost lost: set<nat>)
    requires Growable(p, i, count)
    modifies p
    ensures MapReady(old(p.State()), p.State(), i, count, ok, all, lost)
  {
    var has := p.inodes[i].size / SECTOR_SIZE + 1;
    var will := (p.inodes[i].size + count) / SECTOR_SIZE + 1;
    lost := {};
    if has == will {
      ok := true;
      all := MapSame(p, i, count);
    } else if will <= DIRECT {
      ok, all := MapDirect(p, i, count);
    } else if has <= DIRECT {
      ok, all, lost := MapAcross(p, i, count);
    } else {
      ok, all, lost := MapIndirect(p, i, count);
    }
  }

  // ---------------------------------------------------------------- phase two: the bytes

  /** The pointers of an inode are in order and map at least the blocks of `size` bytes. */
  ghost predicate Covers(d: Disk, secs: seq<nat>, lo: nat, hi: nat, size: nat) {
    && Sound(d, secs, lo, hi) && size <= MAX_FILE_SIZE
    && forall k :: 0 <= k < MAX_BLOCKS && SECTOR_SIZE * k < size ==> Blocks(d, secs)[k] != 0
  }

  lemma CopyStep(d: Disk, secs: seq<nat>, lo: nat, hi: nat, size: nat, total: nat, chunk: seq<byte>, sector: Sector)
    requires Covers(d, secs, lo, hi, total) && size + |chunk| <= total
    requires 0 < |chunk| && size % SECTOR_SIZE + |chunk| <= SECTOR_SIZE
    requires var bm := Blocks(d, secs);
      && (forall k :: 0 <= k < size % SECTOR_SIZE ==> sector[k] == d[bm[size / SECTOR_SIZE]][k])
      && (forall k :: 0 <= k < |chunk| ==> sector[size % SECTOR_SIZE + k] == chunk[k])
    ensures var bm := Blocks(d, secs);
      var e := d[bm[size / SECTOR_SIZE] := sector];
      && bm[size / SECTOR_SIZE] != 0
      && Covers(e, secs, lo, hi, total) && Blocks(e, secs) == bm
      && Mapped(d, bm, size) && Mapped(e, bm, size + |chunk|)
      && Stored(e, bm, size + |chunk|) == Stored(d, bm, size) + chunk
  {
    var bm := Blocks(d, secs);
    var q := size / SECTOR_SIZE;
    assert bm[q] != 0 && bm[q] != secs[12];
    var e := d[bm[q] := sector];
    assert Blocks(e, secs) == bm;
    AppendChunk(d, bm, size, chunk, sector);
  }

  /** The copy is at `size`: the first `written` bytes of buf follow what the file held. */
  ghost predicate Copying(d0: Disk, d: Disk, secs: seq<nat>, lo: nat, hi: nat, size0: nat, buf: seq<byte>,
      written: nat) {
    && written <= |buf|
    && Covers(d0, secs, lo, hi, size0 + |buf|) && Covers(d, secs, lo, hi, size0 + |buf|)
    && |d| == |d0|
    && var bm := Blocks(d0, secs);
    && Blocks(d, secs) == bm
    && Mapped(d0, bm, size0) && Mapped(d, bm, size0 + written)
    && Stored(d, bm, size0 + written) == Stored(d0, bm, size0) + buf[..written]
    && forall b :: 0 <= b < |d| && b !in Owned(d0, secs) ==> d[b] == d0[b]
  }

  lemma CopyingStep(d0: Disk, d: Disk, secs: seq<nat>, lo: nat, hi: nat, size0: nat, buf: seq<byte>, written: nat,
      n: nat, sector: Sector)
    requires Copying(d0, d, secs, lo, hi, size0, buf, written)
    requires 0 < n && written + n <= |buf| && (size0 + written) % SECTOR_SIZE + n <= SECTOR_SIZE
    requires var off, q := (size0 + written) % SECTOR_SIZE, (size0 + written) / SECTOR_SIZE;
      && Blocks(d, secs)[q] < |d|
      && sector[..off] == d[Blocks(d, secs)[q]][..off]
      && sector[off..off + n] == buf[written..written + n]
    ensures var e := d[Blocks(d, secs)[(size0 + written) / SECTOR_SIZE] := sector];
      Copying(d0, e, secs, lo, hi, size0, buf, written + n)
  {
    hide Stored, Mapped, Blocks, Owned;
    var chunk := buf[written..written + n];
    var off, q := (size0 + written) % SECTOR_SIZE, (size0 + written) / SECTOR_SIZE;
    SectorParts(sector, d[Blocks(d, secs)[q]], off, chunk);
    CopyStep(d, secs, lo, hi, size0 + written, size0 + |buf|, chunk, sector);
    var bm := Blocks(d0, secs);
    SliceJoin(buf, 0, written, written + n);
    SameOwned(d0, d, secs, q);
    Concat3(Stored(d0, bm, size0), buf[..written], chunk);
  }

  lemma SectorParts(sector: Sector, was: Sector, off: nat, chunk: seq<byte>)
    requires off + |chunk| <= SECTOR_SIZE && sector[..off] == was[..off] && sector[off..off + |chunk|] == chunk
    ensures forall k :: 0 <= k < off ==> sector[k] == was[k]
    ensures forall k :: 0 <= k < |chunk| ==> sector[off + k] == chunk[k]
  {
    forall k | 0 <= k < off ensures sector[k] == was[k] {
      assert sector[..off][k] == was[..off][k];
    }
    forall k | 0 <= k < |chunk| ensures sector[off + k] == chunk[k] {
      assert sector[off..off + |chunk|][k] == chunk[k];
    }
  }

  lemma Concat3(a: seq<byte>, b: seq<byte>, c: seq<byte>)
    ensures a + b + c == a + (b + c)
  {
  }

  lemma SliceJoin(s: seq<byte>, a: nat, b: nat, c: nat)
    requires a <= b <= c <= |s|
    ensures s[a..c] == s[a..b] + s[b..c]
  {
  }

  lemma SameOwned(d0: Disk, d: Disk, secs: seq<nat>, q: nat)
    requires Shaped(d0, secs) && Shaped(d, secs) && Blocks(d, secs) == Blocks(d0, secs) && q < MAX_BLOCKS
      && Blocks(d, secs)[q] != 0
    ensures Blocks(d, secs)[q] in Owned(d0, secs)
  {
  }

  /** all_blocks has the blocks the bytes size .. size + n - 1 go to. */
  ghost predicate Lists(all: seq<word>, d: Disk, secs: seq<nat>, size: nat, n: nat)
    requires Shaped(d, secs)
  {
    && |all| == TABLE_WORDS
    && forall k :: size / SECTOR_SIZE <= k < MAX_BLOCKS && SECTOR_SIZE * k < size + n ==> all[k] == Blocks(d, secs)[k]
  }

  /** Bytes of one turn: up to the end of the sector, or what is left. */
  function ChunkAt(size: nat, left: nat): (n: nat)
    requires left > 0
    ensures 0 < n <= left && size % SECTOR_SIZE + n <= SECTOR_SIZE
    ensures n == left || (size + n) % SECTOR_SIZE == 0
  {
    Min(left, SECTOR_SIZE - size % SECTOR_SIZE)
  }

  /** The sector buffer of one turn. */
  function Merge(base: Sector, off: nat, piece: seq<byte>): (r: Sector)
    requires off + |piece| <= SECTOR_SIZE
    ensures r[..off] == base[..off] && r[off..off + |piece|] == piece
  {
    Overwrite(base, off, piece)
  }

  lemma NextBlock(d0: Disk, d: Disk, secs: seq<nat>, lo: nat, hi: nat, size0: nat, buf: seq<byte>, written: nat,
      all: seq<word>)
    requires Copying(d0, d, secs, lo, hi, size0, buf, written) && written < |buf|
    requires Lists(all, d0, secs, size0, |buf|)
    ensures Shaped(d, secs)
    ensures var q := (size0 + written) / SECTOR_SIZE;
      q < MAX_BLOCKS && q < |all| && all[q] == Blocks(d, secs)[q] && all[q] < |d|
  {
    var q := (size0 + written) / SECTOR_SIZE;
    assert SECTOR_SIZE * q < size0 + |buf|;
    assert Blocks(d, secs)[q] != 0;
  }

  /** One turn of the copy loop. */
  method CopyChunk(p: Partition, i: nat, all: seq<word>, buf: seq<byte>, bytesWritten: nat, firstWriteBlock: bool,
                   ghost d0: Disk, ghost size0: nat)
    returns (chunk: nat)
    requires i in p.inodes && p.inodes[i].size == size0 + bytesWritten && bytesWritten < |buf|
    requires Copying(d0, p.disk, p.inodes[i].secs, p.data, p.data + |p.bits|, size0, buf, bytesWritten)
    requires Lists(all, d0, p.inodes[i].secs, size0, |buf|)
    requires firstWriteBlock || (size0 + bytesWritten) % SECTOR_SIZE == 0
    modifies p`disk, p`inodes
    ensures 0 < chunk && bytesWritten + chunk <= |buf|
    ensures bytesWritten + chunk == |buf| || (size0 + bytesWritten + chunk) % SECTOR_SIZE == 0
    ensures p.inodes == old(p.inodes)[i := old(p.inodes)[i].(size := size0 + bytesWritten + chunk)]
    ensures Copying(d0, p.disk, p.inodes[i].secs, p.data, p.data + |p.bits|, size0, buf, bytesWritten + chunk)
  {
    hide Copying, Lists, Blocks, Merge, Overwrite, Zeros;
    var ino := p.inodes[i];
    NextBlock(d0, p.disk, ino.secs, p.data, p.data + |p.bits|, size0, buf, bytesWritten, all);
    var secIdx := ino.size / SECTOR_SIZE;
    var secOff := ino.size % SECTOR_SIZE;
    chunk := ChunkAt(ino.size, |buf| - bytesWritten);
    var secLba := all[secIdx];
    var ioBuf: Sector := if firstWriteBlock then p.disk[secLba] else Zeros(SECTOR_SIZE);
    assert ioBuf[..secOff] == p.disk[secLba][..secOff];
    ioBuf := Merge(ioBuf, secOff, buf[bytesWritten..bytesWritten + chunk]);
    CopyingStep(d0, p.disk, ino.secs, p.data, p.data + |p.bits|, size0, buf, bytesWritten, chunk, ioBuf);
    p.disk := p.disk[secLba := ioBuf];
    p.inodes := p.inodes[i := ino.(size := ino.size + chunk)];
  }

  /** The copy loop of file_write.  Only its first turn reads the sector it extends; later turns
      start from a cleared buffer. */
  method CopyOut(p: Partition, i: nat, all: seq<word>, buf: seq<byte>)
    requires i in p.inodes
    requires Covers(p.disk, p.inodes[i].secs, p.data, p.data + |p.bits|, p.inodes[i].size + |buf|)
    requires Lists(all, p.disk, p.inodes[i].secs, p.inodes[i].size, |buf|)
    modifies p`disk, p`inodes
    ensures p.inodes == old(p.inodes)[i := old(p.inodes)[i].(size := old(p.inodes)[i].size + |buf|)]
    ensures Copying(old(p.disk), p.disk, p.inodes[i].secs, p.data, p.data + |p.bits|, old(p.inodes)[i].size, buf, |buf|)
  {
    hide Copying, Lists, Covers;
    ghost var d0, secs, size0 := p.disk, p.inodes[i].secs, p.inodes[i].size;
    var bytesWritten := 0;
    var firstWriteBlock := true;
    CopyingStart(d0, secs, p.data, p.data + |p.bits|, size0, buf);
    while bytesWritten < |buf|
      invariant 0 <= bytesWritten <= |buf|
      invariant p.inodes == old(p.inodes)[i := old(p.inodes)[i].(size := size0 + bytesWritten)]
      invariant Copying(d0, p.disk, secs, p.data, p.data + |p.bits|, size0, buf, bytesWritten)
      invariant !firstWriteBlock && bytesWritten < |buf| ==> (size0 + bytesWritten) % SECTOR_SIZE == 0
    {
      var chunk := CopyChunk(p, i, all, buf, bytesWritten, firstWriteBlock, d0, size0);
      firstWriteBlock := false;
      bytesWritten := bytesWritten + chunk;
    }
  }

  lemma CopyingStart(d: Disk, secs: seq<nat>, lo: nat, hi: nat, size0: nat, buf: seq<byte>)
    requires Covers(d, secs, lo, hi, size0 + |buf|)
    ensures Copying(d, d, secs, lo, hi, size0, buf, 0)
  {
    var bm := Blocks(d, secs);
    assert Mapped(d, bm, size0);
    assert Stored(d, bm, size0) + buf[..0] == Stored(d, bm, size0);
  }

  // ---------------------------------------------------------------- file_write

  /** Blocks that kept their place and bytes keep the content. */
  lemma SameBlocksSameBytes(fs: Fs, gs: Fs, i: nat)
    requires IsFile(fs, i) && SameBlocks(fs, gs, i) && gs.inodes[i].size == fs.inodes[i].size
    ensures Mapped(gs.disk, Blocks(gs.disk, gs.inodes[i].secs), gs.inodes[i].size)
    ensures Content(gs.disk, gs.inodes[i]) == FileBytes(fs, i)
  {
    FileIsMapped(fs.disk, fs.inodes[i], fs.data, fs.End());
    var bm, cm := Blocks(fs.disk, fs.inodes[i].secs), Blocks(gs.disk, gs.inodes[i].secs);
    forall k | 0 <= k < MAX_BLOCKS && SECTOR_SIZE * k < fs.inodes[i].size
      ensures bm[k] != 0 && cm[k] == bm[k] && cm[k] < |gs.disk| && gs.disk[cm[k]] == fs.disk[bm[k]]
    {
      assert k < BlockCount(fs.inodes[i].size);
    }
    assert Mapped(gs.disk, cm, gs.inodes[i].size);
    forall p | 0 <= p < fs.inodes[i].size
      ensures Content(gs.disk, gs.inodes[i])[p] == Content(fs.disk, fs.inodes[i])[p]
    {
      assert SECTOR_SIZE * (p / SECTOR_SIZE) < fs.inodes[i].size;
    }
  }

  lemma UnwrittenSelf(fs: Fs, i: nat)
    requires IsFile(fs, i)
    ensures Unwritten(fs, fs, i)
  {
    FileIsMapped(fs.disk, fs.inodes[i], fs.data, fs.End());
    assert fs.inodes == fs.inodes[i := fs.inodes[i]];
  }

  lemma UnwrittenAfterFirst(fs: Fs, ms: Fs, gs: Fs, i: nat, n: nat)
    requires IsFile(fs, i) && Extended(fs, ms, i, n, {}) && ms.disk == fs.disk && Unwritten(ms, gs, i)
    ensures Unwritten(fs, gs, i)
  {
    hide Blocks, Stored, SameBlocks, Exactly;
    SameBlocksSameBytes(fs, ms, i);
    FileIsMapped(fs.disk, fs.inodes[i], fs.data, fs.End());
    assert gs.inodes == fs.inodes[i := gs.inodes[i]];
  }

  /** The copy changes only sectors of the inode. */
  lemma CopyGrew(ms: Fs, gs: Fs, i: nat, buf: seq<byte>)
    requires Valid(ms) && i in ms.inodes
    requires gs == Fs(ms.data, gs.disk, ms.bits, ms.inodes[i := ms.inodes[i].(size := ms.inodes[i].size + |buf|)])
    requires Copying(ms.disk, gs.disk, ms.inodes[i].secs, ms.data, ms.End(), ms.inodes[i].size, buf, |buf|)
    ensures Grew(ms, gs, i, {})
    ensures Blocks(gs.disk, gs.inodes[i].secs) == Blocks(ms.disk, ms.inodes[i].secs)
  {
    hide Stored, Blocks;
    assert OwnedBy(gs, i) == OwnedBy(ms, i);
    assert forall b :: b in OwnedBy(ms, i) ==> Marked(ms, b);
  }

  lemma WriteDone(fs: Fs, ms: Fs, gs: Fs, i: nat, buf: seq<byte>, lost: set<nat>)
    requires Valid(fs) && IsFile(fs, i) && Valid(ms) && Extended(fs, ms, i, BlockCount(fs.inodes[i].size + |buf|), lost)
    requires gs == Fs(ms.data, gs.disk, ms.bits, ms.inodes[i := ms.inodes[i].(size := ms.inodes[i].size + |buf|)])
    requires Copying(ms.disk, gs.disk, ms.inodes[i].secs, ms.data, ms.End(), ms.inodes[i].size, buf, |buf|)
    ensures Grew(fs, gs, i, lost)
    ensures IsFile(gs, i) && FileBytes(gs, i) == FileBytes(fs, i) + buf
  {
    CopyGrew(ms, gs, i, buf);
    GrewTwice(fs, ms, gs, i, lost, {});
    assert lost + {} == lost;
    WrittenBytes(fs, ms, gs, i, buf, lost);
  }

  lemma WrittenBytes(fs: Fs, ms: Fs, gs: Fs, i: nat, buf: seq<byte>, lost: set<nat>)
    requires IsFile(fs, i) && i in ms.inodes && Extended(fs, ms, i, BlockCount(fs.inodes[i].size + |buf|), lost)
    requires gs == Fs(ms.data, gs.disk, ms.bits, ms.inodes[i := ms.inodes[i].(size := ms.inodes[i].size + |buf|)])
    requires Copying(ms.disk, gs.disk, ms.inodes[i].secs, ms.data, ms.End(), ms.inodes[i].size, buf, |buf|)
    ensures IsFile(gs, i) && FileBytes(gs, i) == FileBytes(fs, i) + buf
  {
    hide Stored, Grew, SameBlocks, Blocks;
    SameBlocksSameBytes(fs, ms, i);
    CopiedShape(ms, gs, i, buf);
    FileIsMapped(gs.disk, gs.inodes[i], gs.data, gs.End());
    assert buf[..|buf|] == buf;
  }

  lemma CopiedShape(ms: Fs, gs: Fs, i: nat, buf: seq<byte>)
    requires i in ms.inodes && Shaped(ms.disk, ms.inodes[i].secs)
    requires Exactly(ms.disk, ms.inodes[i].secs, BlockCount(ms.inodes[i].size + |buf|))
    requires gs == Fs(ms.data, gs.disk, ms.bits, ms.inodes[i := ms.inodes[i].(size := ms.inodes[i].size + |buf|)])
    requires Copying(ms.disk, gs.disk, ms.inodes[i].secs, ms.data, ms.End(), ms.inodes[i].size, buf, |buf|)
    ensures IsFile(gs, i)
  {
    hide Stored, Words;
    var secs := gs.inodes[i].secs;
    assert Blocks(gs.disk, secs)[0] == secs[0] != 0;
  }

  /** Sectors a write of `count` bytes takes. */
  function Need(ino: Inode, count: nat): nat
    requires |ino.secs| == 13
  {
    More(ino.size, count) + if ino.secs[0] == 0 then 1 else 0
  }

  /** The sectors that a file of n blocks has, with the table that leads to those behind the twelfth. */
  function SectorsOf(n: nat): nat { if n > DIRECT then n + 1 else n }

  /** A write takes what the file has afterwards and did not have before, and one sector more if it ends at
      the last byte that a file can have. */
  lemma NeedExact(fs: Fs, i: nat, count: nat)
    requires IsFile(fs, i) && fs.inodes[i].size + count <= MAX_FILE_SIZE
    ensures var ino := fs.inodes[i];
      Need(ino, count) + (if ino.secs[0] == 0 then 0 else SectorsOf(BlockCount(ino.size)))
        == SectorsOf(BlockCount(ino.size + count)) + if count > 0 && ino.size + count == MAX_FILE_SIZE then 1 else 0
  {
    hide Sound, Exactly;
  }

  lemma ExtendedCovers(fs: Fs, gs: Fs, i: nat, count: nat, all: seq<word>, lost: set<nat>)
    requires MapReady(fs, gs, i, count, true, all, lost) && fs.inodes[i].size + count <= MAX_FILE_SIZE
    ensures Covers(gs.disk, gs.inodes[i].secs, gs.data, gs.End(), fs.inodes[i].size + count)
    ensures Lists(all, gs.disk, gs.inodes[i].secs, fs.inodes[i].size, count)
  {
    var size := fs.inodes[i].size;
    forall k | 0 <= k < MAX_BLOCKS && SECTOR_SIZE * k < size + count
      ensures k < BlockCount(size + count)
    {
    }
  }

  /** What phase one comes to, first block included. */
  ghost predicate MapDone(fs: Fs, gs: Fs, i: nat, count: nat, ok: bool, all: seq<word>, lost: set<nat>) {
    && i in fs.inodes && i in gs.inodes && |fs.inodes[i].secs| == 13
    && var size := fs.inodes[i].size;
    && (ok <==> Bitmap.FreeCount(fs.bits) >= Need(fs.inodes[i], count))
    && (!ok ==> Unwritten(fs, gs, i))
    && (ok ==>
          && Extended(fs, gs, i, BlockCount(size + count), lost)
          && |lost| == (if count > 0 && size + count == MAX_FILE_SIZE then 1 else 0)
          && Covers(gs.disk, gs.inodes[i].secs, gs.data, gs.End(), size + count)
          && Lists(all, gs.disk, gs.inodes[i].secs, size, count))
  }

  lemma FirstThenMap(fs: Fs, bs: Fs, gs: Fs, i: nat, count: nat, ok: bool, all: seq<word>, lost: set<nat>)
    requires IsFile(fs, i) && fs.inodes[i].size + count <= MAX_FILE_SIZE
    requires Extended(fs, bs, i, BlockCount(fs.inodes[i].size), {}) && bs.disk == fs.disk
    requires Bitmap.FreeCount(bs.bits) == Bitmap.FreeCount(fs.bits) - if fs.inodes[i].secs[0] == 0 then 1 else 0
    requires MapReady(bs, gs, i, count, ok, all, lost)
    ensures MapDone(fs, gs, i, count, ok, all, lost)
  {
    hide Unwritten, Extended, Covers, Lists, IsFile, Bitmap.FreeCount;
    FileIsThere(fs, i);
    ExtendedKeepsSize(fs, bs, i, BlockCount(fs.inodes[i].size), {});
    var size := fs.inodes[i].size;
    if ok {
      ExtendedTwice(fs, bs, gs, i, BlockCount(size), BlockCount(size + count), lost);
      ExtendedKeepsSize(fs, gs, i, BlockCount(size + count), lost);
      ExtendedCovers(bs, gs, i, count, all, lost);
    } else {
      UnwrittenAfterFirst(fs, bs, gs, i, BlockCount(size));
      StillThere(fs, gs, i);
    }
  }

  lemma FileIsThere(fs: Fs, i: nat)
    requires IsFile(fs, i)
    ensures i in fs.inodes && |fs.inodes[i].secs| == 13
    ensures fs.inodes[i].size <= MAX_FILE_SIZE
  {
  }

  lemma ExtendedKeepsSize(fs: Fs, gs: Fs, i: nat, n: nat, lost: set<nat>)
    requires Extended(fs, gs, i, n, lost)
    ensures i in fs.inodes && i in gs.inodes && gs.inodes[i].size == fs.inodes[i].size
  {
  }

  lemma StillThere(fs: Fs, gs: Fs, i: nat)
    requires Unwritten(fs, gs, i)
    ensures i in gs.inodes
  {
  }

  lemma FirstIsGrowable(fs: Fs, bs: Fs, i: nat)
    requires Valid(fs) && IsFile(fs, i) && Extended(fs, bs, i, BlockCount(fs.inodes[i].size), {})
    ensures Valid(bs) && IsFile(bs, i) && bs.inodes[i].secs[0] != 0 && bs.inodes[i].size == fs.inodes[i].size
  {
    GrewKeepsValid(fs, bs, i, {});
    ExtendedIsFile(fs, bs, i, BlockCount(fs.inodes[i].size), {});
  }

  /** All of phase one. */
  method MapBlocks(p: Partition, i: nat, count: nat) returns (ok: bool, all: seq<word>, ghost lost: set<nat>)
    requires Valid(p.State()) && IsFile(p.State(), i) && p.inodes[i].size + count <= MAX_FILE_SIZE
    modifies p
    ensures MapDone(old(p.State()), p.State(), i, count, ok, all, lost)
  {
    hide Extended, MapReady, Unwritten, Bitmap.FreeCount, Valid;
    ghost var fs := p.State();
    all, lost := [], {};
    UnwrittenSelf(fs, i);
    ok := FirstBlock(p, i);
    if !ok {
      return;
    }
    ghost var bs := p.State();
    FirstIsGrowable(fs, bs, i);
    ok, all, lost := ExtendMap(p, i, count);
    FirstThenMap(fs, bs, p.State(), i, count, ok, all, lost);
  }

  /** Success of file_write: the buffer is appended, every other file is as it was, and `lost`
      sectors are marked without being part of any inode. */
  ghost predicate Appended(fs: Fs, gs: Fs, i: nat, buf: seq<byte>, lost: set<nat>) {
    && Valid(gs)
    && IsFile(fs, i) && IsFile(gs, i) && FileBytes(gs, i) == FileBytes(fs, i) + buf
    && Grew(fs, gs, i, lost) && gs.inodes[i].size == fs.inodes[i].size + |buf|
    && (forall j :: j != i && IsFile(fs, j) ==> IsFile(gs, j) && FileBytes(gs, j) == FileBytes(fs, j))
    && Leaked(gs) == Leaked(fs) + lost && lost !! Leaked(fs)
    && |lost| == if buf != [] && fs.inodes[i].size + |buf| == MAX_FILE_SIZE then 1 else 0
  }

  lemma WriteAppends(fs: Fs, ms: Fs, gs: Fs, i: nat, all: seq<word>, buf: seq<byte>, lost: set<nat>)
    requires Valid(fs) && IsFile(fs, i) && MapDone(fs, ms, i, |buf|, true, all, lost)
    requires gs == Fs(ms.data, gs.disk, ms.bits, ms.inodes[i := ms.inodes[i].(size := ms.inodes[i].size + |buf|)])
    requires Copying(ms.disk, gs.disk, ms.inodes[i].secs, ms.data, ms.End(), ms.inodes[i].size, buf, |buf|)
    ensures Appended(fs, gs, i, buf, lost)
  {
    hide Copying, SameBlocks, Exactly, Covers, Lists, Sound, IsFile, FileBytes, Valid;
    GrewKeepsValid(fs, ms, i, lost);
    WriteDone(fs, ms, gs, i, buf, lost);
    GrewKeepsValid(fs, gs, i, lost);
    LostIsNew(fs, gs, i, lost);
  }

  // ---------------------------------------------------------------- file_write

  /** How a read or write ends: -1, with a number of bytes, or behind the end of all_blocks. */
  datatype Transfer = Failed | Moved(n: nat) | Overruns

  /** The guard of file_write, in uint32_t arithmetic. */
  predicate TooLong(size: nat, count: word) { (size + count) % WORD_LIMIT > MAX_FILE_SIZE }

  /** The guard means what it should if and only if the sum does not wrap around. */
  lemma TooLongExact(size: nat, count: word)
    requires size <= MAX_FILE_SIZE
    ensures (TooLong(size, count) <==> size + count > MAX_FILE_SIZE) <==> size + count < WORD_LIMIT
    ensures size + count >= WORD_LIMIT ==> !TooLong(size, count)
  {
    if size + count >= WORD_LIMIT {
      assert (size + count) % WORD_LIMIT == size + count - WORD_LIMIT;
    }
  }

  /** 2^32 - 1 bytes for a file that holds one: let through. */
  lemma TooLongExample()
    ensures !TooLong(1, 0xffff_ffff) && 1 + 0xffff_ffff > MAX_FILE_SIZE
  {
  }

  /** file_write.  It runs on behind the table of blocks exactly when i_size + count does not fit a
      uint32_t.  Otherwise it answers -1, with the bytes of the file as they were, exactly when the file
      would grow past 71680 bytes or the partition has too few free sectors; otherwise it
      appends the buffer.  No other file changes.  A sector is marked without being part of any
      inode exactly when the file reaches 71680 bytes.  fd_pos is set to i_size - 1 (mod 2^32)
      and advances with the copy: it ends on the last byte written, not behind it. */
  method FileWrite(p: Partition, i: nat, buf: seq<byte>, pos: word)
    returns (r: Transfer, newPos: word, ghost lost: set<nat>)
    requires Valid(p.State()) && IsFile(p.State(), i) && |buf| < WORD_LIMIT
    modifies p
    ensures var ino := old(p.inodes)[i];
      r == if ino.size + |buf| >= WORD_LIMIT then Overruns
           else if ino.size + |buf| > MAX_FILE_SIZE || Bitmap.FreeCount(old(p.bits)) < Need(ino, |buf|) then Failed
           else Moved(|buf|)
    ensures r == Failed ==> Unwritten(old(p.State()), p.State(), i) && newPos == pos
    ensures r == Failed && old(p.inodes)[i].size + |buf| > MAX_FILE_SIZE ==> p.State() == old(p.State())
    ensures r.Moved? ==> Appended(old(p.State()), p.State(), i, buf, lost)
    ensures r.Moved? && buf != [] ==> newPos == old(p.inodes)[i].size + |buf| - 1
  {
    hide Valid, IsFile, Unwritten, Bitmap.FreeCount, Extended, Appended, Covers, Lists, Copying;
    ghost var fs := p.State();
    FileIsThere(fs, i);
    lost := {};
    UnwrittenSelf(fs, i);
    TooLongExact(p.inodes[i].size, |buf|);
    if TooLong(p.inodes[i].size, |buf|) {
      return Failed, pos, {};
    }
    if p.inodes[i].size + |buf| >= WORD_LIMIT {
      return Overruns, pos, {};   // the code has no such test: it goes on
    }
    var ok, all;
    ok, all, lost := MapBlocks(p, i, |buf|);
    if !ok {
      return Failed, pos, {};
    }
    ghost var ms := p.State();
    SizeKept(fs, ms, i, |buf|, all, lost);
    newPos := (p.inodes[i].size + WORD_LIMIT - 1 + |buf|) % WORD_LIMIT;
    CopyOut(p, i, all, buf);
    WriteAppends(fs, ms, p.State(), i, all, buf, lost);
    r := Moved(|buf|);
  }

  lemma SizeKept(fs: Fs, ms: Fs, i: nat, count: nat, all: seq<word>, lost: set<nat>)
    requires MapDone(fs, ms, i, count, true, all, lost)
    ensures ms.inodes[i].size == fs.inodes[i].size
  {
  }

  lemma LostIsNew(fs: Fs, gs: Fs, i: nat, lost: set<nat>)
    requires Grew(fs, gs, i, lost)
    ensures lost !! Leaked(fs)
  {
    forall b | b in lost ensures b !in Leaked(fs) {
      assert !Marked(fs, b);
    }
  }

  // ---------------------------------------------------------------- file_read

  /** all_blocks as file_read fills it for blocks first .. last: direct pointers from `first` on,
      and the whole indirect table when `last` is past the direct ones. */
  method LoadBlocks(p: Partition, secs: seq<nat>, first: nat, last: nat) returns (all: seq<word>)
    requires Sound(p.disk, secs, p.data, p.data + |p.bits|) && |p.disk| <= WORD_LIMIT
    requires first <= last
    ensures |all| == TABLE_WORDS
    ensures forall k :: first <= k <= last && k < DIRECT ==> all[k] == secs[k]
    ensures last >= DIRECT ==> forall k :: DIRECT <= k < MAX_BLOCKS ==> all[k] == Words(p.disk[secs[12]])[k - DIRECT]
  {
    all := seq(TABLE_WORDS, _ => 0);
    DirectAreWords(p.disk, secs, p.data, p.data + |p.bits|);
    if first == last {
      if last < DIRECT {
        all := all[last := secs[last]];
      } else {
        all := all[..12] + Words(p.disk[secs[12]]) + all[140..];
      }
    } else if last < DIRECT {
      var blockIdx := first;
      while blockIdx <= last
        invariant first <= blockIdx <= last + 1 && |all| == TABLE_WORDS
        invariant forall k :: first <= k < blockIdx ==> all[k] == secs[k]
      {
        all := all[blockIdx := secs[blockIdx]];
        blockIdx := blockIdx + 1;
      }
    } else {
      var blockIdx := first;
      while blockIdx < DIRECT
        invariant first <= blockIdx && (blockIdx <= DIRECT || blockIdx == first) && |all| == TABLE_WORDS
        invariant forall k :: first <= k < blockIdx && k < DIRECT ==> all[k] == secs[k]
      {
        all := all[blockIdx := secs[blockIdx]];
        blockIdx := blockIdx + 1;
      }
      all := all[..12] + Words(p.disk[secs[12]]) + all[140..];
    }
  }

  lemma DirectAreWords(d: Disk, secs: seq<nat>, lo: nat, hi: nat)
    requires Sound(d, secs, lo, hi) && |d| <= WORD_LIMIT
    ensures forall k :: 0 <= k < DIRECT ==> secs[k] < WORD_LIMIT
  {
    forall k | 0 <= k < DIRECT ensures secs[k] < WORD_LIMIT {
      assert Blocks(d, secs)[k] == secs[k];
    }
  }

  /** The blocks loaded for a read that stays inside the file are those of its block map. */
  lemma LoadedBlocks(fs: Fs, i: nat, first: nat, last: nat, all: seq<word>, k: nat)
    requires IsFile(fs, i) && |all| == TABLE_WORDS && first <= k <= last && SECTOR_SIZE * k < fs.inodes[i].size
    requires SECTOR_SIZE * last <= fs.inodes[i].size
    requires forall k :: first <= k <= last && k < DIRECT ==> all[k] == fs.inodes[i].secs[k]
    requires last >= DIRECT ==>
      forall k :: DIRECT <= k < MAX_BLOCKS ==> all[k] == Words(fs.disk[fs.inodes[i].secs[12]])[k - DIRECT]
    ensures k < MAX_BLOCKS && 0 < all[k] < |fs.disk| && all[k] == Blocks(fs.disk, fs.inodes[i].secs)[k]
  {
    var bm := Blocks(fs.disk, fs.inodes[i].secs);
    assert k < BlockCount(fs.inodes[i].size) && bm[k] != 0;
    if k >= DIRECT {
      assert fs.inodes[i].secs[12] != 0;
      assert bm[k] == Words(fs.disk[fs.inodes[i].secs[12]])[k - DIRECT];
    }
  }

  lemma FileSlice(fs: Fs, i: nat, pos: nat, n: nat)
    requires IsFile(fs, i) && pos + n <= fs.inodes[i].size && pos % SECTOR_SIZE + n <= SECTOR_SIZE && n > 0
    ensures var b := Blocks(fs.disk, fs.inodes[i].secs)[pos / SECTOR_SIZE];
      b < |fs.disk| && FileBytes(fs, i)[pos..pos + n] == fs.disk[b][pos % SECTOR_SIZE..pos % SECTOR_SIZE + n]
  {
    hide Blocks, FileShape;
    FileIsMapped(fs.disk, fs.inodes[i], fs.data, fs.End());
    var q, off := pos / SECTOR_SIZE, pos % SECTOR_SIZE;
    var b := Blocks(fs.disk, fs.inodes[i].secs)[q];
    assert SECTOR_SIZE * q < fs.inodes[i].size;
    var got, want := FileBytes(fs, i)[pos..pos + n], fs.disk[b][off..off + n];
    forall k | 0 <= k < n ensures got[k] == want[k] {
      assert (pos + k) / SECTOR_SIZE == q && (pos + k) % SECTOR_SIZE == off + k;
    }
  }

  ghost predicate Loaded(fs: Fs, i: nat, first: nat, last: nat, all: seq<word>)
    requires IsFile(fs, i)
  {
    && |all| == TABLE_WORDS
    && (forall k :: first <= k <= last && k < DIRECT ==> all[k] == fs.inodes[i].secs[k])
    && (last >= DIRECT ==>
          forall k :: DIRECT <= k < MAX_BLOCKS ==> all[k] == Words(fs.disk[fs.inodes[i].secs[12]])[k - DIRECT])
  }

  /** One turn of the read loop. */
  method ReadChunk(p: Partition, i: nat, all: seq<word>, pos: nat, left: nat, ghost first: nat, ghost last: nat)
    returns (piece: seq<byte>)
    requires IsFile(p.State(), i) && Loaded(p.State(), i, first, last, all)
    requires left > 0 && pos + left <= p.inodes[i].size
    requires first <= pos / SECTOR_SIZE && (pos + left) / SECTOR_SIZE == last
    ensures 0 < |piece| <= left && piece == FileBytes(p.State(), i)[pos..pos + |piece|]
  {
    hide FileBytes, Blocks;
    LoadedBlocks(p.State(), i, first, last, all, pos / SECTOR_SIZE);
    var chunk := ChunkAt(pos, left);
    FileSlice(p.State(), i, pos, chunk);
    var ioBuf := p.disk[all[pos / SECTOR_SIZE]];
    piece := ioBuf[pos % SECTOR_SIZE..pos % SECTOR_SIZE + chunk];
  }

  /** How many bytes file_read sets out to read, in uint32_t arithmetic; -1 at the end of the file. */
  function ReadSize(size: nat, pos: word, count: word): int {
    if (pos + count) % WORD_LIMIT > size then
      if (size - pos) % WORD_LIMIT == 0 then -1 else (size - pos) % WORD_LIMIT
    else count
  }

  /** The bytes asked for, or as many as there are, or -1 at the end: if and only if the position is
      inside the file and fd_pos + count does not wrap around. */
  lemma ReadSizeExact(size: nat, pos: word, count: word)
    requires size <= MAX_FILE_SIZE
    ensures (ReadSize(size, pos, count) <= if pos <= size then size - pos else 0) <==>
              pos <= size && pos + count < WORD_LIMIT
    ensures pos <= size && pos + count < WORD_LIMIT ==>
              ReadSize(size, pos, count) == if pos == size && count > 0 then -1 else Min(count, size - pos)
  {
    if pos + count >= WORD_LIMIT {
      assert (pos + count) % WORD_LIMIT == pos + count - WORD_LIMIT;
    }
    if pos > size {
      assert (size - pos) % WORD_LIMIT == size - pos + WORD_LIMIT;
    }
  }

  /** 2^32 - 1 bytes from position 1 of a file of one byte: the guard lets it read all of them. */
  lemma ReadSizeExample()
    ensures ReadSize(1, 1, 0xffff_ffff) == 0xffff_ffff
  {
  }

  /** file_read.  It runs on behind the table of blocks exactly when the position is outside the file
      or fd_pos + count does not fit a uint32_t.  Otherwise it answers -1 exactly at the end of the
      file, and else the bytes from there, as many as were asked for or as there are. */
  method FileRead(p: Partition, i: nat, pos: word, count: word) returns (r: Transfer, data: seq<byte>, newPos: nat)
    requires IsFile(p.State(), i) && |p.disk| <= WORD_LIMIT
    ensures r == Overruns <==> pos > p.inodes[i].size || pos + count >= WORD_LIMIT
    ensures r == Failed <==> pos == p.inodes[i].size && 0 < count < WORD_LIMIT - pos
    ensures r == Failed ==> data == [] && newPos == pos
    ensures r.Moved? ==> r.n == Min(count, p.inodes[i].size - pos)
    ensures r.Moved? ==> data == FileBytes(p.State(), i)[pos..pos + r.n] && newPos == pos + r.n
  {
    hide FileBytes, Blocks, Exactly;
    var ino := p.inodes[i];
    data, newPos := [], pos;
    ReadSizeExact(ino.size, pos, count);
    var size := ReadSize(ino.size, pos, count);
    if size == -1 {
      return Failed, data, newPos;
    }
    if pos > ino.size || pos + count >= WORD_LIMIT {
      return Overruns, data, newPos;   // the code has no such test: it goes on
    }
    data, newPos := ReadBytes(p, i, pos, size);
    r := Moved(size);
  }

  /** The loop of file_read. */
  method ReadBytes(p: Partition, i: nat, pos: nat, size: nat) returns (data: seq<byte>, newPos: nat)
    requires IsFile(p.State(), i) && |p.disk| <= WORD_LIMIT && pos + size <= p.inodes[i].size
    ensures data == FileBytes(p.State(), i)[pos..pos + size] && newPos == pos + size
  {
    hide FileBytes, Blocks;
    data, newPos := [], pos;
    ghost var first, last := pos / SECTOR_SIZE, (pos + size) / SECTOR_SIZE;
    var all := LoadBlocks(p, p.inodes[i].secs, pos / SECTOR_SIZE, (pos + size) / SECTOR_SIZE);
    var bytesRead := 0;
    ghost var bytes := FileBytes(p.State(), i);
    while bytesRead < size
      invariant 0 <= bytesRead <= size && newPos == pos + bytesRead
      invariant data == bytes[pos..newPos]
    {
      assert newPos + (size - bytesRead) == pos + size;
      var piece := ReadChunk(p, i, all, newPos, size - bytesRead, first, last);
      SliceJoin(bytes, pos, newPos, newPos + |piece|);
      data := data + piece;
      newPos := newPos + |piece|;
      bytesRead := bytesRead + |piece|;
    }
  }
}
