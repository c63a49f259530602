/** What the block pointers of an inode mean on a disk: i_sectors holds twelve direct sector
    numbers and the number of a sector with 128 more.  This module gives the block map, the
    set of sectors an inode owns and the byte sequence a file holds, and how these react to
    changes of the disk. */
module BlockMap {
  import opened Bytes

  const DIRECT := 12
  const MAX_BLOCKS := 140
  const MAX_FILE_SIZE := 71680

  type Disk = seq<Sector>

  /** i_size and i_sectors of struct inode. */
  datatype Inode = Inode(size: nat, secs: seq<nat>)

  /** Thirteen pointers, and the last one, when set, names a sector of the disk. */
  predicate Shaped(disk: Disk, secs: seq<nat>) {
    |secs| == 13 && secs[12] < |disk|
  }

  /** The table all_blocks when it is filled completely: direct pointers, then the words of the
      indirect table, or zeros without one. */
  function Blocks(disk: Disk, secs: seq<nat>): (bm: seq<nat>)
    requires Shaped(disk, secs)
    ensures |bm| == MAX_BLOCKS
  {
    secs[..DIRECT] + if secs[12] == 0 then seq(128, _ => 0) else Words(disk[secs[12]])
  }

  /** The sectors an inode takes: every block it maps, and its indirect table. */
  ghost function Owned(disk: Disk, secs: seq<nat>): set<nat>
    requires Shaped(disk, secs)
  {
    (set b | b in Blocks(disk, secs) && b != 0) + (if secs[12] != 0 then {secs[12]} else {})
  }

  /** Every owned sector lies in the data area lo .. hi - 1, and none is named twice. */
  ghost predicate Sound(disk: Disk, secs: seq<nat>, lo: nat, hi: nat) {
    && 0 < lo <= hi <= |disk|
    && Shaped(disk, secs)
    && (secs[12] != 0 ==> lo <= secs[12] < hi)
    && var bm := Blocks(disk, secs);
       && (forall k :: 0 <= k < MAX_BLOCKS && bm[k] != 0 ==> lo <= bm[k] < hi && bm[k] != secs[12])
       && (forall j, k :: 0 <= j < k < MAX_BLOCKS && bm[j] != 0 ==> bm[j] != bm[k])
  }

  /** Number of blocks a regular file of this size keeps once its first block exists: it always
      has the block the next byte goes to, as far as the block map reaches. */
  function BlockCount(size: nat): nat {
    if size / SECTOR_SIZE + 1 <= MAX_BLOCKS then size / SECTOR_SIZE + 1 else MAX_BLOCKS
  }

  /** The block map uses exactly its first n entries, with an indirect table iff needed. */
  ghost predicate Exactly(disk: Disk, secs: seq<nat>, n: nat)
    requires Shaped(disk, secs)
  {
    && (forall k :: 0 <= k < MAX_BLOCKS ==> (Blocks(disk, secs)[k] != 0 <==> k < n))
    && (secs[12] != 0 <==> n > DIRECT)
  }

  /** The shape file_write keeps: no block at all before the first write, afterwards exactly
      the first BlockCount(size) entries of the block map. */
  ghost predicate FileShape(disk: Disk, ino: Inode)
    requires Shaped(disk, ino.secs)
  {
    && ino.size <= MAX_FILE_SIZE
    && (ino.secs[0] == 0 ==> ino.size == 0)
    && Exactly(disk, ino.secs, if ino.secs[0] == 0 then 0 else BlockCount(ino.size))
  }

  /** Blocks holding bytes 0 .. size - 1 exist on the disk. */
  ghost predicate Mapped(disk: Disk, bm: seq<nat>, size: nat) {
    && |bm| == MAX_BLOCKS && size <= MAX_FILE_SIZE
    && forall k :: 0 <= k < MAX_BLOCKS && SECTOR_SIZE * k < size ==> bm[k] < |disk|
  }

  /** The bytes of a file: byte p is byte p % 512 of block p / 512. */
  ghost function Stored(disk: Disk, bm: seq<nat>, size: nat): (c: seq<byte>)
    requires Mapped(disk, bm, size)
    ensures |c| == size
  {
    seq(size, p requires 0 <= p < size => disk[bm[p / SECTOR_SIZE]][p % SECTOR_SIZE])
  }

  ghost function Content(disk: Disk, ino: Inode): (c: seq<byte>)
    requires Shaped(disk, ino.secs) && Mapped(disk, Blocks(disk, ino.secs), ino.size)
    ensures |c| == ino.size
  {
    Stored(disk, Blocks(disk, ino.secs), ino.size)
  }

  lemma FileIsMapped(disk: Disk, ino: Inode, lo: nat, hi: nat)
    requires Sound(disk, ino.secs, lo, hi) && FileShape(disk, ino)
    ensures Mapped(disk, Blocks(disk, ino.secs), ino.size)
  {
    var bm := Blocks(disk, ino.secs);
    forall k | 0 <= k < MAX_BLOCKS && SECTOR_SIZE * k < ino.size ensures bm[k] < |disk| {
      assert bm[k] != 0;
    }
  }

  // ---------------------------------------------------------------- frames

  /** Two disks that agree on the given sectors. */
  ghost predicate Agree(d: Disk, e: Disk, on: set<nat>) {
    |d| == |e| && forall b :: b in on && b < |d| ==> d[b] == e[b]
  }

  /** An inode whose sectors were not written maps the same blocks and holds the same bytes. */
  lemma UnwrittenInode(d: Disk, e: Disk, ino: Inode, lo: nat, hi: nat)
    requires Sound(d, ino.secs, lo, hi)
    requires Agree(d, e, Owned(d, ino.secs))
    ensures Sound(e, ino.secs, lo, hi)
    ensures Blocks(e, ino.secs) == Blocks(d, ino.secs)
    ensures Owned(e, ino.secs) == Owned(d, ino.secs)
    ensures FileShape(d, ino) == FileShape(e, ino)
    ensures FileShape(d, ino) ==>
      Mapped(d, Blocks(d, ino.secs), ino.size) && Mapped(e, Blocks(e, ino.secs), ino.size) &&
      Content(d, ino) == Content(e, ino)
  {
    assert Blocks(e, ino.secs) == Blocks(d, ino.secs);
    if FileShape(d, ino) {
      FileIsMapped(d, ino, lo, hi);
      var bm := Blocks(d, ino.secs);
      forall p | 0 <= p < ino.size
        ensures d[bm[p / SECTOR_SIZE]][p % SECTOR_SIZE] == e[bm[p / SECTOR_SIZE]][p % SECTOR_SIZE]
      {
        assert bm[p / SECTOR_SIZE] != 0;
        assert bm[p / SECTOR_SIZE] in Owned(d, ino.secs);
      }
      assert Mapped(e, Blocks(e, ino.secs), ino.size);
    }
  }

  // ---------------------------------------------------------------- appending one chunk

  /** Writing `chunk` at the end of the file into the block the next byte goes to appends it to
      the bytes, whatever that sector held behind the end. */
  lemma AppendChunk(d: Disk, bm: seq<nat>, size: nat, chunk: seq<byte>, sector: Sector)
    requires Mapped(d, bm, size + |chunk|)
    requires 0 < |chunk| && size % SECTOR_SIZE + |chunk| <= SECTOR_SIZE
    requires forall j, k :: 0 <= j < k < MAX_BLOCKS && SECTOR_SIZE * k < size + |chunk| ==> bm[j] != bm[k]
    requires forall k :: 0 <= k < size % SECTOR_SIZE ==> sector[k] == d[bm[size / SECTOR_SIZE]][k]
    requires forall k :: 0 <= k < |chunk| ==> sector[size % SECTOR_SIZE + k] == chunk[k]
    ensures var e := d[bm[size / SECTOR_SIZE] := sector];
      Mapped(e, bm, size + |chunk|) && Mapped(d, bm, size) &&
      Stored(e, bm, size + |chunk|) == Stored(d, bm, size) + chunk
  {
    var q := size / SECTOR_SIZE;
    var e := d[bm[q] := sector];
    assert Mapped(e, bm, size + |chunk|);
    assert Mapped(d, bm, size);
    forall p | 0 <= p < size + |chunk|
      ensures Stored(e, bm, size + |chunk|)[p] == (Stored(d, bm, size) + chunk)[p]
    {
      if p / SECTOR_SIZE == q {
        assert e[bm[q]] == sector;
      } else {
        assert p / SECTOR_SIZE < q;
        assert bm[p / SECTOR_SIZE] != bm[q];
      }
    }
  }

  // ---------------------------------------------------------------- a longer block map

  ghost function Elems(s: seq<nat>): set<nat> {
    set b | b in s
  }

  /** A block map of n entries continued by `add`, with the same table or a new one. */
  ghost predicate Continues(d: Disk, secs: seq<nat>, e: Disk, tecs: seq<nat>, n: nat, add: seq<nat>) {
    && Shaped(d, secs) && Shaped(e, tecs) && |d| == |e|
    && n + |add| <= MAX_BLOCKS
    && (forall k :: 0 <= k < MAX_BLOCKS ==>
          Blocks(e, tecs)[k] == if k < n then Blocks(d, secs)[k] else if k < n + |add| then add[k - n] else 0)
    && (tecs[12] == secs[12] ==> (n > DIRECT <==> n + |add| > DIRECT))
    && (tecs[12] != secs[12] ==> n <= DIRECT < n + |add| && tecs[12] !in add && tecs[12] !in Owned(d, secs))
  }

  ghost predicate Fresh(d: Disk, secs: seq<nat>, add: seq<nat>, lo: nat, hi: nat)
    requires Shaped(d, secs)
  {
    && (forall k :: 0 <= k < |add| ==> lo <= add[k] < hi && add[k] !in Owned(d, secs))
    && (forall j, k :: 0 <= j < k < |add| ==> add[j] != add[k])
  }

  /** Continuing a block map with unused sectors keeps it sound, and the inode owns exactly the
      new sectors in addition. */
  lemma ContinuedIsSound(d: Disk, secs: seq<nat>, e: Disk, tecs: seq<nat>, n: nat, add: seq<nat>, lo: nat, hi: nat)
    requires Sound(d, secs, lo, hi) && Exactly(d, secs, n)
    requires Continues(d, secs, e, tecs, n, add) && Fresh(d, secs, add, lo, hi)
    requires tecs[12] != secs[12] ==> lo <= tecs[12] < hi
    ensures Sound(e, tecs, lo, hi) && Exactly(e, tecs, n + |add|)
    ensures Owned(e, tecs) == Owned(d, secs) + Elems(add) + if tecs[12] != secs[12] then {tecs[12]} else {}
  {
    hide Blocks;
    var bm, cm := Blocks(d, secs), Blocks(e, tecs);
    forall k | 0 <= k < n ensures bm[k] in Owned(d, secs) && cm[k] in Owned(e, tecs) {
    }
    forall k | 0 <= k < |add| ensures cm[n + k] == add[k] && add[k] in Owned(e, tecs) {
    }
    ContinuedOwned(d, secs, e, tecs, n, add);
  }

  lemma ContinuedOwned(d: Disk, secs: seq<nat>, e: Disk, tecs: seq<nat>, n: nat, add: seq<nat>)
    requires Continues(d, secs, e, tecs, n, add) && Exactly(d, secs, n)
    requires forall k :: 0 <= k < |add| ==> add[k] != 0
    requires tecs[12] != secs[12] ==> tecs[12] != 0
    ensures Owned(e, tecs) == Owned(d, secs) + Elems(add) + if tecs[12] != secs[12] then {tecs[12]} else {}
  {
    hide Blocks;
    var bm, cm := Blocks(d, secs), Blocks(e, tecs);
    forall b | b in cm && b != 0 ensures b in bm || b in add {
      var k :| 0 <= k < MAX_BLOCKS && cm[k] == b;
      if k >= n { assert add[k - n] == b; }
    }
    forall b | b in bm && b != 0 ensures b in cm {
      var k :| 0 <= k < MAX_BLOCKS && bm[k] == b;
      assert cm[k] == b;
    }
    forall b | b in add ensures b in cm && b != 0 {
      var k :| 0 <= k < |add| && add[k] == b;
      assert cm[n + k] == b;
    }
  }

  // ---------------------------------------------------------------- one pointer more or less

  /** A new sector b at a free index of the block map, with the old table or a first one. */
  lemma PointerAdded(d: Disk, secs: seq<nat>, e: Disk, tecs: seq<nat>, k: nat, b: nat, lo: nat, hi: nat)
    requires Sound(d, secs, lo, hi) && Shaped(e, tecs) && |e| == |d| && k < MAX_BLOCKS
    requires Blocks(d, secs)[k] == 0 && Blocks(e, tecs) == Blocks(d, secs)[k := b]
    requires lo <= b < hi && b !in Owned(d, secs)
    requires tecs[12] == secs[12]
      || (secs[12] == 0 && lo <= tecs[12] < hi && tecs[12] != b && tecs[12] !in Owned(d, secs))
    ensures Sound(e, tecs, lo, hi)
    ensures Owned(e, tecs) == Owned(d, secs) + {b} + if tecs[12] != secs[12] then {tecs[12]} else {}
  {
    hide Blocks;
    var bm, cm := Blocks(d, secs), Blocks(e, tecs);
    forall j | 0 <= j < MAX_BLOCKS && bm[j] != 0 ensures bm[j] in Owned(d, secs) {
    }
    forall c ensures c in cm && c != 0 <==> c == b || (c in bm && c != 0) {
      if c == b { assert cm[k] == b; }
      if c in bm && c != 0 {
        var j :| 0 <= j < MAX_BLOCKS && bm[j] == c;
        assert cm[j] == c;
      }
    }
  }

  lemma BlocksOwned(d: Disk, secs: seq<nat>)
    requires Shaped(d, secs)
    ensures forall j :: 0 <= j < MAX_BLOCKS && Blocks(d, secs)[j] != 0 ==> Blocks(d, secs)[j] in Owned(d, secs)
  {
  }

  /** A direct pointer is cleared. */
  lemma PointerRemoved(d: Disk, secs: seq<nat>, k: nat, lo: nat, hi: nat)
    requires Sound(d, secs, lo, hi) && k < DIRECT && secs[k] != 0
    ensures Sound(d, secs[k := 0], lo, hi)
    ensures Blocks(d, secs[k := 0]) == Blocks(d, secs)[k := 0]
    ensures secs[k] in Owned(d, secs) && Owned(d, secs[k := 0]) == Owned(d, secs) - {secs[k]}
  {
    var tecs := secs[k := 0];
    assert Blocks(d, tecs) == Blocks(d, secs)[k := 0];
    RemovedOwned(d, secs, k, lo, hi);
  }

  lemma RemovedOwned(d: Disk, secs: seq<nat>, k: nat, lo: nat, hi: nat)
    requires Sound(d, secs, lo, hi) && k < DIRECT && secs[k] != 0
    requires Blocks(d, secs[k := 0]) == Blocks(d, secs)[k := 0]
    ensures secs[k] in Owned(d, secs) && Owned(d, secs[k := 0]) == Owned(d, secs) - {secs[k]}
  {
    var bm, cm := Blocks(d, secs), Blocks(d, secs[k := 0]);
    assert bm[k] == secs[k];
    hide Blocks;
    forall c | c != 0 ensures c in cm <==> c in bm && c != bm[k] {
      if c in bm && c != bm[k] {
        var j :| 0 <= j < MAX_BLOCKS && bm[j] == c;
        assert cm[j] == c;
      }
      if c in cm {
        var j :| 0 <= j < MAX_BLOCKS && cm[j] == c;
        assert j != k && bm[j] == c;
        assert bm[j] != bm[k];
      }
    }
  }
}
