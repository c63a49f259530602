/** A mounted partition: its sectors, its block bitmap and its inodes, with the invariant that
    ties them together.  A block is identified by its sector number (lba); bit k of the bitmap
    stands for sector data + k. */
module Volume {
  import opened Bytes
  import opened BlockMap
  import Bitmap

  /** A snapshot of a partition. */
  datatype Fs = Fs(data: nat, disk: Disk, bits: seq<bool>, inodes: map<nat, Inode>) {
    function End(): nat { data + |bits| }
  }

  class Partition {
    const data: nat           // sb->data_start_lba
    var disk: Disk
    var bits: seq<bool>       // block_bitmap
    var inodes: map<nat, Inode>

    constructor (data: nat, disk: Disk, bits: seq<bool>, inodes: map<nat, Inode>)
      ensures State() == Fs(data, disk, bits, inodes)
    {
      this.data, this.disk, this.bits, this.inodes := data, disk, bits, inodes;
    }

    ghost function State(): Fs
      reads this
    {
      Fs(data, disk, bits, inodes)
    }
  }

  /** Every inode owns sectors of the data area, no sector is owned twice, and every owned
      sector is marked in the bitmap. */
  ghost predicate Valid(fs: Fs) {
    && 0 < fs.data && fs.End() <= |fs.disk| <= WORD_LIMIT
    && (forall i :: i in fs.inodes ==> Sound(fs.disk, fs.inodes[i].secs, fs.data, fs.End()))
    && (forall i, b :: i in fs.inodes && b in OwnedBy(fs, i) ==> Marked(fs, b))
    && (forall i, j :: i in fs.inodes && j in fs.inodes && i != j ==> OwnedBy(fs, i) !! OwnedBy(fs, j))
  }

  /** The bitmap bit of sector b is set. */
  predicate InUse(data: nat, bits: seq<bool>, b: int) {
    data <= b < data + |bits| && bits[b - data]
  }

  ghost predicate Marked(fs: Fs, b: nat) {
    InUse(fs.data, fs.bits, b)
  }

  ghost function OwnedBy(fs: Fs, i: nat): set<nat> {
    if i in fs.inodes && Shaped(fs.disk, fs.inodes[i].secs) then Owned(fs.disk, fs.inodes[i].secs) else {}
  }

  /** Sectors marked in the bitmap that no inode owns. */
  ghost function Leaked(fs: Fs): set<nat> {
    set b | fs.data <= b < fs.End() && Marked(fs, b) && forall i :: i in fs.inodes ==> b !in OwnedBy(fs, i)
  }

  /** A regular file of a valid volume. */
  ghost predicate IsFile(fs: Fs, i: nat) {
    && i in fs.inodes
    && Sound(fs.disk, fs.inodes[i].secs, fs.data, fs.End())
    && FileShape(fs.disk, fs.inodes[i])
  }

  ghost function FileBytes(fs: Fs, i: nat): (c: seq<byte>)
    requires IsFile(fs, i)
    ensures |c| == fs.inodes[i].size
  {
    FileIsMapped(fs.disk, fs.inodes[i], fs.data, fs.End());
    Content(fs.disk, fs.inodes[i])
  }

  // ---------------------------------------------------------------- allocation

  /** `got` are distinct sectors that were free, and marking them is all that happened. */
  ghost predicate Took(data: nat, before: seq<bool>, after: seq<bool>, got: seq<nat>) {
    && |before| == |after|
    && (forall j :: 0 <= j < |got| ==> data <= got[j] < data + |before| && !InUse(data, before, got[j]))
    && (forall i, j :: 0 <= i < j < |got| ==> got[i] != got[j])
    && (forall b {:trigger InUse(data, after, b)} :: InUse(data, after, b) <==> InUse(data, before, b) || b in got)
  }

  lemma TookOneMore(data: nat, before: seq<bool>, after: seq<bool>, got: seq<nat>, k: nat)
    requires Took(data, before, after, got)
    requires k < |after| && !after[k]
    ensures Took(data, before, after[k := true], got + [data + k])
  {
    assert !InUse(data, after, data + k);
    forall j | 0 <= j < |got| ensures got[j] != data + k {
      assert InUse(data, after, got[j]);
    }
    var more := got + [data + k];
    assert more[..|got|] == got && more[|got|] == data + k;
    forall b ensures InUse(data, after[k := true], b) <==> InUse(data, before, b) || b in more {
      assert InUse(data, after[k := true], b) <==> InUse(data, after, b) || b == data + k;
    }
  }

  lemma TookTogether(data: nat, a: seq<bool>, b: seq<bool>, c: seq<bool>, g: seq<nat>, h: seq<nat>)
    requires Took(data, a, b, g) && Took(data, b, c, h)
    ensures Took(data, a, c, g + h)
  {
  }

  /** block_bitmap_alloc: the lowest clear bit, or -1 exactly when none is left. */
  method AllocBlock(p: Partition) returns (lba: int)
    modifies p`bits
    ensures lba == -1 ==> p.bits == old(p.bits) && Bitmap.FreeCount(old(p.bits)) == 0
    ensures lba != -1 ==> p.data <= lba < p.data + |old(p.bits)|
    ensures lba != -1 ==> !old(p.bits)[lba - p.data] && p.bits == old(p.bits)[lba - p.data := true]
    ensures lba != -1 ==> forall k :: 0 <= k < lba - p.data ==> old(p.bits)[k]
    ensures lba != -1 ==> Bitmap.FreeCount(p.bits) == Bitmap.FreeCount(old(p.bits)) - 1
  {
    Bitmap.RunOfOne(p.bits);
    Bitmap.FreeCountZero(p.bits);
    var bitIdx := Bitmap.FindRun(p.bits, 1);
    if bitIdx == -1 {
      return -1;
    }
    Bitmap.FreeCountSet(p.bits, bitIdx);
    p.bits := p.bits[bitIdx := true];
    return p.data + bitIdx;
  }

  /** block_bitmap_alloc as one of a series: `got` are the sectors taken since `before`. */
  method TakeBlock(p: Partition, ghost before: seq<bool>, ghost got: seq<nat>) returns (lba: int)
    requires Took(p.data, before, p.bits, got)
    modifies p`bits
    ensures lba == -1 ==> p.bits == old(p.bits) && Bitmap.FreeCount(p.bits) == 0
    ensures lba != -1 ==> p.data <= lba < p.data + |before|
    ensures lba != -1 ==> !old(p.bits)[lba - p.data] && p.bits == old(p.bits)[lba - p.data := true]
    ensures lba != -1 ==> Took(p.data, before, p.bits, got + [lba])
    ensures lba != -1 ==> Bitmap.FreeCount(p.bits) == Bitmap.FreeCount(old(p.bits)) - 1
  {
    lba := AllocBlock(p);
    if lba != -1 {
      TookOneMore(p.data, before, old(p.bits), got, lba - p.data);
    }
  }

  // ---------------------------------------------------------------- one inode changes

  /** Only inode i changed: it may have taken sectors that were free, given up sectors, and
      written sectors it now owns. */
  ghost predicate OnlyInode(fs: Fs, gs: Fs, i: nat) {
    && i in fs.inodes && i in gs.inodes
    && gs.data == fs.data && |gs.bits| == |fs.bits| && |gs.disk| == |fs.disk|
    && gs.inodes == fs.inodes[i := gs.inodes[i]]
    && Sound(gs.disk, gs.inodes[i].secs, gs.data, gs.End())
    && (forall b :: b in OwnedBy(gs, i) ==> Marked(gs, b))
    && (forall b :: b in OwnedBy(gs, i) && b !in OwnedBy(fs, i) ==> !Marked(fs, b))
    && (forall b :: Marked(fs, b) && !Marked(gs, b) ==> b in OwnedBy(fs, i))
    && (forall b :: 0 <= b < |fs.disk| && b !in OwnedBy(gs, i) ==> gs.disk[b] == fs.disk[b])
  }

  lemma OthersUntouched(fs: Fs, gs: Fs, i: nat, j: nat)
    requires Valid(fs) && OnlyInode(fs, gs, i) && j in fs.inodes && j != i
    ensures j in gs.inodes && gs.inodes[j] == fs.inodes[j]
    ensures OwnedBy(gs, j) == OwnedBy(fs, j)
    ensures OwnedBy(gs, i) !! OwnedBy(fs, j)
    ensures Sound(gs.disk, gs.inodes[j].secs, gs.data, gs.End())
    ensures IsFile(fs, j) ==> IsFile(gs, j) && FileBytes(gs, j) == FileBytes(fs, j)
  {
    hide Valid, OnlyInode, Owned, Agree, Stored, Blocks;
    OthersAgree(fs, gs, i, j);
    UnwrittenInode(fs.disk, gs.disk, fs.inodes[j], fs.data, fs.End());
  }

  lemma OthersAgree(fs: Fs, gs: Fs, i: nat, j: nat)
    requires Valid(fs) && OnlyInode(fs, gs, i) && j in fs.inodes && j != i
    ensures j in gs.inodes && gs.inodes[j] == fs.inodes[j] && gs.data == fs.data && gs.End() == fs.End()
    ensures Sound(fs.disk, fs.inodes[j].secs, fs.data, fs.End())
      && Agree(fs.disk, gs.disk, Owned(fs.disk, fs.inodes[j].secs))
    ensures i in gs.inodes && Sound(gs.disk, gs.inodes[i].secs, gs.data, gs.End()) && OwnedBy(gs, i) !! OwnedBy(fs, j)
  {
    hide Owned, Blocks;
    forall b | b in OwnedBy(gs, i) ensures b !in OwnedBy(fs, j) {
      assert b in OwnedBy(fs, j) ==> Marked(fs, b);
    }
  }

  /** Changing one inode within these limits keeps the volume valid. */
  lemma OnlyInodeKeepsValid(fs: Fs, gs: Fs, i: nat)
    requires Valid(fs) && OnlyInode(fs, gs, i)
    ensures Valid(gs)
    ensures forall j :: j in fs.inodes && j != i ==> OwnedBy(gs, j) == OwnedBy(fs, j)
    ensures forall j :: j != i && IsFile(fs, j) ==> IsFile(gs, j) && FileBytes(gs, j) == FileBytes(fs, j)
  {
    forall j | j in fs.inodes && j != i
      ensures OwnedBy(gs, j) == OwnedBy(fs, j) && OwnedBy(gs, i) !! OwnedBy(fs, j)
      ensures Sound(gs.disk, gs.inodes[j].secs, gs.data, gs.End())
      ensures IsFile(fs, j) ==> IsFile(gs, j) && FileBytes(gs, j) == FileBytes(fs, j)
    {
      OthersUntouched(fs, gs, i, j);
    }
    forall j, b | j in gs.inodes && b in OwnedBy(gs, j) ensures Marked(gs, b) {
      if j != i {
        assert j in fs.inodes && b in OwnedBy(fs, j);
        assert Marked(fs, b);
        assert b !in OwnedBy(fs, i);
      }
    }
  }

  // ---------------------------------------------------------------- one inode grows

  /** Inode i took free sectors; `lost` are sectors that were marked in the bitmap without
      becoming part of it. */
  ghost predicate Claimed(fs: Fs, gs: Fs, i: nat, lost: set<nat>) {
    && OwnedBy(fs, i) <= OwnedBy(gs, i)
    && (forall b :: b in OwnedBy(gs, i) && b !in OwnedBy(fs, i) ==> !Marked(fs, b))
    && (forall b :: b in lost ==> !Marked(fs, b) && b !in OwnedBy(gs, i))
    && (forall b {:trigger Marked(gs, b)} :: Marked(gs, b) <==> Marked(fs, b) || b in OwnedBy(gs, i) || b in lost)
  }

  /** Nothing but inode i and sectors it now owns was written. */
  ghost predicate WroteOnly(fs: Fs, gs: Fs, i: nat) {
    && i in fs.inodes && i in gs.inodes
    && gs.data == fs.data && |gs.bits| == |fs.bits| && |gs.disk| == |fs.disk|
    && gs.inodes == fs.inodes[i := gs.inodes[i]]
    && (forall b :: 0 <= b < |fs.disk| && b !in OwnedBy(gs, i) ==> gs.disk[b] == fs.disk[b])
  }

  ghost predicate Grew(fs: Fs, gs: Fs, i: nat, lost: set<nat>) {
    && WroteOnly(fs, gs, i)
    && Claimed(fs, gs, i, lost)
    && Sound(gs.disk, gs.inodes[i].secs, gs.data, gs.End())
  }

  lemma GrewTwice(fs: Fs, gs: Fs, hs: Fs, i: nat, lost: set<nat>, lost': set<nat>)
    requires Grew(fs, gs, i, lost) && Grew(gs, hs, i, lost')
    ensures Grew(fs, hs, i, lost + lost')
  {
    WroteTwice(fs, gs, hs, i);
    assert Claimed(fs, hs, i, lost + lost') by {
      ClaimedTwice(fs, gs, hs, i, lost, lost');
    }
  }

  lemma WroteTwice(fs: Fs, gs: Fs, hs: Fs, i: nat)
    requires WroteOnly(fs, gs, i) && WroteOnly(gs, hs, i) && OwnedBy(gs, i) <= OwnedBy(hs, i)
    ensures WroteOnly(fs, hs, i)
  {
    forall b | 0 <= b < |fs.disk| && b !in OwnedBy(hs, i) ensures hs.disk[b] == fs.disk[b] {
      assert hs.disk[b] == gs.disk[b];
    }
  }

  lemma ClaimedTwice(fs: Fs, gs: Fs, hs: Fs, i: nat, lost: set<nat>, lost': set<nat>)
    requires Claimed(fs, gs, i, lost) && Claimed(gs, hs, i, lost')
    ensures Claimed(fs, hs, i, lost + lost')
  {
    forall b
      ensures b in OwnedBy(hs, i) && b !in OwnedBy(fs, i) ==> !Marked(fs, b)
      ensures b in lost + lost' ==> !Marked(fs, b) && b !in OwnedBy(hs, i)
      ensures Marked(hs, b) <==> Marked(fs, b) || b in OwnedBy(hs, i) || b in lost + lost'
    {
      ClaimedTwiceAt(fs, gs, hs, i, lost, lost', b);
    }
  }

  lemma ClaimedTwiceAt(fs: Fs, gs: Fs, hs: Fs, i: nat, lost: set<nat>, lost': set<nat>, b: nat)
    requires Claimed(fs, gs, i, lost) && Claimed(gs, hs, i, lost')
    ensures b in OwnedBy(hs, i) && b !in OwnedBy(fs, i) ==> !Marked(fs, b)
    ensures b in lost + lost' ==> !Marked(fs, b) && b !in OwnedBy(hs, i)
    ensures Marked(hs, b) <==> Marked(fs, b) || b in OwnedBy(hs, i) || b in lost + lost'
  {
    assert Marked(gs, b) <==> Marked(fs, b) || b in OwnedBy(gs, i) || b in lost;
    assert Marked(hs, b) <==> Marked(gs, b) || b in OwnedBy(hs, i) || b in lost';
  }

  /** Growing keeps the volume valid and every other file as it was, and the bitmap gains no
      unowned sector but the lost ones. */
  lemma GrewKeepsValid(fs: Fs, gs: Fs, i: nat, lost: set<nat>)
    requires Valid(fs) && Grew(fs, gs, i, lost)
    ensures Valid(gs)
    ensures forall j :: j != i && IsFile(fs, j) ==> IsFile(gs, j) && FileBytes(gs, j) == FileBytes(fs, j)
    ensures Leaked(gs) == Leaked(fs) + lost
  {
    assert OnlyInode(fs, gs, i);
    OnlyInodeKeepsValid(fs, gs, i);
    forall b ensures b in Leaked(gs) <==> b in Leaked(fs) + lost {
      GrewLeak(fs, gs, i, lost, b);
    }
  }

  lemma GrewLeak(fs: Fs, gs: Fs, i: nat, lost: set<nat>, b: nat)
    requires Valid(fs) && Grew(fs, gs, i, lost)
    requires forall j :: j in fs.inodes && j != i ==> OwnedBy(gs, j) == OwnedBy(fs, j)
    ensures b in Leaked(gs) <==> b in Leaked(fs) + lost
  {
    assert Marked(gs, b) <==> Marked(fs, b) || b in OwnedBy(gs, i) || b in lost;
    forall j | j in gs.inodes && b in Leaked(fs) + lost ensures b !in OwnedBy(gs, j) {
      assert b in OwnedBy(fs, j) ==> Marked(fs, b);
    }
    if b in Leaked(gs) && b !in lost {
      forall j | j in fs.inodes ensures b !in OwnedBy(fs, j) {
        assert j in gs.inodes;
      }
    }
  }

  lemma TakenWasFree(fs: Fs, gs: Fs, i: nat, got: seq<nat>, k: nat)
    requires Valid(fs) && i in fs.inodes && Took(fs.data, fs.bits, gs.bits, got) && k < |got|
    ensures 0 < fs.data <= got[k] < fs.End() <= |fs.disk| && got[k] !in OwnedBy(fs, i) && |gs.bits| == |fs.bits|
  {
    assert !InUse(fs.data, fs.bits, got[k]);
    assert got[k] in OwnedBy(fs, i) ==> Marked(fs, got[k]);
  }

  /** An inode that now owns the sectors taken, and wrote only what it owns, grew. */
  lemma TookGrew(fs: Fs, gs: Fs, i: nat, got: seq<nat>)
    requires Valid(fs) && WroteOnly(fs, gs, i) && Took(fs.data, fs.bits, gs.bits, got)
    requires Sound(gs.disk, gs.inodes[i].secs, gs.data, gs.End())
    requires OwnedBy(gs, i) == OwnedBy(fs, i) + Elems(got)
    ensures Grew(fs, gs, i, {})
  {
    hide Sound, Claimed;
    TookClaims(fs, gs, i, got);
  }

  lemma TookClaims(fs: Fs, gs: Fs, i: nat, got: seq<nat>)
    requires Valid(fs) && i in fs.inodes && gs.data == fs.data && Took(fs.data, fs.bits, gs.bits, got)
    requires OwnedBy(gs, i) == OwnedBy(fs, i) + Elems(got)
    ensures Claimed(fs, gs, i, {})
  {
    hide Sound, Owned;
    forall b ensures Marked(gs, b) <==> Marked(fs, b) || b in OwnedBy(gs, i) {
      assert b in Elems(got) <==> b in got;
      assert b in OwnedBy(fs, i) ==> Marked(fs, b);
    }
    forall b | b in Elems(got) ensures !Marked(fs, b) {
      var j :| 0 <= j < |got| && got[j] == b;
    }
  }

  // ---------------------------------------------------------------- one inode shrinks

  /** Inode i gave up the sectors `gone`, whose bits were cleared, and wrote only what it keeps. */
  ghost predicate Shed(fs: Fs, gs: Fs, i: nat, gone: set<nat>) {
    && WroteOnly(fs, gs, i)
    && Sound(gs.disk, gs.inodes[i].secs, gs.data, gs.End())
    && gone <= OwnedBy(fs, i) && OwnedBy(gs, i) == OwnedBy(fs, i) - gone
    && (forall b {:trigger Marked(gs, b)} :: Marked(gs, b) <==> Marked(fs, b) && b !in gone)
  }

  /** Shrinking keeps the volume valid, every other file as it was, and no sector unowned that was
      owned before. */
  lemma ShedKeepsValid(fs: Fs, gs: Fs, i: nat, gone: set<nat>)
    requires Valid(fs) && Shed(fs, gs, i, gone)
    ensures Valid(gs)
    ensures forall j :: j in fs.inodes && j != i ==> OwnedBy(gs, j) == OwnedBy(fs, j)
    ensures forall j :: j != i && IsFile(fs, j) ==> IsFile(gs, j) && FileBytes(gs, j) == FileBytes(fs, j)
    ensures Leaked(gs) == Leaked(fs)
  {
    assert OnlyInode(fs, gs, i) by {
      assert forall b :: b in OwnedBy(fs, i) ==> Marked(fs, b);
    }
    OnlyInodeKeepsValid(fs, gs, i);
    forall b ensures b in Leaked(gs) <==> b in Leaked(fs) {
      ShedLeak(fs, gs, i, gone, b);
    }
  }

  lemma ShedLeak(fs: Fs, gs: Fs, i: nat, gone: set<nat>, b: nat)
    requires Valid(fs) && Shed(fs, gs, i, gone)
    requires forall j :: j in fs.inodes && j != i ==> OwnedBy(gs, j) == OwnedBy(fs, j)
    ensures b in Leaked(gs) <==> b in Leaked(fs)
  {
    assert Marked(gs, b) <==> Marked(fs, b) && b !in gone;
    forall j | j in fs.inodes ensures j in gs.inodes
      && (b in OwnedBy(gs, j) <==> b in OwnedBy(fs, j) && (j != i || b !in gone)) {
    }
  }
}
