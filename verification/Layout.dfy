/** Where partition_format puts things on a partition, and the block bitmap it writes.  The loop that
    clears the bits behind the padding runs one step too far: one bit more than there are data sectors
    is clear. */
module Layout {
  import Bitmap

  const SECTOR := 512
  const BITS_PER_SECTOR := 4096
  const TABLE_SECTS := 608    // 4096 records of 76 bytes
  const USED_SECTS := 611     // boot sector, super block, inode bitmap, inode table

  function DivRoundUp(x: nat, step: nat): (q: nat)
    requires step > 0
    ensures step * q >= x && step * q < x + step
  {
    (x + step - 1) / step
  }

  /** A partition of secCnt sectors from sector base on. */
  datatype Part = Part(base: nat, secCnt: nat) {
    ghost predicate Big() { secCnt >= USED_SECTS }

    function FreeSects(): nat
      requires Big()
    {
      secCnt - USED_SECTS
    }

    /** The first guess at the size of the block bitmap. */
    function Guess(): nat
      requires Big()
    {
      DivRoundUp(FreeSects(), BITS_PER_SECTOR)
    }

    function BitLen(): nat
      requires Big()
    {
      FreeSects() - Guess()
    }

    function BitmapSects(): nat
      requires Big()
    {
      DivRoundUp(BitLen(), BITS_PER_SECTOR)
    }

    /** sb.data_start_lba */
    function DataStart(): nat
      requires Big()
    {
      base + 2 + BitmapSects() + 1 + TABLE_SECTS
    }

    function BufSize(): nat
      requires Big()
    {
      (if BitmapSects() >= TABLE_SECTS then BitmapSects() else TABLE_SECTS) * SECTOR
    }
  }

  /** The data sectors end where the partition ends, less the sectors by which the first guess at the
      bitmap was too large.  So bit BitLen is a sector behind the partition exactly if the guess was
      right. */
  lemma SpareSector(p: Part)
    requires p.Big()
    ensures p.BitmapSects() <= p.Guess()
    ensures p.DataStart() + p.BitLen() == p.base + p.secCnt - (p.Guess() - p.BitmapSects())
    ensures p.DataStart() + p.BitLen() == p.base + p.secCnt <==> p.BitmapSects() == p.Guess()
  {
  }

  // ---------------------------------------------------------------- the bits that are written

  /** Bit k of the block bitmap of a partition with n data sectors. */
  predicate Written(n: nat, k: nat) { (k == 0 && n >= 8) || k > n }

  method SetPadding(buf: array<bv8>, from: nat, to: nat)
    requires from <= to <= buf.Length
    modifies buf
    ensures forall k :: 0 <= k < 8 * buf.Length ==>
      Bitmap.View(buf[..])[k] == (8 * from <= k < 8 * to || Bitmap.View(old(buf[..]))[k])
  {
    ghost var before := buf[..];
    forall j | from <= j < to {
      buf[j] := 0xff;
    }
    forall k | 0 <= k < 8 * buf.Length
      ensures Bitmap.View(buf[..])[k] == (8 * from <= k < 8 * to || Bitmap.View(before)[k])
    {
      Bitmap.ViewAt(before, k / 8, k % 8);
      Bitmap.ViewAt(buf[..], k / 8, k % 8);
      Bitmap.FullByte(0xff);
    }
  }

  /** The loop at the end: bits 0 to last of byte p. */
  method ClearBits(buf: array<bv8>, p: nat, last: nat)
    requires p < buf.Length && last < 8
    modifies buf
    ensures forall k :: 0 <= k < 8 * buf.Length ==>
      Bitmap.View(buf[..])[k] == (Bitmap.View(old(buf[..]))[k] && !(8 * p <= k <= 8 * p + last))
  {
    var bitIdx := 0;
    while bitIdx <= last
      invariant bitIdx <= last + 1
      invariant forall k :: 0 <= k < 8 * buf.Length ==>
        Bitmap.View(buf[..])[k] == (Bitmap.View(old(buf[..]))[k] && !(8 * p <= k < 8 * p + bitIdx))
    {
      Bitmap.Set(buf, 8 * p + bitIdx, false);
      bitIdx := bitIdx + 1;
    }
  }

  /** The block bitmap, in a buffer of zeros: exactly the bits of Written, in all the sectors that go to
      the disk.  ok is whether the padding stays inside the buffer. */
  method BlockBitmap(p: Part, buf: array<bv8>) returns (ok: bool)
    requires p.Big() && buf.Length == p.BufSize() && forall j :: 0 <= j < buf.Length ==> buf[j] == 0
    modifies buf
    ensures ok <==> p.BitLen() < 8 * buf.Length
    ensures ok ==> forall k :: 0 <= k < BITS_PER_SECTOR * p.BitmapSects() ==>
      Bitmap.View(buf[..])[k] == Written(p.BitLen(), k)
  {
    Zeroed(buf[..]);
    Bitmap.Set(buf, 0, true);
    var lastByte, lastBit := p.BitLen() / 8, p.BitLen() % 8;
    var lastSize := SECTOR - lastByte % SECTOR;
    Rounded(p);
    if lastByte + lastSize > buf.Length {
      return false;
    }
    SetPadding(buf, lastByte, lastByte + lastSize);
    ClearBits(buf, lastByte, lastBit);
    return true;
  }

  lemma Zeroed(bytes: seq<bv8>)
    requires forall j :: 0 <= j < |bytes| ==> bytes[j] == 0
    ensures forall k :: 0 <= k < 8 * |bytes| ==> !Bitmap.View(bytes)[k]
  {
    forall k | 0 <= k < 8 * |bytes| ensures !Bitmap.View(bytes)[k] {
      Bitmap.ViewAt(bytes, k / 8, k % 8);
    }
  }

  /** The padding ends with a sector: the last of the bitmap, or the one behind it. */
  lemma Rounded(p: Part)
    requires p.Big()
    ensures var b := p.BitLen() / 8;
      && (b + (SECTOR - b % SECTOR) <= p.BufSize() <==> p.BitLen() < 8 * p.BufSize())
      && BITS_PER_SECTOR * p.BitmapSects() <= 8 * (b + (SECTOR - b % SECTOR))
      && BITS_PER_SECTOR * p.BitmapSects() <= 8 * p.BufSize()
  {
    hide DivRoundUp;
    NextSector(p.BitLen());
  }

  /** Byte bits / 8 is in sector q, and the padding ends with that sector. */
  lemma NextSector(bits: nat)
    ensures var b, q := bits / 8, bits / BITS_PER_SECTOR;
      b + (SECTOR - b % SECTOR) == SECTOR * (q + 1) && BITS_PER_SECTOR * q <= bits < BITS_PER_SECTOR * (q + 1)
  {
    var b := bits / 8;
    assert b / SECTOR == bits / BITS_PER_SECTOR;
  }

  /** The padding leaves the buffer exactly if the data sectors fill the bitmap to its last bit and the
      bitmap is not shorter than the inode table. */
  lemma PaddingExact(p: Part)
    requires p.Big()
    ensures p.BitLen() >= 8 * p.BufSize() <==>
      p.BitLen() == BITS_PER_SECTOR * p.BitmapSects() && p.BitmapSects() >= TABLE_SECTS
  {
  }

  // ---------------------------------------------------------------- what scans see of it

  /** The bits that can ever be clear: one more than there are data sectors, if the bitmap has it. */
  function Usable(v: seq<bool>, n: nat): seq<bool> { if n + 1 <= |v| then v[..n + 1] else v }

  /** As long as the padding stays set, a scan sees the usable bits alone. */
  lemma PaddingNeverTaken(v: seq<bool>, n: nat)
    requires forall k :: n < k < |v| ==> v[k]
    ensures Bitmap.FindRun(v, 1) == Bitmap.FindRun(Usable(v, n), 1)
  {
    var u := Usable(v, n);
    Bitmap.RunOfOne(v);
    Bitmap.RunOfOne(u);
    assert Bitmap.IsLeftmost(v, 1, Bitmap.FindRun(u, 1));
    Bitmap.LeftmostUnique(v, 1, Bitmap.FindRun(v, 1), Bitmap.FindRun(u, 1));
  }

  /** The bit behind the data sectors is given out exactly when every data sector is in use. */
  lemma SpareBitTaken(v: seq<bool>, n: nat)
    requires n < |v| && !v[n]
    ensures Bitmap.FindRun(v, 1) == n <==> forall k :: 0 <= k < n ==> v[k]
  {
    Bitmap.RunOfOne(v);
    assert Bitmap.ClearRun(v, n, 1);
  }

  /** A partition of 4000 sectors has 3388 data sectors, up to its end.  Bit 3388, the sector behind the
      partition, is clear; the padding starts at bit 3389. */
  lemma SpareSectorExample()
    ensures Part(0, 4000).BitLen() == 3388 && Part(0, 4000).DataStart() + 3388 == 4000 && !Written(3388, 3388)
    ensures Written(3388, 3389)
  {
  }
}
