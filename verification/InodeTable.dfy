/** The on-disk inode table and the list of open inodes of fs/inode.c.

    A record is the 76 bytes of struct inode; records follow each other without regard for
    sector boundaries, so a record may span two sectors. */
module InodeTable {
  import opened Bytes
  import opened BlockMap

  const RECORD := 76
  const RECORD_WORDS := 19

  /** struct inode without the list links, which mean nothing on disk. */
  datatype Node = Node(ino: word, size: word, opens: nat, deny: word, secs: seq<word>)

  predicate Proper(n: Node) { |n.secs| == 13 && n.opens < WORD_LIMIT }

  /** What goes to disk: the counters that only matter at run time are cleared. */
  function Pure(n: Node): Node {
    n.(opens := 0, deny := 0)
  }

  function Encode(n: Node): (s: seq<byte>)
    requires Proper(n)
    ensures |s| == RECORD
  {
    Pack([n.ino, n.size, n.opens, n.deny] + n.secs + [0, 0])
  }

  function Decode(s: seq<byte>): (n: Node)
    requires |s| == RECORD
    ensures Proper(n)
  {
    var ws := Unpack(s, RECORD_WORDS);
    Node(ws[0], ws[1], ws[2], ws[3], ws[4..17])
  }

  lemma NodeRoundTrip(n: Node)
    requires Proper(n)
    ensures Decode(Encode(n)) == n
  {
    hide Pack, Unpack;
    PackRoundTrip([n.ino, n.size, n.opens, n.deny] + n.secs + [0, 0]);
  }

  // ---------------------------------------------------------------- the table as one row of bytes

  /** Byte q of the table that starts at sector lba. */
  function ByteAt(d: Disk, lba: nat, q: nat): byte
    requires lba + q / SECTOR_SIZE < |d|
  {
    d[lba + q / SECTOR_SIZE][q % SECTOR_SIZE]
  }

  /** The table has room for n records. */
  predicate HasRecords(d: Disk, lba: nat, n: nat) {
    lba + (RECORD * n) / SECTOR_SIZE < |d|
  }

  function Record(d: Disk, lba: nat, k: nat): (s: seq<byte>)
    requires HasRecords(d, lba, k + 1)
    ensures |s| == RECORD
    ensures forall j :: 0 <= j < RECORD ==> s[j] == ByteAt(d, lba, RECORD * k + j)
  {
    seq<byte>(RECORD, j requires 0 <= j < RECORD => ByteAt(d, lba, RECORD * k + j))
  }

  /** inode_locate: sector, offset, and whether the record goes on in the next sector. */
  function Locate(k: nat): (r: (nat, nat, bool))
    ensures SECTOR_SIZE * r.0 + r.1 == RECORD * k && r.1 < SECTOR_SIZE
    ensures r.2 <==> r.1 + RECORD > SECTOR_SIZE
    ensures (RECORD * (k + 1) - 1) / SECTOR_SIZE == r.0 + if r.2 then 1 else 0
  {
    var off := RECORD * k;
    (off / SECTOR_SIZE, off % SECTOR_SIZE, SECTOR_SIZE - off % SECTOR_SIZE < RECORD)
  }

  /** Two sectors read into one buffer. */
  function TwoSectors(a: seq<byte>, b: seq<byte>): seq<byte> { a + b }

  /** The disk with `rec` written over record k, one or two sectors at a time. */
  function PutRecord(d: Disk, lba: nat, k: nat, rec: seq<byte>): (e: Disk)
    requires HasRecords(d, lba, k + 1) && |rec| == RECORD
    ensures |e| == |d|
  {
    var (sec, off, two) := Locate(k);
    if two then
      var buf := Overwrite(TwoSectors(d[lba + sec], d[lba + sec + 1]), off, rec);
      d[lba + sec := buf[..SECTOR_SIZE]][lba + sec + 1 := buf[SECTOR_SIZE..]]
    else
      d[lba + sec := Overwrite(d[lba + sec], off, rec)]
  }

  /** Writing a record changes its 76 bytes of the table and nothing else. */
  lemma PutRecordByte(d: Disk, lba: nat, k: nat, rec: seq<byte>, q: nat)
    requires HasRecords(d, lba, k + 1) && |rec| == RECORD && lba + q / SECTOR_SIZE < |d|
    ensures ByteAt(PutRecord(d, lba, k, rec), lba, q) ==
      if RECORD * k <= q < RECORD * k + RECORD then rec[q - RECORD * k] else ByteAt(d, lba, q)
  {
    var (sec, off, two) := Locate(k);
    var u, v := q / SECTOR_SIZE, q % SECTOR_SIZE;
    if two {
      var buf := Overwrite(TwoSectors(d[lba + sec], d[lba + sec + 1]), off, rec);
      if u == sec {
        assert ByteAt(PutRecord(d, lba, k, rec), lba, q) == buf[v];
      } else if u == sec + 1 {
        assert ByteAt(PutRecord(d, lba, k, rec), lba, q) == buf[SECTOR_SIZE + v];
      }
    }
  }

  /** Every other record is untouched, also when the record written spans two sectors. */
  lemma PutRecordOther(d: Disk, lba: nat, k: nat, rec: seq<byte>, m: nat)
    requires HasRecords(d, lba, k + 1) && HasRecords(d, lba, m + 1) && |rec| == RECORD
    ensures Record(PutRecord(d, lba, k, rec), lba, m) == if m == k then rec else Record(d, lba, m)
  {
    hide ByteAt, PutRecord;
    var e := PutRecord(d, lba, k, rec);
    var r := Record(e, lba, m);
    forall j | 0 <= j < RECORD ensures r[j] == if m == k then rec[j] else Record(d, lba, m)[j] {
      PutRecordByte(d, lba, k, rec, RECORD * m + j);
    }
  }

  // ---------------------------------------------------------------- sync and load

  function Load(d: Disk, lba: nat, k: nat): (n: Node)
    requires HasRecords(d, lba, k + 1)
    ensures Proper(n)
  {
    Decode(Record(d, lba, k))
  }

  /** What inode_sync makes of the disk.  The number is narrowed to a uint8_t on the way. */
  function Synced(d: Disk, lba: nat, n: Node): (e: Disk)
    requires |n.secs| == 13 && HasRecords(d, lba, 256)
    ensures |e| == |d|
  {
    PutRecord(d, lba, n.ino % 256, Encode(Pure(n)))
  }

  lemma SyncLoad(d: Disk, lba: nat, n: Node, m: nat)
    requires |n.secs| == 13 && HasRecords(d, lba, 256) && HasRecords(d, lba, m + 1)
    ensures Load(Synced(d, lba, n), lba, m) == if m == n.ino % 256 then Pure(n) else Load(d, lba, m)
  {
    hide Encode, Decode, PutRecord, Record;
    PutRecordOther(d, lba, n.ino % 256, Encode(Pure(n)), m);
    NodeRoundTrip(Pure(n));
  }

  /** What inode_delete makes of the disk. */
  function Erased(d: Disk, lba: nat, k: nat): (e: Disk)
    requires HasRecords(d, lba, k + 1)
    ensures |e| == |d|
  {
    PutRecord(d, lba, k, Zeros(RECORD))
  }

  /** The record of the number is cleared, byte by byte, so an empty inode is what loads. */
  lemma EraseClears(d: Disk, lba: nat, k: nat)
    requires HasRecords(d, lba, k + 1)
    ensures Record(Erased(d, lba, k), lba, k) == Zeros(RECORD)
    ensures var n := Load(Erased(d, lba, k), lba, k);
      n.ino == 0 && n.size == 0 && n.opens == 0 && n.deny == 0 && forall j :: 0 <= j < 13 ==> n.secs[j] == 0
  {
    hide PutRecord, Record, WordAt;
    PutRecordOther(d, lba, k, Zeros(RECORD), k);
    var ws := Unpack(Zeros(RECORD), RECORD_WORDS);
    forall i | 0 <= i < RECORD_WORDS ensures ws[i] == 0 {
      ZeroWord(i);
    }
  }

  lemma ZeroWord(i: nat)
    requires i < RECORD_WORDS
    ensures WordAt(Zeros(RECORD), 4 * i) == 0
  {
  }

  lemma EraseLoad(d: Disk, lba: nat, k: nat, m: nat)
    requires HasRecords(d, lba, k + 1) && HasRecords(d, lba, m + 1) && m != k
    ensures Load(Erased(d, lba, k), lba, m) == Load(d, lba, m)
  {
    hide Decode, PutRecord, Record;
    PutRecordOther(d, lba, k, Zeros(RECORD), m);
  }

  /** No record but that of the inode itself changes. */
  ghost predicate OthersKept(d: Disk, lba: nat, n: Node)
    requires |n.secs| == 13 && HasRecords(d, lba, 256)
  {
    forall m: nat :: HasRecords(d, lba, m + 1) && m != n.ino ==> Load(Synced(d, lba, n), lba, m) == Load(d, lba, m)
  }

  /** Exactly when a synced inode can be loaded again, and exactly when no other record changes:
      for numbers below 256, and beyond that only if the records happened to hold it already. */
  lemma SyncExact(d: Disk, lba: nat, n: Node)
    requires |n.secs| == 13 && HasRecords(d, lba, 256) && HasRecords(d, lba, n.ino + 1)
    ensures Load(Synced(d, lba, n), lba, n.ino) == Pure(n) <==> n.ino < 256 || Load(d, lba, n.ino) == Pure(n)
    ensures OthersKept(d, lba, n) <==> n.ino < 256 || Load(d, lba, n.ino % 256) == Pure(n)
  {
    hide Load, Synced, Pure;
    SyncLoad(d, lba, n, n.ino);
    OthersKeptExact(d, lba, n);
  }

  lemma OthersKeptExact(d: Disk, lba: nat, n: Node)
    requires |n.secs| == 13 && HasRecords(d, lba, 256)
    ensures OthersKept(d, lba, n) <==> n.ino < 256 || Load(d, lba, n.ino % 256) == Pure(n)
  {
    hide Load, Synced, Pure;
    var slot := n.ino % 256;
    RecordsBelow(d, lba, slot);
    SyncLoad(d, lba, n, slot);
    if n.ino < 256 || Load(d, lba, slot) == Pure(n) {
      forall m: nat | HasRecords(d, lba, m + 1) && m != n.ino
        ensures Load(Synced(d, lba, n), lba, m) == Load(d, lba, m)
      {
        SyncLoad(d, lba, n, m);
      }
    }
  }

  lemma RecordsBelow(d: Disk, lba: nat, k: nat)
    requires HasRecords(d, lba, 256) && k < 256
    ensures HasRecords(d, lba, k + 1)
  {
  }

  /** Syncing inode 256 writes over the record of inode 0. */
  lemma SyncNarrowingExample(d: Disk, lba: nat, n: Node)
    requires |n.secs| == 13 && HasRecords(d, lba, 257) && n.ino == 256
    ensures Load(Synced(d, lba, n), lba, 0) == Pure(n)
    ensures Load(Synced(d, lba, n), lba, 256) == Load(d, lba, 256)
  {
    SyncLoad(d, lba, n, 0);
    SyncLoad(d, lba, n, 256);
  }

  // ---------------------------------------------------------------- the open inodes

  /** part->open_inodes, head first. */
  type Cache = seq<Node>

  function Find(c: Cache, k: word): (j: int)
    ensures -1 <= j < |c|
    ensures j >= 0 ==> c[j].ino == k && forall i :: 0 <= i < j ==> c[i].ino != k
    ensures j == -1 ==> forall i :: 0 <= i < |c| ==> c[i].ino != k
  {
    if c == [] then -1
    else if c[0].ino == k then 0
    else
      var j := Find(c[1..], k);
      assert forall i :: 1 <= i < |c| ==> c[i] == c[1..][i - 1];
      if j == -1 then -1 else j + 1
  }

  /** The cache after inode_open; `loaded` is what the table holds for the number. */
  function Open(c: Cache, k: word, loaded: Node): Cache {
    var j := Find(c, k);
    if j >= 0 then c[j := c[j].(opens := c[j].opens + 1)] else [loaded.(opens := 1)] + c
  }

  /** The cache after inode_close of an open inode. */
  function Close(c: Cache, k: word): Cache
    requires Find(c, k) >= 0 && c[Find(c, k)].opens > 0
  {
    var j := Find(c, k);
    if c[j].opens == 1 then c[..j] + c[j + 1..] else c[j := c[j].(opens := c[j].opens - 1)]
  }

  class Store {
    const lba: nat        // sb->inode_table_lba
    var disk: Disk
    var open: Cache

    constructor (lba: nat, disk: Disk)
      ensures this.lba == lba && this.disk == disk && open == []
    {
      this.lba, this.disk, open := lba, disk, [];
    }

    /** inode_sync: read one or two sectors, replace the record, write them back. */
    method InodeSync(n: Node)
      requires |n.secs| == 13 && HasRecords(disk, lba, 256)
      modifies this`disk
      ensures disk == Synced(old(disk), lba, n)
    {
      var inodeNo := n.ino % 256;
      var (sec, off, two) := Locate(inodeNo);
      var rec := Encode(Pure(n));
      if two {
        var buf := TwoSectors(disk[lba + sec], disk[lba + sec + 1]);
        buf := Overwrite(buf, off, rec);
        disk := disk[lba + sec := buf[..SECTOR_SIZE]];
        disk := disk[lba + sec + 1 := buf[SECTOR_SIZE..]];
      } else {
        disk := disk[lba + sec := Overwrite(disk[lba + sec], off, rec)];
      }
    }

    /** inode_delete: the record of the full number is cleared. */
    method InodeDelete(k: nat)
      requires HasRecords(disk, lba, k + 1)
      modifies this`disk
      ensures disk == Erased(old(disk), lba, k)
    {
      var (sec, off, two) := Locate(k);
      if two {
        var buf := TwoSectors(disk[lba + sec], disk[lba + sec + 1]);
        buf := Overwrite(buf, off, Zeros(RECORD));
        disk := disk[lba + sec := buf[..SECTOR_SIZE]];
        disk := disk[lba + sec + 1 := buf[SECTOR_SIZE..]];
      } else {
        disk := disk[lba + sec := Overwrite(disk[lba + sec], off, Zeros(RECORD))];
      }
    }

    /** inode_open: the cached inode, its count one higher, or one loaded from the table. */
    method InodeOpen(k: word) returns (n: Node)
      requires HasRecords(disk, lba, k + 1)
      modifies this`open
      ensures open == Open(old(open), k, Load(disk, lba, k))
      ensures n in open && (Find(old(open), k) >= 0 || Load(disk, lba, k).ino == k ==> n.ino == k)
      ensures var j := Find(old(open), k);
        n == if j >= 0 then old(open)[j].(opens := old(open)[j].opens + 1) else Load(disk, lba, k).(opens := 1)
      ensures var j := Find(old(open), k); open == if j >= 0 then old(open)[j := n] else [n] + old(open)
    {
      hide Load, HasRecords;
      var j := 0;
      while j < |open|
        invariant 0 <= j <= |open| && open == old(open)
        invariant forall i :: 0 <= i < j ==> open[i].ino != k
      {
        if open[j].ino == k {
          assert Find(open, k) == j;
          n := open[j].(opens := open[j].opens + 1);
          open := open[j := n];
          assert open[j] == n;
          return;
        }
        j := j + 1;
      }
      n := Load(disk, lba, k).(opens := 1);
      open := [n] + open;
    }

    /** inode_close: the count one lower; the inode leaves the list at zero. */
    method InodeClose(k: word)
      requires Find(open, k) >= 0 && open[Find(open, k)].opens > 0
      modifies this`open
      ensures open == Close(old(open), k)
      ensures var j := Find(old(open), k);
        if old(open)[j].opens == 1 then open == old(open)[..j] + old(open)[j + 1..]
        else open == old(open)[j := old(open)[j].(opens := old(open)[j].opens - 1)]
    {
      var j := Find(open, k);
      var n := open[j].(opens := open[j].opens - 1);
      if n.opens == 0 {
        open := open[..j] + open[j + 1..];
      } else {
        open := open[j := n];
      }
    }
  }

  // ---------------------------------------------------------------- every history of the cache

  datatype Event = Opening(k: word, loaded: Node) | Closing(k: word)

  /** Opens minus closes of inode k. */
  function Balance(h: seq<Event>, k: word): int {
    if h == [] then 0 else
    Balance(h[..|h| - 1], k) +
      match h[|h| - 1]
      case Opening(i, _) => if i == k then 1 else 0
      case Closing(i) => if i == k then -1 else 0
  }

  /** Histories in which an inode is closed no more often than opened, and a loaded record carries
      its own number. */
  ghost predicate Legal(h: seq<Event>) {
    h == [] ||
    (Legal(h[..|h| - 1]) &&
     match h[|h| - 1]
     case Opening(k, loaded) => loaded.ino == k
     case Closing(k) => Balance(h[..|h| - 1], k) > 0)
  }

  /** How often inode k counts as open in the cache. */
  function Count(c: Cache, k: word): nat {
    if Find(c, k) >= 0 then c[Find(c, k)].opens else 0
  }

  ghost predicate Unique(c: Cache) {
    && (forall i, j :: 0 <= i < j < |c| ==> c[i].ino != c[j].ino)
    && (forall i :: 0 <= i < |c| ==> c[i].opens > 0)
  }

  /** The cache after a history, with the proof that it has one entry per number and that every
      count is opens minus closes. */
  ghost function After(h: seq<Event>): (c: Cache)
    requires Legal(h)
    ensures Unique(c) && forall k: word :: Count(c, k) == Balance(h, k)
  {
    if h == [] then [] else
    var c := After(h[..|h| - 1]);
    match h[|h| - 1]
    case Opening(k, loaded) => OpenCounts(c, k, loaded); Open(c, k, loaded)
    case Closing(k) => CloseCounts(c, k); Close(c, k)
  }

  lemma FindUnique(c: Cache, j: nat)
    requires Unique(c) && j < |c|
    ensures Find(c, c[j].ino) == j
  {
  }

  lemma OpenCounts(c: Cache, k: word, loaded: Node)
    requires Unique(c) && loaded.ino == k
    ensures Unique(Open(c, k, loaded))
    ensures forall m: word :: Count(Open(c, k, loaded), m) == Count(c, m) + if m == k then 1 else 0
  {
    hide Find, Open;
    OpenUnique(c, k, loaded);
    forall m: word ensures Count(Open(c, k, loaded), m) == Count(c, m) + if m == k then 1 else 0 {
      OpenCount(c, k, loaded, m);
    }
  }

  lemma OpenUnique(c: Cache, k: word, loaded: Node)
    requires Unique(c) && loaded.ino == k
    ensures Unique(Open(c, k, loaded))
  {
    hide Find;
  }

  lemma OpenCount(c: Cache, k: word, loaded: Node, m: word)
    requires Unique(c) && loaded.ino == k && Unique(Open(c, k, loaded))
    ensures Count(Open(c, k, loaded), m) == Count(c, m) + if m == k then 1 else 0
  {
    hide Find, Unique;
    var d, j := Open(c, k, loaded), Find(c, m);
    if j >= 0 {
      var i := if Find(c, k) >= 0 then j else j + 1;
      assert d[i].ino == m;
      FindUnique(d, i);
    } else if m == k {
      FindUnique(d, 0);
    } else {
      assert forall i :: 0 <= i < |d| ==> d[i].ino != m;
    }
  }

  lemma CloseCounts(c: Cache, k: word)
    requires Unique(c) && Count(c, k) > 0
    ensures Unique(Close(c, k))
    ensures forall m: word :: Count(Close(c, k), m) == Count(c, m) - if m == k then 1 else 0
  {
    CloseUnique(c, k);
    forall m: word ensures Count(Close(c, k), m) == Count(c, m) - if m == k then 1 else 0 {
      CloseCount(c, k, m);
    }
  }

  lemma CloseUnique(c: Cache, k: word)
    requires Unique(c) && Count(c, k) > 0
    ensures Unique(Close(c, k))
  {
    hide Find, Close;
    var d, g := Close(c, k), Find(c, k);
    CloseShape(c, k);
    forall i, j | 0 <= i < j < |d| ensures d[i].ino != d[j].ino {
      OnlyOne(c, Origin(c, d, g, i), Origin(c, d, g, j));
    }
  }

  /** Where entry i of the closed cache d came from. */
  ghost function Origin(c: Cache, d: Cache, g: int, i: nat): nat {
    if |d| < |c| && i >= g then i + 1 else i
  }

  lemma CloseShape(c: Cache, k: word)
    requires Unique(c) && Count(c, k) > 0
    ensures var d, g := Close(c, k), Find(c, k);
      && |d| == |c| - (if c[g].opens == 1 then 1 else 0)
      && forall i :: 0 <= i < |d| ==>
           Origin(c, d, g, i) < |c| && d[i].ino == c[Origin(c, d, g, i)].ino && d[i].opens > 0
  {
    hide Find;
  }

  lemma CloseCount(c: Cache, k: word, m: word)
    requires Unique(c) && Count(c, k) > 0 && Unique(Close(c, k))
    ensures Count(Close(c, k), m) == Count(c, m) - if m == k then 1 else 0
  {
    hide Find, Unique;
    var d, g := Close(c, k), Find(c, k);
    var gone := c[g].opens == 1;
    var j := Find(c, m);
    if j >= 0 && (m != k || !gone) {
      var i := if gone && j > g then j - 1 else j;
      assert d[i].ino == m;
      FindUnique(d, i);
    } else {
      CloseShape(c, k);
      forall i | 0 <= i < |d| ensures d[i].ino != m {
        if j >= 0 {
          OnlyOne(c, Origin(c, d, g, i), g);
        }
      }
    }
  }

  lemma OnlyOne(c: Cache, i: nat, j: nat)
    requires Unique(c) && i < |c| && j < |c| && i != j
    ensures c[i].ino != c[j].ino
  {
  }
}
