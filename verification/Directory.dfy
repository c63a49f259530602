/** Directories of fs/dir.c.  A directory is an inode whose blocks hold 21 entries of 24 bytes
    each; an entry with f_type FT_UNKNOWN is a hole.  This module gives the entries a sector
    holds, the live entries of a directory in slot order, and the map from names they form. */
module Directory {
  import opened Options
  import opened Bytes
  import opened BlockMap
  import opened Volume

  const NAME_LEN := 16
  const ENTRY_SIZE := 24
  const PER_SECTOR := 21

  const FT_UNKNOWN: word := 0
  const FT_REGULAR: word := 1
  const FT_DIRECTORY: word := 2

  const DOT: byte := 46
  const SLASH: byte := 47

  // ---------------------------------------------------------------- entries and sectors

  /** struct dir_entry; filename is the raw array. */
  datatype DirEntry = DirEntry(filename: seq<byte>, ino: word, ftype: word)

  predicate Proper(e: DirEntry) { |e.filename| == NAME_LEN }

  /** A C string: the bytes before the first zero. */
  function CStr(s: seq<byte>): (r: seq<byte>)
    ensures |r| <= |s| && r == s[..|r|]
    ensures forall k :: 0 <= k < |r| ==> r[k] != 0
    ensures |r| < |s| ==> s[|r|] == 0
  {
    if s == [] || s[0] == 0 then [] else
    var t := CStr(s[1..]);
    [s[0]] + t
  }

  function NameOf(e: DirEntry): seq<byte> { CStr(e.filename) }

  /** What a file may be called: 1 to 15 bytes, none of them zero. */
  predicate IsName(s: seq<byte>) {
    0 < |s| < NAME_LEN && forall k :: 0 <= k < |s| ==> s[k] != 0
  }

  /** create_dir_entry on a cleared entry. */
  function MakeEntry(name: seq<byte>, ino: word, ftype: word): (e: DirEntry)
    requires |name| <= NAME_LEN
    ensures Proper(e)
  {
    DirEntry(name + Zeros(NAME_LEN - |name|), ino, ftype)
  }

  lemma {:induction false} CStrPadded(name: seq<byte>, n: nat)
    requires forall k :: 0 <= k < |name| ==> name[k] != 0
    ensures CStr(name + Zeros(n)) == name
  {
    if name != [] {
      assert (name + Zeros(n))[1..] == name[1..] + Zeros(n);
      CStrPadded(name[1..], n);
    }
  }

  lemma MadeName(name: seq<byte>, ino: word, ftype: word)
    requires IsName(name)
    ensures NameOf(MakeEntry(name, ino, ftype)) == name
  {
    CStrPadded(name, NAME_LEN - |name|);
  }

  function Encode(e: DirEntry): (s: seq<byte>)
    requires Proper(e)
    ensures |s| == ENTRY_SIZE
  {
    e.filename + Le32(e.ino) + Le32(e.ftype)
  }

  function Decode(s: seq<byte>): (e: DirEntry)
    requires |s| == ENTRY_SIZE
    ensures Proper(e)
  {
    DirEntry(s[..NAME_LEN], WordAt(s, 16), WordAt(s, 20))
  }

  lemma EntryRoundTrip(e: DirEntry)
    requires Proper(e)
    ensures Decode(Encode(e)) == e
  {
    var s := Encode(e);
    assert s[..NAME_LEN] == e.filename && s[16..20] == Le32(e.ino) && s[20..24] == Le32(e.ftype);
    Le32RoundTrip(e.ino);
    Le32RoundTrip(e.ftype);
  }

  function EntryAt(s: Sector, j: nat): (e: DirEntry)
    requires j < PER_SECTOR
    ensures Proper(e)
  {
    Decode(s[ENTRY_SIZE * j..ENTRY_SIZE * j + ENTRY_SIZE])
  }

  function Entries(s: Sector): (es: seq<DirEntry>)
    ensures |es| == PER_SECTOR
    ensures forall j :: 0 <= j < PER_SECTOR ==> es[j] == EntryAt(s, j)
  {
    seq(PER_SECTOR, j requires 0 <= j < PER_SECTOR => EntryAt(s, j))
  }

  /** memcpy of an entry into slot j of a sector buffer. */
  function PutEntry(s: Sector, j: nat, e: DirEntry): (r: Sector)
    requires j < PER_SECTOR && Proper(e)
  {
    Overwrite(s, ENTRY_SIZE * j, Encode(e))
  }

  lemma PutEntryUpdates(s: Sector, j: nat, e: DirEntry)
    requires j < PER_SECTOR && Proper(e)
    ensures Entries(PutEntry(s, j, e)) == Entries(s)[j := e]
  {
    var r := PutEntry(s, j, e);
    forall k | 0 <= k < PER_SECTOR ensures EntryAt(r, k) == Entries(s)[j := e][k] {
      var got := r[ENTRY_SIZE * k..ENTRY_SIZE * k + ENTRY_SIZE];
      if k == j {
        assert got == Encode(e);
        EntryRoundTrip(e);
      } else {
        assert got == s[ENTRY_SIZE * k..ENTRY_SIZE * k + ENTRY_SIZE];
      }
    }
  }

  /** A hole: an entry of zeros. */
  const HOLE: DirEntry := DirEntry(Zeros(NAME_LEN), 0, 0)

  lemma ClearedSector()
    ensures forall j :: 0 <= j < PER_SECTOR ==> Entries(Zeros(SECTOR_SIZE))[j] == HOLE
  {
    forall j | 0 <= j < PER_SECTOR ensures EntryAt(Zeros(SECTOR_SIZE), j) == HOLE {
      var s: seq<byte> := Zeros(SECTOR_SIZE)[ENTRY_SIZE * j..ENTRY_SIZE * j + ENTRY_SIZE];
      assert s[..NAME_LEN] == Zeros(NAME_LEN);
      assert forall k :: 0 <= k < ENTRY_SIZE ==> s[k] == 0;
      var a, b := s[16..20], s[20..24];
      assert Word(a) == 0 && Word(b) == 0;
    }
  }

  // ---------------------------------------------------------------- the slots of a directory

  /** The slots of blocks lo .. hi - 1, in order; absent blocks contribute none. */
  ghost function Slots(d: Disk, bm: seq<nat>, lo: nat, hi: nat): (s: seq<DirEntry>)
    requires lo <= hi <= |bm| && forall k :: 0 <= k < |bm| ==> bm[k] < |d|
    decreases hi
  {
    if lo == hi then [] else
    Slots(d, bm, lo, hi - 1) + if bm[hi - 1] == 0 then [] else Entries(d[bm[hi - 1]])
  }

  lemma Assoc(a: seq<DirEntry>, b: seq<DirEntry>, c: seq<DirEntry>)
    ensures a + b + c == a + (b + c)
  {
  }

  lemma SlotsLast(d: Disk, bm: seq<nat>, lo: nat, hi: nat)
    requires lo <= hi <= |bm| && forall k :: 0 <= k < |bm| ==> bm[k] < |d|
    ensures Slots(d, bm, lo, hi) == if lo == hi then [] else Slots(d, bm, lo, hi - 1) + BlockSlots(d, bm, hi - 1)
  {
  }

  lemma {:induction false} SlotsSplit(d: Disk, bm: seq<nat>, lo: nat, mid: nat, hi: nat)
    requires lo <= mid <= hi <= |bm| && forall k :: 0 <= k < |bm| ==> bm[k] < |d|
    ensures Slots(d, bm, lo, hi) == Slots(d, bm, lo, mid) + Slots(d, bm, mid, hi)
    decreases hi
  {
    hide Slots, BlockSlots;
    SlotsLast(d, bm, mid, hi);
    if mid < hi {
      SlotsLast(d, bm, lo, hi);
      SlotsSplit(d, bm, lo, mid, hi - 1);
      Assoc(Slots(d, bm, lo, mid), Slots(d, bm, mid, hi - 1), BlockSlots(d, bm, hi - 1));
    } else {
      assert Slots(d, bm, lo, hi) + [] == Slots(d, bm, lo, hi);
    }
  }

  /** Slots of a range depend only on the pointers and sectors of that range. */
  lemma {:induction false} SlotsSame(d: Disk, bm: seq<nat>, e: Disk, cm: seq<nat>, lo: nat, hi: nat)
    requires lo <= hi <= |bm| == |cm|
    requires (forall k :: 0 <= k < |bm| ==> bm[k] < |d|) && (forall k :: 0 <= k < |cm| ==> cm[k] < |e|)
    requires forall k :: lo <= k < hi ==> cm[k] == bm[k] && (bm[k] != 0 ==> e[bm[k]] == d[bm[k]])
    ensures Slots(e, cm, lo, hi) == Slots(d, bm, lo, hi)
    decreases hi
  {
    hide Slots, Entries;
    SlotsLast(d, bm, lo, hi);
    SlotsLast(e, cm, lo, hi);
    if lo < hi {
      SlotsSame(d, bm, e, cm, lo, hi - 1);
    }
  }

  /** The entries in use, in slot order. */
  function LiveOf(es: seq<DirEntry>): (r: seq<DirEntry>)
    ensures |r| <= |es|
  {
    if es == [] then [] else
    var n := |es| - 1;
    LiveOf(es[..n]) + if es[n].ftype != FT_UNKNOWN then [es[n]] else []
  }

  lemma {:induction false} LiveMember(es: seq<DirEntry>, e: DirEntry)
    ensures e in LiveOf(es) <==> e in es && e.ftype != FT_UNKNOWN
  {
    if es != [] {
      var n := |es| - 1;
      assert es == es[..n] + [es[n]];
      LiveMember(es[..n], e);
    }
  }

  lemma {:induction false} LiveOfConcat(a: seq<DirEntry>, b: seq<DirEntry>)
    ensures LiveOf(a + b) == LiveOf(a) + LiveOf(b)
  {
    if b == [] {
      assert a + b == a;
    } else {
      var n := |b| - 1;
      assert (a + b)[..|a| + n] == a + b[..n] && (a + b)[|a| + n] == b[n];
      LiveOfConcat(a, b[..n]);
      Assoc(LiveOf(a), LiveOf(b[..n]), if b[n].ftype != FT_UNKNOWN then [b[n]] else []);
    }
  }

  /** The entries a directory has in use. */
  ghost function Live(d: Disk, bm: seq<nat>): seq<DirEntry>
    requires |bm| == MAX_BLOCKS && forall k :: 0 <= k < |bm| ==> bm[k] < |d|
  {
    LiveOf(Slots(d, bm, 0, MAX_BLOCKS))
  }

  lemma SlotsOfBlock(d: Disk, bm: seq<nat>, k: nat)
    requires k < |bm| && forall k :: 0 <= k < |bm| ==> bm[k] < |d|
    ensures Slots(d, bm, k, k + 1) == if bm[k] == 0 then [] else Entries(d[bm[k]])
  {
    assert Slots(d, bm, k, k) == [];
  }

  /** Live entries around block k. */
  lemma LiveAround(d: Disk, bm: seq<nat>, k: nat)
    requires |bm| == MAX_BLOCKS && k < MAX_BLOCKS && forall k :: 0 <= k < |bm| ==> bm[k] < |d|
    ensures Live(d, bm) == LiveOf(Slots(d, bm, 0, k))
      + LiveOf(if bm[k] == 0 then [] else Entries(d[bm[k]])) + LiveOf(Slots(d, bm, k + 1, MAX_BLOCKS))
  {
    hide LiveOf, Entries, Slots;
    var a, b, c := Slots(d, bm, 0, k), Slots(d, bm, k, k + 1), Slots(d, bm, k + 1, MAX_BLOCKS);
    SlotsSplit(d, bm, 0, k, MAX_BLOCKS);
    SlotsSplit(d, bm, k, k + 1, MAX_BLOCKS);
    SlotsOfBlock(d, bm, k);
    LiveOfThree(a, b, c);
  }

  lemma LiveOfThree(a: seq<DirEntry>, b: seq<DirEntry>, c: seq<DirEntry>)
    ensures LiveOf(a + (b + c)) == LiveOf(a) + LiveOf(b) + LiveOf(c)
  {
    hide LiveOf;
    LiveOfConcat(a, b + c);
    LiveOfConcat(b, c);
  }

  /** Filling a hole of a row of slots. */
  lemma LiveFill(es: seq<DirEntry>, j: nat, e: DirEntry)
    requires j < |es| && es[j].ftype == FT_UNKNOWN && e.ftype != FT_UNKNOWN
    ensures LiveOf(es[j := e]) == LiveOf(es[..j]) + [e] + LiveOf(es[j + 1..])
    ensures LiveOf(es) == LiveOf(es[..j]) + LiveOf(es[j + 1..])
  {
    LiveOne(es, j);
    LiveOne(es[j := e], j);
    assert es[j := e][..j] == es[..j] && es[j := e][j + 1..] == es[j + 1..];
  }

  lemma SplitAt(es: seq<DirEntry>, j: nat)
    requires j < |es|
    ensures es[..j] + ([es[j]] + es[j + 1..]) == es
  {
  }

  lemma LiveOne(es: seq<DirEntry>, j: nat)
    requires j < |es|
    ensures LiveOf(es) == LiveOf(es[..j]) + (if es[j].ftype != FT_UNKNOWN then [es[j]] else []) + LiveOf(es[j + 1..])
  {
    hide LiveOf;
    SplitAt(es, j);
    LiveOfThree(es[..j], [es[j]], es[j + 1..]);
    LiveOfSingle(es[j]);
  }

  lemma LiveOfSingle(e: DirEntry)
    ensures LiveOf([e]) == if e.ftype != FT_UNKNOWN then [e] else []
  {
  }

  // ---------------------------------------------------------------- lookup by name

  /** The first entry with the given name. */
  function Lookup(es: seq<DirEntry>, name: seq<byte>): (r: Option<DirEntry>)
    ensures r.Some? ==> r.value in es && NameOf(r.value) == name
    ensures r.None? ==> forall e :: e in es ==> NameOf(e) != name
  {
    if es == [] then None
    else if NameOf(es[0]) == name then Some(es[0])
    else Lookup(es[1..], name)
  }

  lemma {:induction false} LookupConcat(a: seq<DirEntry>, b: seq<DirEntry>, name: seq<byte>)
    ensures Lookup(a + b, name) == if Lookup(a, name).Some? then Lookup(a, name) else Lookup(b, name)
  {
    if a == [] {
      assert a + b == b;
    } else {
      assert (a + b)[1..] == a[1..] + b;
      LookupConcat(a[1..], b, name);
    }
  }

  /** Holes have no name and no inode number. */
  ghost predicate Clean(es: seq<DirEntry>) {
    forall k :: 0 <= k < |es| && es[k].ftype == FT_UNKNOWN ==> NameOf(es[k]) == [] && es[k].ino == 0
  }

  /** Searching the slots by name is searching the live entries: the code does not test f_type. */
  lemma {:induction false} LookupSkipsHoles(es: seq<DirEntry>, name: seq<byte>)
    requires Clean(es) && name != []
    ensures Lookup(es, name) == Lookup(LiveOf(es), name)
  {
    if es != [] {
      var n := |es| - 1;
      assert es == es[..n] + [es[n]];
      LookupSkipsHoles(es[..n], name);
      LookupConcat(es[..n], [es[n]], name);
      LookupConcat(LiveOf(es[..n]), if es[n].ftype != FT_UNKNOWN then [es[n]] else [], name);
    }
  }

  /** Every pointer of an inode is zero or names a sector of the disk. */
  ghost predicate Readable(d: Disk, secs: seq<nat>) {
    Shaped(d, secs) && forall k :: 0 <= k < MAX_BLOCKS ==> Blocks(d, secs)[k] < |d|
  }

  lemma SoundIsReadable(d: Disk, secs: seq<nat>, lo: nat, hi: nat)
    requires Sound(d, secs, lo, hi)
    ensures Readable(d, secs)
  {
    forall k | 0 <= k < MAX_BLOCKS ensures Blocks(d, secs)[k] < |d| {
      assert Blocks(d, secs)[k] == 0 || Blocks(d, secs)[k] < hi;
    }
  }

  /** The inner loop of search_dir_entry. */
  method SearchSector(s: Sector, name: seq<byte>) returns (r: Option<DirEntry>)
    ensures r == Lookup(Entries(s), name)
  {
    hide EntryAt;
    ghost var es := Entries(s);
    var idx := 0;
    assert es[0..] == es;
    while idx < PER_SECTOR
      invariant 0 <= idx <= PER_SECTOR
      invariant Lookup(es, name) == Lookup(es[idx..], name)
    {
      var e := EntryAt(s, idx);
      assert es[idx..][0] == e && es[idx..][1..] == es[idx + 1..];
      if NameOf(e) == name {
        return Some(e);
      }
      idx := idx + 1;
    }
    r := None;
  }

  /** search_dir_entry: the first slot of the directory that carries the name. */
  method SearchDirEntry(d: Disk, secs: seq<nat>, name: seq<byte>) returns (r: Option<DirEntry>)
    requires Readable(d, secs)
    ensures r == Lookup(Slots(d, Blocks(d, secs), 0, MAX_BLOCKS), name)
  {
    hide Entries, NameOf, Lookup;
    var all := Blocks(d, secs);
    var blockIdx := 0;
    LookupEmpty(name);
    while blockIdx < MAX_BLOCKS
      invariant 0 <= blockIdx <= MAX_BLOCKS
      invariant Lookup(Slots(d, all, 0, blockIdx), name) == None
    {
      SlotsSplit(d, all, 0, blockIdx, blockIdx + 1);
      SlotsOfBlock(d, all, blockIdx);
      if all[blockIdx] == 0 {
        assert Slots(d, all, 0, blockIdx + 1) == Slots(d, all, 0, blockIdx);
        blockIdx := blockIdx + 1;
        continue;
      }
      LookupConcat(Slots(d, all, 0, blockIdx), Entries(d[all[blockIdx]]), name);
      r := SearchSector(d[all[blockIdx]], name);
      if r.Some? {
        SlotsSplit(d, all, 0, blockIdx + 1, MAX_BLOCKS);
        LookupConcat(Slots(d, all, 0, blockIdx + 1), Slots(d, all, blockIdx + 1, MAX_BLOCKS), name);
        return;
      }
      blockIdx := blockIdx + 1;
    }
    r := None;
  }

  lemma LookupEmpty(name: seq<byte>)
    ensures Lookup([], name) == None
  {
  }

  // ---------------------------------------------------------------- reading a directory

  /** The inner loop of dir_read.  `cur` counts the live entries passed so far, in bytes, and
      entries are passed until it reaches `pos`; m and n are these counts in entries. */
  method ReadSector(s: Sector, start: nat, pos: nat, ghost m: nat, ghost n: nat) returns (r: Option<DirEntry>, cur: nat)
    requires m <= n && start == ENTRY_SIZE * m && pos == ENTRY_SIZE * n
    ensures var live := LiveOf(Entries(s));
      if n < m + |live| then r == Some(live[n - m]) else r == None && cur == ENTRY_SIZE * (m + |live|)
  {
    hide EntryAt, LiveOf;
    ghost var es := Entries(s);
    var idx := 0;
    cur := start;
    assert es[..0] == [];
    LiveOfEmpty();
    while idx < PER_SECTOR
      invariant 0 <= idx <= PER_SECTOR
      invariant m + |LiveOf(es[..idx])| <= n && cur == ENTRY_SIZE * (m + |LiveOf(es[..idx])|)
    {
      var e := EntryAt(s, idx);
      assert es[..idx + 1] == es[..idx] + [e];
      LiveOfConcat(es[..idx], [e]);
      LiveOfSingle(e);
      if e.ftype != FT_UNKNOWN {
        if cur < pos {
          cur := cur + ENTRY_SIZE;
          idx := idx + 1;
          continue;
        }
        LiveOfConcat(es[..idx + 1], es[idx + 1..]);
        assert es == es[..idx + 1] + es[idx + 1..];
        assert LiveOf(es)[|LiveOf(es[..idx])|] == e;
        return Some(e), cur;
      }
      idx := idx + 1;
    }
    assert es[..PER_SECTOR] == es;
    r := None;
  }

  /** i_size is exact: 24 bytes for each live entry. */
  ghost predicate ExactSize(d: Disk, ino: Inode) {
    Readable(d, ino.secs) && ino.size == ENTRY_SIZE * |Live(d, Blocks(d, ino.secs))|
  }

  /** dir_read with dir_pos == pos: the live entry at that position and dir_pos moved behind it,
      or NULL at the end.  The block index has no bound in the loop guard; an exact i_size is
      what keeps it inside the block map. */
  method DirRead(d: Disk, ino: Inode, pos: nat) returns (r: Option<DirEntry>, newPos: nat)
    requires ExactSize(d, ino) && pos % ENTRY_SIZE == 0
    ensures if pos < ino.size then r == Some(Live(d, Blocks(d, ino.secs))[pos / ENTRY_SIZE])
      && newPos == pos + ENTRY_SIZE
            else r == None && newPos == pos
  {
    hide Entries, LiveOf, Slots, Blocks;
    var all := Blocks(d, ino.secs);
    var blockIdx, cur := 0, 0;
    newPos := pos;
    ghost var n := pos / ENTRY_SIZE;
    ghost var live := Live(d, all);
    LiveUpToStart(d, all);
    while pos < ino.size
      invariant 0 <= blockIdx <= MAX_BLOCKS
      invariant cur == ENTRY_SIZE * |LiveUpTo(d, all, blockIdx)|
      invariant |LiveUpTo(d, all, blockIdx)| <= n
      decreases MAX_BLOCKS - blockIdx
    {
      LiveUpToStep(d, all, blockIdx);
      if all[blockIdx] == 0 {
        blockIdx := blockIdx + 1;
        continue;
      }
      r, cur := ReadSector(d[all[blockIdx]], cur, pos, |LiveUpTo(d, all, blockIdx)|, n);
      if r.Some? {
        newPos := pos + ENTRY_SIZE;
        return;
      }
      blockIdx := blockIdx + 1;
    }
    r := None;
  }

  /** The live entries of the first k blocks. */
  ghost function LiveUpTo(d: Disk, bm: seq<nat>, k: nat): seq<DirEntry>
    requires k <= |bm| == MAX_BLOCKS && forall k :: 0 <= k < |bm| ==> bm[k] < |d|
  {
    LiveOf(Slots(d, bm, 0, k))
  }

  lemma LiveUpToStart(d: Disk, bm: seq<nat>)
    requires |bm| == MAX_BLOCKS && forall k :: 0 <= k < |bm| ==> bm[k] < |d|
    ensures LiveUpTo(d, bm, 0) == [] && LiveUpTo(d, bm, MAX_BLOCKS) == Live(d, bm)
  {
  }

  lemma LiveUpToStep(d: Disk, bm: seq<nat>, k: nat)
    requires k < |bm| == MAX_BLOCKS && forall k :: 0 <= k < |bm| ==> bm[k] < |d|
    ensures LiveUpTo(d, bm, k + 1) == LiveUpTo(d, bm, k) + if bm[k] == 0 then [] else LiveOf(Entries(d[bm[k]]))
    ensures LiveUpTo(d, bm, k + 1) <= Live(d, bm)
  {
    hide Entries;
    SlotsSplit(d, bm, 0, k + 1, MAX_BLOCKS);
    LiveOfConcat(Slots(d, bm, 0, k + 1), Slots(d, bm, k + 1, MAX_BLOCKS));
    if bm[k] == 0 {
      assert Slots(d, bm, 0, k + 1) == Slots(d, bm, 0, k);
    } else {
      LiveOfConcat(Slots(d, bm, 0, k), Entries(d[bm[k]]));
    }
  }

  lemma LiveOfEmpty()
    ensures LiveOf([]) == []
  {
  }

  /** Rewinding and reading until NULL lists every live entry once, in slot order. */
  method ListAll(d: Disk, ino: Inode) returns (list: seq<DirEntry>)
    requires ExactSize(d, ino)
    ensures list == Live(d, Blocks(d, ino.secs))
  {
    hide Blocks, Live;
    list := [];
    var pos := 0;
    ghost var live := Live(d, Blocks(d, ino.secs));
    while true
      invariant pos == ENTRY_SIZE * |list| && |list| <= |live| && list == live[..|list|]
      decreases |live| - |list|
    {
      var e, next := DirRead(d, ino, pos);
      if e.None? {
        break;
      }
      assert live[..|list| + 1] == live[..|list|] + [live[|list|]];
      list, pos := list + [e.value], next;
    }
    assert live[..|live|] == live;
  }

  // ---------------------------------------------------------------- a directory as a map

  datatype Target = Target(ino: word, ftype: word)

  ghost function Names(es: seq<DirEntry>): set<seq<byte>> {
    set e | e in es :: NameOf(e)
  }

  lemma NameListed(es: seq<DirEntry>, name: seq<byte>)
    ensures name in Names(es) <==> Lookup(es, name).Some?
  {
  }

  /** What a row of entries means: each name stands for the first entry carrying it. */
  ghost function DirMap(es: seq<DirEntry>): (m: map<seq<byte>, Target>)
    ensures m.Keys == Names(es)
  {
    map n | n in Names(es) :: (NameListed(es, n); var e := Lookup(es, n).value; Target(e.ino, e.ftype))
  }

  ghost predicate Distinct(es: seq<DirEntry>) {
    forall i, j :: 0 <= i < j < |es| ==> NameOf(es[i]) != NameOf(es[j])
  }

  /** Putting an entry with a new name anywhere into the row adds it to the map, and taking it
      out again removes it. */
  lemma MapInsert(a: seq<DirEntry>, e: DirEntry, b: seq<DirEntry>)
    requires NameOf(e) !in Names(a + b)
    ensures DirMap(a + [e] + b) == DirMap(a + b)[NameOf(e) := Target(e.ino, e.ftype)]
    ensures DirMap(a + b) == DirMap(a + [e] + b) - {NameOf(e)}
  {
    hide NameOf;
    var n := NameOf(e);
    forall m ensures Lookup(a + [e] + b, m) == if m == n then Some(e) else Lookup(a + b, m) {
      LookupConcat(a + [e], b, m);
      LookupConcat(a, [e], m);
      LookupConcat(a, b, m);
      LookupOne(e, m);
      NameListed(a + b, n);
    }
    forall m ensures m in Names(a + [e] + b) <==> m == n || m in Names(a + b) {
      NameListed(a + [e] + b, m);
      NameListed(a + b, m);
    }
  }

  lemma LookupOne(e: DirEntry, m: seq<byte>)
    ensures Lookup([e], m) == if m == NameOf(e) then Some(e) else None
  {
    assert Lookup([e][1..], m) == None;
  }

  lemma DistinctInsert(a: seq<DirEntry>, e: DirEntry, b: seq<DirEntry>)
    ensures Distinct(a + [e] + b) <==> Distinct(a + b) && NameOf(e) !in Names(a + b)
  {
    hide NameOf;
    var x, y := a + [e] + b, a + b;
    if Distinct(y) && NameOf(e) !in Names(y) {
      forall i, j | 0 <= i < j < |x| ensures NameOf(x[i]) != NameOf(x[j]) {
        DistinctPair(a, e, b, i, j);
      }
    }
    if Distinct(x) {
      forall i, j | 0 <= i < j < |y| ensures NameOf(y[i]) != NameOf(y[j]) {
        var i', j' := if i < |a| then i else i + 1, if j < |a| then j else j + 1;
        assert x[i'] == y[i] && x[j'] == y[j];
      }
      forall f | f in y ensures NameOf(f) != NameOf(e) {
        var i :| 0 <= i < |y| && y[i] == f;
        var i' := if i < |a| then i else i + 1;
        assert x[i'] == f && x[|a|] == e;
      }
    }
  }

  lemma DistinctPair(a: seq<DirEntry>, e: DirEntry, b: seq<DirEntry>, i: nat, j: nat)
    requires Distinct(a + b) && NameOf(e) !in Names(a + b) && i < j < |a| + 1 + |b|
    ensures NameOf((a + [e] + b)[i]) != NameOf((a + [e] + b)[j])
  {
    hide NameOf;
    var x, y := a + [e] + b, a + b;
    var i', j' := if i <= |a| then i else i - 1, if j <= |a| then j else j - 1;
    if i == |a| {
      assert x[j] == y[j'] && y[j'] in y;
    } else if j == |a| {
      assert x[i] == y[i'] && y[i'] in y;
    } else {
      assert x[i] == y[i'] && x[j] == y[j'];
    }
  }

  // ---------------------------------------------------------------- what keeps a directory in order

  predicate IsDot(e: DirEntry) { NameOf(e) == [DOT] || NameOf(e) == [DOT, DOT] }

  /** No two entries but the dots name the same inode. */
  ghost predicate UniqueInos(es: seq<DirEntry>) {
    forall i, j :: 0 <= i < j < |es| && !IsDot(es[i]) && !IsDot(es[j]) ==> es[i].ino != es[j].ino
  }

  ghost predicate AllNamed(es: seq<DirEntry>) {
    forall k :: 0 <= k < |es| ==> IsName(NameOf(es[k]))
  }

  /** Holes of every block have no name. */
  ghost predicate CleanBlocks(d: Disk, bm: seq<nat>)
    requires forall k :: 0 <= k < |bm| ==> bm[k] < |d|
  {
    forall k :: 0 <= k < |bm| && bm[k] != 0 ==> Clean(Entries(d[bm[k]]))
  }

  /** Block 0 exists and starts with "." and "..". */
  ghost predicate DotsFirst(d: Disk, bm: seq<nat>)
    requires |bm| == MAX_BLOCKS && forall k :: 0 <= k < |bm| ==> bm[k] < |d|
  {
    && bm[0] != 0
    && var es := Entries(d[bm[0]]);
    && NameOf(es[0]) == [DOT] && es[0].ftype == FT_DIRECTORY
    && NameOf(es[1]) == [DOT, DOT] && es[1].ftype == FT_DIRECTORY
  }

  /** Every block but the first holds a live entry. */
  ghost predicate NoIdleBlock(d: Disk, bm: seq<nat>)
    requires |bm| == MAX_BLOCKS && forall k :: 0 <= k < |bm| ==> bm[k] < |d|
  {
    forall k :: 1 <= k < MAX_BLOCKS && bm[k] != 0 ==> LiveOf(Entries(d[bm[k]])) != []
  }

  /** The blocks bm of disk d hold a directory of `size` bytes. */
  ghost predicate DirBlocks(d: Disk, bm: seq<nat>, size: nat) {
    && |bm| == MAX_BLOCKS && (forall k :: 0 <= k < |bm| ==> bm[k] < |d|)
    && size == ENTRY_SIZE * |Live(d, bm)|
    && Distinct(Live(d, bm)) && UniqueInos(Live(d, bm)) && AllNamed(Live(d, bm))
    && CleanBlocks(d, bm) && DotsFirst(d, bm) && NoIdleBlock(d, bm)
  }

  ghost predicate IsDir(fs: Fs, i: nat) {
    && i in fs.inodes
    && Sound(fs.disk, fs.inodes[i].secs, fs.data, fs.End())
    && DirBlocks(fs.disk, Blocks(fs.disk, fs.inodes[i].secs), fs.inodes[i].size)
  }

  /** At most one block lies behind the direct ones, the first of the indirect table. */
  ghost predicate Small(fs: Fs, i: nat) {
    && i in fs.inodes && Shaped(fs.disk, fs.inodes[i].secs)
    && forall q :: DIRECT < q < MAX_BLOCKS ==> Blocks(fs.disk, fs.inodes[i].secs)[q] == 0
  }

  ghost predicate StaysSmall(fs: Fs, gs: Fs, i: nat) { Small(fs, i) ==> Small(gs, i) }

  /** The map a directory stands for. */
  ghost function DirOf(fs: Fs, i: nat): map<seq<byte>, Target>
    requires IsDir(fs, i)
  {
    DirMap(Live(fs.disk, Blocks(fs.disk, fs.inodes[i].secs)))
  }

  lemma {:induction false} CleanSlots(d: Disk, bm: seq<nat>, n: nat)
    requires n <= |bm| && (forall k :: 0 <= k < |bm| ==> bm[k] < |d|) && CleanBlocks(d, bm)
    ensures Clean(Slots(d, bm, 0, n))
  {
    hide Entries, NameOf;
    if n > 0 {
      CleanSlots(d, bm, n - 1);
    }
  }

  /** search_dir_entry on a directory in order is lookup in its map. */
  lemma SearchIsLookup(fs: Fs, i: nat, name: seq<byte>)
    requires IsDir(fs, i) && name != []
    ensures var r := Lookup(Slots(fs.disk, Blocks(fs.disk, fs.inodes[i].secs), 0, MAX_BLOCKS), name);
      && (r.Some? <==> name in DirOf(fs, i))
      && (r.Some? ==> DirOf(fs, i)[name] == Target(r.value.ino, r.value.ftype))
  {
    hide Slots, Blocks, NameOf;
    var bm := Blocks(fs.disk, fs.inodes[i].secs);
    CleanSlots(fs.disk, bm, MAX_BLOCKS);
    LookupSkipsHoles(Slots(fs.disk, bm, 0, MAX_BLOCKS), name);
    NameListed(Live(fs.disk, bm), name);
  }

  // ---------------------------------------------------------------- replacing one block

  /** Block maps and disks that differ in block k only. */
  ghost predicate DiffersAt(d: Disk, bm: seq<nat>, e: Disk, cm: seq<nat>, k: nat) {
    && k < |bm| == |cm| == MAX_BLOCKS
    && (forall j :: 0 <= j < |bm| ==> bm[j] < |d|) && (forall j :: 0 <= j < |cm| ==> cm[j] < |e|)
    && (forall j :: 0 <= j < MAX_BLOCKS && j != k ==> cm[j] == bm[j])
    && (forall j :: 0 <= j < MAX_BLOCKS && j != k && bm[j] != 0 ==> e[bm[j]] == d[bm[j]])
  }

  /** The two dots stay where they are. */
  lemma DotsStay(d: Disk, bm: seq<nat>, e: Disk, cm: seq<nat>, k: nat)
    requires DiffersAt(d, bm, e, cm, k) && DotsFirst(d, bm)
    requires k == 0 ==> cm[0] != 0 && Entries(e[cm[0]])[..2] == Entries(d[bm[0]])[..2]
    ensures DotsFirst(e, cm)
  {
    hide EntryAt, NameOf;
    if k == 0 {
      var es, zs := Entries(d[bm[0]]), Entries(e[cm[0]]);
      assert zs[0] == zs[..2][0] && zs[1] == zs[..2][1] && es[0] == es[..2][0] && es[1] == es[..2][1];
    }
  }

  /** The other blocks stay clean and busy. */
  lemma OtherBlocksStay(d: Disk, bm: seq<nat>, e: Disk, cm: seq<nat>, k: nat)
    requires DiffersAt(d, bm, e, cm, k) && CleanBlocks(d, bm) && NoIdleBlock(d, bm)
    requires cm[k] != 0 ==> Clean(Entries(e[cm[k]])) && (k != 0 ==> LiveOf(Entries(e[cm[k]])) != [])
    ensures CleanBlocks(e, cm) && NoIdleBlock(e, cm)
  {
    hide Entries, Clean, LiveOf;
  }

  ghost function BlockSlots(d: Disk, bm: seq<nat>, k: nat): seq<DirEntry>
    requires k < |bm| && forall j :: 0 <= j < |bm| ==> bm[j] < |d|
  {
    if bm[k] == 0 then [] else Entries(d[bm[k]])
  }

  lemma LiveReplaced(d: Disk, bm: seq<nat>, e: Disk, cm: seq<nat>, k: nat) returns (p: seq<DirEntry>, s: seq<DirEntry>)
    requires DiffersAt(d, bm, e, cm, k)
    ensures Live(d, bm) == p + LiveOf(BlockSlots(d, bm, k)) + s
    ensures Live(e, cm) == p + LiveOf(BlockSlots(e, cm, k)) + s
  {
    hide Entries, LiveOf, Slots;
    p, s := LiveOf(Slots(d, bm, 0, k)), LiveOf(Slots(d, bm, k + 1, MAX_BLOCKS));
    LiveAround(d, bm, k);
    LiveAround(e, cm, k);
    SlotsSame(d, bm, e, cm, 0, k);
    SlotsSame(d, bm, e, cm, k + 1, MAX_BLOCKS);
  }

  /** Two rows that differ by one entry. */
  ghost predicate OneMore(less: seq<DirEntry>, more: seq<DirEntry>, e: DirEntry) {
    exists a, b :: less == a + b && more == a + [e] + b
  }

  lemma OneMoreInside(p: seq<DirEntry>, less: seq<DirEntry>, more: seq<DirEntry>, s: seq<DirEntry>, e: DirEntry)
    requires OneMore(less, more, e)
    ensures OneMore(p + less + s, p + more + s, e)
  {
    var a, b :| less == a + b && more == a + [e] + b;
    assert p + less + s == (p + a) + (b + s) && p + more + s == (p + a) + [e] + (b + s);
  }

  /** Adding an entry with a new name and a new inode keeps a row in order, and adds to its map;
      removing an entry does the opposite. */
  lemma OneMoreRow(less: seq<DirEntry>, more: seq<DirEntry>, e: DirEntry)
    requires OneMore(less, more, e)
    ensures |more| == |less| + 1
    ensures Distinct(more) <==> Distinct(less) && NameOf(e) !in Names(less)
    ensures AllNamed(more) <==> AllNamed(less) && IsName(NameOf(e))
    ensures UniqueInos(more) ==> UniqueInos(less)
    ensures UniqueInos(less) && (IsDot(e) || forall f :: f in less && !IsDot(f) ==> f.ino != e.ino) ==> UniqueInos(more)
    ensures NameOf(e) !in Names(less) ==> DirMap(more) == DirMap(less)[NameOf(e) := Target(e.ino, e.ftype)]
    ensures NameOf(e) !in Names(less) ==> DirMap(less) == DirMap(more) - {NameOf(e)}
    ensures e in more
  {
    hide NameOf, Distinct, DirMap, Names, IsName;
    var a, b :| less == a + b && more == a + [e] + b;
    DistinctInsert(a, e, b);
    if NameOf(e) !in Names(less) {
      MapInsert(a, e, b);
    }
    OneMoreInos(a, e, b);
    OneMoreNamed(a, e, b);
    assert more[|a|] == e;
  }

  lemma OneMoreNamed(a: seq<DirEntry>, e: DirEntry, b: seq<DirEntry>)
    ensures AllNamed(a + [e] + b) <==> AllNamed(a + b) && IsName(NameOf(e))
  {
    hide NameOf, IsName;
    var x, y := a + [e] + b, a + b;
    assert x[|a|] == e;
    forall k | 0 <= k < |y| ensures y[k] == x[if k < |a| then k else k + 1] {
    }
    forall k | 0 <= k < |x| && k != |a| ensures x[k] == y[if k < |a| then k else k - 1] {
    }
  }

  lemma OneMoreInos(a: seq<DirEntry>, e: DirEntry, b: seq<DirEntry>)
    ensures UniqueInos(a + [e] + b) ==> UniqueInos(a + b)
    ensures UniqueInos(a + b) && (IsDot(e) || forall f :: f in a + b && !IsDot(f) ==> f.ino != e.ino) ==>
      UniqueInos(a + [e] + b)
  {
    hide IsDot;
    var x, y := a + [e] + b, a + b;
    assert x[|a|] == e;
    forall k | 0 <= k < |y| ensures y[k] == x[if k < |a| then k else k + 1] {
    }
    forall k | 0 <= k < |x| && k != |a| ensures x[k] == y[if k < |a| then k else k - 1] && x[k] in y {
    }
  }
}
