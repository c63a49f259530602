/** sys_getcwd of fs/fs.c and make_clear_abs_path of shell/buildin_cmd.c, on the sectors of a partition. */
module Cwd {
  import opened Bytes
  import opened BlockMap
  import opened Volume
  import opened Directory
  import opened Namespace
  import opened Paths
  import opened Tree
  import opened TreeOps
  import DirUpdate

  // ---------------------------------------------------------------- slots against names

  /** The slots of directory d. */
  ghost function Row(fs: Fs, d: nat): seq<DirEntry>
    requires d in fs.inodes && Readable(fs.disk, fs.inodes[d].secs)
  {
    Slots(fs.disk, Blocks(fs.disk, fs.inodes[d].secs), 0, MAX_BLOCKS)
  }

  /** The slots that carry an inode number other than 0 are entries of the map, and each entry of the
      map with such a number is in a slot. */
  ghost predicate RowOk(dir: Dir, row: seq<DirEntry>) {
    && (forall e :: e in row && e.ino != 0 ==> NameOf(e) in dir && dir[NameOf(e)].ino == e.ino)
    && (forall n :: n in dir && dir[n].ino != 0 ==> exists e :: e in row && NameOf(e) == n && e.ino == dir[n].ino)
  }

  /** A live entry is what its name stands for. */
  lemma LiveEntry(es: seq<DirEntry>, e: DirEntry)
    requires Distinct(es) && e in es
    ensures NameOf(e) in DirMap(es) && DirMap(es)[NameOf(e)] == Target(e.ino, e.ftype)
  {
    hide NameOf;
    NameListed(es, NameOf(e));
    var f := Lookup(es, NameOf(e)).value;
    var i, j :| 0 <= i < |es| && es[i] == e && 0 <= j < |es| && es[j] == f;
  }

  /** get_child_dir_name compares inode numbers without looking at f_type: the holes of a directory in
      order carry number 0, so its slots are as good as its entries. */
  lemma RowIsOk(fs: Fs, d: nat)
    requires IsDir(fs, d)
    ensures d in fs.inodes && Readable(fs.disk, fs.inodes[d].secs) && RowOk(DirOf(fs, d), Row(fs, d))
  {
    hide NameOf, Slots, Blocks, DirMap, UniqueInos, AllNamed, NoIdleBlock, DotsFirst, Distinct;
    DirIsReadable(fs, d);
    var bm := Blocks(fs.disk, fs.inodes[d].secs);
    var row, live := Row(fs, d), Live(fs.disk, bm);
    CleanSlots(fs.disk, bm, MAX_BLOCKS);
    forall e | e in row && e.ino != 0 ensures NameOf(e) in DirOf(fs, d) && DirOf(fs, d)[NameOf(e)].ino == e.ino {
      LiveMember(row, e);
      LiveEntry(live, e);
    }
    forall n | n in DirOf(fs, d) ensures exists e :: e in row && NameOf(e) == n && e.ino == DirOf(fs, d)[n].ino {
      var e :| e in live && NameOf(e) == n;
      LiveMember(row, e);
      LiveEntry(live, e);
    }
  }

  /** The second slot of the first block is "..". */
  lemma SecondSlot(fs: Fs, d: nat)
    requires IsDir(fs, d)
    ensures d in fs.inodes && |fs.inodes[d].secs| == 13 && fs.inodes[d].secs[0] < |fs.disk|
    ensures UP in DirOf(fs, d) && EntryAt(fs.disk[fs.inodes[d].secs[0]], 1).ino == DirOf(fs, d)[UP].ino
  {
    hide NameOf, EntryAt, DirMap, UniqueInos, AllNamed, NoIdleBlock, Distinct, Slots, CleanBlocks;
    var bm := Blocks(fs.disk, fs.inodes[d].secs);
    assert bm[0] == fs.inodes[d].secs[0];
    var es := Entries(fs.disk[bm[0]]);
    LiveAround(fs.disk, bm, 0);
    LiveMember(es, es[1]);
    LiveEntry(Live(fs.disk, bm), es[1]);
  }

  // ---------------------------------------------------------------- get_child_dir_name

  /** No slot of the row has the inode number. */
  ghost predicate Lacks(es: seq<DirEntry>, c: nat) { forall e :: e in es ==> e.ino != c }

  /** A slot of the row has the inode number and this name. */
  ghost predicate Gives(es: seq<DirEntry>, c: nat, n: Name) { exists e :: e in es && e.ino == c && NameOf(e) == n }

  lemma Together(a: seq<DirEntry>, b: seq<DirEntry>, c: nat, n: Name)
    ensures Lacks(a + b, c) <==> Lacks(a, c) && Lacks(b, c)
    ensures Gives(a + b, c, n) <==> Gives(a, c, n) || Gives(b, c, n)
  {
    hide NameOf;
    assert forall e :: e in a + b <==> e in a || e in b;
  }

  /** The inner loop. */
  method SlotOf(s: Sector, c: nat) returns (found: bool, n: Name)
    ensures if found then Gives(Entries(s), c, n) else Lacks(Entries(s), c)
  {
    hide EntryAt, NameOf;
    var idx := 0;
    while idx < PER_SECTOR
      invariant 0 <= idx <= PER_SECTOR && forall k :: 0 <= k < idx ==> Entries(s)[k].ino != c
    {
      var e := EntryAt(s, idx);
      if e.ino == c {
        assert Entries(s)[idx] == e;
        return true, NameOf(e);
      }
      idx := idx + 1;
    }
    return false, [];
  }

  /** The name in the first slot with the inode number.  Without an indirect table only 12 blocks are
      looked at, and there are no others. */
  method ChildName(d: Disk, secs: seq<nat>, c: nat) returns (found: bool, n: Name)
    requires Readable(d, secs)
    ensures var row := Slots(d, Blocks(d, secs), 0, MAX_BLOCKS); if found then Gives(row, c, n) else Lacks(row, c)
  {
    hide Entries, Slots, Lacks, Gives, Blocks;
    var all := Blocks(d, secs);
    var blockCnt := if secs[12] == 0 then DIRECT else MAX_BLOCKS;
    if secs[12] == 0 {
      WithoutIndirect(d, secs);
    }
    NothingYet(d, all, c);
    var blockIdx := 0;
    while blockIdx < blockCnt
      invariant 0 <= blockIdx <= blockCnt && Lacks(Slots(d, all, 0, blockIdx), c)
    {
      SlotsSplit(d, all, 0, blockIdx, blockIdx + 1);
      SlotsOfBlock(d, all, blockIdx);
      found, n := false, [];
      if all[blockIdx] != 0 {
        found, n := SlotOf(d[all[blockIdx]], c);
      }
      ghost var before, here := Slots(d, all, 0, blockIdx), Slots(d, all, blockIdx, blockIdx + 1);
      if found {
        Together(before, here, c, n);
        SlotsSplit(d, all, 0, blockIdx + 1, MAX_BLOCKS);
        Together(before + here, Slots(d, all, blockIdx + 1, MAX_BLOCKS), c, n);
        return;
      }
      NothingYet(d, all, c);
      Together(before, here, c, n);
      blockIdx := blockIdx + 1;
    }
    return false, [];
  }

  lemma NothingYet(d: Disk, bm: seq<nat>, c: nat)
    requires forall k :: 0 <= k < |bm| ==> bm[k] < |d|
    ensures Lacks(Slots(d, bm, 0, 0), c) && Lacks([], c)
  {
  }

  lemma WithoutIndirect(d: Disk, secs: seq<nat>)
    requires Readable(d, secs) && secs[12] == 0
    ensures Slots(d, Blocks(d, secs), 0, MAX_BLOCKS) == Slots(d, Blocks(d, secs), 0, DIRECT)
  {
    hide Slots;
    var all := Blocks(d, secs);
    SlotsSplit(d, all, 0, DIRECT, MAX_BLOCKS);
    DirUpdate.AbsentBlocks(d, all, DIRECT, MAX_BLOCKS);
  }

  /** In its parent, a directory has one name, and that is what get_child_dir_name finds. */
  lemma NameIsLink(fs: Fs, t: Tree, dep: map<nat, nat>, c: nat)
    requires WellFormed(t, dep) && Shows(fs, t) && c in t && c != 0
    ensures Climbs(t, dep, c) && t[c][UP].ino in t && t[c][UP].ino in fs.inodes
    ensures Readable(fs.disk, fs.inodes[t[c][UP].ino].secs)
    ensures exists e :: e in Row(fs, t[c][UP].ino) && e.ino == c
    ensures forall e :: e in Row(fs, t[c][UP].ino) && e.ino == c ==> NameOf(e) == LinkName(t, t[c][UP].ino, c)
  {
    hide WellFormed, Linked, NameOf, IsDir, DirOf, Row;
    TreeClimbs(t, dep, c);
    var p := t[c][UP].ino;
    TreeAt(t, dep, c);
    TreeAt(t, dep, p);
    assert IsDir(fs, p) && DirOf(fs, p) == t[p];
    RowIsOk(fs, p);
    var n := LinkName(t, p, c);
    assert Link(t, p, n, c);
    forall e | e in Row(fs, p) && e.ino == c ensures NameOf(e) == n {
      assert NameOf(e) in t[p] && t[p][NameOf(e)].ino == c;
    }
  }

  // ---------------------------------------------------------------- sys_getcwd

  /** The path with its directories in reverse order. */
  ghost function LeafFirst(s: seq<Name>): Path {
    if s == [] then [] else Slashed(s[|s| - 1]) + LeafFirst(s[..|s| - 1])
  }

  lemma {:induction false} LeafFirstFront(s: seq<Name>)
    requires s != []
    ensures LeafFirst(s) == LeafFirst(s[1..]) + Slashed(s[0])
  {
    if |s| == 1 {
      assert s[..0] == [] && s[1..] == [];
    } else {
      var m, t, last := s[..|s| - 1], s[1..], s[|s| - 1];
      LeafFirstFront(m);
      assert m[1..] == t[..|t| - 1] && t[|t| - 1] == last;
      assert LeafFirst(t) == Slashed(last) + LeafFirst(m[1..]);
      Regroup(Slashed(last), LeafFirst(m[1..]), Slashed(s[0]));
    }
  }

  /** The loop that climbs to the root: the depth of the directory goes down with every turn. */
  method Climb(p: Partition, cwd: nat, ghost t: Tree, ghost dep: map<nat, nat>) returns (ok: bool, path: Path)
    requires WellFormed(t, dep) && Shows(p.State(), t) && cwd in t
    ensures ok && path == LeafFirst(PathTo(t, dep, cwd))
  {
    hide WellFormed, Linked, NameOf, RowOk, Slots, IsDir, DirOf, Readable;
    var child := cwd;
    path := [];
    while child != 0
      invariant child in t && path + LeafFirst(PathTo(t, dep, child)) == LeafFirst(PathTo(t, dep, cwd))
      decreases if child in dep then dep[child] else 0
    {
      NameIsLink(p.State(), t, dep, child);
      TreeClimbs(t, dep, child);
      ghost var s := PathTo(t, dep, child);
      var parent := ParentIno(p, child, t);
      var found, n := ChildName(p.disk, p.inodes[parent].secs, child);
      if !found {
        return false, path;
      }
      assert s == PathTo(t, dep, parent) + [n] && s[..|s| - 1] == PathTo(t, dep, parent);
      Regroup(path, Slashed(n), LeafFirst(PathTo(t, dep, parent)));
      path := path + Slashed(n);
      child := parent;
    }
    assert PathTo(t, dep, 0) == [] && path + [] == path;
    return true, path;
  }

  /** get_parent_dir_inode_nr: the second slot of the first block. */
  method ParentIno(p: Partition, d: nat, ghost t: Tree) returns (r: nat)
    requires Shows(p.State(), t) && d in t
    ensures UP in t[d] && r == t[d][UP].ino
  {
    hide IsDir, DirOf;
    SecondSlot(p.State(), d);
    r := EntryAt(p.disk[p.inodes[d].secs[0]], 1).ino;
  }

  /** The loop that turns the path round. */
  method Reverse(rev: Path, ghost s: seq<Name>) returns (buf: Path)
    requires AllComponents(s) && rev == LeafFirst(s)
    ensures buf == Joined(s)
  {
    buf := [];
    var left := rev;
    ghost var rest := s;
    var slash := LastSlash(left);
    NothingLeft(rest);
    while slash >= 0
      invariant AllComponents(rest) && left == LeafFirst(rest) && slash == LastSlash(left)
        && (slash < 0 <==> rest == [])
      invariant buf + Joined(rest) == Joined(s)
      decreases |rest|
    {
      LeafFirstFront(rest);
      LastSlashIs(LeafFirst(rest[1..]), rest[0]);
      JoinedFront(rest);
      Regroup(buf, Slashed(rest[0]), Joined(rest[1..]));
      buf := buf + left[slash..];
      left := left[..slash];
      rest := rest[1..];
      slash := LastSlash(left);
      NothingLeft(rest);
    }
    assert Joined(rest) == [] && buf + [] == buf;
  }

  lemma NothingLeft(s: seq<Name>)
    requires AllComponents(s)
    ensures LastSlash(LeafFirst(s)) < 0 <==> s == []
  {
    if s != [] {
      assert LeafFirst(s)[0] == SLASH;
    }
  }

  /** sys_getcwd ends, and prints the path of the directory. */
  method GetCwd(p: Partition, cwd: nat, ghost t: Tree, ghost dep: map<nat, nat>) returns (ok: bool, buf: Path)
    requires WellFormed(t, dep) && Shows(p.State(), t) && cwd in t
    ensures ok && buf == Render(PathTo(t, dep, cwd))
  {
    hide WellFormed, Shows, PathTo;
    RootIsThere(t, dep);
    PathIsOk(t, dep, cwd);
    if cwd == 0 {
      return true, [SLASH];
    }
    var rev;
    ok, rev := Climb(p, cwd, t, dep);
    if !ok {
      return false, [];
    }
    buf := Reverse(rev, PathTo(t, dep, cwd));
  }

  /** search_file undoes sys_getcwd, and wash_path leaves the path alone. */
  lemma CwdRoundTrip(t: Tree, dep: map<nat, nat>, d: nat)
    requires WellFormed(t, dep) && d in t
    ensures exists a :: Search(t, Render(PathTo(t, dep, d))) == Found.Directory(d, a)
    ensures Wash(Render(PathTo(t, dep, d))) == Render(PathTo(t, dep, d))
  {
    hide WellFormed, PathTo;
    WashedDir(t, dep, d);
    PathIsOk(t, dep, d);
    RenderRoundTrip(PathTo(t, dep, d));
    FoldFixed([], PathTo(t, dep, d));
    assert [] + PathTo(t, dep, d) == PathTo(t, dep, d);
  }

  // ---------------------------------------------------------------- make_clear_abs_path

  /** A path that is not absolute is taken from the working directory. */
  method MakeClearAbsPath(p: Partition, cwd: nat, path: Path, ghost t: Tree, ghost dep: map<nat, nat>) returns (r: Path)
    requires WellFormed(t, dep) && Shows(p.State(), t) && cwd in t
    ensures r == Render(Fold(if path != [] && path[0] == SLASH then [] else PathTo(t, dep, cwd), Components(path)))
  {
    hide WellFormed, Shows, PathTo, Components;
    if path != [] && path[0] == SLASH {
      r := WashPath(path);
    } else {
      var ok, abs := GetCwd(p, cwd, t, dep);
      PathIsOk(t, dep, cwd);
      FromHere(PathTo(t, dep, cwd), path);
      if abs != [SLASH] {
        abs := abs + [SLASH];
      }
      r := WashPath(abs + path);
    }
  }

  lemma FromHere(s: seq<Name>, path: Path)
    requires AllComponents(s) && AllOrdinary(s)
    ensures var abs := if Render(s) == [SLASH] then Render(s) else Render(s) + [SLASH];
      Fold([], Components(abs + path)) == Fold(s, Components(path))
  {
    hide Components, Fold, Render;
    RenderRoundTrip(s);
    FoldFixed([], s);
    assert [] + s == s;
    if Render(s) == [SLASH] {
      RootHasNone();
      ComponentsJoin([], path);
      NoComponents();
      assert [] + [SLASH] + path == [SLASH] + path;
      assert [] + Components(path) == Components(path);
    } else {
      ComponentsJoin(Render(s), path);
      FoldTwice([], s, Components(path));
    }
  }

  lemma NoComponents()
    ensures Components([]) == []
  {
  }
}
