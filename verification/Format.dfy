/** A formatted partition, where every run starts: the root directory and nothing else. */
module Format {
  import opened Bytes
  import opened BlockMap
  import opened Volume
  import opened Directory
  import opened Namespace
  import opened Paths
  import opened Tree
  import opened TreeOps
  import Layout

  /** partition_format: inode 0 has the first data sector, and its bit is the only one set.  The bits
      are those a scan can find clear: the data sectors and the spare sector behind them. */
  ghost predicate Formatted(fs: Fs) {
    && 0 < fs.data < fs.End() <= |fs.disk| <= WORD_LIMIT
    && fs.disk[fs.data] == DotsSector(0, 0)
    && fs.inodes == map[0 := NewDirInode(fs.data)]
    && forall k :: 0 <= k < |fs.bits| ==> fs.bits[k] == (k == 0)
  }

  /** The bits that partition_format writes for n data sectors are those of Formatted, if there are at
      least 8 of them; below that the bit of the root directory is cleared again. */
  lemma FormattedBits(v: seq<bool>, n: nat)
    requires v != [] && forall k :: 0 <= k < |v| ==> v[k] == Layout.Written(n, k)
    ensures n >= 8 <==> forall k :: 0 <= k < |Layout.Usable(v, n)| ==> Layout.Usable(v, n)[k] == (k == 0)
  {
    var u := Layout.Usable(v, n);
    assert u[0] == v[0] == (n >= 8);
  }

  /** The partition before the root directory was written. */
  ghost function Blank(fs: Fs): Fs { Fs(fs.data, fs.disk, seq(|fs.bits|, _ => false), map[]) }

  lemma RootTaken(fs: Fs)
    requires Formatted(fs)
    ensures Valid(Blank(fs)) && Leaked(Blank(fs)) == {}
    ensures Took(fs.data, Blank(fs).bits, fs.bits, [fs.data])
  {
    forall b ensures !Marked(Blank(fs), b) {
    }
    forall b ensures InUse(fs.data, fs.bits, b) <==> InUse(fs.data, Blank(fs).bits, b) || b in [fs.data] {
      assert b in [fs.data] <==> b == fs.data;
    }
  }

  /** After formatting the bitmap marks exactly the owned sectors, and the root is an empty
      directory that can take names: what every run starts from. */
  lemma FormatIsBalanced(fs: Fs)
    requires Formatted(fs)
    ensures Balanced(fs) && ReadyDir(fs, 0) && DirOf(fs, 0) == Dots(0, 0)
  {
    hide Valid, Took, Balanced, DotsSector, Leaked, DirBlocks, Added, AllIntactBut;
    RootTaken(fs);
    var blank := Blank(fs);
    assert fs.disk[fs.data := DotsSector(0, 0)] == fs.disk;
    NewDirAdded(blank, fs, 0, 0, fs.data);
    AddedKeepsValid(blank, fs, 0, [fs.data]);
    BalancedIsLeakFree(fs);
    RootIsReady(fs);
  }

  lemma RootIsReady(fs: Fs)
    requires Formatted(fs) && IsDir(fs, 0)
    ensures ReadyDir(fs, 0)
  {
    hide DotsSector, DirBlocks, MakeEntry, NameOf, Live, Blocks;
    NewDirBlocks(fs.disk, fs.data, 0, 0);
    MadeName([DOT], 0, FT_DIRECTORY);
    MadeName([DOT, DOT], 0, FT_DIRECTORY);
  }

  /** The tree of a formatted partition is the root alone, and it is well formed. */
  lemma FormatIsTree(fs: Fs)
    requires Formatted(fs)
    ensures Shows(fs, map[0 := Dots(0, 0)]) && WellFormed(map[0 := Dots(0, 0)], map[0 := 0])
  {
    hide Formatted, Balanced, IsDir, DirOf;
    FormatIsBalanced(fs);
    RootTree();
  }

  lemma RootTree()
    ensures WellFormed(map[0 := Dots(0, 0)], map[0 := 0])
  {
    var t: Tree, dep: map<nat, nat> := map[0 := Dots(0, 0)], map[0 := 0];
    assert IsComponent(HERE) && IsComponent(UP);
    forall n, c ensures !Link(t, 0, n, c) {
    }
    assert NodeOk(t, dep, 0);
  }
}
