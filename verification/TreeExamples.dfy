/** Paths on which sys_rmdir and sys_unlink of fs/fs.c do to the tree what they are not meant to do. */
module TreeExamples {
  import opened Directory
  import opened Paths
  import opened Tree
  import opened TreeOps

  const A: Name := [97]
  const B: Name := [98]

  ghost function Two(d: nat, up: nat): Dir
    requires d < 2 && up < 2
  {
    map[HERE := Target(d, FT_DIRECTORY), UP := Target(up, FT_DIRECTORY)]
  }

  /** The root with the empty directory "a", inode 1. */
  ghost function WithDir(): Tree { map[0 := Two(0, 0)[A := Target(1, FT_DIRECTORY)], 1 := Two(1, 0)] }

  /** The root with the regular file "a", inode 1. */
  ghost function WithFile(): Tree { map[0 := Two(0, 0)[A := Target(1, FT_REGULAR)]] }

  lemma WithDirOk()
    ensures WellFormed(WithDir(), map[0 := 0, 1 := 1])
  {
    hide NodeOk;
    RootWithDir();
    DirInRoot();
  }

  lemma RootWithDir()
    ensures NodeOk(WithDir(), map[0 := 0, 1 := 1], 0)
  {
    var t := WithDir();
    assert IsComponent(HERE) && IsComponent(UP) && IsComponent(A);
    forall n, c | Link(t, 0, n, c) ensures n == A && c == 1 {
    }
  }

  lemma DirInRoot()
    ensures NodeOk(WithDir(), map[0 := 0, 1 := 1], 1)
  {
    var t := WithDir();
    assert IsComponent(HERE) && IsComponent(UP);
    assert Link(t, 0, A, 1);
    forall n, c ensures !Link(t, 1, n, c) {
    }
  }

  lemma WithFileOk()
    ensures WellFormed(WithFile(), map[0 := 0])
  {
    var t, dep: map<nat, nat> := WithFile(), map[0 := 0];
    assert IsComponent(HERE) && IsComponent(UP) && IsComponent(A);
    forall n, c ensures !Link(t, 0, n, c) {
    }
    assert NodeOk(t, dep, 0);
  }

  lemma TwoNames(n: Name, m: Name)
    requires IsComponent(n) && IsComponent(m)
    ensures Components(Joined([n, m])) == [n, m] && [n, m][1..] == [m] && [m][1..] == []
  {
    JoinedComponents([n, m]);
  }

  /** "/a/.": directory 1 is found empty, in itself; removing it there leaves the root with an entry that
      names nothing. */
  lemma RmdirDotExample()
    ensures var t, p := WithDir(), Joined([A, HERE]);
      && WellFormed(t, map[0 := 0, 1 := 1]) && Search(t, p) == Found.Directory(1, 1) && Empty(t, 1)
      && var t' := RemoveDir(t, 1, 1); 1 !in t' && 0 in t' && A in t'[0] && t'[0][A].ino == 1
  {
    hide WellFormed;
    WithDirOk();
    TwoNames(A, HERE);
    var t := WithDir();
    SearchIsWalk(t, map[0 := 0, 1 := 1], Joined([A, HERE]));
    LastStep(t, 1, 0, HERE);
    assert Walk(t, 0, 0, [A, HERE]) == Walk(t, 1, 0, [HERE]);
  }

  /** "/a/b" where "a" is a file: the search ends at the file, and the file is what is removed. */
  lemma UnlinkBehindExample()
    ensures var t, p := WithFile(), Joined([A, B]);
      && WellFormed(t, map[0 := 0]) && Components(p) == [A, B] && Tried(t, 0, [A, B]) == 1
      && Search(t, p) == Regular(1, 0) && A !in RemoveFile(t, 0, A)[0]
  {
    hide WellFormed;
    WithFileOk();
    TwoNames(A, B);
    SearchIsWalk(WithFile(), map[0 := 0], Joined([A, B]));
  }
}
