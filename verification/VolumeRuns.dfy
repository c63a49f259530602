/** Runs of calls on a mounted partition: from mounting on, every call finds the partition in order and
    leaves it so, until the first call that the source itself gets wrong. */
module VolumeRuns {
  import opened Bytes
  import opened BlockMap
  import opened Namespace
  import opened Paths
  import opened Tree
  import opened Fates
  import opened Snapshots
  import opened Syscalls
  import Resolve

  /** A call, with what it meets outside the partition: whether file_table has a free slot, and the
      inodes that are open. */
  datatype Call =
    | Create(path: Path, slot: bool)
    | Mkdir(path: Path)
    | Unlink(path: Path, inUse: set<nat>)
    | Rmdir(path: Path)
    | Append(path: Path, buf: seq<byte>)

  /** The arguments the source can take. */
  ghost predicate Legal(c: Call) {
    Resolve.Fits(c.path) && (c.Append? ==> |c.buf| < WORD_LIMIT)
  }

  ghost function FateOf(k: Snap, c: Call): Fate
    requires Legal(c)
  {
    match c
    case Create(path, slot) => CreateFate(k, path, slot)
    case Mkdir(path) => MkdirFate(k, path)
    case Unlink(path, inUse) => UnlinkFate(k, path, inUse)
    case Rmdir(path) => RmdirFate(k, path)
    case Append(path, buf) => AppendFate(k, path, |buf|)
  }

  /** The call returned r and took the partition from k to k'. */
  ghost predicate Did(k: Snap, k': Snap, c: Call, r: int)
    requires Legal(c)
  {
    match c
    case Create(path, slot) => CreateDid(k, k', path, slot, r, FateOf(k, c))
    case Mkdir(path) => MkdirDid(k, k', path, r, FateOf(k, c))
    case Unlink(path, inUse) => UnlinkDid(k, k', path, inUse, r, FateOf(k, c))
    case Rmdir(path) => RmdirDid(k, k', path, r, FateOf(k, c))
    case Append(path, buf) => AppendDid(k, k', path, buf, r, FateOf(k, c))
  }

  /** The sectors a call leaves marked without owner: one where sys_mkdir fails after taking its block,
      one where a write ends at the last byte a file can have. */
  ghost function Lost(k: Snap, c: Call): nat
    requires Legal(c)
  {
    match c
    case Mkdir(path) => if MkdirFate(k, path) == Leaks then 1 else 0
    case Append(path, buf) => if Fills(k, path, buf) then 1 else 0
    case _ => 0
  }

  ghost predicate Fills(k: Snap, path: Path, buf: seq<byte>) {
    && AppendFate(k, path, |buf|) == Does && buf != []
    && var i := FileOf(k, path); i in k.fs.inodes && k.fs.inodes[i].size + |buf| == MAX_FILE_SIZE
  }

  /** A call that does not break off leaves the partition in order, and loses the sectors that were said
      before the call: the step itself only says what each call did to the sectors and to the table. */
  lemma DidKeeps(k: Snap, k': Snap, c: Call, r: int)
    requires Legal(c) && InOrder(k) && Did(k, k', c, r) && FateOf(k, c) != Breaks
    ensures InOrder(k') && k'.losses == k.losses + Lost(k, c)
  {
    hide InOrder, Resolve.Fits, CreateDid, MkdirDid, UnlinkDid, RmdirDid, AppendDid, CreateFate, MkdirFate, UnlinkFate,
      RmdirFate, FileOf, WriteFate;
    match c
    case Create(path, slot) => CreateOrder(k, k', path, slot, r, FateOf(k, c));
    case Mkdir(path) => MkdirOrder(k, k', path, r, FateOf(k, c));
    case Unlink(path, inUse) => UnlinkOrder(k, k', path, inUse, r, FateOf(k, c));
    case Rmdir(path) => RmdirOrder(k, k', path, r, FateOf(k, c));
    case Append(path, buf) => AppendOrder(k, k', path, buf, r, FateOf(k, c));
  }

  /** A call that was carried out or refused. */
  ghost predicate Step(k: Snap, k': Snap, c: Call, r: int) {
    Legal(c) && FateOf(k, c) != Breaks && Did(k, k', c, r)
  }

  /** A run: call j returns rs[j] and takes ks[j] to ks[j + 1]. */
  ghost predicate IsRun(ks: seq<Snap>, cs: seq<Call>, rs: seq<int>) {
    && |ks| == |cs| + 1 && |rs| == |cs|
    && forall j :: 0 <= j < |cs| ==> Step(ks[j], ks[j + 1], cs[j], rs[j])
  }

  /** The sectors lost in a run of n calls. */
  ghost function TotalLost(ks: seq<Snap>, cs: seq<Call>, rs: seq<int>, n: nat): nat
    requires IsRun(ks, cs, rs) && n <= |cs|
  {
    if n == 0 then 0
    else
      assert Step(ks[n - 1], ks[n], cs[n - 1], rs[n - 1]);
      TotalLost(ks, cs, rs, n - 1) + Lost(ks[n - 1], cs[n - 1])
  }

  /** Every run keeps the partition in order.  After n calls the bitmap marks exactly the sectors that
      inodes own, each owned once, if and only if none of these calls lost a sector. */
  lemma {:induction false} RunsConserve(ks: seq<Snap>, cs: seq<Call>, rs: seq<int>, n: nat)
    requires IsRun(ks, cs, rs) && n <= |cs| && InOrder(ks[0]) && ks[0].losses == 0
    ensures InOrder(ks[n]) && ks[n].losses == TotalLost(ks, cs, rs, n)
    ensures Balanced(ks[n].fs) <==> TotalLost(ks, cs, rs, n) == 0
  {
    hide InOrder, FateOf, Did, Legal, Lost, Balanced;
    if n > 0 {
      RunsConserve(ks, cs, rs, n - 1);
      assert Step(ks[n - 1], ks[n], cs[n - 1], rs[n - 1]);
      DidKeeps(ks[n - 1], ks[n], cs[n - 1], rs[n - 1]);
    }
    OrderBalanced(ks[n]);
  }

  /** One call. */
  method Do(m: Mount, c: Call) returns (r: int, fate: Fate)
    requires InOrder(m.Now()) && Legal(c)
    modifies m, m.p, m.s
    ensures fate == FateOf(old(m.Now()), c) && Did(old(m.Now()), m.Now(), c, r)
  {
    hide InOrder, Resolve.Fits, CreateFate, MkdirFate, UnlinkFate, RmdirFate, AppendFate, FileMade, DirMade, FileGone,
      DirGone, Longer, Torn, Orphaned, CreateEnds, MkdirEnds;
    match c
    case Create(path, slot) => r, fate := m.Create(path, slot);
    case Mkdir(path) => r, fate := m.Mkdir(path);
    case Unlink(path, inUse) => r, fate := m.Unlink(path, inUse);
    case Rmdir(path) => r, fate := m.Rmdir(path);
    case Append(path, buf) => r, fate := m.Append(path, buf);
  }

  /** The calls one after the other.  Every call finds the partition as its own requirements want it, up
      to the first that breaks off; what that one did is said too, and `last` is what it returned. */
  method Run(m: Mount, cs: seq<Call>) returns (rs: seq<int>, last: int, ghost ks: seq<Snap>)
    requires InOrder(m.Now()) && forall j :: 0 <= j < |cs| ==> Legal(cs[j])
    modifies m, m.p, m.s
    ensures |rs| <= |cs| && IsRun(ks, cs[..|rs|], rs) && ks[0] == old(m.Now())
    ensures forall j :: 0 <= j < |ks| ==> InOrder(ks[j])
    ensures if |rs| == |cs| then m.Now() == ks[|rs|]
            else Legal(cs[|rs|]) && FateOf(ks[|rs|], cs[|rs|]) == Breaks && Did(ks[|rs|], m.Now(), cs[|rs|], last)
    ensures old(m.losses) == 0 ==>
      forall n :: 0 <= n < |ks| ==> (Balanced(ks[n].fs) <==> TotalLost(ks, cs[..|rs|], rs, n) == 0)
  {
    hide InOrder, FateOf, Did, Legal, Balanced, Lost, TotalLost;
    rs, last, ks := RunFrom(m, cs);
    if old(m.losses) == 0 {
      forall n | 0 <= n < |ks| ensures Balanced(ks[n].fs) <==> TotalLost(ks, cs[..|rs|], rs, n) == 0 {
        RunsConserve(ks, cs[..|rs|], rs, n);
      }
    }
  }

  method RunFrom(m: Mount, cs: seq<Call>) returns (rs: seq<int>, last: int, ghost ks: seq<Snap>)
    requires InOrder(m.Now()) && forall j :: 0 <= j < |cs| ==> Legal(cs[j])
    modifies m, m.p, m.s
    ensures |rs| <= |cs| && IsRun(ks, cs[..|rs|], rs) && ks[0] == old(m.Now())
    ensures forall j :: 0 <= j < |ks| ==> InOrder(ks[j])
    ensures if |rs| == |cs| then m.Now() == ks[|rs|]
            else Legal(cs[|rs|]) && FateOf(ks[|rs|], cs[|rs|]) == Breaks && Did(ks[|rs|], m.Now(), cs[|rs|], last)
  {
    hide InOrder, FateOf, Did, Legal;
    rs, last, ks := [], 0, [m.Now()];
    while |rs| < |cs|
      invariant |rs| <= |cs| && IsRun(ks, cs[..|rs|], rs) && ks[0] == old(m.Now()) && m.Now() == ks[|rs|]
      invariant forall j :: 0 <= j < |ks| ==> InOrder(ks[j])
      decreases |cs| - |rs|
    {
      ghost var k, c := m.Now(), cs[|rs|];
      var r, fate := Do(m, cs[|rs|]);
      if fate == Breaks {
        last := r;
        return;
      }
      DidKeeps(k, m.Now(), c, r);
      assert cs[..|rs| + 1] == cs[..|rs|] + [c];
      rs, ks := rs + [r], ks + [m.Now()];
    }
  }
}
