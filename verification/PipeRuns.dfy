/** Over every run of pipe, open, fork, close and exit, whatever happens to files: the count of a pipe is
    the number of live descriptors that name it. */
module PipeRuns {
  import opened Pipes
  import opened PipeInv

  // ---------------------------------------------------------------- what holds of pipes alone

  ghost predicate PipeOk(k: State, g: int)
    requires 0 <= g < |k.table|
  {
    k.table[g].Pipe? ==> k.table[g].count == |Pairs(k, g)| > 0
  }

  ghost predicate PipesOk(k: State) {
    Rows(k) && Pages(k) && forall g :: 3 <= g < SLOTS ==> PipeOk(k, g)
  }

  /** sys_close of any descriptor. */
  lemma CloseKeepsPipes(k: State, p: Pid, fd: nat)
    requires PipesOk(k) && p in k.fds && 3 <= fd < FDS && k.fds[p][fd] != -1
    ensures PipesOk(Close(k, p, fd))
  {
    hide Pages, Pairs;
    var k', g := Close(k, p, fd), k.fds[p][fd];
    CloseRows(k, p, fd);
    ClosePages(k, p, fd);
    NameDrops(k, p, fd);
    forall h | 3 <= h < SLOTS ensures PipeOk(k', h) {
      assert PipeOk(k, h);
    }
  }

  /** sys_pipe sets the count to 2 without looking at what pcb_fd_install returns, nor at who still names
      the slot.  The counts stay exact if and only if the stale descriptors of the slot and those that
      sys_pipe gets are two together. */
  lemma PipeKeepsPipes(k: State, p: Pid, page: nat)
    requires PipesOk(k) && p in k.fds && FreeSlot(k.table, 3) != -1 && page !in k.pages
    ensures PipesOk(SysPipe(k, p, page)) <==> |Pairs(k, FreeSlot(k.table, 3))| + Room(k.fds[p]) == 2
  {
    hide Pages, Room, Install, Pairs;
    var k', g := SysPipe(k, p, page), FreeSlot(k.table, 3);
    PipePairs(k, p, page);
    NewPage(k, k', g, page);
    forall h | 3 <= h < SLOTS && h != g ensures PipeOk(k', h) {
      assert PipeOk(k, h);
    }
    assert PipeOk(k', g) <==> |Pairs(k, g)| + Room(k.fds[p]) == 2;
  }

  lemma OpenKeepsPipes(k: State, p: Pid)
    requires PipesOk(k) && p in k.fds && FreeSlot(k.table, 3) != -1
    ensures PipesOk(OpenFile(k, p)) && PipesOk(OpenRefused(k))
  {
    hide Install, Pairs, Pages;
    var k', r, g := OpenFile(k, p), OpenRefused(k), FreeSlot(k.table, 3);
    Installed(k, k', p, g);
    SamePairs(k, r);
    forall h | 3 <= h < SLOTS ensures PipeOk(k', h) && PipeOk(r, h) {
      assert PipeOk(k, h);
    }
    SamePages(k, k');
    SamePages(k, r);
  }

  // ---------------------------------------------------------------- fork

  lemma {:induction false} BumpKeepsPipes(k: State, c: Pid, row: seq<int>, fd: nat)
    requires c in k.fds && |row| == FDS && 3 <= fd <= FDS && k.fds[c] == Masked(row, fd) && PipesOk(k)
      && |k.table| == SLOTS
    requires forall i :: 3 <= i < FDS ==> row[i] == -1 || 3 <= row[i] < SLOTS
    ensures PipesOk(k.(table := Bump(k.table, row, fd), fds := k.fds[c := row]))
    decreases FDS - fd
  {
    hide PipesOk, Pages, Pairs;
    if fd == FDS {
      assert Masked(row, fd) == row;
      assert k.fds[c := row] == k.fds;
    } else {
      var k1 := Name(k, c, fd, row[fd]);
      assert k1.fds[c] == Masked(row, fd + 1);
      var t := Counted(k.table, row[fd]);
      CountOne(k, k1.(table := t), c, fd, row);
      BumpKeepsPipes(k1.(table := t), c, row, fd + 1);
      assert k1.fds[c := row] == k.fds[c := row];
    }
  }

  lemma CountOne(k: State, k': State, c: Pid, fd: nat, row: seq<int>)
    requires PipesOk(k) && c in k.fds && |row| == FDS && 3 <= fd < FDS && k.fds[c] == Masked(row, fd)
    requires row[fd] == -1 || 3 <= row[fd] < SLOTS
    requires k' == State(Counted(k.table, row[fd]), Name(k, c, fd, row[fd]).fds, k.pages)
    ensures PipesOk(k')
  {
    hide Pages, Pairs;
    var g := row[fd];
    if g == -1 {
      assert k.fds[c][fd := -1] == k.fds[c];
      assert k.fds[c := k.fds[c][fd := -1]] == k.fds;
      assert k' == k;
    } else {
      NameAdds(k, c, fd, g);
      SamePairs(Name(k, c, fd, g), k');
      SamePages(k, k');
      forall h | 3 <= h < SLOTS ensures PipeOk(k', h) {
        assert PipeOk(k, h);
      }
    }
  }

  lemma ForkKeepsPipes(k: State, p: Pid, c: Pid)
    requires PipesOk(k) && p in k.fds && c !in k.fds
    ensures PipesOk(Fork(k, p, c))
  {
    hide Pages, Pairs, PipeOk;
    var row := k.fds[p];
    var k0 := k.(fds := k.fds[c := Masked(row, 3)]);
    SameHolders(k, k0);
    BumpKeepsPipes(k0, c, row, 3);
    assert k0.fds[c := row] == k.fds[c := row];
  }

  /** A row without descriptors more or less makes no difference. */
  lemma SameHolders(k: State, k': State)
    requires PipesOk(k) && Rows(k') && k'.table == k.table && k'.pages == k.pages
    requires forall p, fd, g :: 0 <= g ==> (Holds(k', p, fd, g) <==> Holds(k, p, fd, g))
    ensures PipesOk(k')
  {
    hide Pages;
    forall g | 3 <= g < SLOTS ensures PipeOk(k', g) {
      assert Pairs(k', g) == Pairs(k, g);
      assert PipeOk(k, g);
    }
    SamePages(k, k');
  }

  // ---------------------------------------------------------------- exit

  lemma {:induction false} CloseAllKeepsPipes(k: State, p: Pid, fd: nat)
    requires PipesOk(k) && p in k.fds && 3 <= fd <= FDS && |k.fds[p]| == FDS
    requires forall i :: 3 <= i < fd ==> k.fds[p][i] == -1
    ensures var e := CloseAll(k, p, fd);
      && PipesOk(e) && p in e.fds && |e.fds[p]| == FDS && (forall i :: 3 <= i < FDS ==> e.fds[p][i] == -1)
      && e.fds == k.fds[p := e.fds[p]]
    decreases FDS - fd
  {
    hide PipesOk, Pages, Pairs;
    if fd == FDS {
      assert k.fds[p := k.fds[p]] == k.fds;
    } else {
      DescriptorShape(k, p, fd);
      if k.fds[p][fd] == -1 {
        CloseAllKeepsPipes(k, p, fd + 1);
      } else {
        CloseKeepsPipes(k, p, fd);
        CloseAllKeepsPipes(Close(k, p, fd), p, fd + 1);
      }
    }
  }

  lemma DescriptorShape(k: State, p: Pid, fd: nat)
    requires PipesOk(k) && p in k.fds && 3 <= fd < FDS
    ensures |k.fds[p]| == FDS && |k.table| == SLOTS && (k.fds[p][fd] == -1 || 3 <= k.fds[p][fd] < SLOTS)
  {
  }

  lemma ExitKeepsPipes(k: State, p: Pid)
    requires PipesOk(k) && p in k.fds
    ensures PipesOk(Exit(k, p)) && Exit(k, p).fds == k.fds - {p}
  {
    hide Pages, Pairs, PipeOk;
    CloseAllKeepsPipes(k, p, 3);
    SameHolders(CloseAll(k, p, 3), Exit(k, p));
  }

  // ---------------------------------------------------------------- every run

  datatype Op =
    | DoPipe(page: nat)
    | DoOpen
    | DoRefused
    | DoFork(child: Pid)
    | DoClose(fd: nat)
    | DoExit

  /** No descriptor of the process is stale: where this fails, fork and exit follow the NULL in the slot
      of a file that another process has closed. */
  ghost predicate NotStale(k: State, p: Pid)
    requires Rows(k) && p in k.fds
  {
    forall i :: 3 <= i < FDS && k.fds[p][i] != -1 ==> k.table[k.fds[p][i]] != Free
  }

  /** No two descriptors of the process name the same file: exit would close it twice. */
  ghost predicate OneEach(k: State, p: Pid)
    requires Rows(k) && p in k.fds
  {
    var row := k.fds[p];
    forall i, j :: 3 <= i < j < FDS && row[i] != -1 && row[i] == row[j] ==> k.table[row[i]] != File
  }

  /** What the calls need: a free slot, for a pipe also that the stale descriptors of the slot and the
      unused ones it gets are two, and elsewhere no descriptor whose slot is free. */
  ghost predicate Allowed(k: State, p: Pid, op: Op) {
    && Rows(k) && p in k.fds
    && match op
       case DoPipe(page) =>
         && FreeSlot(k.table, 3) != -1 && page !in k.pages
         && |Pairs(k, FreeSlot(k.table, 3))| + Room(k.fds[p]) == 2
       case DoOpen => FreeSlot(k.table, 3) != -1
       case DoRefused => FreeSlot(k.table, 3) != -1
       case DoFork(c) => c !in k.fds && NotStale(k, p)
       case DoClose(fd) => 3 <= fd < FDS && k.fds[p][fd] != -1 && k.table[k.fds[p][fd]] != Free
       case DoExit => NotStale(k, p) && OneEach(k, p)
  }

  ghost function Do(k: State, p: Pid, op: Op): State
    requires Allowed(k, p, op)
  {
    match op
    case DoPipe(page) => SysPipe(k, p, page)
    case DoOpen => OpenFile(k, p)
    case DoRefused => OpenRefused(k)
    case DoFork(c) => Fork(k, p, c)
    case DoClose(fd) => Close(k, p, fd)
    case DoExit => Exit(k, p)
  }

  ghost predicate Init(k: State) {
    && Rows(k) && k.pages == {} && (forall g :: 0 <= g < SLOTS ==> k.table[g] == Free)
    && forall p, fd :: p in k.fds && 3 <= fd < FDS ==> k.fds[p][fd] == -1
  }

  /** A call by a process. */
  datatype Call = Call(p: Pid, op: Op)

  ghost predicate Step(k: State, k': State, c: Call) { Allowed(k, c.p, c.op) && k' == Do(k, c.p, c.op) }

  ghost predicate IsRun(ks: seq<State>, cs: seq<Call>) {
    |ks| == |cs| + 1 && Init(ks[0]) && forall i :: 0 <= i < |cs| ==> Step(ks[i], ks[i + 1], cs[i])
  }

  lemma InitHolds(k: State)
    requires Init(k)
    ensures Inv(k) && PipesOk(k)
  {
    forall g | 3 <= g < SLOTS ensures SlotOk(k, g) {
      assert Pairs(k, g) == {};
    }
    forall x ensures !HasSlot(k, x) {
    }
  }

  lemma StepKeepsPipes(k: State, p: Pid, op: Op)
    requires PipesOk(k) && Allowed(k, p, op)
    ensures PipesOk(Do(k, p, op))
  {
    hide PipesOk, Room, Pairs, NotStale;
    match op
    case DoPipe(page) => PipeKeepsPipes(k, p, page);
    case DoOpen => OpenKeepsPipes(k, p);
    case DoRefused => OpenKeepsPipes(k, p);
    case DoFork(c) => ForkKeepsPipes(k, p, c);
    case DoClose(fd) => CloseKeepsPipes(k, p, fd);
    case DoExit => ExitKeepsPipes(k, p);
  }

  lemma {:induction false} RunKeepsPipes(ks: seq<State>, cs: seq<Call>, i: nat)
    requires IsRun(ks, cs) && i <= |cs|
    ensures PipesOk(ks[i])
  {
    hide PipesOk, Init, Allowed, Do, Inv;
    if i == 0 {
      InitHolds(ks[0]);
    } else {
      RunKeepsPipes(ks, cs, i - 1);
      assert Step(ks[i - 1], ks[i], cs[i - 1]);
      StepKeepsPipes(ks[i - 1], cs[i - 1].p, cs[i - 1].op);
    }
  }

  /** In every run, files being shared and closed in any way, the count of a pipe is the number of live
      descriptors that name it, and the pages held are those of pipes that somebody can still use. */
  lemma CountsAreExact(ks: seq<State>, cs: seq<Call>, i: nat, g: nat)
    requires IsRun(ks, cs) && i <= |cs| && 3 <= g < SLOTS
    ensures |ks[i].table| == SLOTS
    ensures ks[i].table[g].Pipe? ==> ks[i].table[g].count == |Pairs(ks[i], g)| > 0
    ensures forall x :: x in ks[i].pages <==> HasSlot(ks[i], x)
  {
    hide Init, Allowed, Do;
    RunKeepsPipes(ks, cs, i);
    assert PipeOk(ks[i], g);
  }

  // ---------------------------------------------------------------- and files

  /** The call closes no file that another descriptor names. */
  ghost predicate Exclusive(k: State, p: Pid, op: Op)
    requires Allowed(k, p, op)
  {
    match op
    case DoClose(fd) => Closable(k, p, fd)
    case DoExit => Alone(k, p, 3)
    case _ => true
  }

  lemma FreeIsUnnamed(k: State, g: int)
    requires Inv(k) && 3 <= g < SLOTS && k.table[g] == Free
    ensures Pairs(k, g) == {}
  {
    assert SlotOk(k, g);
  }

  /** A call keeps also the slots of files in order, so that no descriptor names a free slot, if and only
      if it closes no file that another descriptor names. */
  lemma StepExact(k: State, p: Pid, op: Op)
    requires Inv(k) && Allowed(k, p, op)
    ensures Inv(Do(k, p, op)) <==> Exclusive(k, p, op)
  {
    hide Inv, Alone, Closable, TwoFree, NotStale, Room, Pairs;
    match op
    case DoPipe(page) =>
      PipeExact(k, p, page);
      RoomIsTwo(k.fds[p]);
      FreeIsUnnamed(k, FreeSlot(k.table, 3));
    case DoOpen => OpenKeeps(k, p);
    case DoRefused => RefusedKeeps(k);
    case DoFork(c) => ForkKeeps(k, p, c);
    case DoClose(fd) => CloseExact(k, p, fd);
    case DoExit => ExitExact(k, p);
  }

  /** As long as no shared file was closed, no descriptor names a free slot. */
  lemma {:induction false} SlotsAreExact(ks: seq<State>, cs: seq<Call>, i: nat)
    requires IsRun(ks, cs) && i <= |cs|
    requires forall j :: 0 <= j < i ==> Allowed(ks[j], cs[j].p, cs[j].op) && Exclusive(ks[j], cs[j].p, cs[j].op)
    ensures Inv(ks[i])
  {
    hide Inv, Init, Allowed, Do, Exclusive, PipesOk;
    if i == 0 {
      InitHolds(ks[0]);
    } else {
      SlotsAreExact(ks, cs, i - 1);
      assert Step(ks[i - 1], ks[i], cs[i - 1]);
      StepExact(ks[i - 1], cs[i - 1].p, cs[i - 1].op);
    }
  }

  // ---------------------------------------------------------------- a file that two processes share

  /** A state without pipes: slot 3 is a file if `open`, the others are free. */
  ghost function Plain(open: bool, fds: map<Pid, seq<int>>): State {
    State(seq(SLOTS, _ => Free)[3 := if open then File else Free], fds, {})
  }

  const NONE: seq<int> := [0, 1, 2, -1, -1, -1, -1, -1]
  const ONE: seq<int> := [0, 1, 2, 3, -1, -1, -1, -1]
  const TWO: seq<int> := [0, 1, 2, 3, 3, -1, -1, -1]

  lemma {:induction false} BumpFiles(table: seq<Slot>, row: seq<int>, fd: nat)
    requires fd <= |row| && forall g :: 0 <= g < |table| ==> !table[g].Pipe?
    ensures Bump(table, row, fd) == table
    decreases |row| - fd
  {
    if fd < |row| {
      BumpFiles(table, row, fd + 1);
    }
  }

  lemma Opens()
    ensures Step(Plain(false, map[1 := NONE]), Plain(true, map[1 := ONE]), Call(1, DoOpen))
  {
    var k := Plain(false, map[1 := NONE]);
    assert FreeSlot(k.table, 3) == 3 && FirstFd(NONE, 3) == 3;
    assert NONE[3 := 3] == ONE;
    assert k.fds[1 := ONE] == map[1 := ONE];
  }

  lemma Forks()
    ensures Step(Plain(true, map[1 := ONE]), Plain(true, map[1 := ONE, 2 := ONE]), Call(1, DoFork(2)))
  {
    var k := Plain(true, map[1 := ONE]);
    BumpFiles(k.table, ONE, 3);
    assert k.fds[2 := ONE] == map[1 := ONE, 2 := ONE];
  }

  lemma Closes()
    ensures Step(Plain(true, map[1 := ONE, 2 := ONE]), Plain(false, map[1 := NONE, 2 := ONE]), Call(1, DoClose(3)))
  {
    var k, k' := Plain(true, map[1 := ONE, 2 := ONE]), Plain(false, map[1 := NONE, 2 := ONE]);
    assert ONE[3 := -1] == NONE;
    assert k.fds[1 := NONE] == k'.fds;
    assert k.table[3 := Free] == k'.table;
  }

  /** Process 1 opens a file, forks process 2 and closes the file.  Slot 3 is free, but descriptor 3 of
      process 2 still names it. */
  lemma SharedCloseExample()
    ensures var k3 := Plain(false, map[1 := NONE, 2 := ONE]);
      && IsRun([Plain(false, map[1 := NONE]), Plain(true, map[1 := ONE]), Plain(true, map[1 := ONE, 2 := ONE]), k3],
               [Call(1, DoOpen), Call(1, DoFork(2)), Call(1, DoClose(3))])
      && k3.table[3] == Free && (2, 3) in Pairs(k3, 3) && !Inv(k3)
  {
    hide Allowed, Do, Pages;
    Opens();
    Forks();
    Closes();
    var k3 := Plain(false, map[1 := NONE, 2 := ONE]);
    assert Holds(k3, 2, 3, 3);
    assert (2, 3) in Pairs(k3, 3);
    assert !SlotOk(k3, 3);
  }

  /** A pipe that process 1 then makes gets slot 3 and the count 2, but three descriptors name it. */
  lemma StaleDescriptorExample(page: nat)
    ensures var k3 := Plain(false, map[1 := NONE, 2 := ONE]);
      && FreeSlot(k3.table, 3) == 3 && TwoFree(k3.fds[1])
      && SysPipe(k3, 1, page).table[3] == Pipe(page, 2) && Pairs(SysPipe(k3, 1, page), 3) == {(1, 3), (1, 4), (2, 3)}
  {
    var k3 := Plain(false, map[1 := NONE, 2 := ONE]);
    assert FreeSlot(k3.table, 3) == 3;
    assert NONE[3] == -1 && NONE[4] == -1;
    assert FirstFd(NONE, 3) == 3 && FirstFd(ONE, 3) == 4;
    assert NONE[3 := 3] == ONE && ONE[4 := 3] == TWO;
    PairsOf(SysPipe(k3, 1, page));
  }

  lemma PairsOf(k: State)
    requires k.fds == map[1 := NONE, 2 := ONE][1 := TWO]
    ensures Pairs(k, 3) == {(1, 3), (1, 4), (2, 3)}
  {
    assert Holds(k, 1, 3, 3) && Holds(k, 1, 4, 3) && Holds(k, 2, 3, 3);
  }
}
