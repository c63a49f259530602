/** The descriptor loops as they run on file_table and fd_table. */
module Descriptors {
  import opened Pipes

  class Tables {
    var table: seq<Slot>
    var fds: map<Pid, seq<int>>
    ghost var pages: set<nat>

    ghost function K(): State
      reads this
    {
      State(table, fds, pages)
    }

    method GetFreeSlot() returns (g: int)
      requires |table| == SLOTS
      ensures g == FreeSlot(table, 3)
    {
      g := 3;
      while g < SLOTS
        invariant 3 <= g <= SLOTS && FreeSlot(table, 3) == FreeSlot(table, g)
      {
        if table[g] == Free {
          return;
        }
        g := g + 1;
      }
      g := -1;
    }

    method FdInstall(me: Pid, g: int) returns (fd: int)
      requires me in fds && |fds[me]| == FDS && g >= 0
      modifies this`fds
      ensures fds == old(fds)[me := Install(old(fds)[me], g)]
      ensures fd == FirstFd(old(fds)[me], 3)
    {
      fd := 3;
      while fd < FDS
        invariant 3 <= fd <= FDS && fds == old(fds) && FirstFd(fds[me], 3) == FirstFd(fds[me], fd)
      {
        if fds[me][fd] == -1 {
          fds := fds[me := fds[me][fd := g]];
          return;
        }
        fd := fd + 1;
      }
      assert fds == fds[me := fds[me]];
      fd := -1;
    }

    /** sys_pipe, given the page it gets. */
    method MakePipe(me: Pid, page: nat) returns (readEnd: int, writeEnd: int)
      requires me in fds && |fds[me]| == FDS && |table| == SLOTS && FreeSlot(table, 3) != -1
      modifies this
      ensures K() == SysPipe(old(K()), me, page)
      ensures readEnd == FirstFd(old(fds)[me], 3)
        && writeEnd == FirstFd(Install(old(fds)[me], FreeSlot(old(table), 3)), 3)
    {
      var g := GetFreeSlot();
      table := table[g := Pipe(page, 2)];
      pages := pages + {page};
      readEnd := FdInstall(me, g);
      writeEnd := FdInstall(me, g);
      assert fds == old(fds)[me := fds[me]];
    }

    /** sys_close of a descriptor that is in use. */
    method SysClose(me: Pid, fd: nat)
      requires me in fds && 3 <= fd < |fds[me]| && 0 <= fds[me][fd] < |table|
      modifies this
      ensures K() == Pipes.Close(old(K()), me, fd)
    {
      var g := fds[me][fd];
      if table[g].Pipe? && table[g].count > 1 {
        table := table[g := table[g].(count := table[g].count - 1)];
      } else {
        pages := if table[g].Pipe? then pages - {table[g].page} else pages;
        table := table[g := Free];
      }
      fds := fds[me := fds[me][fd := -1]];
    }

    /** The descriptor part of sys_fork: the copied row, and update_inode_open_cnts. */
    method ForkRow(me: Pid, child: Pid)
      requires me in fds && |fds[me]| == FDS && child !in fds
      modifies this`table, this`fds
      ensures K() == Fork(old(K()), me, child)
    {
      fds := fds[child := fds[me]];
      var fd := 3;
      while fd < FDS
        invariant 3 <= fd <= FDS && fds == old(fds)[child := old(fds)[me]]
        invariant Bump(table, fds[child], fd) == Bump(old(table), old(fds)[me], 3)
      {
        var g := fds[child][fd];
        if 0 <= g < |table| && table[g].Pipe? {
          table := table[g := table[g].(count := table[g].count + 1)];
        }
        fd := fd + 1;
      }
    }

    /** The descriptor part of sys_exit. */
    method ReleaseRow(me: Pid)
      requires me in fds && |fds[me]| == FDS
      modifies this
      ensures K() == Exit(old(K()), me)
    {
      hide CloseAll, Close;
      var fd := 3;
      while fd < FDS
        invariant 3 <= fd <= FDS && me in fds && |fds[me]| == FDS
        invariant CloseAll(K(), me, fd) == CloseAll(old(K()), me, 3)
      {
        CloseAllStep(K(), me, fd);
        if 0 <= fds[me][fd] < |table| {
          SysClose(me, fd);
        }
        fd := fd + 1;
      }
      CloseAllEnd(K(), me);
      fds := fds - {me};
    }
  }

  lemma CloseAllStep(k: State, p: Pid, fd: nat)
    requires p in k.fds && |k.fds[p]| == FDS && fd < FDS
    ensures var k1 := if 0 <= k.fds[p][fd] < |k.table| then Close(k, p, fd) else k;
      p in k1.fds && |k1.fds[p]| == FDS && CloseAll(k, p, fd) == CloseAll(k1, p, fd + 1)
  {
  }

  lemma CloseAllEnd(k: State, p: Pid)
    requires p in k.fds && |k.fds[p]| == FDS
    ensures CloseAll(k, p, FDS) == k
  {
  }
}
