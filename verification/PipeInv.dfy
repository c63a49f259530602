/** The whole file_table in order: a pipe's count is the number of descriptors that name it, its page goes
    at the last close, and no descriptor names a free slot.  Each call keeps this, or keeps it exactly
    under a condition on files that several processes share. */
module PipeInv {
  import opened Pipes

  // ---------------------------------------------------------------- close

  /** Descriptor fd names a pipe, or is the only one that names its file. */
  ghost predicate Closable(k: State, p: Pid, fd: nat)
    requires Rows(k) && p in k.fds && 3 <= fd < FDS && k.fds[p][fd] != -1
  {
    var g := k.fds[p][fd];
    k.table[g].Pipe? || Pairs(k, g) == {(p, fd)}
  }

  lemma CloseRows(k: State, p: Pid, fd: nat)
    requires Rows(k) && p in k.fds && 3 <= fd < FDS && k.fds[p][fd] != -1
    ensures Rows(Close(k, p, fd))
    ensures forall g :: Pairs(Close(k, p, fd), g) == Pairs(Name(k, p, fd, -1), g)
  {
    var k', n := Close(k, p, fd), Name(k, p, fd, -1);
    forall g ensures Pairs(k', g) == Pairs(n, g) {
      forall q: Pid, f: nat ensures Holds(k', q, f, g) <==> Holds(n, q, f, g) {
      }
    }
  }

  lemma ClosePages(k: State, p: Pid, fd: nat)
    requires Rows(k) && Pages(k) && p in k.fds && 3 <= fd < FDS && k.fds[p][fd] != -1
    ensures Pages(Close(k, p, fd))
  {
    var k', g := Close(k, p, fd), k.fds[p][fd];
    forall h, x ensures PageOf(k', h, x) <==> PageOf(k, h, x) && !(h == g && Unref(k.table[g]) == Free) {
    }
    forall x ensures x in k'.pages <==> HasSlot(k', x) {
      if x in k'.pages {
        var h :| PageOf(k, h, x);
        assert PageOf(k, g, x) ==> h == g;
        assert PageOf(k', h, x);
      }
      if HasSlot(k', x) {
        var h :| PageOf(k', h, x);
        assert PageOf(k, h, x);
        assert PageOf(k, g, x) ==> h == g;
      }
    }
  }

  /** sys_close keeps every count exact if and only if it closes a pipe or a file that no other
      descriptor names: file_close empties the slot whoever else still uses it. */
  lemma CloseExact(k: State, p: Pid, fd: nat)
    requires Inv(k) && p in k.fds && 3 <= fd < FDS && k.fds[p][fd] != -1
    ensures Inv(Close(k, p, fd)) <==> Closable(k, p, fd)
  {
    hide Pages;
    var k', g := Close(k, p, fd), k.fds[p][fd];
    CloseRows(k, p, fd);
    ClosePages(k, p, fd);
    NameDrops(k, p, fd);
    assert SlotOk(k, g);
    if Closable(k, p, fd) {
      OneLess(k, p, fd);
      forall h | 3 <= h < SLOTS && h != g ensures SlotOk(k', h) {
        OtherSlot(k, p, fd, h);
      }
    } else {
      assert Inv(k') ==> SlotOk(k', g);
    }
  }

  lemma OneLess(k: State, p: Pid, fd: nat)
    requires Rows(k) && p in k.fds && 3 <= fd < FDS && k.fds[p][fd] != -1 && SlotOk(k, k.fds[p][fd])
      && Closable(k, p, fd)
    ensures SlotOk(Close(k, p, fd), k.fds[p][fd])
  {
    CloseRows(k, p, fd);
    NameDrops(k, p, fd);
  }

  lemma OtherSlot(k: State, p: Pid, fd: nat, h: int)
    requires Rows(k) && Pages(k) && p in k.fds && 3 <= fd < FDS && k.fds[p][fd] != -1
    requires 3 <= h < SLOTS && h != k.fds[p][fd] && SlotOk(k, h)
    ensures SlotOk(Close(k, p, fd), h)
  {
    var k', g := Close(k, p, fd), k.fds[p][fd];
    CloseRows(k, p, fd);
    NameDrops(k, p, fd);
    if k.table[h].Pipe? {
      assert PageOf(k, h, k.table[h].page);
      assert k.table[g].Pipe? ==> PageOf(k, g, k.table[g].page);
    }
    forall q: Pid, f: nat ensures Holds(k', q, f, h) <==> Holds(k, q, f, h) {
      assert Holds(k', q, f, h) <==> (q, f) in Pairs(k', h);
      assert Holds(k, q, f, h) <==> (q, f) in Pairs(k, h);
    }
  }

  /** The page of a pipe is given back exactly when no descriptor names the pipe any more. */
  lemma LastClose(k: State, p: Pid, fd: nat)
    requires Inv(k) && p in k.fds && 3 <= fd < FDS && k.fds[p][fd] != -1 && k.table[k.fds[p][fd]].Pipe?
    ensures var k', g := Close(k, p, fd), k.fds[p][fd];
      && Inv(k') && k.table[g].page in k.pages
      && (k.table[g].page !in k'.pages <==> Pairs(k', g) == {})
      && (forall x :: x in k.pages && x !in k'.pages ==> x == k.table[g].page)
  {
    hide Pages;
    CloseExact(k, p, fd);
    CloseRows(k, p, fd);
    NameDrops(k, p, fd);
    assert SlotOk(k, k.fds[p][fd]);
  }

  // ---------------------------------------------------------------- pipe and open

  lemma SamePairs(k: State, k': State)
    requires k'.fds == k.fds
    ensures forall g :: Pairs(k', g) == Pairs(k, g)
  {
    forall g ensures Pairs(k', g) == Pairs(k, g) {
      forall p: Pid, fd: nat ensures Holds(k', p, fd, g) <==> Holds(k, p, fd, g) {
      }
    }
  }

  /** The pairs after one pcb_fd_install. */
  lemma Installed(k: State, k': State, p: Pid, g: int)
    requires Rows(k) && p in k.fds && k'.fds == k.fds[p := Install(k.fds[p], g)] && 3 <= g < SLOTS
      && |k'.table| == SLOTS
    ensures Rows(k') && (forall h :: 0 <= h && h != g ==> Pairs(k', h) == Pairs(k, h))
    ensures |Pairs(k', g)| == |Pairs(k, g)| + if FirstFd(k.fds[p], 3) == -1 then 0 else 1
    ensures FirstFd(k.fds[p], 3) != -1 ==> Pairs(k', g) == Pairs(k, g) + {(p, FirstFd(k.fds[p], 3))}
  {
    hide Pairs;
    var fd := FirstFd(k.fds[p], 3);
    if fd == -1 {
      assert k'.fds == k.fds;
      SamePairs(k, k');
    } else {
      NameAdds(k, p, fd, g);
      SamePairs(Name(k, p, fd, g), k');
    }
  }

  lemma SlotSame(k: State, k': State, h: int)
    requires 0 <= h < |k.table| && h < |k'.table| && k'.table[h] == k.table[h] && Pairs(k', h) == Pairs(k, h)
    requires k.pages <= k'.pages && SlotOk(k, h)
    ensures SlotOk(k', h)
  {
    forall p: Pid, fd: nat ensures Holds(k', p, fd, h) <==> Holds(k, p, fd, h) {
      assert Holds(k', p, fd, h) <==> (p, fd) in Pairs(k', h);
      assert Holds(k, p, fd, h) <==> (p, fd) in Pairs(k, h);
    }
  }

  lemma NewPage(k: State, k': State, g: int, page: nat)
    requires Pages(k) && 3 <= g < |k.table| && k.table[g] == Free && page !in k.pages
    requires k'.pages == k.pages + {page} && exists n :: k'.table == k.table[g := Pipe(page, n)]
    ensures Pages(k')
  {
    forall h, x ensures PageOf(k', h, x) <==> PageOf(k, h, x) || (h == g && x == page) {
    }
    assert PageOf(k', g, page);
    assert forall h :: PageOf(k, h, page) ==> HasSlot(k, page);
    forall x ensures x in k'.pages <==> HasSlot(k', x) {
      if x in k.pages {
        var h :| PageOf(k, h, x);
        assert PageOf(k', h, x);
      }
      if HasSlot(k', x) && x != page {
        var h :| PageOf(k', h, x);
        assert PageOf(k, h, x);
      }
    }
  }

  /** Two unused descriptors. */
  ghost predicate TwoFree(row: seq<int>) {
    exists i, j :: 3 <= i < j < |row| && row[i] == -1 && row[j] == -1
  }

  ghost function Unused(row: seq<int>): set<nat> { set i: nat | 3 <= i < |row| && row[i] == -1 }

  /** How many descriptors sys_pipe gets. */
  ghost function Room(row: seq<int>): nat { if |Unused(row)| < 2 then |Unused(row)| else 2 }

  lemma RoomIsTwo(row: seq<int>)
    ensures Room(row) == 2 <==> TwoFree(row)
  {
    var u := Unused(row);
    if TwoFree(row) {
      var i: nat, j: nat :| 3 <= i < j < |row| && row[i] == -1 && row[j] == -1;
      TwoMembers(u, i, j);
    }
    if |u| >= 2 {
      var i, j := TwoOf(u);
      assert row[i] == -1 && row[j] == -1;
    }
  }

  lemma TwoMembers(u: set<nat>, i: nat, j: nat)
    requires i in u && j in u && i != j
    ensures |u| >= 2
  {
    assert |u - {i}| == |u| - 1 && j in u - {i};
  }

  lemma TwoOf(u: set<nat>) returns (i: nat, j: nat)
    requires |u| >= 2
    ensures i in u && j in u && i < j
  {
    i :| i in u;
    assert |u - {i}| == |u| - 1;
    j :| j in u - {i};
    if j < i {
      i, j := j, i;
    }
  }

  /** The two calls of pcb_fd_install take that many. */
  lemma RoomIsTaken(row: seq<int>, g: int)
    requires |row| == FDS && g != -1
    ensures (if FirstFd(row, 3) == -1 then 0 else 1) + (if FirstFd(Install(row, g), 3) == -1 then 0 else 1) == Room(row)
  {
    hide FirstFd;
    var i := FirstFd(row, 3);
    TwoInstalls(row, g);
    RoomIsTwo(row);
    if i == -1 {
      assert Unused(row) == {};
    } else {
      assert i in Unused(row);
      assert |Unused(row)| >= 1 by { assert Unused(row) == {i as nat} + (Unused(row) - {i}); }
    }
  }

  lemma TwoInstalls(row: seq<int>, g: int)
    requires |row| == FDS && g != -1
    ensures TwoFree(row) <==> FirstFd(row, 3) != -1 && FirstFd(Install(row, g), 3) != -1
  {
    var i := FirstFd(row, 3);
    if i != -1 {
      var after := row[i := g];
      if TwoFree(row) {
        var a, b :| 3 <= a < b < |row| && row[a] == -1 && row[b] == -1;
        assert i <= a && after[b] == -1;
      }
      var j := FirstFd(after, 3);
      if j != -1 {
        assert i < j && row[i] == -1 && row[j] == -1;
      }
    }
  }

  lemma PipePairs(k: State, p: Pid, page: nat)
    requires Rows(k) && p in k.fds && FreeSlot(k.table, 3) != -1
    ensures var k', g := SysPipe(k, p, page), FreeSlot(k.table, 3);
      && Rows(k') && (forall h :: 0 <= h && h != g ==> Pairs(k', h) == Pairs(k, h))
      && |Pairs(k', g)| == |Pairs(k, g)| + Room(k.fds[p])
  {
    hide TwoFree, Install, Pairs, Room;
    var k', g := SysPipe(k, p, page), FreeSlot(k.table, 3);
    var once := k'.(fds := k.fds[p := Install(k.fds[p], g)]);
    Installed(k, once, p, g);
    assert k'.fds == once.fds[p := Install(once.fds[p], g)];
    Installed(once, k', p, g);
    RoomIsTaken(k.fds[p], g);
  }

  /** sys_pipe sets the count to 2 without looking at what pcb_fd_install returns: the count is
      exact if and only if the process has two unused descriptors. */
  lemma PipeExact(k: State, p: Pid, page: nat)
    requires Inv(k) && p in k.fds && FreeSlot(k.table, 3) != -1 && page !in k.pages
    ensures Inv(SysPipe(k, p, page)) <==> TwoFree(k.fds[p])
  {
    hide Pages, TwoFree, Install, Pairs;
    var k', g := SysPipe(k, p, page), FreeSlot(k.table, 3);
    assert SlotOk(k, g);
    PipePairs(k, p, page);
    RoomIsTwo(k.fds[p]);
    NewPage(k, k', g, page);
    forall h | 3 <= h < SLOTS && h != g ensures SlotOk(k', h) {
      SlotSame(k, k', h);
    }
    assert SlotOk(k', g) <==> TwoFree(k.fds[p]);
  }

  lemma OpenKeeps(k: State, p: Pid)
    requires Inv(k) && p in k.fds && FreeSlot(k.table, 3) != -1
    ensures Inv(OpenFile(k, p))
    ensures var k', g, fd := OpenFile(k, p), FreeSlot(k.table, 3), FirstFd(k.fds[p], 3);
      && k'.table == k.table[g := File] && (fd == -1 ==> Pairs(k', g) == {}) && (fd != -1 ==> Pairs(k', g) == {(p, fd)})
      && forall h :: 0 <= h && h != g ==> Pairs(k', h) == Pairs(k, h)
  {
    hide Install;
    var k', g := OpenFile(k, p), FreeSlot(k.table, 3);
    Installed(k, k', p, g);
    assert SlotOk(k, g);
    forall h | 3 <= h < SLOTS && h != g ensures SlotOk(k', h) {
      SlotSame(k, k', h);
    }
    OnePerProcess(k', g, p, FirstFd(k.fds[p], 3));
    SamePages(k, k');
  }

  /** file_open that is refused because somebody writes: the slot is taken, and no descriptor names it. */
  lemma RefusedKeeps(k: State)
    requires Inv(k) && FreeSlot(k.table, 3) != -1
    ensures var g := FreeSlot(k.table, 3);
      Inv(OpenRefused(k)) && OpenRefused(k).table[g] == File && Pairs(OpenRefused(k), g) == {}
  {
    hide Pages, Pairs;
    var k', g := OpenRefused(k), FreeSlot(k.table, 3);
    SamePairs(k, k');
    assert SlotOk(k, g);
    forall h | 3 <= h < SLOTS && h != g ensures SlotOk(k', h) {
      SlotSame(k, k', h);
    }
    OnePerProcess(k', g, 0, -1);
    SamePages(k, k');
  }

  lemma OnePerProcess(k: State, g: int, p: Pid, fd: int)
    requires 0 <= g < |k.table| && k.table[g] == File && (fd >= 0 ==> Pairs(k, g) == {(p, fd)})
      && (fd < 0 ==> Pairs(k, g) == {})
    ensures SlotOk(k, g)
  {
    forall q: Pid, f: nat | Holds(k, q, f, g) ensures q == p && f == fd {
      assert (q, f) in Pairs(k, g);
    }
  }

  lemma SamePages(k: State, k': State)
    requires Pages(k) && k'.pages == k.pages && forall h, x :: PageOf(k', h, x) <==> PageOf(k, h, x)
    ensures Pages(k')
  {
    forall x ensures HasSlot(k', x) <==> HasSlot(k, x) {
      if HasSlot(k, x) {
        var h :| PageOf(k, h, x);
        assert PageOf(k', h, x);
      }
    }
  }

  // ---------------------------------------------------------------- fork

  /** The row of the child as far as update_inode_open_cnts has come. */
  ghost function Masked(row: seq<int>, fd: nat): seq<int> {
    seq(|row|, i requires 0 <= i < |row| => if i < fd then row[i] else -1)
  }

  /** One more descriptor names slot g. */
  ghost function Counted(table: seq<Slot>, g: int): seq<Slot> {
    if 0 <= g < |table| && table[g].Pipe? then table[g := table[g].(count := table[g].count + 1)] else table
  }

  /** As far as its row has been counted, the child is a process like every other. */
  lemma {:induction false} BumpKeeps(k: State, c: Pid, row: seq<int>, fd: nat)
    requires c in k.fds && |row| == FDS && 3 <= fd <= FDS && k.fds[c] == Masked(row, fd) && Inv(k) && |k.table| == SLOTS
    requires forall i :: 3 <= i < FDS ==> row[i] == -1 || (3 <= row[i] < SLOTS && k.table[row[i]] != Free)
    requires forall i, j :: 3 <= i < j < FDS && row[i] == row[j] && row[i] != -1 ==> k.table[row[i]] != File
    ensures Inv(k.(table := Bump(k.table, row, fd), fds := k.fds[c := row]))
    decreases FDS - fd
  {
    hide Inv, Pages, Pairs;
    if fd == FDS {
      assert Masked(row, fd) == row;
      assert k.fds[c := row] == k.fds;
    } else {
      var k1 := Name(k, c, fd, row[fd]);
      assert k1.fds[c] == Masked(row, fd + 1);
      var t := Counted(k.table, row[fd]);
      OneMore(k, k1.(table := t), c, fd, row);
      BumpKeeps(k1.(table := t), c, row, fd + 1);
      assert k1.fds[c := row] == k.fds[c := row];
    }
  }

  lemma OneMore(k: State, k': State, c: Pid, fd: nat, row: seq<int>)
    requires Inv(k) && c in k.fds && |row| == FDS && 3 <= fd < FDS && k.fds[c] == Masked(row, fd)
    requires row[fd] == -1 || (3 <= row[fd] < SLOTS && k.table[row[fd]] != Free)
    requires forall i :: 3 <= i < fd && row[i] == row[fd] && row[i] != -1 ==> k.table[row[i]] != File
    requires k'.fds == Name(k, c, fd, row[fd]).fds && k'.pages == k.pages
    requires k'.table == Counted(k.table, row[fd])
    ensures Inv(k') && forall i :: 0 <= i < SLOTS ==>
      k'.table[i].Free? == k.table[i].Free? && k'.table[i].File? == k.table[i].File?
  {
    hide Pages, Pairs;
    var g := row[fd];
    if g == -1 {
      assert k.fds[c][fd := -1] == k.fds[c];
      assert k.fds[c := k.fds[c][fd := -1]] == k.fds;
      assert k' == k;
    } else {
      NameAdds(k, c, fd, g);
      SamePairs(Name(k, c, fd, g), k');
      SamePages(k, k');
      forall h | 3 <= h < SLOTS ensures SlotOk(k', h) {
        if h != g {
          SlotSame(k, k', h);
        } else if k.table[g] == File {
          FileOneMore(k, k', c, fd, row);
        } else {
          assert SlotOk(k, g);
        }
      }
    }
  }

  lemma FileOneMore(k: State, k': State, c: Pid, fd: nat, row: seq<int>)
    requires Rows(k) && c in k.fds && |row| == FDS && 3 <= fd < FDS && k.fds[c] == Masked(row, fd)
      && 3 <= row[fd] < SLOTS
    requires SlotOk(k, row[fd]) && k.table[row[fd]] == File && k'.table == k.table
    requires forall i :: 3 <= i < fd && row[i] == row[fd] && row[i] != -1 ==> k.table[row[i]] != File
    requires k'.fds == Name(k, c, fd, row[fd]).fds
    ensures SlotOk(k', row[fd])
  {
    var g := row[fd];
    forall p: Pid, f: nat, f': nat | Holds(k', p, f, g) && Holds(k', p, f', g) ensures f == f' {
      assert p != c ==> Holds(k, p, f, g) && Holds(k, p, f', g);
    }
  }

  /** fork keeps every count exact: the child's descriptors are new pairs, each counted once. */
  lemma ForkKeeps(k: State, p: Pid, c: Pid)
    requires Inv(k) && p in k.fds && c !in k.fds
    ensures Inv(Fork(k, p, c))
    ensures forall q, fd, g :: Holds(Fork(k, p, c), q, fd, g) <==> Holds(k, q, fd, g) || (q == c && Holds(k, p, fd, g))
  {
    hide Pages, Pairs, SlotOk;
    var row := k.fds[p];
    var k0 := k.(fds := k.fds[c := Masked(row, 3)]);
    EmptyRow(k, k0, c, row);
    RowIsLive(k, p);
    BumpKeeps(k0, c, row, 3);
    assert k0.fds[c := row] == k.fds[c := row];
  }

  lemma EmptyRow(k: State, k': State, c: Pid, row: seq<int>)
    requires Inv(k) && c !in k.fds && |row| == FDS && k' == k.(fds := k.fds[c := Masked(row, 3)])
    ensures Inv(k')
  {
    hide Pages;
    forall g | 3 <= g < SLOTS ensures SlotOk(k', g) {
      forall p: Pid, fd: nat ensures Holds(k', p, fd, g) <==> Holds(k, p, fd, g) {
      }
      assert Pairs(k', g) == Pairs(k, g);
      SlotSame(k, k', g);
    }
    SamePages(k, k');
  }

  lemma RowIsLive(k: State, p: Pid)
    requires Inv(k) && p in k.fds
    ensures forall i :: 3 <= i < FDS ==> k.fds[p][i] == -1 || (3 <= k.fds[p][i] < SLOTS && k.table[k.fds[p][i]] != Free)
    ensures forall i, j :: 3 <= i < j < FDS && k.fds[p][i] == k.fds[p][j] && k.fds[p][i] != -1 ==>
      k.table[k.fds[p][i]] != File
  {
    hide Pages;
    var row := k.fds[p];
    forall i | 3 <= i < FDS && row[i] != -1 ensures k.table[row[i]] != Free {
      assert Holds(k, p, i, row[i]);
      assert (p, i) in Pairs(k, row[i]);
      assert SlotOk(k, row[i]);
    }
    forall i, j | 3 <= i < j < FDS && row[i] == row[j] && row[i] != -1 ensures k.table[row[i]] != File {
      assert Holds(k, p, i, row[i]) && Holds(k, p, j, row[i]);
      assert SlotOk(k, row[i]);
    }
  }

  // ---------------------------------------------------------------- exit

  /** Every file the process has open from descriptor fd on is named by no other process. */
  ghost predicate Alone(k: State, p: Pid, fd: nat)
    requires Rows(k) && p in k.fds
  {
    forall i, q, f ::
      fd <= i < FDS && 3 <= i && k.fds[p][i] != -1 && k.table[k.fds[p][i]] == File && Holds(k, q, f, k.fds[p][i]) ==>
        q == p
  }

  lemma AloneIsClosable(k: State, p: Pid, fd: nat)
    requires Inv(k) && p in k.fds && 3 <= fd < FDS && k.fds[p][fd] != -1
    ensures Closable(k, p, fd) <==>
      (k.table[k.fds[p][fd]] == File ==> forall q, f :: Holds(k, q, f, k.fds[p][fd]) ==> q == p)
  {
    hide Pages;
    var g := k.fds[p][fd];
    assert SlotOk(k, g) && Holds(k, p, fd, g);
    assert (p, fd) in Pairs(k, g);
    if k.table[g] == File {
      if forall q, f :: Holds(k, q, f, g) ==> q == p {
        assert Pairs(k, g) == {(p, fd)};
      } else {
        var q: Pid, f: nat :| Holds(k, q, f, g) && q != p;
        assert (q, f) in Pairs(k, g);
      }
    }
  }

  lemma AloneStays(k: State, p: Pid, fd: nat)
    requires Inv(k) && p in k.fds && 3 <= fd < FDS && k.fds[p][fd] != -1 && Closable(k, p, fd)
    ensures Rows(Close(k, p, fd)) && (Alone(Close(k, p, fd), p, fd + 1) <==> Alone(k, p, fd))
  {
    hide Pages;
    AloneIsClosable(k, p, fd);
    CloseRows(k, p, fd);
    var k', g := Close(k, p, fd), k.fds[p][fd];
    forall i: nat, q: Pid, f: nat | fd < i < FDS && k.fds[p][i] != -1 && q != p
      ensures k'.fds[p][i] == k.fds[p][i] && (Holds(k', q, f, k.fds[p][i]) <==> Holds(k, q, f, k.fds[p][i])) {
    }
    forall i | fd < i < FDS && k.fds[p][i] != -1
      ensures k'.table[k.fds[p][i]] == File <==> k.table[k.fds[p][i]] == File
    {
      if k.fds[p][i] == g {
        assert SlotOk(k, g) && Holds(k, p, i, g) && Holds(k, p, fd, g);
      }
    }
  }

  /** The loop of sys_exit closes everything the process has open, and nobody else's. */
  lemma {:induction false} CloseAllExact(k: State, p: Pid, fd: nat)
    requires Inv(k) && p in k.fds && 3 <= fd <= FDS && |k.fds[p]| == FDS
    requires forall i :: 3 <= i < fd ==> k.fds[p][i] == -1
    requires Rows(k) && Alone(k, p, fd)
    ensures var e := CloseAll(k, p, fd);
      && Inv(e) && p in e.fds && |e.fds[p]| == FDS && (forall i :: 3 <= i < FDS ==> e.fds[p][i] == -1)
      && e.fds == k.fds[p := e.fds[p]]
    decreases FDS - fd
  {
    hide Inv, Pages, Pairs, Alone, Rows;
    if fd == FDS {
      assert k.fds[p := k.fds[p]] == k.fds;
    } else {
      RowShape(k, p, fd);
      if k.fds[p][fd] == -1 {
        CloseAllExact(k, p, fd + 1);
      } else {
        AloneNow(k, p, fd);
        CloseExact(k, p, fd);
        AloneStays(k, p, fd);
        CloseAllExact(Close(k, p, fd), p, fd + 1);
      }
    }
  }

  lemma RowShape(k: State, p: Pid, fd: nat)
    requires Rows(k) && p in k.fds && 3 <= fd < FDS && Alone(k, p, fd)
    ensures |k.fds[p]| == FDS && |k.table| == SLOTS && (k.fds[p][fd] == -1 || 3 <= k.fds[p][fd] < SLOTS)
    ensures k.fds[p][fd] == -1 ==> Alone(k, p, fd + 1)
  {
  }

  lemma AloneNow(k: State, p: Pid, fd: nat)
    requires Inv(k) && p in k.fds && 3 <= fd < FDS && k.fds[p][fd] != -1 && Alone(k, p, fd)
    ensures Closable(k, p, fd)
  {
    hide Pages;
    AloneIsClosable(k, p, fd);
  }

  /** The exit of a process that shares no open file keeps every count exact. */
  lemma ExitKeeps(k: State, p: Pid)
    requires Inv(k) && p in k.fds && Alone(k, p, 3)
    ensures Inv(Exit(k, p))
    ensures Exit(k, p).fds == k.fds - {p}
  {
    hide Pages, Pairs;
    CloseAllExact(k, p, 3);
    GoneRow(CloseAll(k, p, 3), p);
  }

  lemma GoneRow(k: State, p: Pid)
    requires Inv(k) && p in k.fds && forall i :: 3 <= i < FDS ==> k.fds[p][i] == -1
    ensures Inv(k.(fds := k.fds - {p}))
  {
    hide Pages;
    var k' := k.(fds := k.fds - {p});
    forall g | 3 <= g < SLOTS ensures SlotOk(k', g) {
      forall q: Pid, fd: nat ensures Holds(k', q, fd, g) <==> Holds(k, q, fd, g) {
      }
      assert Pairs(k', g) == Pairs(k, g);
      SlotSame(k, k', g);
    }
    SamePages(k, k');
  }

  lemma {:induction false} CloseAllFrees(k: State, p: Pid, fd: nat, g: int)
    requires Rows(k) && p in k.fds && 3 <= fd <= FDS && 3 <= g < SLOTS
    requires k.table[g] == Free || (k.table[g] == File && exists i :: fd <= i < FDS && k.fds[p][i] == g)
    ensures var e := CloseAll(k, p, fd);
      && |e.table| == SLOTS && e.table[g] == Free
      && forall q :: q in k.fds && q != p ==> q in e.fds && e.fds[q] == k.fds[q]
    decreases FDS - fd
  {
    hide Pairs;
    if fd < FDS {
      if k.fds[p][fd] == -1 {
        CloseAllFrees(k, p, fd + 1, g);
      } else {
        CloseRows(k, p, fd);
        var k' := Close(k, p, fd);
        if k'.table[g] != Free {
          var i :| fd <= i < FDS && k.fds[p][i] == g;
          assert fd + 1 <= i && k'.fds[p][i] == g;
        }
        CloseAllFrees(k', p, fd + 1, g);
      }
    }
  }

  /** sys_exit keeps every count exact if and only if no other process has one of its files open. */
  lemma ExitExact(k: State, p: Pid)
    requires Inv(k) && p in k.fds
    ensures Inv(Exit(k, p)) <==> Alone(k, p, 3)
  {
    hide Pages;
    if Alone(k, p, 3) {
      ExitKeeps(k, p);
    } else {
      var i: nat, q: Pid, f: nat :| 3 <= i < FDS && k.fds[p][i] != -1 && k.table[k.fds[p][i]] == File
        && Holds(k, q, f, k.fds[p][i]) && q != p;
      var g, k' := k.fds[p][i], Exit(k, p);
      CloseAllFrees(k, p, 3, g);
      assert Holds(k', q, f, g);
      assert (q, f) in Pairs(k', g);
      assert Inv(k') ==> SlotOk(k', g);
    }
  }
}
