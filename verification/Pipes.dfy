/** The descriptor tables: the global file_table, each process's fd_table, and the count of a pipe
    (shell/pipe.c, sys_close in fs/fs.c, fork and exit). */
module Pipes {

  type Pid = nat
  const SLOTS := 32   // MAX_FILE_OPEN
  const FDS := 8      // MAX_FILES_OPEN_PER_PROC; 0, 1 and 2 are the standard descriptors

  /** A pipe keeps its page in fd_inode and its count in fd_pos. */
  datatype Slot = Free | File | Pipe(page: nat, count: nat)

  /** pages are the kernel pages that pipes hold. */
  datatype State = State(table: seq<Slot>, fds: map<Pid, seq<int>>, pages: set<nat>)

  // ---------------------------------------------------------------- the operations

  /** get_free_slot_in_global from slot g on. */
  function FreeSlot(table: seq<Slot>, g: nat): (r: int)
    requires g <= |table|
    ensures r == -1 || (g <= r < |table| && table[r] == Free)
    ensures forall i :: g <= i < (if r == -1 then |table| else r) ==> table[i] != Free
    decreases |table| - g
  {
    if g == |table| then -1 else if table[g] == Free then g else FreeSlot(table, g + 1)
  }

  /** The first unused descriptor from fd on. */
  function FirstFd(row: seq<int>, fd: nat): (r: int)
    requires fd <= |row|
    ensures r == -1 || (fd <= r < |row| && row[r] == -1)
    ensures forall i :: fd <= i < (if r == -1 then |row| else r) ==> row[i] != -1
    decreases |row| - fd
  {
    if fd == |row| then -1 else if row[fd] == -1 then fd else FirstFd(row, fd + 1)
  }

  /** pcb_fd_install: the first unused descriptor names g; with none, nothing changes. */
  function Install(row: seq<int>, g: int): seq<int>
    requires 3 <= |row|
  {
    var fd := FirstFd(row, 3);
    if fd == -1 then row else row[fd := g]
  }

  /** sys_pipe, when there is a free slot and page is the page it gets. */
  function SysPipe(k: State, p: Pid, page: nat): State
    requires p in k.fds && |k.fds[p]| == FDS && |k.table| == SLOTS && FreeSlot(k.table, 3) != -1
  {
    var g := FreeSlot(k.table, 3);
    State(k.table[g := Pipe(page, 2)], k.fds[p := Install(Install(k.fds[p], g), g)], k.pages + {page})
  }

  /** file_open and file_create, when there are a free slot and a free descriptor. */
  function OpenFile(k: State, p: Pid): State
    requires p in k.fds && |k.fds[p]| == FDS && |k.table| == SLOTS && FreeSlot(k.table, 3) != -1
  {
    var g := FreeSlot(k.table, 3);
    k.(table := k.table[g := File], fds := k.fds[p := Install(k.fds[p], g)])
  }

  /** file_open for writing while another process writes: it returns -1, and the slot stays taken. */
  function OpenRefused(k: State): State
    requires |k.table| == SLOTS && FreeSlot(k.table, 3) != -1
  {
    k.(table := k.table[FreeSlot(k.table, 3) := File])
  }

  /** The change of the slot in sys_close and in sys_exit. */
  function Unref(s: Slot): Slot {
    if s.Pipe? && s.count > 1 then s.(count := s.count - 1) else Free
  }

  /** sys_close of descriptor fd > 2, which is in use. */
  function Close(k: State, p: Pid, fd: nat): State
    requires p in k.fds && fd < |k.fds[p]| && 0 <= k.fds[p][fd] < |k.table|
  {
    var g := k.fds[p][fd];
    State(k.table[g := Unref(k.table[g])], k.fds[p := k.fds[p][fd := -1]],
          if k.table[g].Pipe? && Unref(k.table[g]) == Free then k.pages - {k.table[g].page} else k.pages)
  }

  /** update_inode_open_cnts from descriptor fd on, for pipes. */
  function Bump(table: seq<Slot>, row: seq<int>, fd: nat): (r: seq<Slot>)
    requires fd <= |row|
    ensures |r| == |table|
    decreases |row| - fd
  {
    if fd == |row| then table
    else if 0 <= row[fd] < |table| && table[row[fd]].Pipe? then
      Bump(table[row[fd] := table[row[fd]].(count := table[row[fd]].count + 1)], row, fd + 1)
    else Bump(table, row, fd + 1)
  }

  /** sys_fork: the child c starts with a copy of the row. */
  function Fork(k: State, p: Pid, c: Pid): State
    requires p in k.fds && |k.fds[p]| == FDS
  {
    k.(table := Bump(k.table, k.fds[p], 3), fds := k.fds[c := k.fds[p]])
  }

  /** The descriptor loop of release_prog_resource from descriptor fd on. */
  function CloseAll(k: State, p: Pid, fd: nat): State
    requires p in k.fds && |k.fds[p]| == FDS && fd <= FDS
    decreases FDS - fd
  {
    if fd == FDS then k
    else if 0 <= k.fds[p][fd] < |k.table| then CloseAll(Close(k, p, fd), p, fd + 1)
    else CloseAll(k, p, fd + 1)
  }

  function Exit(k: State, p: Pid): State
    requires p in k.fds && |k.fds[p]| == FDS
  {
    var e := CloseAll(k, p, 3);
    e.(fds := e.fds - {p})
  }

  // ---------------------------------------------------------------- the invariant

  ghost predicate Holds(k: State, p: Pid, fd: nat, g: int) {
    p in k.fds && 3 <= fd < |k.fds[p]| && k.fds[p][fd] == g
  }

  /** The live (process, descriptor) pairs that name slot g. */
  ghost function Pairs(k: State, g: int): set<(Pid, nat)> {
    set p, fd | p in k.fds && 3 <= fd < |k.fds[p]| && Holds(k, p, fd, g) :: (p, fd)
  }

  ghost predicate Rows(k: State) {
    && |k.table| == SLOTS
    && (forall p :: p in k.fds ==> |k.fds[p]| == FDS)
    && (forall p, fd :: p in k.fds && 3 <= fd < FDS ==> k.fds[p][fd] == -1 || 3 <= k.fds[p][fd] < SLOTS)
  }

  ghost predicate SlotOk(k: State, g: int)
    requires 0 <= g < |k.table|
  {
    match k.table[g]
    case Free => Pairs(k, g) == {}
    case Pipe(page, n) => n == |Pairs(k, g)| && n > 0 && page in k.pages
    case File => forall p, fd, fd' :: Holds(k, p, fd, g) && Holds(k, p, fd', g) ==> fd == fd'
  }

  ghost predicate PageOf(k: State, g: nat, page: nat) {
    3 <= g < |k.table| && k.table[g].Pipe? && k.table[g].page == page
  }

  ghost predicate HasSlot(k: State, page: nat) { exists g :: PageOf(k, g, page) }

  ghost predicate Pages(k: State) {
    && (forall g, h, x :: PageOf(k, g, x) && PageOf(k, h, x) ==> g == h)
    && (forall x :: x in k.pages <==> HasSlot(k, x))
  }

  ghost predicate Inv(k: State) {
    Rows(k) && Pages(k) && forall g :: 3 <= g < SLOTS ==> SlotOk(k, g)
  }

  // ---------------------------------------------------------------- one pair more or less

  /** Descriptor fd of process p now names g. */
  function Name(k: State, p: Pid, fd: nat, g: int): State
    requires p in k.fds && fd < |k.fds[p]|
  {
    k.(fds := k.fds[p := k.fds[p][fd := g]])
  }

  lemma NameAdds(k: State, p: Pid, fd: nat, g: int)
    requires Rows(k) && p in k.fds && 3 <= fd < FDS && k.fds[p][fd] == -1 && g >= 0
    ensures var k' := Name(k, p, fd, g);
      && (forall h :: 0 <= h && h != g ==> Pairs(k', h) == Pairs(k, h))
      && (p, fd) !in Pairs(k, g) && Pairs(k', g) == Pairs(k, g) + {(p, fd)} && |Pairs(k', g)| == |Pairs(k, g)| + 1
  {
    var k' := Name(k, p, fd, g);
    forall q, f, h | 0 <= h ensures Holds(k', q, f, h) <==> Holds(k, q, f, h) || (q == p && f == fd && h == g) {
    }
    assert Pairs(k', g) == Pairs(k, g) + {(p, fd)};
  }

  lemma NameDrops(k: State, p: Pid, fd: nat)
    requires Rows(k) && p in k.fds && 3 <= fd < FDS && k.fds[p][fd] >= 0
    ensures var k', g := Name(k, p, fd, -1), k.fds[p][fd];
      && (forall h :: 0 <= h && h != g ==> Pairs(k', h) == Pairs(k, h))
      && (p, fd) in Pairs(k, g) && Pairs(k', g) == Pairs(k, g) - {(p, fd)} && |Pairs(k', g)| == |Pairs(k, g)| - 1
  {
    var k', g := Name(k, p, fd, -1), k.fds[p][fd];
    forall q, f, h | 0 <= h ensures Holds(k', q, f, h) <==> Holds(k, q, f, h) && !(q == p && f == fd) {
    }
    assert Holds(k, p, fd, g);
    assert Pairs(k', g) == Pairs(k, g) - {(p, fd)};
  }
}
