/** fork, exit and wait (userprog/fork.c, userprog/wait_exit.c, thread_exit in thread/thread.c) as
    steps of processes that interleave.

    thread_all_list is a sequence of task structures.  A task structure is named by the serial
    number of the process in it, since pages and pids are used again.  A call is cut into steps
    where it can be switched out: fork between the pid and the list, exit between the adoption of
    the children and the message to the parent, and reaping before the removal from the list and
    before the return of the pid. */
module Processes {
  import opened Bitmap
  import opened Scheduler

  type Uid = nat
  type Pid = int

  datatype Phase =
    | Home                               // outside these calls
    | Creating(child: Pid, parent: Pid)  // in fork, or in thread_start with parent -1
    | InWait                             // in the loop of sys_wait, having blocked
    | Reaping(corpse: Uid)               // in thread_exit(child), child still on the list
    | Releasing(freed: Pid)              // in thread_exit(child), pid not yet returned
    | Exiting                            // past the adoption in sys_exit, for good

  datatype Pcb = Pcb(pid: Pid, parent: Pid, status: Status, exitStatus: int, phase: Phase)

  datatype Reaped = Reaped(parent: Uid, child: Uid, pid: Pid, status: int)

  /** exits records the argument of each sys_exit, reaped what each successful sys_wait returned. */
  datatype State = State(order: seq<Uid>, procs: map<Uid, Pcb>, pids: seq<bool>,
                         next: Uid, exits: map<Uid, int>, reaped: seq<Reaped>)

  const INIT: Uid := 0   // process_execute(init) comes first, and gets pid 1

  /** A value stored in an int8_t and read back. */
  function Int8(x: int): (r: int)
    ensures -128 <= r < 128 && (r - x) % 256 == 0
  {
    (x + 128) % 256 - 128
  }

  // ---------------------------------------------------------------- list_traversal

  /** The callbacks: pid_check, find_child and find_hanging_child. */
  datatype Query = ByPid | Child | HangingChild

  predicate Matches(k: State, q: Query, pid: Pid, u: Uid) {
    && u in k.procs
    && match q
       case ByPid => k.procs[u].pid == pid
       case Child => k.procs[u].parent == pid
       case HangingChild => k.procs[u].parent == pid && k.procs[u].status == Hanging
  }

  /** list_traversal returns u, the first task on the list that matches. */
  ghost predicate Finds(k: State, q: Query, pid: Pid, u: Uid) {
    exists i :: 0 <= i < |k.order| && k.order[i] == u && Matches(k, q, pid, u) && forall j :: 0 <= j < i ==>
      !Matches(k, q, pid, k.order[j])
  }

  /** list_traversal returns NULL. */
  ghost predicate FindsNone(k: State, q: Query, pid: Pid) {
    forall u :: u in k.order ==> !Matches(k, q, pid, u)
  }

  function With(k: State, u: Uid, p: Pcb): State { k.(procs := k.procs[u := p]) }

  // ---------------------------------------------------------------- steps

  predicate Runs(k: State, u: Uid, phase: Phase) {
    u in k.procs && k.procs[u].status == Running && k.procs[u].phase == phase
  }

  /** The scheduler and the semaphores move a process between RUNNING, READY and BLOCKED. */
  ghost predicate Switch(k: State, k': State, u: Uid, s: Status) {
    && u in k.procs && k.procs[u].status in {Running, Ready, Blocked} && s in {Running, Ready, Blocked}
    && k' == With(k, u, k.procs[u].(status := s))
  }

  /** allocate_pid, in fork or in thread_start and process_execute. */
  ghost predicate Begin(k: State, k': State, u: Uid, fork: bool) {
    && Runs(k, u, Home)
    && var bit := FindRun(k.pids, 1);
    && bit != -1
    && var p := k.procs[u];
    k' == With(k, u, p.(phase := Creating(bit + 1, if fork then p.pid else -1))).(pids := k.pids[bit := true])
  }

  /** The new process is appended to the list, a copy of its parent but for pid, parent and status. */
  ghost predicate Finish(k: State, k': State, u: Uid) {
    && u in k.procs && k.procs[u].phase.Creating? && Runs(k, u, k.procs[u].phase)
    && var child := Pcb(k.procs[u].phase.child, k.procs[u].phase.parent, Ready, k.procs[u].exitStatus, Home);
    k' == k.(order := k.order + [k.next], next := k.next + 1,
             procs := k.procs[u := k.procs[u].(phase := Home)][k.next := child])
  }

  function Adopted(k: State, pid: Pid): map<Uid, Pcb> {
    map c | c in k.procs :: if k.procs[c].parent == pid then k.procs[c].(parent := 1) else k.procs[c]
  }

  /** sys_exit up to the adoption of its children.  A process without parent stops the system. */
  ghost predicate Exit(k: State, k': State, u: Uid, status: int) {
    && Runs(k, u, Home) && k.procs[u].parent != -1
    && var ps := Adopted(k, k.procs[u].pid);
    k' == k.(procs := ps[u := ps[u].(exitStatus := Int8(status), phase := Exiting)], exits := k.exits[u := status])
  }

  /** The rest of sys_exit: wake the parent if it waits, and hang. */
  ghost predicate Hang(k: State, k': State, u: Uid, p: Uid) {
    && Runs(k, u, Exiting) && Finds(k, ByPid, k.procs[u].parent, p)
    && var ps := if k.procs[p].status == Waiting then k.procs[p := k.procs[p].(status := Ready)] else k.procs;
    k' == k.(procs := ps[u := ps[u].(status := Hanging)])
  }

  predicate AtWait(k: State, u: Uid) { Runs(k, u, Home) || Runs(k, u, InWait) }

  /** sys_wait finds a child that hangs: its status is read and thread_exit marks it. */
  ghost predicate Collect(k: State, k': State, u: Uid, c: Uid) {
    && AtWait(k, u) && Finds(k, HangingChild, k.procs[u].pid, c)
    && k' == k.(procs := k.procs[c := k.procs[c].(status := Died)][u := k.procs[u].(phase := Reaping(c))],
                reaped := k.reaped + [Reaped(u, c, k.procs[c].pid, k.procs[c].exitStatus)])
  }

  /** sys_wait finds no child, and returns -1. */
  ghost predicate Childless(k: State, k': State, u: Uid) {
    && AtWait(k, u) && FindsNone(k, HangingChild, k.procs[u].pid) && FindsNone(k, Child, k.procs[u].pid)
    && k' == With(k, u, k.procs[u].(phase := Home))
  }

  /** sys_wait finds only children that have not exited, and blocks. */
  ghost predicate Block(k: State, k': State, u: Uid, c: Uid) {
    && AtWait(k, u) && FindsNone(k, HangingChild, k.procs[u].pid) && Finds(k, Child, k.procs[u].pid, c)
    && k' == With(k, u, k.procs[u].(status := Waiting, phase := InWait))
  }

  /** thread_exit takes the child, i-th on the list, off it. */
  ghost predicate Unlist(k: State, k': State, u: Uid, i: nat) {
    && u in k.procs && k.procs[u].phase.Reaping? && Runs(k, u, k.procs[u].phase)
    && var c := k.procs[u].phase.corpse;
    && c in k.procs && i < |k.order| && k.order[i] == c
    && k' == k.(order := k.order[..i] + k.order[i + 1..],
                procs := (k.procs - {c})[u := k.procs[u].(phase := Releasing(k.procs[c].pid))])
  }

  ghost predicate Release(k: State, k': State, u: Uid) {
    && u in k.procs && k.procs[u].phase.Releasing? && Runs(k, u, k.procs[u].phase)
    && var bit := k.procs[u].phase.freed - 1;
    && 0 <= bit < |k.pids|
    && k' == With(k, u, k.procs[u].(phase := Home)).(pids := k.pids[bit := false])
  }

  ghost predicate Step(k: State, k': State, u: Uid) {
    || (exists s :: Switch(k, k', u, s)) || Begin(k, k', u, true) || Begin(k, k', u, false) || Finish(k, k', u)
    || (exists x :: Exit(k, k', u, x)) || Childless(k, k', u)
    || (exists c :: Hang(k, k', u, c) || Collect(k, k', u, c) || Block(k, k', u, c))
    || (exists i :: Unlist(k, k', u, i)) || Release(k, k', u)
  }

  ghost predicate Init(k: State) {
    && NoRepeats(k.order) && (forall u :: u in k.order <==> u in k.procs) && (forall u :: u in k.procs ==> u < k.next)
    && INIT in k.procs && k.procs[INIT].pid == 1
    && (forall u :: u in k.procs ==>
      k.procs[u].parent == -1 && k.procs[u].phase == Home && k.procs[u].status in {Running, Ready})
    && (forall u, v :: u in k.procs && v in k.procs && k.procs[u].pid == k.procs[v].pid ==> u == v)
    && (forall u :: u in k.procs ==> 1 <= k.procs[u].pid <= |k.pids|)
    && (forall b :: 0 <= b < |k.pids| ==> (k.pids[b] <==> !FindsNone(k, ByPid, b + 1)))
    && k.exits == map[] && k.reaped == []
  }
}
