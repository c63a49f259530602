/** Semaphores and locks of thread/sync.c as steps of threads that interleave.

    Semaphore code runs with interrupts off, so a pass through sema_down or sema_up is one step;
    a thread that has to wait continues in a later step, when it runs again, with the test it
    was woken for.  lock_acquire and lock_release run with interrupts on: each of their
    assignments is a step of its own. */
module Sync {
  import opened Options
  import opened Scheduler

  type Sid = nat   // a semaphore; a lock is named by its semaphore

  /** Where a thread goes on when it runs next. */
  datatype Pc =
    | Free                              // between operations
    | Retest(s: Sid, forLock: bool)     // in the loop of sema_down, having waited
    | AcqDown(l: Sid)                   // lock_acquire, before sema_down
    | AcqHolder(l: Sid)                 // before holder is set
    | AcqRepeat(l: Sid)                 // before holder_repeat_nr is set
    | RelClear(l: Sid)                  // lock_release, before holder is cleared
    | RelZero(l: Sid)                   // before holder_repeat_nr is cleared
    | RelUp(l: Sid)                     // before sema_up
    | Asleep                            // in a thread_block of its own
    | Dead

  datatype Sem = Sem(value: nat, waiters: seq<Tid>)
  datatype Lock = Lock(holder: Option<Tid>, repeat: nat)

  /** depth counts the lock_acquire calls a thread has completed and not yet released. */
  datatype State = State(sch: Sched, pc: map<Tid, Pc>, sems: map<Sid, Sem>, locks: map<Sid, Lock>,
                         depth: map<(Tid, Sid), nat>)

  function Depth(k: State, t: Tid, l: Sid): nat {
    if (t, l) in k.depth then k.depth[(t, l)] else 0
  }

  // ---------------------------------------------------------------- the steps

  predicate CanRun(k: State) {
    k.sch.cur in k.pc && k.sch.cur in k.sch.status && k.sch.idle in k.sch.status
  }

  /** One turn of the loop in sema_down: wait, or take the value and go on. */
  ghost predicate Test(k: State, k': State, s: Sid, forLock: bool) {
    && CanRun(k) && s in k.sems
    && var t, sem := k.sch.cur, k.sems[s];
    if sem.value == 0 then
      && !Scheduler.Stuck(Park(k.sch, Blocked))
      && k' == k.(sems := k.sems[s := sem.(waiters := sem.waiters + [t])], pc := k.pc[t := Retest(s, forLock)],
                  sch := Schedule(Park(k.sch, Blocked)))
    else
      k' == k.(sems := k.sems[s := sem.(value := sem.value - 1)],
        pc := k.pc[t := if forLock then AcqHolder(s) else Free])
  }

  /** sema_up: wake the first waiter, if any, and add one to the uint8_t value. */
  ghost predicate Up(k: State, k': State, s: Sid) {
    && CanRun(k) && s in k.sems
    && var t, sem := k.sch.cur, k.sems[s];
    && (sem.waiters != [] ==> sem.waiters[0] in k.sch.status)
    && k' == k.(sems := k.sems[s := Sem((sem.value + 1) % 256, if sem.waiters == [] then [] else sem.waiters[1..])],
                pc := k.pc[t := Free],
                sch := if sem.waiters == [] then k.sch else Unblock(k.sch, sem.waiters[0]),
                depth := if k.pc[t] == RelUp(s) then k.depth[(t, s) := 0] else k.depth)
  }

  /** lock_acquire: the test of holder. */
  ghost predicate AcquireCall(k: State, k': State, l: Sid) {
    && CanRun(k) && l in k.locks && k.pc[k.sch.cur] == Free
    && var t, lock := k.sch.cur, k.locks[l];
    if lock.holder != Some(t) then k' == k.(pc := k.pc[t := AcqDown(l)])
    else
      k' == k.(locks := k.locks[l := lock.(repeat := lock.repeat + 1)], depth := k.depth[(t, l) := Depth(k, t, l) + 1])
  }

  ghost predicate SetHolder(k: State, k': State, l: Sid) {
    && CanRun(k) && l in k.locks && k.pc[k.sch.cur] == AcqHolder(l)
    && var t := k.sch.cur;
    k' == k.(locks := k.locks[l := k.locks[l].(holder := Some(t))], pc := k.pc[t := AcqRepeat(l)])
  }

  ghost predicate SetRepeat(k: State, k': State, l: Sid) {
    && CanRun(k) && l in k.locks && k.pc[k.sch.cur] == AcqRepeat(l)
    && var t := k.sch.cur;
    k' == k.(locks := k.locks[l := k.locks[l].(repeat := 1)], pc := k.pc[t := Free], depth := k.depth[(t, l) := 1])
  }

  /** lock_release by a thread inside the lock: the test of holder_repeat_nr. */
  ghost predicate ReleaseCall(k: State, k': State, l: Sid) {
    && CanRun(k) && l in k.locks && k.pc[k.sch.cur] == Free && Depth(k, k.sch.cur, l) > 0
    && var t, lock := k.sch.cur, k.locks[l];
    if lock.repeat > 1 then
      k' == k.(locks := k.locks[l := lock.(repeat := lock.repeat - 1)], depth := k.depth[(t, l) := Depth(k, t, l) - 1])
    else k' == k.(pc := k.pc[t := RelClear(l)])
  }

  ghost predicate ClearHolder(k: State, k': State, l: Sid) {
    && CanRun(k) && l in k.locks && k.pc[k.sch.cur] == RelClear(l)
    && k' == k.(locks := k.locks[l := k.locks[l].(holder := None)], pc := k.pc[k.sch.cur := RelZero(l)])
  }

  ghost predicate ClearRepeat(k: State, k': State, l: Sid) {
    && CanRun(k) && l in k.locks && k.pc[k.sch.cur] == RelZero(l)
    && k' == k.(locks := k.locks[l := k.locks[l].(repeat := 0)], pc := k.pc[k.sch.cur := RelUp(l)])
  }

  /** The timer ends a time slice; a thread inside sema_down has interrupts off. */
  ghost predicate Tick(k: State, k': State) {
    && CanRun(k) && !k.pc[k.sch.cur].Retest? && !Scheduler.Stuck(k.sch)
    && k' == k.(sch := Schedule(k.sch))
  }

  ghost predicate Yield(k: State, k': State) {
    && CanRun(k) && k.pc[k.sch.cur] == Free && !Scheduler.Stuck(GiveUp(k.sch))
    && k' == k.(sch := Schedule(GiveUp(k.sch)))
  }

  /** thread_block outside semaphores: the idle thread, sys_wait, sys_exit, a full or empty queue. */
  ghost predicate Sleep(k: State, k': State, why: Status) {
    && CanRun(k) && k.pc[k.sch.cur] == Free && why in {Blocked, Waiting, Hanging}
    && (k.sch.cur == k.sch.idle ==> why == Blocked)
    && !Scheduler.Stuck(Park(k.sch, why))
    && k' == k.(sch := Schedule(Park(k.sch, why)), pc := k.pc[k.sch.cur := Asleep])
  }

  /** thread_unblock of a thread sleeping outside semaphores. */
  ghost predicate Wake(k: State, k': State, u: Tid) {
    && CanRun(k) && k.pc[k.sch.cur] == Free && u in k.pc && u in k.sch.status && u != k.sch.idle
    && k.pc[u] == Asleep && k.sch.status[u] in {Blocked, Waiting, Hanging}
    && k' == k.(sch := Unblock(k.sch, u))
  }

  /** thread_block returns. */
  ghost predicate Resume(k: State, k': State) {
    && CanRun(k) && k.pc[k.sch.cur] == Asleep
    && k' == k.(pc := k.pc[k.sch.cur := Free])
  }

  /** thread_start, process_execute and fork: a new thread at the end of the ready list. */
  ghost predicate Spawn(k: State, k': State, u: Tid) {
    && CanRun(k) && k.pc[k.sch.cur] == Free && u !in k.pc && u !in k.sch.status
    && k' == k.(sch := k.sch.(status := k.sch.status[u := Ready], ready := k.sch.ready + [u]), pc := k.pc[u := Free])
  }

  /** thread_exit of a HANGING thread by its parent.  It holds no lock any more. */
  ghost predicate Reap(k: State, k': State, u: Tid) {
    && CanRun(k) && k.pc[k.sch.cur] == Free && u in k.pc && u in k.sch.status
    && k.pc[u] == Asleep && k.sch.status[u] == Hanging && (forall l :: l in k.locks ==> Depth(k, u, l) == 0)
    && k' == k.(sch := k.sch.(status := k.sch.status[u := Died]), pc := k.pc[u := Dead])
  }

  /** thread_exit of the current thread, which holds no lock. */
  ghost predicate Exit(k: State, k': State) {
    && CanRun(k) && k.pc[k.sch.cur] == Free && k.sch.cur != k.sch.idle
    && (forall l :: l in k.locks ==> Depth(k, k.sch.cur, l) == 0)
    && !Scheduler.Stuck(Park(k.sch, Died))
    && k' == k.(sch := Schedule(Park(k.sch, Died)), pc := k.pc[k.sch.cur := Dead])
  }

  /** sema_down and sema_up on a semaphore that is not part of a lock, by a thread other than the
      idle thread. */
  ghost predicate PlainDown(k: State, k': State, s: Sid) {
    CanRun(k) && k.pc[k.sch.cur] == Free && s !in k.locks && k.sch.cur != k.sch.idle && Test(k, k', s, false)
  }

  ghost predicate PlainUp(k: State, k': State, s: Sid) {
    CanRun(k) && k.pc[k.sch.cur] == Free && s !in k.locks && Up(k, k', s)
  }

  ghost predicate LockDown(k: State, k': State, l: Sid) {
    CanRun(k) && k.pc[k.sch.cur] == AcqDown(l) && Test(k, k', l, true)
  }

  ghost predicate Retry(k: State, k': State) {
    CanRun(k) && k.pc[k.sch.cur].Retest? && Test(k, k', k.pc[k.sch.cur].s, k.pc[k.sch.cur].forLock)
  }

  ghost predicate LockUp(k: State, k': State, l: Sid) {
    CanRun(k) && k.pc[k.sch.cur] == RelUp(l) && Up(k, k', l)
  }

  ghost predicate LockStep(k: State, k': State, l: Sid) {
    || (k.sch.cur != k.sch.idle && AcquireCall(k, k', l))
    || SetHolder(k, k', l) || SetRepeat(k, k', l)
    || ReleaseCall(k, k', l) || ClearHolder(k, k', l) || ClearRepeat(k, k', l)
  }

  ghost predicate Next(k: State, k': State) {
    || Tick(k, k') || Yield(k, k') || Resume(k, k') || Exit(k, k') || Retry(k, k')
    || (exists why :: Sleep(k, k', why))
    || (exists u :: Wake(k, k', u) || Spawn(k, k', u) || Reap(k, k', u))
    || (exists s :: PlainDown(k, k', s) || PlainUp(k, k', s))
    || (exists l :: LockDown(k, k', l) || LockUp(k, k', l) || LockStep(k, k', l))
  }
}
