/** Safety over every run: any number of threads, every interleaving of their steps. */
module Interleaving {
  import opened Options
  import opened Scheduler
  import opened Sync
  import opened SyncInv
  import opened LockInv

  ghost predicate Inv(k: State) {
    SemsOk(k) && LocksOk(k)
  }

  /** thread_init and the *_init calls: somebody runs, the idle thread and perhaps others are
      ready, nobody waits, every lock is free. */
  ghost predicate Init(k: State) {
    && Settled(k.sch) && k.pc.Keys == k.sch.status.Keys
    && (forall t :: t in k.pc ==> k.pc[t] == Free && Able(k.sch.status[t]))
    && (forall s :: s in k.sems ==> k.sems[s].waiters == [])
    && k.locks.Keys <= k.sems.Keys
    && (forall l :: l in k.locks ==> k.locks[l] == Lock(None, 0) && k.sems[l].value == 1)
    && k.depth == map[]
  }

  lemma InitHolds(k: State)
    requires Init(k)
    ensures Inv(k)
  {
    forall l | l in k.locks ensures LockOk(k, l) {
      forall t ensures !Owner(k, t, l) {
      }
    }
    forall s | s in k.sems ensures QueueOk(k, s) && NoneLost(k, s) {
      forall t ensures !Waits(k, t, s) {
      }
    }
  }

  /** The idle thread is never inside semaphore or lock code. */
  lemma IdleIsOutside(k: State)
    requires Inv(k)
    ensures CanRun(k) && k.sch.idle in k.pc && k.pc[k.sch.idle] in {Free, Asleep}
    ensures forall l :: Depth(k, k.sch.idle, l) == 0
    ensures !k.pc[k.sch.cur].Dead? && PcLockOk(k, k.sch.cur)
  {
    assert PcFits(k, k.sch.cur);
    forall l ensures Depth(k, k.sch.idle, l) == 0 {
    }
  }

  lemma SleepQuiet(k: State, k': State, u: Tid)
    requires LocksOk(k) && u in k.pc && k'.sch.idle == k.sch.idle && k' == k.(sch := k'.sch, pc := k'.pc)
    requires u in k'.pc && k'.pc == k.pc[u := k'.pc[u]] && !LockPhase(k.pc[u])
    requires k'.pc[u] in {Free, Asleep} || (k'.pc[u] == Dead && forall l :: l in k.locks ==> Depth(k, u, l) == 0)
    ensures LocksOk(k')
  {
    forall l ensures Depth(k', u, l) == Depth(k, u, l) {
    }
    QuietMove(k, k', u);
  }

  lemma SpawnQuiet(k: State, k': State, u: Tid)
    requires LocksOk(k) && Spawn(k, k', u)
    ensures LocksOk(k')
  {
    forall t | t in k'.pc ensures PcLockOk(k', t) {
      assert t in k.pc ==> PcLockOk(k, t);
    }
    QuietKeeps(k, k');
  }

  lemma SwitchQuiet(k: State, k': State)
    requires LocksOk(k) && k' == k.(sch := k'.sch) && k'.sch.idle == k.sch.idle
    ensures LocksOk(k')
  {
    forall t | t in k'.pc ensures PcLockOk(k', t) {
      assert PcLockOk(k, t);
    }
    QuietKeeps(k, k');
  }

  // ---------------------------------------------------------------- step by step

  lemma ThreadStep(k: State, k': State)
    requires Inv(k) && (Tick(k, k') || Yield(k, k') || Resume(k, k') || Exit(k, k'))
    ensures Inv(k')
  {
    hide SemsOk, LocksOk, PcLockOk;
    IdleIsOutside(k);
    if Tick(k, k') {
      TickKeeps(k, k');
      SwitchQuiet(k, k');
    } else if Yield(k, k') {
      YieldKeeps(k, k');
      SwitchQuiet(k, k');
    } else if Resume(k, k') {
      ResumeKeeps(k, k');
      SleepQuiet(k, k', k.sch.cur);
    } else {
      ExitKeeps(k, k');
      SleepQuiet(k, k', k.sch.cur);
    }
  }

  lemma OtherThreadStep(k: State, k': State, why: Status, u: Tid)
    requires Inv(k) && (Sleep(k, k', why) || Wake(k, k', u) || Spawn(k, k', u) || Reap(k, k', u))
    ensures Inv(k')
  {
    hide SemsOk, LocksOk, PcLockOk;
    IdleIsOutside(k);
    if Sleep(k, k', why) {
      SleepKeeps(k, k', why);
      SleepQuiet(k, k', k.sch.cur);
    } else if Wake(k, k', u) {
      WakeKeeps(k, k', u);
      SwitchQuiet(k, k');
    } else if Spawn(k, k', u) {
      SpawnKeeps(k, k', u);
      SpawnQuiet(k, k', u);
    } else {
      ReapKeeps(k, k', u);
      SleepQuiet(k, k', u);
    }
  }

  lemma TestStep(k: State, k': State, s: Sid, forLock: bool)
    requires Inv(k) && Test(k, k', s, forLock) && k.sch.cur != k.sch.idle && (forLock <==> s in k.locks)
    requires k.pc[k.sch.cur] == Retest(s, forLock) || k.pc[k.sch.cur] == if forLock then AcqDown(s) else Free
    ensures Inv(k')
  {
    hide SemsOk, LocksOk;
    IdleIsOutside(k);
    if k.sems[s].value == 0 {
      TestBlocks(k, k', s, forLock);
    } else {
      TestPasses(k, k', s, forLock);
    }
    if forLock {
      LockTestKeeps(k, k', s);
    } else {
      PlainTestQuiet(k, k', s);
    }
  }

  lemma PlainTestQuiet(k: State, k': State, s: Sid)
    requires LocksOk(k) && Test(k, k', s, false) && s !in k.locks && k'.sch.idle == k.sch.idle
    requires k.pc[k.sch.cur] in {Retest(s, false), Free}
    ensures LocksOk(k')
  {
    QuietMove(k, k', k.sch.cur);
  }

  lemma UpStep(k: State, k': State, s: Sid)
    requires Inv(k) && (PlainUp(k, k', s) || LockUp(k, k', s))
    ensures Inv(k')
  {
    hide SemsOk, LocksOk;
    IdleIsOutside(k);
    UpKeeps(k, k', s);
    if LockUp(k, k', s) {
      LockUpKeeps(k, k', s);
    } else {
      PlainUpQuiet(k, k', s);
    }
  }

  lemma PlainUpQuiet(k: State, k': State, s: Sid)
    requires LocksOk(k) && PlainUp(k, k', s)
    ensures LocksOk(k')
  {
    QuietMove(k, k', k.sch.cur);
  }

  lemma LockCodeStep(k: State, k': State, l: Sid)
    requires Inv(k) && LockStep(k, k', l)
    ensures Inv(k')
  {
    hide SemsOk, LocksOk, PcLockOk;
    IdleIsOutside(k);
    LockStepKeepsSems(k, k', l);
    LockStepKeeps(k, k', l);
  }

  lemma RetryStep(k: State, k': State)
    requires Inv(k) && Retry(k, k')
    ensures Inv(k')
  {
    hide SemsOk, LocksOk, Test;
    IdleIsOutside(k);
    TestStep(k, k', k.pc[k.sch.cur].s, k.pc[k.sch.cur].forLock);
  }

  lemma NextKeeps(k: State, k': State)
    requires Inv(k) && Next(k, k')
    ensures Inv(k')
  {
    hide Inv, Tick, Yield, Resume, Exit, Retry, Sleep, Wake, Spawn, Reap, PlainUp, LockUp, LockStep, Test;
    if Tick(k, k') || Yield(k, k') || Resume(k, k') || Exit(k, k') {
      ThreadStep(k, k');
    } else if Retry(k, k') {
      RetryStep(k, k');
    } else if why :| Sleep(k, k', why) {
      OtherThreadStep(k, k', why, 0);
    } else if u :| Wake(k, k', u) || Spawn(k, k', u) || Reap(k, k', u) {
      OtherThreadStep(k, k', Blocked, u);
    } else {
      var s :| PlainDown(k, k', s) || PlainUp(k, k', s) || LockDown(k, k', s) || LockUp(k, k', s) || LockStep(k, k', s);
      SemStep(k, k', s);
    }
  }

  lemma SemStep(k: State, k': State, s: Sid)
    requires Inv(k)
    requires PlainDown(k, k', s) || PlainUp(k, k', s) || LockDown(k, k', s) || LockUp(k, k', s) || LockStep(k, k', s)
    ensures Inv(k')
  {
    hide SemsOk, LocksOk, Test, Up, LockStep;
    IdleIsOutside(k);
    if PlainDown(k, k', s) {
      TestStep(k, k', s, false);
    } else if LockDown(k, k', s) {
      TestStep(k, k', s, true);
    } else if LockStep(k, k', s) {
      LockCodeStep(k, k', s);
    } else {
      UpStep(k, k', s);
    }
  }

  // ---------------------------------------------------------------- every run

  ghost predicate IsRun(run: seq<State>) {
    run != [] && Init(run[0]) && forall i :: 0 <= i < |run| - 1 ==> Next(run[i], run[i + 1])
  }

  lemma {:induction false} RunKeepsInv(run: seq<State>, i: nat)
    requires IsRun(run) && i < |run|
    ensures Inv(run[i])
  {
    hide Inv, Next, Init;
    if i == 0 {
      InitHolds(run[0]);
    } else {
      RunKeepsInv(run, i - 1);
      NextKeeps(run[i - 1], run[i]);
    }
  }

  /** The owners of a lock. */
  ghost function Owners(k: State, l: Sid): set<Tid> {
    set t | t in k.pc && Owner(k, t, l)
  }

  /** In every reachable state of every interleaving, the value of a lock's semaphore and the
      number of threads inside its owning section add up to one; a thread inside with nesting
      depth d, not in the middle of lock_acquire or lock_release, is the holder and
      holder_repeat_nr is d. */
  lemma MutualExclusion(run: seq<State>, i: nat, l: Sid)
    requires IsRun(run) && i < |run| && l in run[i].locks
    ensures var k := run[i];
      && l in k.sems && k.sems[l].value + |Owners(k, l)| == 1
      && forall t :: t in k.pc && Depth(k, t, l) > 0 && !LockPhase(k.pc[t]) ==>
        k.locks[l] == Lock(Some(t), Depth(k, t, l))
  {
    hide Init, Next, SemsOk;
    RunKeepsInv(run, i);
    OneOwner(run[i], l);
  }

  /** lock_release from beginning to end by a thread that is not in the lock: the assertion on holder is
      compiled out. */
  ghost predicate ForeignRelease(k: State, k': State, l: Sid) {
    && l in k.locks && l in k.sems && l in k'.locks && l in k'.sems && k'.pc == k.pc && k'.depth == k.depth
    && if k.locks[l].repeat > 1 then
         k'.locks[l] == k.locks[l].(repeat := k.locks[l].repeat - 1) && k'.sems[l].value == k.sems[l].value
       else k'.locks[l] == Lock(None, 0) && k'.sems[l].value == (k.sems[l].value + 1) % 256
  }

  /** It always breaks the lock: releasing is for threads that are in. */
  lemma ForeignReleaseBreaks(k: State, k': State, l: Sid)
    requires LocksOk(k) && ForeignRelease(k, k', l) && forall t :: t in k.pc ==> !LockPhase(k.pc[t])
    ensures !LocksOk(k')
  {
    assert LockOk(k, l);
    if t :| Owner(k, t, l) {
      assert Role(k, t, l);
      assert Owner(k', t, l);
      assert !LockOk(k', l);
    }
  }

  lemma OneOwner(k: State, l: Sid)
    requires LocksOk(k) && l in k.locks
    ensures l in k.sems && k.sems[l].value + |Owners(k, l)| == 1
    ensures forall t :: t in k.pc && Depth(k, t, l) > 0 && !LockPhase(k.pc[t]) ==>
      k.locks[l] == Lock(Some(t), Depth(k, t, l))
  {
    assert LockOk(k, l);
    if k.sems[l].value == 0 {
      var t: Tid :| Owner(k, t, l);
      assert Owners(k, l) == {t};
    } else {
      assert Owners(k, l) == {};
    }
    forall t | t in k.pc && Depth(k, t, l) > 0 && !LockPhase(k.pc[t])
      ensures k.locks[l] == Lock(Some(t), Depth(k, t, l))
    {
      assert Owner(k, t, l);
    }
  }

  /** A semaphore whose value is positive while threads wait has a thread that was woken, is ready
      or running, and has still to test the value: no wakeup is ever lost. */
  lemma NoWakeupLost(run: seq<State>, i: nat, s: Sid)
    requires IsRun(run) && i < |run| && s in run[i].sems
    requires run[i].sems[s].value > 0 && run[i].sems[s].waiters != []
    ensures exists t :: IsPending(run[i], t, s) && t !in run[i].sems[s].waiters
  {
    RunKeepsInv(run, i);
    var k := run[i];
    assert NoneLost(k, s) && QueueOk(k, s);
    assert Pending(k, s) != {};
    var t :| t in Pending(k, s);
    assert IsPending(k, t, s) && !Waits(k, t, s);
  }

  /** Exactly one thread runs; the ready list is exactly the READY threads, once each; a thread is
      on at most one list, the running one on none; and whoever blocks, yields or is preempted,
      schedule finds a thread. */
  lemma SchedulerSafety(run: seq<State>, i: nat, t: Tid, s: Sid, r: Sid, why: Status)
    requires IsRun(run) && i < |run| && s in run[i].sems && r in run[i].sems
    requires why !in {Running, Ready} && (run[i].sch.cur == run[i].sch.idle ==> why == Blocked)
    ensures var k := run[i];
      && Settled(k.sch) && CanRun(k)
      && k.sch.cur !in k.sch.ready && k.sch.cur !in k.sems[s].waiters
      && !(t in k.sch.ready && t in k.sems[s].waiters)
      && (t in k.sems[s].waiters && t in k.sems[r].waiters ==> s == r)
      && !Scheduler.Stuck(k.sch) && !Scheduler.Stuck(GiveUp(k.sch)) && !Scheduler.Stuck(Park(k.sch, why))
  {
    RunKeepsInv(run, i);
    assert QueueOk(run[i], s);
    OneListOnly(run[i], t, s, r);
    NeverStuck(run[i], why);
  }
}
