/** Mutual exclusion of lock_acquire and lock_release in every interleaving, preemption between
    the semaphore step and the assignments to the lock included. */
module LockInv {
  import opened Options
  import opened Scheduler
  import opened Sync

  /** Thread t has taken the semaphore of lock l and not yet given it back. */
  ghost predicate Owner(k: State, t: Tid, l: Sid) {
    t in k.pc && (k.pc[t] == AcqHolder(l) || k.pc[t] == AcqRepeat(l) || Depth(k, t, l) > 0)
  }

  /** What the fields of the lock say, by where its owner is. */
  ghost predicate Role(k: State, t: Tid, l: Sid)
    requires t in k.pc && l in k.locks
  {
    var lock, d := k.locks[l], Depth(k, t, l);
    if k.pc[t] == AcqHolder(l) then lock == Lock(None, 0) && d == 0
    else if k.pc[t] == AcqRepeat(l) then lock == Lock(Some(t), 0) && d == 0
    else if k.pc[t] == RelClear(l) then lock == Lock(Some(t), 1) && d == 1
    else if k.pc[t] == RelZero(l) then lock == Lock(None, 1) && d == 1
    else if k.pc[t] == RelUp(l) then lock == Lock(None, 0) && d == 1
    else lock == Lock(Some(t), d)
  }

  ghost predicate LockOk(k: State, l: Sid)
    requires l in k.locks && l in k.sems
  {
    && k.sems[l].value <= 1
    && (forall t, u :: Owner(k, t, l) && Owner(k, u, l) ==> t == u)
    && (forall t :: Owner(k, t, l) ==> k.sems[l].value == 0 && Role(k, t, l))
    && (k.sems[l].value == 0 ==> exists t :: Owner(k, t, l))
    && (k.sems[l].value == 1 ==> k.locks[l] == Lock(None, 0))
  }

  /** Program counters inside lock code name locks, and the nesting depth fits them. */
  ghost predicate PcLockOk(k: State, t: Tid)
    requires t in k.pc
  {
    match k.pc[t]
    case Retest(s, forLock) => (forLock <==> s in k.locks) && (forLock ==> Depth(k, t, s) == 0)
    case AcqDown(l) => l in k.locks && Depth(k, t, l) == 0
    case AcqHolder(l) => l in k.locks
    case AcqRepeat(l) => l in k.locks
    case RelClear(l) => l in k.locks && Depth(k, t, l) > 0
    case RelZero(l) => l in k.locks && Depth(k, t, l) > 0
    case RelUp(l) => l in k.locks && Depth(k, t, l) > 0
    case Dead => forall l :: l in k.locks ==> Depth(k, t, l) == 0
    case _ => true
  }

  ghost predicate LocksOk(k: State) {
    && k.locks.Keys <= k.sems.Keys
    && (forall t :: t in k.pc ==> PcLockOk(k, t))
    && (forall l :: l in k.locks ==> LockOk(k, l))
    && (forall t, l :: Depth(k, t, l) > 0 ==> t in k.pc && t != k.sch.idle)
  }

  // ---------------------------------------------------------------- steps that leave locks alone

  predicate LockPhase(p: Pc) {
    p.AcqHolder? || p.AcqRepeat? || p.RelClear? || p.RelZero? || p.RelUp?
  }

  /** Locks, depths and values of lock semaphores are as before, and no thread enters or leaves
      the middle of lock_acquire or lock_release. */
  lemma QuietKeeps(k: State, k': State)
    requires LocksOk(k) && k'.locks == k.locks && k'.depth == k.depth && k'.sch.idle == k.sch.idle
    requires k.locks.Keys <= k'.sems.Keys && forall l :: l in k.locks ==> k'.sems[l].value == k.sems[l].value
    requires k.pc.Keys <= k'.pc.Keys
    requires forall t :: t in k.pc ==> k'.pc[t] == k.pc[t] || (!LockPhase(k.pc[t]) && !LockPhase(k'.pc[t]))
    requires forall t :: t in k'.pc && t !in k.pc ==> k'.pc[t] == Free
    requires forall t :: t in k'.pc ==> PcLockOk(k', t)
    ensures LocksOk(k')
  {
    forall t, l ensures Depth(k', t, l) == Depth(k, t, l) {
    }
    forall l | l in k'.locks ensures LockOk(k', l) {
      assert LockOk(k, l);
      forall t ensures Owner(k', t, l) <==> Owner(k, t, l) {
      }
      if k.sems[l].value == 0 {
        var t :| Owner(k, t, l);
        assert Owner(k', t, l);
      }
    }
  }

  /** One program counter moves between places that own nothing. */
  lemma QuietMove(k: State, k': State, t: Tid)
    requires LocksOk(k) && k'.locks == k.locks && k'.depth == k.depth && k'.sch.idle == k.sch.idle
    requires k.locks.Keys <= k'.sems.Keys && forall l :: l in k.locks ==> k'.sems[l].value == k.sems[l].value
    requires t in k.pc && t in k'.pc && k'.pc == k.pc[t := k'.pc[t]]
    requires !LockPhase(k.pc[t]) && !LockPhase(k'.pc[t]) && PcLockOk(k', t)
    ensures LocksOk(k')
  {
    forall u | u in k'.pc ensures PcLockOk(k', u) {
      assert PcLockOk(k, u);
    }
    QuietKeeps(k, k');
  }

  // ---------------------------------------------------------------- steps of the lock

  /** The current thread changes only lock l and its own place. */
  ghost predicate OnlyLock(k: State, k': State, l: Sid) {
    && CanRun(k) && l in k.locks && l in k.sems && k.sch.cur in k'.pc
    && k'.sch.idle == k.sch.idle && k'.sems.Keys == k.sems.Keys
    && (forall r :: r in k.locks && r in k.sems && r != l ==> k'.sems[r].value == k.sems[r].value)
    && k'.pc == k.pc[k.sch.cur := k'.pc[k.sch.cur]]
    && l in k'.locks && k'.locks == k.locks[l := k'.locks[l]]
    && (forall t, r :: t != k.sch.cur || r != l ==> Depth(k', t, r) == Depth(k, t, r))
  }

  /** A thread cannot be in the middle of two locks. */
  predicate AtLock(p: Pc, l: Sid) {
    match p
    case Retest(s, forLock) => s == l
    case AcqDown(r) => r == l
    case AcqHolder(r) => r == l
    case AcqRepeat(r) => r == l
    case RelClear(r) => r == l
    case RelZero(r) => r == l
    case RelUp(r) => r == l
    case Free => true
    case _ => false
  }

  lemma OtherLocks(k: State, k': State, l: Sid)
    requires LocksOk(k) && OnlyLock(k, k', l) && k.sch.cur != k.sch.idle
    requires AtLock(k.pc[k.sch.cur], l) && AtLock(k'.pc[k.sch.cur], l)
    requires LockOk(k', l) && PcLockOk(k', k.sch.cur)
    ensures LocksOk(k')
  {
    var t := k.sch.cur;
    forall u | u in k'.pc ensures PcLockOk(k', u) {
      assert PcLockOk(k, u);
    }
    forall r | r in k'.locks ensures LockOk(k', r) {
      if r != l {
        OtherLock(k, k', l, r);
      }
    }
  }

  lemma OtherLock(k: State, k': State, l: Sid, r: Sid)
    requires LocksOk(k) && OnlyLock(k, k', l) && r in k.locks && r != l
    requires AtLock(k.pc[k.sch.cur], l) && AtLock(k'.pc[k.sch.cur], l)
    ensures LockOk(k', r)
  {
    hide LocksOk, OnlyLock, AtLock, Role;
    OtherLockIs(k, r);
    forall u ensures Owner(k', u, r) <==> Owner(k, u, r) {
      OtherOwner(k, k', l, r, u);
    }
    OtherFields(k, k', l, r);
    forall u | Owner(k', u, r) ensures Role(k', u, r) {
      OtherOwner(k, k', l, r, u);
    }
    if k.sems[r].value == 0 {
      var u :| Owner(k, u, r);
      assert Owner(k', u, r);
    }
  }

  lemma OtherLockIs(k: State, r: Sid)
    requires LocksOk(k) && r in k.locks
    ensures r in k.sems && LockOk(k, r)
  {
  }

  lemma OtherFields(k: State, k': State, l: Sid, r: Sid)
    requires OnlyLock(k, k', l) && r in k.locks && r in k.sems && r != l
    ensures r in k'.sems && k'.sems[r].value == k.sems[r].value && r in k'.locks && k'.locks[r] == k.locks[r]
  {
  }

  /** Who owns another lock, and what its fields say, does not change. */
  lemma OtherOwner(k: State, k': State, l: Sid, r: Sid, u: Tid)
    requires OnlyLock(k, k', l) && r in k.locks && r in k.sems && r != l
    requires AtLock(k.pc[k.sch.cur], l) && AtLock(k'.pc[k.sch.cur], l)
    ensures Owner(k', u, r) <==> Owner(k, u, r)
    ensures Owner(k, u, r) ==> r in k'.locks && (Role(k', u, r) <==> Role(k, u, r))
  {
    assert Depth(k', u, r) == Depth(k, u, r);
  }

  /** Nobody else owns lock l, before or after. */
  lemma SoleOwner(k: State, k': State, l: Sid)
    requires LocksOk(k) && OnlyLock(k, k', l) && (Owner(k, k.sch.cur, l) || k.sems[l].value == 1)
    ensures forall u :: u != k.sch.cur ==> !Owner(k, u, l) && !Owner(k', u, l)
  {
    assert LockOk(k, l);
    forall u | u != k.sch.cur ensures !Owner(k, u, l) && (Owner(k', u, l) <==> Owner(k, u, l)) {
      assert Depth(k', u, l) == Depth(k, u, l);
    }
  }

  /** The current thread owns lock l after the step, and the lock says so. */
  lemma NowOwner(k: State, k': State, l: Sid)
    requires LocksOk(k) && OnlyLock(k, k', l) && k.sch.cur != k.sch.idle
    requires Owner(k, k.sch.cur, l) || k.sems[l].value == 1
    requires AtLock(k.pc[k.sch.cur], l) && AtLock(k'.pc[k.sch.cur], l) && PcLockOk(k', k.sch.cur)
    requires Owner(k', k.sch.cur, l) && Role(k', k.sch.cur, l) && k'.sems[l].value == 0
    ensures LocksOk(k')
  {
    SoleOwner(k, k', l);
    assert LockOk(k', l);
    OtherLocks(k, k', l);
  }

  lemma OwnerRole(k: State, l: Sid)
    requires LocksOk(k) && l in k.locks && Owner(k, k.sch.cur, l)
    ensures k.sems[l].value == 0 && Role(k, k.sch.cur, l) && k.sch.cur in k.pc
  {
    assert LockOk(k, l);
  }

  lemma LockStepKeeps(k: State, k': State, l: Sid)
    requires LocksOk(k) && LockStep(k, k', l)
    requires k.sch.cur != k.sch.idle
    ensures LocksOk(k')
  {
    hide LocksOk, LockOk, PcLockOk, Role, OnlyLock, SetHolder, SetRepeat, ClearHolder, ClearRepeat, ReleaseCall;
    if OwnerStep(k, k', l) {
      OwnerSteps(k, k', l);
      OwnerRole(k, l);
      OwnerMoves(k, k', l);
      NowOwner(k, k', l);
    } else {
      AcquireKeeps(k, k', l);
    }
  }

  ghost predicate OwnerStep(k: State, k': State, l: Sid) {
    || SetHolder(k, k', l) || SetRepeat(k, k', l) || ReleaseCall(k, k', l)
    || ClearHolder(k, k', l) || ClearRepeat(k, k', l)
  }

  lemma OwnerSteps(k: State, k': State, l: Sid)
    requires LocksOk(k) && OwnerStep(k, k', l)
    ensures l in k.locks && l in k.sems && Owner(k, k.sch.cur, l)
  {
    hide LockOk, Role;
    assert PcLockOk(k, k.sch.cur);
  }

  /** The fields of the lock follow its owner through lock_acquire and lock_release. */
  lemma OwnerMoves(k: State, k': State, l: Sid)
    requires l in k.locks && l in k.sems && OwnerStep(k, k', l) && k.sems[l].value == 0
    requires Owner(k, k.sch.cur, l) && Role(k, k.sch.cur, l)
    ensures OnlyLock(k, k', l) && AtLock(k.pc[k.sch.cur], l) && AtLock(k'.pc[k.sch.cur], l)
    ensures Owner(k', k.sch.cur, l) && Role(k', k.sch.cur, l) && k'.sems[l].value == 0
    ensures PcLockOk(k', k.sch.cur)
  {
  }

  lemma AcquireKeeps(k: State, k': State, l: Sid)
    requires LocksOk(k) && AcquireCall(k, k', l) && k.sch.cur != k.sch.idle
    ensures LocksOk(k')
  {
    var t := k.sch.cur;
    assert LockOk(k, l);
    if k.locks[l].holder != Some(t) {
      assert Depth(k, t, l) > 0 ==> Owner(k, t, l);
      QuietMove(k, k', t);
    } else {
      var u :| Owner(k, u, l);
      assert Role(k, u, l);
      assert u == t;
      NowOwner(k, k', l);
    }
  }

  /** The semaphore step of lock_acquire, first try or after waiting. */
  lemma LockTestKeeps(k: State, k': State, l: Sid)
    requires LocksOk(k) && Test(k, k', l, true) && k.sch.cur != k.sch.idle && l in k.locks
    requires k.pc[k.sch.cur] == AcqDown(l) || k.pc[k.sch.cur] == Retest(l, true)
    requires k'.sch.idle == k.sch.idle
    ensures LocksOk(k')
  {
    hide LocksOk, LockOk;
    LockFacts(k, l);
    if k.sems[l].value == 0 {
      QuietMove(k, k', k.sch.cur);
    } else {
      NowOwner(k, k', l);
    }
  }

  /** What a thread in front of the semaphore of a lock can rely on. */
  lemma LockFacts(k: State, l: Sid)
    requires LocksOk(k) && l in k.locks && k.sch.cur in k.pc
    requires k.pc[k.sch.cur] == AcqDown(l) || k.pc[k.sch.cur] == Retest(l, true)
    ensures k.locks.Keys <= k.sems.Keys && k.sems[l].value <= 1 && Depth(k, k.sch.cur, l) == 0
    ensures k.sems[l].value == 1 ==> k.locks[l] == Lock(None, 0)
  {
    assert PcLockOk(k, k.sch.cur) && LockOk(k, l);
  }

  /** The semaphore step of lock_release. */
  lemma LockUpKeeps(k: State, k': State, l: Sid)
    requires LocksOk(k) && LockUp(k, k', l) && k.sch.cur != k.sch.idle
    ensures LocksOk(k')
  {
    var t := k.sch.cur;
    assert PcLockOk(k, t);
    OwnerRole(k, l);
    assert OnlyLock(k, k', l);
    SoleOwner(k, k', l);
    assert !Owner(k', t, l);
    assert LockOk(k', l);
    OtherLocks(k, k', l);
  }
}
