/** Counting calls over a run: how deep a thread is in a lock, and what a semaphore's value is. */
module LockCounts {
  import opened Options
  import opened Scheduler
  import opened Sync
  import opened SyncInv
  import opened LockInv
  import opened Interleaving

  // ---------------------------------------------------------------- calls of lock_acquire and lock_release

  /** What the step of a thread completes. */
  datatype Event = Acquired(t: Tid, l: Sid) | Released(t: Tid, l: Sid) | Other

  /** lock_acquire returns: from the first acquisition, or from one by the thread that holds the lock. */
  ghost predicate AcquireReturns(k: State, k': State, l: Sid) {
    || SetRepeat(k, k', l)
    || (k.sch.cur != k.sch.idle && AcquireCall(k, k', l) && k.locks[l].holder == Some(k.sch.cur))
  }

  /** lock_release returns: from the last release, or from one that leaves the thread in the lock. */
  ghost predicate ReleaseReturns(k: State, k': State, l: Sid) {
    LockUp(k, k', l) || (ReleaseCall(k, k', l) && k.locks[l].repeat > 1)
  }

  /** The steps in the middle of the two calls. */
  ghost predicate InBetween(k: State, k': State, l: Sid) {
    || LockDown(k, k', l) || SetHolder(k, k', l) || ClearHolder(k, k', l) || ClearRepeat(k, k', l)
    || (k.sch.cur != k.sch.idle && AcquireCall(k, k', l) && k.locks[l].holder != Some(k.sch.cur))
    || (ReleaseCall(k, k', l) && k.locks[l].repeat <= 1)
  }

  /** The steps that have nothing to do with locks, and a thread's next try at a semaphore. */
  ghost predicate Elsewhere(k: State, k': State) {
    || Tick(k, k') || Yield(k, k') || Resume(k, k') || Sync.Exit(k, k') || Retry(k, k')
    || (exists why :: Sleep(k, k', why))
    || (exists u :: Wake(k, k', u) || Spawn(k, k', u) || Reap(k, k', u))
    || (exists s :: PlainDown(k, k', s) || PlainUp(k, k', s))
  }

  ghost predicate Completes(k: State, k': State, e: Event) {
    match e
    case Acquired(t, l) => t == k.sch.cur && AcquireReturns(k, k', l)
    case Released(t, l) => t == k.sch.cur && ReleaseReturns(k, k', l)
    case Other => Elsewhere(k, k') || exists l :: InBetween(k, k', l)
  }

  /** Every step completes one of these, and nothing else is a step. */
  lemma StepsAreEvents(k: State, k': State)
    ensures Next(k, k') <==> exists e :: Completes(k, k', e)
  {
    hide Tick, Yield, Resume, Sync.Exit, Retry, Sleep, Wake, Spawn, Reap, PlainDown, PlainUp, LockDown, LockUp,
      AcquireCall, SetHolder, SetRepeat, ReleaseCall, ClearHolder, ClearRepeat;
    if Next(k, k') {
      if Elsewhere(k, k') {
        assert Completes(k, k', Other);
      } else {
        var l :| LockDown(k, k', l) || LockUp(k, k', l) || LockStep(k, k', l);
        if AcquireReturns(k, k', l) {
          assert Completes(k, k', Acquired(k.sch.cur, l));
        } else if ReleaseReturns(k, k', l) {
          assert Completes(k, k', Released(k.sch.cur, l));
        } else {
          assert InBetween(k, k', l);
          assert Completes(k, k', Other);
        }
      }
    }
    if e :| Completes(k, k', e) {
      if e != Other {
        assert LockUp(k, k', e.l) || LockStep(k, k', e.l);
      } else if l :| InBetween(k, k', l) {
        assert LockDown(k, k', l) || LockStep(k, k', l);
      }
    }
  }

  lemma ElsewhereQuiet(k: State, k': State)
    requires Elsewhere(k, k')
    ensures k'.depth == k.depth
  {
    hide Schedule, Unblock, Scheduler.Stuck;
  }

  lemma BetweenQuiet(k: State, k': State, l: Sid)
    requires InBetween(k, k', l)
    ensures k'.depth == k.depth
  {
    hide Schedule, Unblock, Scheduler.Stuck;
  }

  /** Before lock_acquire returns for the first time, and before lock_release returns for the last time. */
  lemma DepthBefore(k: State, l: Sid)
    requires LocksOk(k) && CanRun(k) && l in k.locks
    ensures k.pc[k.sch.cur] == AcqRepeat(l) ==> Depth(k, k.sch.cur, l) == 0
    ensures k.pc[k.sch.cur] == RelUp(l) ==> Depth(k, k.sch.cur, l) == 1
  {
    assert LockOk(k, l) && PcLockOk(k, k.sch.cur);
    if k.pc[k.sch.cur] == AcqRepeat(l) || k.pc[k.sch.cur] == RelUp(l) {
      assert Owner(k, k.sch.cur, l);
    }
  }

  lemma AcquiredDepth(k: State, k': State, t: Tid, l: Sid)
    requires LocksOk(k) && AcquireReturns(k, k', l)
    ensures Depth(k', t, l) == Depth(k, t, l) + if t == k.sch.cur then 1 else 0
    ensures forall r :: r != l ==> Depth(k', t, r) == Depth(k, t, r)
  {
    hide LocksOk;
    DepthBefore(k, l);
  }

  lemma ReleasedDepth(k: State, k': State, t: Tid, l: Sid)
    requires LocksOk(k) && ReleaseReturns(k, k', l)
    ensures Depth(k, t, l) == Depth(k', t, l) + if t == k.sch.cur then 1 else 0
    ensures forall r :: r != l ==> Depth(k', t, r) == Depth(k, t, r)
  {
    hide LocksOk, Unblock;
    if LockUp(k, k', l) {
      LockOfUp(k, l);
      DepthBefore(k, l);
    }
  }

  lemma LockOfUp(k: State, l: Sid)
    requires LocksOk(k) && CanRun(k) && k.pc[k.sch.cur] == RelUp(l)
    ensures l in k.locks
  {
    assert PcLockOk(k, k.sch.cur);
  }

  lemma DepthStep(k: State, k': State, e: Event, t: Tid, l: Sid)
    requires LocksOk(k) && Completes(k, k', e)
    ensures Depth(k', t, l) + (if e == Released(t, l) then 1 else 0)
      == Depth(k, t, l) + if e == Acquired(t, l) then 1 else 0
  {
    hide LocksOk, AcquireReturns, ReleaseReturns, Elsewhere, InBetween;
    match e
    case Acquired(u, m) => AcquiredDepth(k, k', t, m);
    case Released(u, m) => ReleasedDepth(k, k', t, m);
    case Other =>
      if Elsewhere(k, k') {
        ElsewhereQuiet(k, k');
      } else {
        var m :| InBetween(k, k', m);
        BetweenQuiet(k, k', m);
      }
  }

  /** A run together with what each of its steps completes. */
  ghost predicate IsHistory(run: seq<State>, es: seq<Event>) {
    IsRun(run) && |run| == |es| + 1 && forall i :: 0 <= i < |es| ==> Completes(run[i], run[i + 1], es[i])
  }

  /** In every run the depth of a thread in a lock is the lock_acquire calls it has completed less the
      lock_release calls. */
  lemma {:induction false} DepthIsCalls(run: seq<State>, es: seq<Event>, n: nat, t: Tid, l: Sid)
    requires IsHistory(run, es) && n <= |es|
    ensures multiset(es[..n])[Acquired(t, l)] == multiset(es[..n])[Released(t, l)] + Depth(run[n], t, l)
  {
    hide Completes, Init, Next;
    if n == 0 {
      NoDepth(run[0], t, l);
    } else {
      DepthIsCalls(run, es, n - 1, t, l);
      assert es[..n] == es[..n - 1] + [es[n - 1]];
      KeptLocks(run, n - 1);
      DepthStep(run[n - 1], run[n], es[n - 1], t, l);
    }
  }

  lemma NoDepth(k: State, t: Tid, l: Sid)
    requires Init(k)
    ensures Depth(k, t, l) == 0
  {
  }

  lemma KeptLocks(run: seq<State>, i: nat)
    requires IsRun(run) && i < |run|
    ensures LocksOk(run[i])
  {
    hide IsRun, SemsOk, LocksOk;
    RunKeepsInv(run, i);
  }

  /** So holder and holder_repeat_nr say who is in the lock and how many calls of lock_release it takes to
      leave it, however calls are nested. */
  lemma HolderCountsCalls(run: seq<State>, es: seq<Event>, n: nat, t: Tid, l: Sid, calls: nat)
    requires IsHistory(run, es) && n <= |es| && l in run[n].locks && t in run[n].pc && !LockPhase(run[n].pc[t])
    requires multiset(es[..n])[Acquired(t, l)] == multiset(es[..n])[Released(t, l)] + calls && calls > 0
    ensures run[n].locks[l] == Lock(Some(t), calls)
  {
    hide IsRun, Completes;
    DepthIsCalls(run, es, n, t, l);
    MutualExclusion(run, n, l);
  }

  // ---------------------------------------------------------------- calls of sema_down and sema_up

  datatype Signal = Took(s: Sid) | Gave(s: Sid) | Neither

  /** A pass through the test of sema_down, in whichever call it is. */
  ghost predicate Tests(k: State, k': State, s: Sid, forLock: bool) {
    Test(k, k', s, forLock) && (PlainDown(k, k', s) || LockDown(k, k', s) || Retry(k, k'))
  }

  ghost predicate Ups(k: State, k': State, s: Sid) { PlainUp(k, k', s) || LockUp(k, k', s) }

  ghost predicate Signals(k: State, k': State, g: Signal) {
    && Next(k, k')
    && match g
       case Took(s) => s in k.sems && k.sems[s].value > 0 && exists forLock :: Tests(k, k', s, forLock)
       case Gave(s) => Ups(k, k', s)
       case Neither =>
         && (forall s :: !Ups(k, k', s))
         && (forall s, forLock :: Tests(k, k', s, forLock) ==> k.sems[s].value == 0)
  }

  /** Every step is one of these. */
  lemma StepsAreSignals(k: State, k': State)
    requires Next(k, k')
    ensures exists g :: Signals(k, k', g)
  {
    hide Next, Tests, Ups;
    if s :| Ups(k, k', s) {
      assert Signals(k, k', Gave(s));
    } else if s, forLock :| Tests(k, k', s, forLock) && s in k.sems && k.sems[s].value > 0 {
      assert Signals(k, k', Took(s));
    } else {
      forall s, forLock | Tests(k, k', s, forLock) ensures s in k.sems && k.sems[s].value == 0 {
        TestedIsThere(k, k', s, forLock);
      }
      assert Signals(k, k', Neither);
    }
  }

  lemma TestedIsThere(k: State, k': State, s: Sid, forLock: bool)
    requires Tests(k, k', s, forLock)
    ensures s in k.sems
  {
    hide PlainDown, LockDown, Retry, Schedule, Scheduler.Stuck;
  }

  lemma ValueStep(k: State, k': State, g: Signal, s: Sid)
    requires Signals(k, k', g) && s in k.sems
    ensures k'.sems.Keys == k.sems.Keys
    ensures (k'.sems[s].value + (if g == Took(s) then 1 else 0)) % 256
      == (k.sems[s].value + if g == Gave(s) then 1 else 0) % 256
  {
    hide Schedule, Unblock, Scheduler.Stuck, Next;
    match g
    case Took(r) =>
      var forLock :| Tests(k, k', r, forLock);
    case Gave(r) =>
    case Neither => QuietValue(k, k', s);
  }

  lemma QuietValue(k: State, k': State, s: Sid)
    requires Signals(k, k', Neither) && s in k.sems
    ensures k'.sems.Keys == k.sems.Keys && k'.sems[s].value == k.sems[s].value
  {
    hide Schedule, Unblock, Scheduler.Stuck;
    forall r ensures !PlainUp(k, k', r) && !LockUp(k, k', r) {
      assert !Ups(k, k', r);
    }
    if r :| PlainDown(k, k', r) {
      assert Tests(k, k', r, false);
    } else if r :| LockDown(k, k', r) {
      assert Tests(k, k', r, true);
    } else if Retry(k, k') {
      assert Tests(k, k', k.pc[k.sch.cur].s, k.pc[k.sch.cur].forLock);
    }
  }

  /** In every run the value of a semaphore is what it was at the start, with one more for each sema_up and
      one less for each sema_down that came through, as a uint8_t. */
  lemma {:induction false} ValueIsCalls(run: seq<State>, gs: seq<Signal>, n: nat, s: Sid)
    requires IsRun(run) && |run| == |gs| + 1 && n <= |gs| && s in run[0].sems
    requires forall i :: 0 <= i < |gs| ==> Signals(run[i], run[i + 1], gs[i])
    ensures s in run[n].sems
    ensures (run[n].sems[s].value + multiset(gs[..n])[Took(s)]) % 256
      == (run[0].sems[s].value + multiset(gs[..n])[Gave(s)]) % 256
  {
    hide Signals, IsRun;
    if n > 0 {
      ValueIsCalls(run, gs, n - 1, s);
      ValueStep(run[n - 1], run[n], gs[n - 1], s);
      OneMore(gs, n, Took(s));
      OneMore(gs, n, Gave(s));
      var took, gave := multiset(gs[..n - 1])[Took(s)], multiset(gs[..n - 1])[Gave(s)];
      Congruent(run[0].sems[s].value, run[n - 1].sems[s].value, run[n].sems[s].value, took, gave,
                if gs[n - 1] == Took(s) then 1 else 0, if gs[n - 1] == Gave(s) then 1 else 0);
    }
  }

  lemma OneMore(gs: seq<Signal>, n: nat, g: Signal)
    requires 0 < n <= |gs|
    ensures multiset(gs[..n])[g] == multiset(gs[..n - 1])[g] + if gs[n - 1] == g then 1 else 0
  {
    assert gs[..n] == gs[..n - 1] + [gs[n - 1]];
  }

  lemma Congruent(v0: nat, v: nat, v': nat, took: nat, gave: nat, t: nat, g: nat)
    requires (v' + t) % 256 == (v + g) % 256 && (v + took) % 256 == (v0 + gave) % 256
    ensures (v' + (took + t)) % 256 == (v0 + (gave + g)) % 256
  {
    ModAdd(v' + t, v + g, took);
    ModAdd(v + took, v0 + gave, g);
    assert v' + t + took == v' + (took + t) && v + g + took == v + took + g && v0 + gave + g == v0 + (gave + g);
  }

  lemma ModAdd(x: int, y: int, d: int)
    requires x % 256 == y % 256
    ensures (x + d) % 256 == (y + d) % 256
  {
    assert x + d == y + d + 256 * (x / 256 - y / 256);
  }
}
