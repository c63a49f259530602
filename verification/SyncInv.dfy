/** What every interleaving of the steps of Sync keeps. */
module SyncInv {
  import opened Scheduler
  import opened Sync

  // ---------------------------------------------------------------- threads and queues

  /** A thread's place in the code fits its status. */
  ghost predicate PcFits(k: State, t: Tid)
    requires t in k.pc && t in k.sch.status
  {
    match k.pc[t]
    case Retest(s, _) => s in k.sems && k.sch.status[t] in {Running, Ready, Blocked}
    case Asleep => k.sch.status[t] != Died
    case Dead => k.sch.status[t] == Died
    case _ => Able(k.sch.status[t])
  }

  ghost predicate Waits(k: State, t: Tid, s: Sid) {
    t in k.pc && t in k.sch.status && k.sch.status[t] == Blocked && k.pc[t].Retest? && k.pc[t].s == s
  }

  /** The waiters of a semaphore are exactly the threads blocked in its sema_down, once each. */
  ghost predicate QueueOk(k: State, s: Sid)
    requires s in k.sems
  {
    && NoRepeats(k.sems[s].waiters)
    && forall t :: t in k.sems[s].waiters <==> Waits(k, t, s)
  }

  ghost predicate ThreadsOk(k: State) {
    && Settled(k.sch) && k.pc.Keys == k.sch.status.Keys
    && (forall t :: t in k.pc ==> PcFits(k, t))
    && (forall s :: s in k.sems ==> QueueOk(k, s))
    && k.pc[k.sch.idle] in {Free, Asleep}
  }

  /** thread_unblock and the semaphores never put a thread on two lists. */
  lemma OneListOnly(k: State, t: Tid, s: Sid, r: Sid)
    requires ThreadsOk(k) && s in k.sems && r in k.sems
    ensures !(t in k.sch.ready && t in k.sems[s].waiters)
    ensures t in k.sems[s].waiters && t in k.sems[r].waiters ==> s == r
  {
    assert t in k.sems[s].waiters <==> Waits(k, t, s);
    assert t in k.sems[r].waiters <==> Waits(k, t, r);
  }

  /** No step finds an empty ready list that the idle thread cannot fill. */
  lemma NeverStuck(k: State, why: Status)
    requires ThreadsOk(k) && why !in {Running, Ready} && (k.sch.cur == k.sch.idle ==> why == Blocked)
    ensures CanRun(k)
    ensures !Scheduler.Stuck(k.sch) && !Scheduler.Stuck(GiveUp(k.sch)) && !Scheduler.Stuck(Park(k.sch, why))
  {
    ScheduleWorks(k.sch);
    BlockWorks(k.sch, why);
    YieldWorks(k.sch);
  }

  /** As ThreadsOk, in the middle of a scheduler call. */
  ghost predicate ThreadsMid(k: State) {
    && Entering(k.sch) && k.pc.Keys == k.sch.status.Keys
    && (forall t :: t in k.pc ==> PcFits(k, t))
    && (forall s :: s in k.sems ==> QueueOk(k, s))
    && k.pc[k.sch.idle] in {Free, Asleep}
  }

  /** Scheduling leaves every program counter alone, and so keeps threads and queues in order. */
  lemma SwitchKeeps(m: State, k': State)
    requires ThreadsMid(m) && Settled(k'.sch) && Switched(m.sch, k'.sch) && k' == m.(sch := k'.sch)
    ensures ThreadsOk(k')
    ensures forall s :: Pending(k', s) == Pending(m, s)
  {
    forall t | t in k'.pc ensures PcFits(k', t) {
    }
    forall s | s in k'.sems ensures QueueOk(k', s) {
      forall t ensures Waits(k', t, s) <==> Waits(m, t, s) {
      }
    }
    forall s ensures Pending(k', s) == Pending(m, s) {
      forall t ensures IsPending(k', t, s) <==> IsPending(m, t, s) {
      }
    }
  }

  // ---------------------------------------------------------------- no wakeup is lost

  /** Thread t was woken from semaphore s, or runs in its sema_down, and has still to test. */
  ghost predicate IsPending(k: State, t: Tid, s: Sid) {
    t in k.pc && t in k.sch.status && k.pc[t].Retest? && k.pc[t].s == s && Able(k.sch.status[t])
  }

  ghost function Pending(k: State, s: Sid): set<Tid> {
    set t | t in k.pc && IsPending(k, t, s)
  }

  /** While somebody waits, every unit of the value has a woken thread on its way to it. */
  ghost predicate NoneLost(k: State, s: Sid)
    requires s in k.sems
  {
    k.sems[s].waiters != [] ==> k.sems[s].value <= |Pending(k, s)|
  }

  ghost predicate NoLostWakeup(k: State) {
    forall s :: s in k.sems ==> NoneLost(k, s)
  }

  ghost predicate SemsOk(k: State) {
    ThreadsOk(k) && NoLostWakeup(k)
  }

  // ---------------------------------------------------------------- sema_down

  lemma TestBlocks(k: State, k': State, s: Sid, forLock: bool)
    requires SemsOk(k) && Test(k, k', s, forLock) && k.sems[s].value == 0
    requires k.sch.cur != k.sch.idle && !k.pc[k.sch.cur].Dead?
    requires k.pc[k.sch.cur].Retest? ==> k.pc[k.sch.cur].s == s
    ensures SemsOk(k')
  {
    var t := k.sch.cur;
    var m := k.(sems := k'.sems, pc := k'.pc, sch := Park(k.sch, Blocked));
    hide Settled, Entering, Switched, ThreadsMid, Schedule, Scheduler.Stuck, PcFits, QueueOk;
    BlockWorks(k.sch, Blocked);
    ParkedMid(k, m, s, forLock);
    SwitchKeeps(m, k');
    forall r | r in k'.sems ensures NoneLost(k', r) {
      if r != s {
        forall u ensures IsPending(m, u, r) <==> IsPending(k, u, r) {
        }
        assert Pending(m, r) == Pending(k, r);
        assert NoneLost(k, r);
      }
    }
  }

  lemma ParkedMid(k: State, m: State, s: Sid, forLock: bool)
    requires ThreadsOk(k) && s in k.sems && k.sch.cur != k.sch.idle
    requires m == k.(sems := k.sems[s := k.sems[s].(waiters := k.sems[s].waiters + [k.sch.cur])],
                     pc := k.pc[k.sch.cur := Retest(s, forLock)], sch := Park(k.sch, Blocked))
    requires Entering(m.sch)
    ensures ThreadsMid(m)
  {
    var t := k.sch.cur;
    forall u | u in m.pc ensures PcFits(m, u) {
      assert PcFits(k, u);
    }
    forall r | r in m.sems ensures QueueOk(m, r) {
      assert QueueOk(k, r);
      assert !Waits(k, t, r);
      forall u ensures Waits(m, u, r) <==> Waits(k, u, r) || (u == t && r == s) {
      }
    }
  }

  lemma TestPasses(k: State, k': State, s: Sid, forLock: bool)
    requires SemsOk(k) && Test(k, k', s, forLock) && k.sems[s].value > 0 && k.sch.cur != k.sch.idle
    requires k.pc[k.sch.cur].Retest? ==> k.pc[k.sch.cur].s == s
    ensures SemsOk(k')
  {
    var t := k.sch.cur;
    LocalKeeps(k, k');
    forall r | r in k'.sems ensures NoneLost(k', r) {
      assert NoneLost(k, r);
      forall u ensures IsPending(k', u, r) <==> IsPending(k, u, r) && u != t {
      }
      if k.pc[t].Retest? && r == s {
        assert Pending(k', r) == Pending(k, r) - {t} && t in Pending(k, r);
      } else {
        assert Pending(k', r) == Pending(k, r);
      }
    }
  }

  /** A step of the current thread that touches no queue and no status. */
  lemma LocalKeeps(k: State, k': State)
    requires ThreadsOk(k) && k'.sch == k.sch && k'.sems.Keys == k.sems.Keys
    requires forall s :: s in k.sems ==> k'.sems[s].waiters == k.sems[s].waiters
    requires k.sch.cur in k'.pc && k'.pc == k.pc[k.sch.cur := k'.pc[k.sch.cur]]
    requires var p := k'.pc[k.sch.cur]; !p.Retest? && !p.Dead? && (k.sch.cur == k.sch.idle ==> p in {Free, Asleep})
    ensures ThreadsOk(k')
  {
    forall u | u in k'.pc ensures PcFits(k', u) {
      assert PcFits(k, u);
    }
    forall r | r in k'.sems ensures QueueOk(k', r) {
      assert QueueOk(k, r);
      forall u ensures Waits(k', u, r) <==> Waits(k, u, r) {
      }
    }
  }

  // ---------------------------------------------------------------- sema_up

  lemma UpKeeps(k: State, k': State, s: Sid)
    requires SemsOk(k) && Up(k, k', s) && !k.pc[k.sch.cur].Retest? && !k.pc[k.sch.cur].Dead?
    ensures SemsOk(k')
  {
    hide NoneLost, QueueOk, PcFits, Settled;
    if k.sems[s].waiters == [] {
      LocalKeeps(k, k');
      forall r | r in k'.sems ensures NoneLost(k', r) {
        UpAlone(k, k', s, r);
      }
    } else {
      UpWakes(k, k', s);
      forall r | r in k'.sems ensures NoneLost(k', r) {
        UpOne(k, k', s, r);
      }
    }
  }

  lemma UpAlone(k: State, k': State, s: Sid, r: Sid)
    requires SemsOk(k) && Up(k, k', s) && !k.pc[k.sch.cur].Retest? && k.sems[s].waiters == [] && r in k.sems
    ensures NoneLost(k', r)
  {
    hide QueueOk, PcFits, Settled;
    assert NoneLost(k, r);
    forall u ensures IsPending(k', u, r) <==> IsPending(k, u, r) {
    }
    assert Pending(k', r) == Pending(k, r);
  }

  lemma UpOne(k: State, k': State, s: Sid, r: Sid)
    requires SemsOk(k) && Up(k, k', s) && !k.pc[k.sch.cur].Retest? && k.sems[s].waiters != [] && r in k.sems
    ensures NoneLost(k', r)
  {
    hide PcFits, Settled;
    var w := k.sems[s].waiters[0];
    assert NoneLost(k, r) && QueueOk(k, s);
    assert w in k.sems[s].waiters && Waits(k, w, s);
    forall u ensures IsPending(k', u, r) <==> IsPending(k, u, r) || (u == w && r == s) {
    }
    if r == s {
      assert Pending(k', r) == Pending(k, r) + {w} && w !in Pending(k, r);
    } else {
      assert Pending(k', r) == Pending(k, r);
    }
  }

  lemma UpWakes(k: State, k': State, s: Sid)
    requires ThreadsOk(k) && Up(k, k', s) && !k.pc[k.sch.cur].Retest? && k.sems[s].waiters != []
    ensures ThreadsOk(k')
  {
    hide Settled, Entering, Unblock, QueueOk;
    var w := k.sems[s].waiters[0];
    FirstWaits(k, s);
    SettledEnters(k.sch);
    UnblockKeeps(k.sch, w);
    forall u | u in k'.pc ensures PcFits(k', u) {
      assert PcFits(k, u);
    }
    forall r | r in k'.sems ensures QueueOk(k', r) {
      UpQueue(k, k', s, r);
    }
    UnblockIdle(k.sch, w);
  }

  /** The first waiter is in no queue any more, and everybody else is where they were. */
  lemma UpQueue(k: State, k': State, s: Sid, r: Sid)
    requires ThreadsOk(k) && Up(k, k', s) && !k.pc[k.sch.cur].Retest? && k.sems[s].waiters != [] && r in k.sems
    ensures QueueOk(k', r)
  {
    hide Settled, Entering, PcFits;
    var w := k.sems[s].waiters[0];
    assert QueueOk(k, s) && QueueOk(k, r);
    assert w in k.sems[s].waiters && Waits(k, w, s);
    forall u ensures Waits(k', u, r) <==> Waits(k, u, r) && u != w {
    }
    if r == s {
      TailOf(k.sems[s].waiters);
    }
  }

  lemma TailOf(ws: seq<Tid>)
    requires ws != [] && NoRepeats(ws)
    ensures NoRepeats(ws[1..]) && forall u :: u in ws[1..] <==> u in ws && u != ws[0]
  {
    assert ws == [ws[0]] + ws[1..];
  }

  lemma FirstWaits(k: State, s: Sid)
    requires ThreadsOk(k) && s in k.sems && k.sems[s].waiters != []
    ensures Waits(k, k.sems[s].waiters[0], s)
  {
    hide Settled, PcFits;
    assert QueueOk(k, s) && k.sems[s].waiters[0] in k.sems[s].waiters;
  }

  lemma SettledEnters(c: Sched)
    requires Settled(c)
    ensures Entering(c)
  {
  }

  lemma UnblockIdle(c: Sched, w: Tid)
    requires w in c.status
    ensures Unblock(c, w).idle == c.idle && Unblock(c, w).cur == c.cur
  {
  }

  // ---------------------------------------------------------------- the other steps

  /** Steps that leave semaphores alone and the pending threads as they are. */
  lemma SamePendingKeeps(k: State, k': State)
    requires SemsOk(k) && ThreadsOk(k') && k'.sems == k.sems
    requires forall s :: Pending(k', s) == Pending(k, s)
    ensures SemsOk(k')
  {
    forall s | s in k'.sems ensures NoneLost(k', s) {
      assert NoneLost(k, s);
    }
  }

  lemma OkIsMid(k: State)
    requires ThreadsOk(k)
    ensures ThreadsMid(k)
  {
  }

  lemma TickKeeps(k: State, k': State)
    requires SemsOk(k) && Tick(k, k')
    ensures SemsOk(k')
  {
    hide NoLostWakeup, Pending, Switched;
    OkIsMid(k);
    ScheduleWorks(k.sch);
    SwitchKeeps(k, k');
    SamePendingKeeps(k, k');
  }

  lemma YieldKeeps(k: State, k': State)
    requires SemsOk(k) && Yield(k, k')
    ensures SemsOk(k')
  {
    hide NoLostWakeup, Pending, Switched, QueueOk, Schedule;
    var m := k.(sch := GiveUp(k.sch));
    YieldWorks(k.sch);
    MovedMid(k, m, k.sch.cur);
    SwitchKeeps(m, k');
    SamePendingKeeps(k, k');
  }

  /** Changing the status of one thread that is in no sema_down. */
  lemma MovedMid(k: State, m: State, u: Tid)
    requires ThreadsOk(k) && u in k.pc && m.sems == k.sems && Entering(m.sch) && m.sch.idle == k.sch.idle
    requires m.pc == k.pc || (u in m.pc && m.pc == k.pc[u := m.pc[u]])
    requires u in m.sch.status && m.sch.status == k.sch.status[u := m.sch.status[u]]
    requires u in m.pc && !k.pc[u].Retest? && !m.pc[u].Retest? && PcFits(m, u)
    requires u == k.sch.idle ==> m.pc[u] in {Free, Asleep}
    ensures ThreadsMid(m)
    ensures forall s :: Pending(m, s) == Pending(k, s)
  {
    hide Entering, NoRepeats, Settled;
    forall v | v in m.pc ensures PcFits(m, v) {
      assert PcFits(k, v);
    }
    forall r | r in m.sems ensures QueueOk(m, r) {
      assert QueueOk(k, r);
      MovedWaits(k, m, u, r);
    }
    MovedPending(k, m, u);
  }

  lemma MovedWaits(k: State, m: State, u: Tid, r: Sid)
    requires u in k.pc && u in m.pc && !k.pc[u].Retest? && !m.pc[u].Retest?
    requires m.pc == k.pc || m.pc == k.pc[u := m.pc[u]]
    requires u in k.sch.status && u in m.sch.status && m.sch.status == k.sch.status[u := m.sch.status[u]]
    ensures forall v :: Waits(m, v, r) <==> Waits(k, v, r)
  {
  }

  lemma MovedPending(k: State, m: State, u: Tid)
    requires u in k.pc && u in m.pc && !k.pc[u].Retest? && !m.pc[u].Retest?
    requires m.pc == k.pc || m.pc == k.pc[u := m.pc[u]]
    requires u in k.sch.status && u in m.sch.status && m.sch.status == k.sch.status[u := m.sch.status[u]]
    ensures forall s :: Pending(m, s) == Pending(k, s)
  {
    forall s ensures Pending(m, s) == Pending(k, s) {
      forall v ensures IsPending(m, v, s) <==> IsPending(k, v, s) {
      }
    }
  }

  lemma SleepKeeps(k: State, k': State, why: Status)
    requires SemsOk(k) && Sleep(k, k', why)
    ensures SemsOk(k')
  {
    hide NoLostWakeup, Pending, Switched, QueueOk, Schedule;
    var m := k.(sch := Park(k.sch, why), pc := k'.pc);
    BlockWorks(k.sch, why);
    MovedMid(k, m, k.sch.cur);
    SwitchKeeps(m, k');
    SamePendingKeeps(k, k');
  }

  lemma ExitKeeps(k: State, k': State)
    requires SemsOk(k) && Exit(k, k')
    ensures SemsOk(k')
  {
    hide NoLostWakeup, Pending, Switched, QueueOk, Schedule;
    var m := k.(sch := Park(k.sch, Died), pc := k'.pc);
    BlockWorks(k.sch, Died);
    MovedMid(k, m, k.sch.cur);
    SwitchKeeps(m, k');
    SamePendingKeeps(k, k');
  }

  lemma MidIsOk(k: State)
    requires ThreadsMid(k) && Settled(k.sch)
    ensures ThreadsOk(k)
  {
  }

  lemma WakeKeeps(k: State, k': State, u: Tid)
    requires SemsOk(k) && Wake(k, k', u)
    ensures SemsOk(k')
  {
    UnblockKeeps(k.sch, u);
    MovedMid(k, k', u);
    MidIsOk(k');
    SamePendingKeeps(k, k');
  }

  lemma ResumeKeeps(k: State, k': State)
    requires SemsOk(k) && Resume(k, k')
    ensures SemsOk(k')
  {
    assert k'.sch.status == k.sch.status[k.sch.cur := Running];
    MovedMid(k, k', k.sch.cur);
    MidIsOk(k');
    SamePendingKeeps(k, k');
  }

  lemma ReapKeeps(k: State, k': State, u: Tid)
    requires SemsOk(k) && Reap(k, k', u)
    ensures SemsOk(k')
  {
    MovedMid(k, k', u);
    MidIsOk(k');
    SamePendingKeeps(k, k');
  }

  lemma SpawnKeeps(k: State, k': State, u: Tid)
    requires SemsOk(k) && Spawn(k, k', u)
    ensures SemsOk(k')
  {
    assert u !in k.sch.ready;
    forall v | v in k'.pc ensures PcFits(k', v) {
      assert v in k.pc ==> PcFits(k, v);
    }
    forall r | r in k'.sems ensures QueueOk(k', r) {
      assert QueueOk(k, r);
      forall v ensures Waits(k', v, r) <==> Waits(k, v, r) {
      }
    }
    forall s ensures Pending(k', s) == Pending(k, s) {
      forall v ensures IsPending(k', v, s) <==> IsPending(k, v, s) {
      }
    }
    SamePendingKeeps(k, k');
  }

  /** Steps of lock_acquire and lock_release outside their semaphore. */
  lemma LockStepKeepsSems(k: State, k': State, l: Sid)
    requires SemsOk(k) && LockStep(k, k', l)
    requires k.sch.cur == k.sch.idle ==> Depth(k, k.sch.cur, l) == 0
    ensures SemsOk(k')
  {
    hide ThreadsOk, NoLostWakeup, Pending;
    LockStepLocal(k, k', l);
    LocalKeeps(k, k');
    forall s ensures Pending(k', s) == Pending(k, s) {
      SamePending(k, k', s);
    }
    SamePendingKeeps(k, k');
  }

  /** An assignment of the lock code moves only the current thread, and not into or out of a wait. */
  lemma LockStepLocal(k: State, k': State, l: Sid)
    requires ThreadsOk(k) && LockStep(k, k', l)
    requires k.sch.cur == k.sch.idle ==> Depth(k, k.sch.cur, l) == 0
    ensures k'.sch == k.sch && k'.sems == k.sems && k.sch.cur in k'.pc && k'.pc == k.pc[k.sch.cur := k'.pc[k.sch.cur]]
    ensures !k.pc[k.sch.cur].Retest?
    ensures var p := k'.pc[k.sch.cur]; !p.Retest? && !p.Dead? && (k.sch.cur == k.sch.idle ==> p in {Free, Asleep})
  {
    hide QueueOk, PcFits, Settled;
  }

  lemma SamePending(k: State, k': State, s: Sid)
    requires k.sch.cur in k.pc && k.sch.cur in k'.pc && k'.sch == k.sch && k'.pc == k.pc[k.sch.cur := k'.pc[k.sch.cur]]
    requires !k.pc[k.sch.cur].Retest? && !k'.pc[k.sch.cur].Retest?
    ensures Pending(k', s) == Pending(k, s)
  {
    forall v ensures IsPending(k', v, s) <==> IsPending(k, v, s) {
    }
  }
}
